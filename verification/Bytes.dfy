/** Byte strings. */
module Bytes {
  type byte = b: int | 0 <= b < 256

  type Bytes = seq<byte>

  function Ascii(s: string): (r: Bytes)
    ensures |r| == |s|
  {
    seq(|s|, i requires 0 <= i < |s| => s[i] as int % 256)
  }

  function Zeros(n: nat): (r: Bytes)
    ensures |r| == n && forall i | 0 <= i < n :: r[i] == 0
  {
    seq(n, i => 0)
  }

  /** Python's `not any(s)`. */
  predicate AllZero(s: Bytes) {
    forall i | 0 <= i < |s| :: s[i] == 0
  }

  lemma AllZeroIsZeros(s: Bytes)
    requires AllZero(s)
    ensures s == Zeros(|s|)
  {}

  lemma SliceJoin(s: Bytes, i: nat, j: nat)
    requires i <= j <= |s|
    ensures s[i..] == s[i..j] + s[j..]
  {}

  lemma SliceThree(s: Bytes, i: nat, j: nat, k: nat, l: nat)
    requires i <= j <= k <= l <= |s|
    ensures s[i..l] == s[i..j] + s[j..k] + s[k..l]
  {}

  lemma TailSlice(s: Bytes, end: nat, i: nat, j: nat)
    requires i <= j && end + j <= |s|
    ensures s[end..][i..j] == s[end + i..end + j]
    ensures s[end..][j..] == s[end + j..]
  {}

  lemma SliceOfSlice(s: Bytes, a: nat, b: nat, i: nat, j: nat)
    requires a <= b <= |s| && i <= j && a + j <= b
    ensures s[a..b][i..j] == s[a + i..a + j]
  {
    var x, y := s[a..b][i..j], s[a + i..a + j];
    assert |x| == |y|;
    forall k | 0 <= k < |x| ensures x[k] == y[k] {
      assert x[k] == s[a..b][i + k];
    }
  }

  lemma FourParts(a: Bytes, b: Bytes, c: Bytes, d: Bytes)
    ensures var s := a + b + c + d; var i, j := |a| + |b|, |a| + |b| + |c|;
            s[0..|a|] == a && s[|a|..i] == b && s[i..j] == c && s[j..] == d
  {}

  lemma JoinAssociates(a: Bytes, b: Bytes, c: Bytes)
    ensures (a + b) + c == a + (b + c)
  {}

  predicate NoNul(s: Bytes) {
    forall i | 0 <= i < |s| :: s[i] != 0
  }

  /** The text before the first NUL, or all of it. */
  function UpToNul(s: Bytes): (r: Bytes)
    ensures NoNul(r) && |r| <= |s| && r == s[..|r|]
    ensures |r| < |s| ==> s[|r|] == 0
  {
    if s == [] || s[0] == 0 then [] else [s[0]] + UpToNul(s[1..])
  }

  lemma {:induction false} UpToNulStops(text: Bytes, rest: Bytes)
    requires NoNul(text) && (rest == [] || rest[0] == 0)
    ensures UpToNul(text + rest) == text
  {
    if text == [] {
      assert text + rest == rest;
    } else {
      UpToNulStops(text[1..], rest);
      assert (text + rest)[1..] == text[1..] + rest;
    }
  }

  function SumBytes(s: Bytes): (r: nat)
    ensures r <= 255 * |s|
  {
    if s == [] then 0 else s[0] + SumBytes(s[1..])
  }
}
