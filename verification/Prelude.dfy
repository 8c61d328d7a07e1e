/** Result types and sequence facts shared by the models. */
module Wrappers {
  datatype Option<+T> = None | Some(value: T) {
    predicate IsFailure() {
      None?
    }

    function PropagateFailure<U>(): Option<U>
      requires None?
    {
      None
    }

    function Extract(): T
      requires Some?
    {
      value
    }
  }

  /** A source exception is an `Err`; callers of the source only ever tell success from failure. */
  datatype Result<+T, +E> = Ok(value: T) | Err(error: E)
}

/** Sums over sequences, and the stable sort behind Python's `sorted`. */
module Sequences {

  function Max(a: int, b: int): int {
    if a < b then b else a
  }

  function Min(a: int, b: int): int {
    if a < b then a else b
  }

  /** Python's order on strings: by the first differing code point, then by length. */
  predicate StringLe(a: string, b: string) {
    if a == "" then true
    else if b == "" then false
    else if a[0] != b[0] then a[0] < b[0]
    else StringLe(a[1..], b[1..])
  }

  /** The order of a dictionary: a proper prefix comes first, otherwise the first difference decides. */
  ghost predicate Precedes(a: string, b: string) {
    || (|a| <= |b| && a == b[..|a|])
    || exists k :: 0 <= k < |a| && k < |b| && a[..k] == b[..k] && a[k] < b[k]
  }

  lemma {:induction false} StringLeMeans(a: string, b: string)
    ensures StringLe(a, b) <==> Precedes(a, b)
    decreases |a|
  {
    if a != "" && b != "" {
      if a[0] != b[0] {
        assert a[0] < b[0] ==> a[..0] == b[..0];
      } else {
        var c, d := a[1..], b[1..];
        StringLeMeans(c, d);
        forall k | 0 < k <= |a| && k <= |b| ensures a[..k] == b[..k] <==> c[..k - 1] == d[..k - 1] {
          assert a[..k] == [a[0]] + c[..k - 1] && b[..k] == [b[0]] + d[..k - 1];
        }
        if k :| 0 <= k < |a| && k < |b| && a[..k] == b[..k] && a[k] < b[k] {
          assert c[..k - 1] == d[..k - 1] && c[k - 1] < d[k - 1];
        }
        if k :| 0 <= k < |c| && k < |d| && c[..k] == d[..k] && c[k] < d[k] {
          assert a[..k + 1] == b[..k + 1] && a[k + 1] < b[k + 1];
        }
        assert a[..|a|] == a && c[..|c|] == c;
      }
    }
  }

  lemma {:induction false} StringLeOrder(a: string, b: string, c: string)
    ensures StringLe(a, b) || StringLe(b, a)
    ensures StringLe(a, b) && StringLe(b, a) ==> a == b
    ensures StringLe(a, b) && StringLe(b, c) ==> StringLe(a, c)
    decreases |a|
  {
    if a != "" && b != "" {
      StringLeOrder(a[1..], b[1..], if c == "" then "" else c[1..]);
      assert a == [a[0]] + a[1..] && b == [b[0]] + b[1..];
    }
  }

  /** The order of strings is total: sorting by it sorts. */
  lemma StringLeTotal()
    ensures TotalOrder(StringLe)
  {
    forall a, b ensures (StringLe(a, b) || StringLe(b, a)) && (StringLe(a, b) && StringLe(b, a) ==> a == b) { StringLeOrder(a, b, ""); }
    forall a, b, c ensures StringLe(a, b) && StringLe(b, c) ==> StringLe(a, c) { StringLeOrder(a, b, c); }
  }

  lemma SubsetSize<T>(a: set<T>, b: set<T>)
    requires a <= b
    ensures |a| <= |b|
  {
    assert b == a + (b - a) && a !! (b - a);
  }

  function Map<T, U>(f: T -> U, s: seq<T>): (r: seq<U>)
    ensures |r| == |s|
    ensures forall i | 0 <= i < |s| :: r[i] == f(s[i])
  {
    if s == [] then [] else [f(s[0])] + Map(f, s[1..])
  }

  function Flatten<T>(ss: seq<seq<T>>): seq<T> {
    if ss == [] then [] else ss[0] + Flatten(ss[1..])
  }

  lemma {:induction false} InFlatten<T>(ss: seq<seq<T>>, x: T)
    ensures x in Flatten(ss) <==> exists i :: 0 <= i < |ss| && x in ss[i]
  {
    if ss != [] {
      InFlatten(ss[1..], x);
      if exists i :: 0 <= i < |ss| && x in ss[i] {
        var i :| 0 <= i < |ss| && x in ss[i];
        if i > 0 {
          assert ss[1..][i - 1] == ss[i];
        }
      }
    }
  }

  lemma DisjointSets<T(!new)>(a: set<T>, b: set<T>)
    ensures a * b == {} <==> b !! a
  {
    assert forall x :: x in a * b <==> x in a && x in b;
  }

  // ---------------------------------------------------------------- sums

  function Sum<T>(f: T -> int, s: seq<T>): int {
    if s == [] then 0 else f(s[0]) + Sum(f, s[1..])
  }

  lemma {:induction false} SumAppend<T>(f: T -> int, a: seq<T>, b: seq<T>)
    ensures Sum(f, a + b) == Sum(f, a) + Sum(f, b)
  {
    if a == [] {
      assert a + b == b;
    } else {
      SumAppend(f, a[1..], b);
      assert (a + b)[1..] == a[1..] + b;
    }
  }

  lemma SumSnoc<T>(f: T -> int, a: seq<T>, x: T)
    ensures Sum(f, a + [x]) == Sum(f, a) + f(x)
  {
    SumAppend(f, a, [x]);
  }

  function Without<T>(s: seq<T>, j: nat): seq<T>
    requires j < |s|
  {
    s[..j] + s[j + 1..]
  }

  lemma WithoutFirst<T>(s: seq<T>)
    requires s != []
    ensures Without(s, 0) == s[1..]
  {}

  lemma MultisetWithout<T>(s: seq<T>, j: nat)
    requires j < |s|
    ensures multiset(Without(s, j)) == multiset(s) - multiset{s[j]}
  {
    assert s == s[..j] + ([s[j]] + s[j + 1..]);
  }

  lemma SumWithout<T>(f: T -> int, s: seq<T>, j: nat)
    requires j < |s|
    ensures Sum(f, s) == f(s[j]) + Sum(f, Without(s, j))
  {
    assert s == s[..j] + ([s[j]] + s[j + 1..]);
    SumAppend(f, s[..j], [s[j]] + s[j + 1..]);
    SumAppend(f, s[..j], s[j + 1..]);
  }

  /** A sum does not depend on the order in which it is taken. */
  lemma {:induction false} SumPermutation<T>(f: T -> int, a: seq<T>, b: seq<T>)
    requires multiset(a) == multiset(b)
    ensures Sum(f, a) == Sum(f, b)
  {
    hide Without;
    if a == [] {
      assert |b| == |multiset(b)| == 0;
    } else {
      assert a[0] in multiset(b);
      var j :| 0 <= j < |b| && b[j] == a[0];
      WithoutFirst(a);
      MultisetWithout(a, 0);
      MultisetWithout(b, j);
      SumWithout(f, b, j);
      SumPermutation(f, a[1..], Without(b, j));
    }
  }

  function CountOf<T, U(==)>(f: T -> U, y: U): T -> int {
    (x: T) => if f(x) == y then 1 else 0
  }

  lemma {:induction false} MapCount<T, U>(f: T -> U, s: seq<T>, y: U)
    ensures multiset(Map(f, s))[y] == Sum(CountOf(f, y), s)
  {
    if s != [] {
      MapCount(f, s[1..], y);
      assert Map(f, s) == [f(s[0])] + Map(f, s[1..]);
    }
  }

  lemma MapPermutation<T, U(!new)>(f: T -> U, a: seq<T>, b: seq<T>)
    requires multiset(a) == multiset(b)
    ensures multiset(Map(f, a)) == multiset(Map(f, b))
  {
    forall y: U ensures multiset(Map(f, a))[y] == multiset(Map(f, b))[y] {
      MapCount(f, a, y);
      MapCount(f, b, y);
      SumPermutation(CountOf(f, y), a, b);
    }
  }

  lemma {:induction false} SumPointwise<T>(f: T -> int, g: T -> int, h: T -> int, s: seq<T>)
    requires forall x | x in s :: h(x) == f(x) + g(x)
    ensures Sum(h, s) == Sum(f, s) + Sum(g, s)
  {
    if s != [] {
      SumPointwise(f, g, h, s[1..]);
    }
  }

  lemma {:induction false} SumAtMost<T>(f: T -> int, g: T -> int, s: seq<T>)
    requires forall x | x in s :: f(x) <= g(x)
    ensures Sum(f, s) <= Sum(g, s)
  {
    if s != [] {
      SumAtMost(f, g, s[1..]);
    }
  }

  // ------------------------------------------------------------- sorting

  ghost predicate Ranks<T(!new)>(le: (T, T) -> bool) {
    && (forall a, b :: le(a, b) || le(b, a))
    && (forall a, b, c :: le(a, b) && le(b, c) ==> le(a, c))
  }

  ghost predicate TotalOrder<T(!new)>(le: (T, T) -> bool) {
    Ranks(le) && forall a, b :: le(a, b) && le(b, a) ==> a == b
  }

  ghost predicate Sorted<T>(le: (T, T) -> bool, s: seq<T>) {
    forall i, j | 0 <= i < j < |s| :: le(s[i], s[j])
  }

  function Insert<T>(le: (T, T) -> bool, x: T, s: seq<T>): (r: seq<T>)
    ensures multiset(r) == multiset(s) + multiset{x}
  {
    if s == [] then [x]
    else if le(x, s[0]) then [x] + s
    else
      assert s == [s[0]] + s[1..];
      [s[0]] + Insert(le, x, s[1..])
  }

  function Sort<T>(le: (T, T) -> bool, s: seq<T>): (r: seq<T>)
    ensures multiset(r) == multiset(s)
  {
    if s == [] then [] else
      assert s == [s[0]] + s[1..];
      Insert(le, s[0], Sort(le, s[1..]))
  }

  lemma {:induction false} InsertSorted<T(!new)>(le: (T, T) -> bool, x: T, s: seq<T>)
    requires Ranks(le) && Sorted(le, s)
    ensures Sorted(le, Insert(le, x, s))
  {
    if s != [] && !le(x, s[0]) {
      InsertSorted(le, x, s[1..]);
      var r := Insert(le, x, s[1..]);
      forall y | y in r ensures le(s[0], y) {
        assert y in multiset(r);
        if y != x {
          assert y in multiset(s[1..]);
          var k :| 0 <= k < |s[1..]| && s[1..][k] == y;
          assert le(s[0], s[k + 1]);
        }
      }
    }
  }

  lemma {:induction false} SortSorted<T(!new)>(le: (T, T) -> bool, s: seq<T>)
    requires Ranks(le)
    ensures Sorted(le, Sort(le, s))
  {
    if s != [] {
      SortSorted(le, s[1..]);
      InsertSorted(le, s[0], Sort(le, s[1..]));
    }
  }

  lemma MultisetMembers<T(!new)>(a: seq<T>, b: seq<T>)
    requires multiset(a) == multiset(b)
    ensures |a| == |b|
    ensures forall x :: x in a <==> x in b
  {
    assert |multiset(a)| == |a| && |multiset(b)| == |b|;
    forall x ensures x in a <==> x in b {
      assert x in a <==> x in multiset(a);
      assert x in b <==> x in multiset(b);
    }
  }

  ghost predicate Distinct<T>(s: seq<T>) {
    forall i, j | 0 <= i < j < |s| :: s[i] != s[j]
  }

  lemma {:induction false} DistinctByCount<T(!new)>(s: seq<T>)
    ensures Distinct(s) <==> forall x :: multiset(s)[x] <= 1
  {
    if s != [] {
      var t := s[1..];
      assert s == [s[0]] + t;
      DistinctByCount(t);
      if Distinct(s) {
        assert Distinct(t) by {
          forall i, j | 0 <= i < j < |t| ensures t[i] != t[j] { assert s[i + 1] != s[j + 1]; }
        }
        assert s[0] !in t;
        assert multiset(t)[s[0]] == 0;
      } else {
        var i, j :| 0 <= i < j < |s| && s[i] == s[j];
        if i == 0 {
          assert s[j] == t[j - 1];
          assert s[0] in multiset(t);
          assert multiset(s)[s[0]] >= 2;
        } else {
          assert t[i - 1] == t[j - 1];
          assert !Distinct(t);
          var x :| multiset(t)[x] > 1;
          assert multiset(s)[x] > 1;
        }
      }
    }
  }

  lemma DistinctPermutation<T(!new)>(a: seq<T>, b: seq<T>)
    requires multiset(a) == multiset(b)
    ensures Distinct(a) <==> Distinct(b)
  {
    DistinctByCount(a);
    DistinctByCount(b);
  }

  // ------------------------------------------------ chains, checked as they grow

  function Keys<T, K(!new)>(key: T -> set<K>, s: seq<T>): set<K> {
    if s == [] then {} else Keys(key, s[..|s| - 1]) + key(s[|s| - 1])
  }

  /** Each element is good, neighbours are in order, and no two elements share a key. */
  ghost predicate Chained<T, K(!new)>(each: T -> bool, next: (T, T) -> bool, key: T -> set<K>, s: seq<T>) {
    && (forall i | 0 <= i < |s| :: each(s[i]))
    && (forall i | 0 <= i < |s| - 1 :: next(s[i], s[i + 1]))
    && (forall i, j | 0 <= i < j < |s| :: key(s[i]) !! key(s[j]))
  }

  lemma {:induction false} KeysMembers<T, K(!new)>(key: T -> set<K>, s: seq<T>)
    ensures forall i | 0 <= i < |s| :: key(s[i]) <= Keys(key, s)
    ensures forall k | k in Keys(key, s) :: exists i :: 0 <= i < |s| && k in key(s[i])
  {
    if s != [] {
      var init := s[..|s| - 1];
      KeysMembers(key, init);
      forall k | k in Keys(key, s) ensures exists i :: 0 <= i < |s| && k in key(s[i]) {
        if k !in key(s[|s| - 1]) {
          assert k in Keys(key, init);
          var i :| 0 <= i < |init| && k in key(init[i]);
          assert k in key(s[i]);
        }
      }
    }
  }

  /** Checking a new element against the last one and the keys so far checks the whole chain. */
  lemma ChainedSnoc<T, K(!new)>(each: T -> bool, next: (T, T) -> bool, key: T -> set<K>, s: seq<T>, t: T)
    requires Chained(each, next, key, s)
    ensures Chained(each, next, key, s + [t]) <==>
              each(t) && (s != [] ==> next(s[|s| - 1], t)) && key(t) !! Keys(key, s)
  {
    var r := s + [t];
    KeysMembers(key, s);
    assert r[|s|] == t;
    if Chained(each, next, key, r) {
      if s != [] {
        assert next(r[|s| - 1], r[|s| - 1 + 1]);
      }
      forall k | k in Keys(key, s) ensures k !in key(t) {
        var i :| 0 <= i < |s| && k in key(s[i]);
        assert key(r[i]) !! key(r[|s|]);
      }
    }
    if each(t) && (s != [] ==> next(s[|s| - 1], t)) && key(t) !! Keys(key, s) {
      forall i | 0 <= i < |r| - 1 ensures next(r[i], r[i + 1]) {
        if i < |s| - 1 {
          assert next(s[i], s[i + 1]);
        }
      }
      forall i, j | 0 <= i < j < |r| ensures key(r[i]) !! key(r[j]) {
        assert r[i] == s[i];
        if j < |s| {
          assert r[j] == s[j];
        }
      }
    }
  }

  lemma ChainedPrefix<T, K(!new)>(each: T -> bool, next: (T, T) -> bool, key: T -> set<K>, s: seq<T>, k: nat)
    requires Chained(each, next, key, s) && k <= |s|
    ensures Chained(each, next, key, s[..k])
  {
    var r := s[..k];
    forall i | 0 <= i < |r| - 1 ensures next(r[i], r[i + 1]) {
      assert next(s[i], s[i + 1]);
    }
  }
}
