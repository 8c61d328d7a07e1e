/** What the headers of the release archive are, byte for byte, as the ustar interchange format lays them out. */
module HeaderBytes {
  import opened Wrappers
  import opened Bytes
  import opened Ustar
  import opened Archive

  /** The number that `k` octal digits from byte `at` on stand for. */
  function Octal(b: Bytes, at: nat, k: nat): int
    requires at + k <= |b|
  {
    if k == 0 then 0 else 8 * Octal(b, at, k - 1) + (b[at + k - 1] - '0' as int)
  }

  predicate AreOctal(b: Bytes, at: nat, k: nat)
    requires at + k <= |b|
  {
    forall i | at <= i < at + k :: '0' as int <= b[i] <= '7' as int
  }

  /** A number field: its digits, then a NUL. */
  predicate Holds(b: Bytes, at: nat, digits: nat, n: int)
    requires at + digits < |b|
  {
    AreOctal(b, at, digits) && Octal(b, at, digits) == n && b[at + digits] == 0
  }

  predicate ZerosIn(b: Bytes, from: nat, to: nat)
    requires to <= |b|
  {
    forall i | from <= i < to :: b[i] == 0
  }

  /** A text field: the text, filled up with NULs. */
  predicate ShowsText(b: Bytes, from: nat, to: nat, text: Bytes)
    requires from <= to <= |b|
  {
    from + |text| <= to && b[from..from + |text|] == text && ZerosIn(b, from + |text|, to)
  }

  function ByteTotal(b: Bytes): int {
    if b == [] then 0 else ByteTotal(b[..|b| - 1]) + b[|b| - 1]
  }

  /**
    The header of a regular file that belongs to root and carries no time: name, mode, owner, group, size,
    time, checksum, type, link name, magic and version, owner names, device, prefix.
  */
  ghost predicate HeaderShown(b: Bytes, root: Bytes, m: Member, size: nat) {
    && |b| == 512
    && (exists prefix: Bytes, name: Bytes :: PathShown(b, root + [47] + Ascii(FileNameOf(m)), prefix, name))
    && Holds(b, 100, 7, if m == Boxferry then 7 * 64 + 5 * 8 + 5 else 6 * 64 + 4 * 8 + 4)
    && Holds(b, 108, 7, 0) && Holds(b, 116, 7, 0) && Holds(b, 124, 11, size) && Holds(b, 136, 11, 0)
    && AreOctal(b, 148, 6) && b[154] == 0 && b[155] == 32
    && Octal(b, 148, 6) == ByteTotal(b[..148]) + 8 * 32 + ByteTotal(b[156..])
    && b[156] == '0' as int
    && ZerosIn(b, 157, 257)
    && b[257..265] == [117, 115, 116, 97, 114, 0, 48, 48]
    && ZerosIn(b, 265, 345) && ZerosIn(b, 500, 512)
  }

  function FileNameOf(m: Member): string {
    match m
    case Boxferry => "boxferry"
    case License => "LICENSE"
    case Readme => "README.md"
    case BuildInfo => "BUILD-INFO.json"
  }

  /** The path is the name field alone, or the prefix field, a slash and the name field. */
  predicate PathShown(b: Bytes, path: Bytes, prefix: Bytes, name: Bytes) {
    && |b| == 512 && ShowsText(b, 0, 100, name) && ShowsText(b, 345, 500, prefix)
    && path == if prefix == [] then name else prefix + [47] + name
  }

  lemma {:induction false} TotalCons(x: byte, b: Bytes)
    ensures ByteTotal([x] + b) == x + ByteTotal(b)
  {
    var s := [x] + b;
    if b == [] {
      assert s == [x];
      assert ByteTotal([x]) == ByteTotal([x][..0]) + x;
      assert [x][..0] == [];
    } else {
      TotalCons(x, b[..|b| - 1]);
      assert s[..|s| - 1] == [x] + b[..|b| - 1];
      assert s[|s| - 1] == b[|b| - 1];
    }
  }

  lemma {:induction false} SumIsTotal(b: Bytes)
    ensures SumBytes(b) == ByteTotal(b)
  {
    if b != [] {
      SumIsTotal(b[1..]);
      TotalCons(b[0], b[1..]);
      assert b == [b[0]] + b[1..];
    }
  }

  lemma {:induction false} TotalAppend(a: Bytes, b: Bytes)
    ensures ByteTotal(a + b) == ByteTotal(a) + ByteTotal(b)
  {
    if b == [] {
      assert a + b == a;
    } else {
      TotalAppend(a, b[..|b| - 1]);
      var s := a + b;
      assert s[..|s| - 1] == a + b[..|b| - 1];
      assert s[|s| - 1] == b[|b| - 1];
    }
  }

  /** The digits of a number, found anywhere, stand for it. */
  lemma {:induction false} DigitsShown(n: nat, k: nat, b: Bytes, at: nat)
    requires n < Power8(k) && at + k <= |b| && b[at..at + k] == Digits(n, k)
    ensures AreOctal(b, at, k) && Octal(b, at, k) == n
  {
    var d := Digits(n, k);
    forall i | at <= i < at + k ensures b[i] == d[i - at] {
      assert b[at..at + k][i - at] == b[i];
    }
    if k > 0 {
      assert b[at..at + k - 1] == d[..k - 1] == Digits(n / 8, k - 1);
      DigitsShown(n / 8, k - 1, b, at);
    }
  }

  lemma FieldShown(n: nat, digits: nat, b: Bytes, at: nat)
    requires at + digits < |b| && NumberField(n, digits + 1) == Some(b[at..at + digits + 1])
    ensures Holds(b, at, digits, n)
  {
    var f := b[at..at + digits + 1];
    assert f == Digits(n, digits) + [0];
    assert b[at..at + digits] == f[..digits] == Digits(n, digits);
    assert b[at + digits] == f[digits];
    DigitsShown(n, digits, b, at);
  }

  lemma TextShown(text: Bytes, b: Bytes, from: nat, to: nat)
    requires from <= to <= |b| && |text| <= to - from && b[from..to] == TextField(text, to - from)
    ensures ShowsText(b, from, to, text)
  {
    var f := b[from..to];
    assert f[..|text|] == text;
    assert b[from..from + |text|] == f[..|text|];
    forall i | from + |text| <= i < to ensures b[i] == 0 {
      assert b[i] == f[i - from];
    }
  }

  lemma ZerosShown(b: Bytes, from: nat, to: nat)
    requires from <= to <= |b| && b[from..to] == Zeros(to - from)
    ensures ZerosIn(b, from, to)
  {
    forall i | from <= i < to ensures b[i] == 0 {
      assert b[i] == b[from..to][i - from];
    }
  }

  /** Where the fields lie in a block. */
  lemma FieldsAt(r: Raw, b: Bytes)
    requires WellSized(r) && b == Join(r)
    ensures b[0..100] == r.name && b[100..108] == r.mode && b[108..116] == r.uid && b[116..124] == r.gid
    ensures b[124..136] == r.size && b[136..148] == r.mtime && b[148..156] == r.checksum && b[156] == r.kind
    ensures b[157..257] == r.linkname && b[257..265] == r.magic && b[265..297] == r.uname && b[297..329] == r.gname
    ensures b[329..345] == r.devices && b[345..500] == r.prefix && b[500..512] == r.unused
  {
    SplitJoin(r);
    var s := Split(b);
    FrontAt(b);
    BackAt(b);
    hide Join;
  }

  lemma FrontAt(b: Bytes)
    requires |b| == BLOCK
    ensures var s := Split(b);
      && s.name == b[0..100] && s.mode == b[100..108] && s.uid == b[108..116] && s.gid == b[116..124]
      && s.size == b[124..136] && s.mtime == b[136..148] && s.checksum == b[148..156] && s.kind == b[156]
  {
    assert b[..157] == b[0..157];
    SliceOfSlice(b, 0, 157, 0, 100); SliceOfSlice(b, 0, 157, 100, 108); SliceOfSlice(b, 0, 157, 108, 116);
    SliceOfSlice(b, 0, 157, 116, 124); SliceOfSlice(b, 0, 157, 124, 136); SliceOfSlice(b, 0, 157, 136, 148);
    SliceOfSlice(b, 0, 157, 148, 156);
  }

  lemma BackAt(b: Bytes)
    requires |b| == BLOCK
    ensures var s := Split(b);
      && s.linkname == b[157..257] && s.magic == b[257..265] && s.uname == b[265..297] && s.gname == b[297..329]
      && s.devices == b[329..345] && s.prefix == b[345..500] && s.unused == b[500..512]
  {
    assert b[157..] == b[157..512];
    SliceOfSlice(b, 157, 512, 0, 100); SliceOfSlice(b, 157, 512, 100, 108); SliceOfSlice(b, 157, 512, 108, 140);
    SliceOfSlice(b, 157, 512, 140, 172); SliceOfSlice(b, 157, 512, 172, 188); SliceOfSlice(b, 157, 512, 188, 343);
    SliceOfSlice(b, 157, 512, 343, 355);
  }

  /** The checksum is the sum of the bytes around its own field, which counts as eight spaces. */
  lemma ChecksumShown(r: Raw, b: Bytes)
    requires WellSized(r) && b == Join(Sealed(r))
    ensures AreOctal(b, 148, 6) && b[154] == 0 && b[155] == 32
    ensures Octal(b, 148, 6) == ByteTotal(b[..148]) + 8 * 32 + ByteTotal(b[156..])
  {
    var spaced := r.(checksum := SPACES);
    var c := Join(spaced);
    SpacesCount(spaced, c);
    SumIsTotal(c);
    SameAround(Sealed(r), spaced, b, c);
    FieldsAt(Sealed(r), b);
    SealDigits(r, b);
  }

  lemma SealDigits(r: Raw, b: Bytes)
    requires WellSized(r) && |b| == 512 && b[148..156] == Sealed(r).checksum
    ensures AreOctal(b, 148, 6) && b[154] == 0 && b[155] == 32 && Octal(b, 148, 6) == Checksum(r)
  {
    hide Checksum, Power8;
    var f := b[148..156];
    assert f == Digits(Checksum(r), 6) + ([0] + [32]);
    assert b[148..154] == f[..6] == Digits(Checksum(r), 6);
    assert b[154] == f[6] && b[155] == f[7];
    DigitsShown(Checksum(r), 6, b, 148);
  }

  lemma SpacesCount(r: Raw, c: Bytes)
    requires WellSized(r) && r.checksum == SPACES && c == Join(r)
    ensures ByteTotal(c) == ByteTotal(c[..148]) + 8 * 32 + ByteTotal(c[156..])
  {
    FieldsAt(r, c);
    assert c == c[..148] + (c[148..156] + c[156..]);
    TotalAppend(c[..148], c[148..156] + c[156..]);
    TotalAppend(c[148..156], c[156..]);
    assert ByteTotal(SPACES) == 8 * 32 by {
      SumIsTotal(SPACES);
    }
  }

  lemma SameAround(r: Raw, s: Raw, b: Bytes, c: Bytes)
    requires WellSized(r) && WellSized(s) && b == Join(r) && c == Join(s) && r.(checksum := SPACES) == s.(checksum := SPACES)
    ensures b[..148] == c[..148] && b[156..] == c[156..]
  {
    JoinParts(r);
    JoinParts(s);
  }

  lemma JoinParts(r: Raw)
    requires WellSized(r)
    ensures Join(r)[..148] == r.name + (r.mode + (r.uid + (r.gid + (r.size + r.mtime))))
    ensures Join(r)[156..] == [r.kind] + JoinBack(r)
  {}

  lemma PathFields(t: TarInfo, b: Bytes)
    requires ToBuf(t) == Some(b) && t.name != [] && t.name[0] != SLASH
    ensures SplitPath(t.name).Some?
    ensures PathShown(b, t.name, SplitPath(t.name).value.0, SplitPath(t.name).value.1)
  {
    var raw := Fields(t).value;
    var (prefix, name) := SplitPath(t.name).value;
    FieldsAt(Sealed(raw), b);
    hide Join, Sealed, Checksum, SplitPath;
    SealedKeeps(raw);
    TextShown(name, b, 0, 100);
    TextShown(prefix, b, 345, 500);
    PrefixWhenLong(t.name);
  }

  lemma PrefixWhenLong(path: Bytes)
    requires SplitPath(path).Some? && path != [] && path[0] != SLASH
    ensures var (prefix, name) := SplitPath(path).value; path == if prefix == [] then name else prefix + [47] + name
  {}

  lemma SealedKeeps(r: Raw)
    requires WellSized(r)
    ensures Sealed(r) == r.(checksum := Sealed(r).checksum)
  {}

  lemma NumberFields(t: TarInfo)
    requires Fields(t).Some? && t.mode < 4096
    ensures var raw := Fields(t).value;
      && NumberField(t.mode, 8) == Some(raw.mode) && NumberField(t.uid, 8) == Some(raw.uid)
      && NumberField(t.gid, 8) == Some(raw.gid) && NumberField(t.size, 12) == Some(raw.size)
      && NumberField(t.mtime, 12) == Some(raw.mtime)
  {
    assert t.mode % 4096 == t.mode;
    hide NumberField;
  }

  lemma Written(t: TarInfo, b: Bytes)
    requires ToBuf(t) == Some(b)
    ensures Fields(t).Some? && b == Join(Sealed(Fields(t).value))
  {}

  lemma NumbersShown(t: TarInfo, b: Bytes)
    requires ToBuf(t) == Some(b) && t.mode < 4096
    ensures Holds(b, 100, 7, t.mode) && Holds(b, 108, 7, t.uid) && Holds(b, 116, 7, t.gid)
    ensures Holds(b, 124, 11, t.size) && Holds(b, 136, 11, t.mtime)
  {
    hide Join, Sealed, Checksum, NumberField, Holds, Fields, ToBuf;
    Written(t, b);
    var raw := Fields(t).value;
    FieldsAt(Sealed(raw), b);
    SealedKeeps(raw);
    NumberFields(t);
    FieldShown(t.mode, 7, b, 100);
    FieldShown(t.uid, 7, b, 108);
    FieldShown(t.gid, 7, b, 116);
    FieldShown(t.size, 11, b, 124);
    FieldShown(t.mtime, 11, b, 136);
  }

  lemma RestShown(t: TarInfo, b: Bytes)
    requires ToBuf(t) == Some(b) && t.linkname == [] && t.uname == [] && t.gname == []
    ensures b[156] == t.kind && b[257..265] == [117, 115, 116, 97, 114, 0, 48, 48]
    ensures ZerosIn(b, 157, 257) && ZerosIn(b, 265, 345) && ZerosIn(b, 500, 512)
  {
    var raw := Fields(t).value;
    FieldsAt(Sealed(raw), b);
    hide Join, Sealed, Checksum, SplitPath, NumberField, ZerosIn;
    SealedKeeps(raw);
    ZerosShown(b, 157, 257);
    ZerosShown(b, 265, 297);
    ZerosShown(b, 297, 329);
    ZerosShown(b, 329, 345);
    ZerosShown(b, 500, 512);
    ZerosJoin(b, 265, 297, 329);
    ZerosJoin(b, 265, 329, 345);
  }

  lemma ZerosJoin(b: Bytes, from: nat, middle: nat, to: nat)
    requires from <= middle <= to <= |b| && ZerosIn(b, from, middle) && ZerosIn(b, middle, to)
    ensures ZerosIn(b, from, to)
  {}

  /** Every byte of a member's header is what the format says of a file with this name and size. */
  lemma HeaderMeans(root: Bytes, m: Member, size: nat, b: Bytes)
    requires PlainRoot(root) && ToBuf(Info(root, m, size)) == Some(b)
    ensures HeaderShown(b, root, m, size)
  {
    hide ToBuf, Holds, AreOctal, Octal, PathShown, ZerosIn, ByteTotal, Path, SplitPath, PlainRoot, FileNameOf;
    var t := Info(root, m, size);
    PathStarts(root, m);
    PathFields(t, b);
    NumbersShown(t, b);
    RestShown(t, b);
    SumShown(t, b);
  }

  lemma PathStarts(root: Bytes, m: Member)
    requires PlainRoot(root)
    ensures Path(root, m) != [] && Path(root, m)[0] != SLASH && Path(root, m) == root + [47] + Ascii(FileNameOf(m))
  {
    assert Path(root, m)[0] == root[0];
  }

  lemma SumShown(t: TarInfo, b: Bytes)
    requires ToBuf(t) == Some(b)
    ensures AreOctal(b, 148, 6) && b[154] == 0 && b[155] == 32
    ensures Octal(b, 148, 6) == ByteTotal(b[..148]) + 8 * 32 + ByteTotal(b[156..])
  {
    hide Join, Sealed, Checksum, AreOctal, Octal;
    ChecksumShown(Fields(t).value, b);
  }
}
