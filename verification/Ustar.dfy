/**
  One 512-byte header block of the "ustar Interchange Format" (pax utility, POSIX.1-2017): how
  Python's tarfile writes the header of a regular file, and a reader that recovers it.
*/
module Ustar {
  import opened Wrappers
  import opened Bytes

  const BLOCK: nat := 512
  const NAME_LENGTH: nat := 100
  const PREFIX_LENGTH: nat := 155
  const SLASH: byte := 47
  const REGULAR: byte := 48

  /** The header members that the release validator looks at. */
  datatype TarInfo = TarInfo(
    name: Bytes, mode: nat, uid: nat, gid: nat, size: nat, mtime: nat,
    kind: byte, linkname: Bytes, uname: Bytes, gname: Bytes)

  /** The fields of a header block, in their order in the block. */
  datatype Raw = Raw(
    name: Bytes, mode: Bytes, uid: Bytes, gid: Bytes, size: Bytes, mtime: Bytes, checksum: Bytes, kind: byte,
    linkname: Bytes, magic: Bytes, uname: Bytes, gname: Bytes, devices: Bytes, prefix: Bytes, unused: Bytes)

  predicate WellSized(r: Raw) {
    && |r.name| == 100 && |r.mode| == 8 && |r.uid| == 8 && |r.gid| == 8 && |r.size| == 12 && |r.mtime| == 12
    && |r.checksum| == 8 && |r.linkname| == 100 && |r.magic| == 8 && |r.uname| == 32 && |r.gname| == 32
    && |r.devices| == 16 && |r.prefix| == 155 && |r.unused| == 12
  }

  function JoinFront(r: Raw): (b: Bytes)
    requires WellSized(r)
    ensures |b| == 157
  {
    r.name + (r.mode + (r.uid + (r.gid + (r.size + (r.mtime + (r.checksum + [r.kind]))))))
  }

  function JoinBack(r: Raw): (b: Bytes)
    requires WellSized(r)
    ensures |b| == 355
  {
    r.linkname + (r.magic + (r.uname + (r.gname + (r.devices + (r.prefix + r.unused)))))
  }

  function Join(r: Raw): (b: Bytes)
    requires WellSized(r)
    ensures |b| == BLOCK
  {
    JoinFront(r) + JoinBack(r)
  }

  function Split(b: Bytes): (r: Raw)
    requires |b| == BLOCK
    ensures WellSized(r)
  {
    var f, k := b[..157], b[157..];
    Raw(f[0..100], f[100..108], f[108..116], f[116..124], f[124..136], f[136..148], f[148..156], f[156],
        k[0..100], k[100..108], k[108..140], k[140..172], k[172..188], k[188..343], k[343..355])
  }

  lemma SplitJoin(r: Raw)
    requires WellSized(r)
    ensures Split(Join(r)) == r
  {
    var f, k := JoinFront(r), JoinBack(r);
    assert Join(r)[..157] == f && Join(r)[157..] == k;
    assert f[0..100] == r.name;
    assert f[100..108] == r.mode;
    assert f[108..116] == r.uid;
    assert f[116..124] == r.gid;
    assert f[124..136] == r.size;
    assert f[136..148] == r.mtime;
    assert f[148..156] == r.checksum;
    assert k[0..100] == r.linkname;
    assert k[100..108] == r.magic;
    assert k[108..140] == r.uname;
    assert k[140..172] == r.gname;
    assert k[172..188] == r.devices;
    assert k[188..343] == r.prefix;
    assert k[343..355] == r.unused;
  }

  // ------------------------------------------------ number and text fields

  /** `n` in octal, most significant digit first, in exactly `k` digits. */
  function Digits(n: nat, k: nat): (d: Bytes)
    ensures |d| == k
    ensures forall i | 0 <= i < k :: 48 <= d[i] < 56
  {
    if k == 0 then [] else Digits(n / 8, k - 1) + [48 + n % 8]
  }

  function Power8(k: nat): (p: nat)
    ensures p >= 1
  {
    if k == 0 then 1 else 8 * Power8(k - 1)
  }

  function OctalDigits(s: Bytes): Option<nat> {
    if s == [] then Some(0)
    else if !(48 <= s[|s| - 1] < 56) then None
    else match OctalDigits(s[..|s| - 1])
      case None => None
      case Some(high) => Some(8 * high + s[|s| - 1] - 48)
  }

  lemma {:induction false} OctalRoundTrip(n: nat, k: nat)
    requires n < Power8(k)
    ensures OctalDigits(Digits(n, k)) == Some(n)
  {
    if k > 0 {
      OctalRoundTrip(n / 8, k - 1);
      var d := Digits(n, k);
      assert d[..k - 1] == Digits(n / 8, k - 1);
      assert d[k - 1] == 48 + n % 8;
    }
  }

  /** `itn`: octal digits and a NUL; too large a number is an error. */
  function NumberField(n: nat, width: nat): (r: Option<Bytes>)
    requires width > 0
    ensures r.Some? ==> |r.value| == width
  {
    if n < Power8(width - 1) then Some(Digits(n, width - 1) + [0]) else None
  }

  /** A number field of octal digits up to its first NUL. */
  function ReadNumber(s: Bytes): Option<nat> {
    OctalDigits(UpToNul(s))
  }

  lemma NumberRoundTrip(n: nat, width: nat, tail: Bytes)
    requires width > 0 && n < Power8(width - 1)
    ensures ReadNumber(Digits(n, width - 1) + ([0] + tail)) == Some(n)
  {
    var d := Digits(n, width - 1);
    UpToNulStops(d, [0] + tail);
    OctalRoundTrip(n, width - 1);
  }

  /** `stn`: cut to the width, or filled up with NULs. */
  function TextField(s: Bytes, width: nat): (r: Bytes)
    ensures |r| == width
  {
    if |s| >= width then s[..width] else s + Zeros(width - |s|)
  }

  lemma TextRoundTrip(s: Bytes, width: nat)
    requires NoNul(s) && |s| <= width
    ensures UpToNul(TextField(s, width)) == s
  {
    if |s| >= width {
      UpToNulStops(s, []);
      assert s[..width] == s == s + [];
    } else {
      UpToNulStops(s, Zeros(width - |s|));
    }
  }

  // ------------------------------------------------ long names

  /** The first slash, from `from` on, that leaves a prefix and a name short enough; as `_posix_split_name`. */
  function SplitPoint(path: Bytes, from: nat): (r: Option<nat>)
    requires from <= |path|
    ensures r.Some? ==> from <= r.value < |path| && path[r.value] == SLASH
                        && r.value <= PREFIX_LENGTH && |path| - r.value - 1 <= NAME_LENGTH
    ensures r.None? ==> forall i | from <= i < |path| && path[i] == SLASH ::
                          !(i <= PREFIX_LENGTH && |path| - i - 1 <= NAME_LENGTH)
    decreases |path| - from
  {
    if from == |path| then None
    else if path[from] == SLASH && from <= PREFIX_LENGTH && |path| - from - 1 <= NAME_LENGTH then Some(from)
    else SplitPoint(path, from + 1)
  }

  /** The prefix and name fields of a path; None when ustar cannot hold it. */
  function SplitPath(path: Bytes): (r: Option<(Bytes, Bytes)>)
    ensures r.Some? ==> |r.value.0| <= PREFIX_LENGTH && |r.value.1| <= NAME_LENGTH
    ensures r.Some? && |path| > NAME_LENGTH ==> path == r.value.0 + [SLASH] + r.value.1
  {
    if |path| <= NAME_LENGTH then Some(([], path))
    else match SplitPoint(path, 0)
      case None => None
      case Some(i) => Some((path[..i], path[i + 1..]))
  }

  // ------------------------------------------------ writing a header

  const SPACES: Bytes := [32, 32, 32, 32, 32, 32, 32, 32]
  const MAGIC: Bytes := [117, 115, 116, 97, 114, 0, 48, 48]

  /** The sum of all bytes, the checksum field counted as spaces. */
  function Checksum(r: Raw): (n: nat)
    requires WellSized(r)
    ensures n < Power8(6)
  {
    assert Power8(6) == 8 * Power8(5) && Power8(5) == 8 * Power8(4) && Power8(4) == 8 * Power8(3) && Power8(3) == 8 * Power8(2);
    assert Power8(2) == 8 * Power8(1) && Power8(1) == 8 * Power8(0);
    SumBytes(Join(r.(checksum := SPACES)))
  }

  function Sealed(r: Raw): (s: Raw)
    requires WellSized(r)
    ensures WellSized(s)
  {
    r.(checksum := Digits(Checksum(r), 6) + ([0] + [32]))
  }

  /** The unsealed fields of a regular file's header; None when a number or the name does not fit. */
  function Fields(t: TarInfo): (r: Option<Raw>)
    ensures r.Some? ==> WellSized(r.value)
  {
    var path := SplitPath(t.name);
    var mode := NumberField(t.mode % 4096, 8);
    var uid := NumberField(t.uid, 8);
    var gid := NumberField(t.gid, 8);
    var size := NumberField(t.size, 12);
    var mtime := NumberField(t.mtime, 12);
    if path.None? || mode.None? || uid.None? || gid.None? || size.None? || mtime.None? || |t.linkname| > 100 then None
    else Some(Raw(TextField(path.value.1, 100), mode.value, uid.value, gid.value, size.value, mtime.value, SPACES,
                  t.kind, TextField(t.linkname, 100), MAGIC, TextField(t.uname, 32), TextField(t.gname, 32),
                  Zeros(16), TextField(path.value.0, 155), Zeros(12)))
  }

  /** `tobuf(format=USTAR_FORMAT)` of a regular file. */
  function ToBuf(t: TarInfo): (r: Option<Bytes>)
    ensures r.Some? ==> |r.value| == BLOCK
  {
    match Fields(t)
    case None => None
    case Some(raw) => Some(Join(Sealed(raw)))
  }

  lemma HeaderFits(t: TarInfo)
    requires SplitPath(t.name).Some? && |t.linkname| <= 100
    requires t.uid < 2097152 && t.gid < 2097152 && t.size < 8589934592 && t.mtime < 8589934592
    ensures ToBuf(t).Some?
  {
    hide SplitPath, Digits;
    assert Power8(7) == 2097152 && Power8(11) == 8589934592;
  }

  // ------------------------------------------------ reading a header

  /** The values of the fields of a block whose number fields are plain octal; None is an invalid header. */
  function ReadFields(r: Raw): Option<TarInfo> {
    var mode, uid, gid := ReadNumber(r.mode), ReadNumber(r.uid), ReadNumber(r.gid);
    var size, mtime := ReadNumber(r.size), ReadNumber(r.mtime);
    if mode.None? || uid.None? || gid.None? || size.None? || mtime.None? then None
    else
      var prefix, name := UpToNul(r.prefix), UpToNul(r.name);
      Some(TarInfo(if prefix == [] then name else prefix + [SLASH] + name,
                   mode.value, uid.value, gid.value, size.value, mtime.value, r.kind,
                   UpToNul(r.linkname), UpToNul(r.uname), UpToNul(r.gname)))
  }

  /** `frombuf`: the checksum must match before any field is read. */
  function FromBuf(b: Bytes): Option<TarInfo>
    requires |b| == BLOCK
  {
    var r := Split(b);
    if ReadNumber(r.checksum) != Some(Checksum(r)) then None else ReadFields(r)
  }

  /** A header whose every text fits and holds no NUL, and whose path is relative. */
  predicate Plain(t: TarInfo) {
    && NoNul(t.name) && (t.name != [] ==> t.name[0] != SLASH)
    && t.mode < 4096 && NoNul(t.linkname) && NoNul(t.uname) && NoNul(t.gname)
    && |t.uname| <= 32 && |t.gname| <= 32
  }

  lemma SealedReads(r: Raw)
    requires WellSized(r)
    ensures Checksum(Sealed(r)) == Checksum(r)
    ensures ReadNumber(Sealed(r).checksum) == Some(Checksum(Sealed(r)))
  {
    assert Sealed(r).(checksum := SPACES) == r.(checksum := SPACES);
    NumberRoundTrip(Checksum(r), 7, [32]);
  }

  lemma FieldReads(n: nat, width: nat)
    requires width > 0 && NumberField(n, width).Some?
    ensures ReadNumber(NumberField(n, width).value) == Some(n)
  {
    NumberRoundTrip(n, width, []);
    assert [0] + [] == [0 as byte];
  }

  lemma PathReads(path: Bytes)
    requires SplitPath(path).Some? && NoNul(path) && (path != [] ==> path[0] != SLASH)
    ensures var (prefix, name) := SplitPath(path).value;
      && UpToNul(TextField(prefix, 155)) == prefix && UpToNul(TextField(name, 100)) == name
      && path == if prefix == [] then name else prefix + [SLASH] + name
  {
    var (prefix, name) := SplitPath(path).value;
    if |path| > NAME_LENGTH {
      assert prefix != [];
      forall i | 0 <= i < |prefix| ensures prefix[i] != 0 { assert prefix[i] == path[i]; }
      forall i | 0 <= i < |name| ensures name[i] != 0 { assert name[i] == path[|prefix| + 1 + i]; }
    }
    TextRoundTrip(prefix, 155);
    TextRoundTrip(name, 100);
  }

  /** Fields that each read back as intended read back together. */
  lemma ReadTogether(r: Raw, t: TarInfo, prefix: Bytes, name: Bytes)
    requires ReadNumber(r.mode) == Some(t.mode) && ReadNumber(r.uid) == Some(t.uid) && ReadNumber(r.gid) == Some(t.gid)
    requires ReadNumber(r.size) == Some(t.size) && ReadNumber(r.mtime) == Some(t.mtime)
    requires UpToNul(r.prefix) == prefix && UpToNul(r.name) == name
    requires t.name == if prefix == [] then name else prefix + [SLASH] + name
    requires UpToNul(r.linkname) == t.linkname && UpToNul(r.uname) == t.uname && UpToNul(r.gname) == t.gname
    requires r.kind == t.kind
    ensures ReadFields(r) == Some(t)
  {}

  lemma FieldsRead(t: TarInfo)
    requires Plain(t) && Fields(t).Some?
    ensures ReadFields(Fields(t).value) == Some(t)
  {
    var mode := t.mode % 4096;
    assert mode == t.mode;
    FieldReads(mode, 8);
    FieldReads(t.uid, 8);
    FieldReads(t.gid, 8);
    FieldReads(t.size, 12);
    FieldReads(t.mtime, 12);
    PathReads(t.name);
    TextRoundTrip(t.linkname, 100);
    TextRoundTrip(t.uname, 32);
    TextRoundTrip(t.gname, 32);
    var path, raw := SplitPath(t.name).value, Fields(t).value;
    assert raw.mode == NumberField(mode, 8).value;
    ReadTogether(raw, t, path.0, path.1);
  }

  /** Reading back a written header recovers every field. */
  lemma HeaderRoundTrip(t: TarInfo)
    requires Plain(t) && ToBuf(t).Some?
    ensures FromBuf(ToBuf(t).value) == Some(t)
  {
    var raw := Fields(t).value;
    SplitJoin(Sealed(raw));
    SealedReads(raw);
    FieldsRead(t);
    assert ReadFields(Sealed(raw)) == ReadFields(raw);
  }
}
