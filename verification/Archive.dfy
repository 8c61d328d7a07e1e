/**
  The tar layer of the release archive in scripts/release-binaries.py: the image that
  `make_archive` lays out and the images that `validate_archive` accepts.
*/
module Archive {
  import opened Wrappers
  import opened Bytes
  import opened Ustar

  datatype Member = Boxferry | License | Readme | BuildInfo

  datatype ArchiveError = Refused

  const MEMBERS: seq<Member> := [Boxferry, License, Readme, BuildInfo]
  const ALL: set<Member> := {Boxferry, License, Readme, BuildInfo}
  const MAX_BINARY: nat := 268435456
  const MAX_TEXT: nat := 1048576
  const MAX_ARCHIVE: nat := MAX_BINARY + 4 * 1048576
  const MAX_TAR: nat := MAX_ARCHIVE + 1048576
  const END_MARKER: nat := 1024
  const RECORD: nat := 10240

  function FileName(m: Member): (r: Bytes) {
    match m
    case Boxferry => Ascii("boxferry")
    case License => Ascii("LICENSE")
    case Readme => Ascii("README.md")
    case BuildInfo => Ascii("BUILD-INFO.json")
  }

  function Mode(m: Member): nat {
    if m == Boxferry then 493 else 420
  }

  function SizeBound(m: Member): nat {
    if m == Boxferry then MAX_BINARY else MAX_TEXT
  }

  function Path(root: Bytes, m: Member): Bytes {
    root + [SLASH] + FileName(m)
  }

  /** The only header a member of this name and size may have. */
  function Info(root: Bytes, m: Member, size: nat): TarInfo {
    TarInfo(Path(root, m), Mode(m), 0, 0, size, 0, REGULAR, [], [], [])
  }

  function Padding(size: nat): (p: nat)
    ensures p < BLOCK
    ensures size + p == ((size + 511) / 512) * 512
  {
    if size % 512 == 0 then 0 else 512 - size % 512
  }

  function Header(root: Bytes, m: Member, size: nat): Bytes {
    match ToBuf(Info(root, m, size))
    case None => []
    case Some(b) => b
  }

  function Part(root: Bytes, m: Member, content: Bytes): Bytes {
    Header(root, m, |content|) + content + Zeros(Padding(|content|))
  }

  /** The members in the given order, each as header, content and zero padding to whole blocks. */
  function Layout(root: Bytes, order: seq<Member>, files: map<Member, Bytes>): Bytes
    requires forall m | m in order :: m in files
  {
    if order == [] then [] else Part(root, order[0], files[order[0]]) + Layout(root, order[1..], files)
  }

  ghost predicate Once(order: seq<Member>, members: set<Member>) {
    && (forall m :: m in order <==> m in members)
    && (forall i, j | 0 <= i < j < |order| :: order[i] != order[j])
  }

  ghost predicate Complete(files: map<Member, Bytes>) {
    files.Keys == ALL && forall m | m in ALL :: 0 < |files[m]| <= SizeBound(m)
  }

  /** Every path fits a ustar header. */
  predicate Representable(root: Bytes) {
    forall m | m in MEMBERS :: SplitPath(Path(root, m)).Some?
  }

  predicate PlainRoot(root: Bytes) {
    root != [] && NoNul(root) && forall i | 0 <= i < |root| :: root[i] != SLASH
  }

  /** An image that is the four files, in some order, followed by at least the end marker of zeros. */
  ghost predicate Canonical(image: Bytes, root: Bytes, files: map<Member, Bytes>) {
    && Complete(files) && Representable(root)
    && exists order: seq<Member>, z: nat :: Once(order, ALL) && z >= END_MARKER && image == Layout(root, order, files) + Zeros(z)
  }

  // ------------------------------------------------ the reader of members

  /** What iterating over a tar file yields at a position: the end, an error, or a member. */
  datatype Next = Stop | Fail | Entry(info: TarInfo, pax: bool, offset: int, dataOffset: int)

  type Reader = (Bytes, nat) -> Next

  /** Everything before this position is canonical members of the archive, so no extension header has been met. */
  ghost predicate Reached(image: Bytes, root: Bytes, at: nat) {
    at <= |image| && exists order: seq<Member>, files: map<Member, Bytes> ::
      (forall m | m in order :: m in files) && image[..at] == Layout(root, order, files)
  }

  /**
    After canonical members the reader reads the plain header of a regular file as what it says, and
    a zero block as the end. Every other header, and whatever follows one, is free.
  */
  ghost predicate Faithful(reader: Reader, root: Bytes) {
    && (forall image: Bytes, at: nat, t: TarInfo |
          at + BLOCK <= |image| && Reached(image, root, at)
          && Plain(t) && t.kind == REGULAR && ToBuf(t) == Some(image[at..at + BLOCK]) ::
          reader(image, at) == Entry(t, false, at, at + BLOCK))
    && (forall image: Bytes, at: nat | at + BLOCK <= |image| && Reached(image, root, at) && AllZero(image[at..at + BLOCK]) ::
          reader(image, at) == Stop)
  }

  /** tarfile's iteration: a bad first block is an error, a bad later block ends the members. */
  function TarFile(image: Bytes, at: nat): Next {
    if at > |image| then Fail
    else if at + BLOCK > |image| then (if at == 0 then Fail else Stop)
    else if AllZero(image[at..at + BLOCK]) then Stop
    else match FromBuf(image[at..at + BLOCK])
      case None => if at == 0 then Fail else Stop
      case Some(t) => Entry(t, false, at, at + BLOCK)
  }

  lemma TarFileIsFaithful(root: Bytes)
    ensures Faithful(TarFile, root)
  {
    hide Reached;
    forall image: Bytes, at: nat, t: TarInfo |
      at + BLOCK <= |image| && Plain(t) && ToBuf(t) == Some(image[at..at + BLOCK])
      ensures TarFile(image, at) == Entry(t, false, at, at + BLOCK)
    {
      HeaderRoundTrip(t);
      HeaderNotZero(t);
    }
  }

  lemma HeaderNotZero(t: TarInfo)
    requires ToBuf(t).Some?
    ensures !AllZero(ToBuf(t).value)
  {
    var r := Sealed(Fields(t).value);
    SplitJoin(r);
    assert r.magic[0] == 117;
    assert Split(Join(r)).magic[0] == Join(r)[157..][100..108][0] == Join(r)[257];
  }

  // ------------------------------------------------ the validator

  function MemberAt(root: Bytes, name: Bytes): (r: Option<Member>)
    ensures r.Some? ==> r.value in ALL && name == Path(root, r.value)
    ensures r.None? ==> forall m: Member :: name != Path(root, m)
  {
    if name == Path(root, Boxferry) then Some(Boxferry)
    else if name == Path(root, License) then Some(License)
    else if name == Path(root, Readme) then Some(Readme)
    else if name == Path(root, BuildInfo) then Some(BuildInfo)
    else None
  }

  /** The header checks on one member found at `end`, in the source's order. */
  predicate HeaderAccepted(image: Bytes, root: Bytes, end: nat, e: Next, seen: set<Member>): (r: bool)
    ensures r ==> e.Entry? && MemberAt(root, e.info.name).Some? && MemberAt(root, e.info.name).value !in seen
  {
    && e.Entry?
    && MemberAt(root, e.info.name).Some? && MemberAt(root, e.info.name).value !in seen
    && e.info.kind == REGULAR && e.info.linkname == [] && !e.pax
    && e.offset == end && e.dataOffset == end + BLOCK
    && end + BLOCK <= |image| && ToBuf(e.info) == Some(image[end..end + BLOCK])
    && e.info.mode == Mode(MemberAt(root, e.info.name).value)
    && e.info.uid == 0 && e.info.gid == 0 && e.info.mtime == 0 && e.info.uname == [] && e.info.gname == []
    && 0 < e.info.size <= SizeBound(MemberAt(root, e.info.name).value)
  }

  /** The content is all there, and what is there of its padding is zero. */
  predicate ContentAccepted(image: Bytes, data: nat, size: nat): (r: bool)
    ensures r ==> data + size <= |image|
  {
    var stop := data + size + Padding(size);
    data + size <= |image| && AllZero(image[data + size..if stop <= |image| then stop else |image|])
  }

  function ScanFrom(image: Bytes, root: Bytes, reader: Reader, end: nat, files: map<Member, Bytes>)
    : Result<map<Member, Bytes>, ArchiveError>
    decreases ALL - files.Keys
  {
    var e := reader(image, end);
    if e.Stop? then
      if files.Keys == ALL && |image| >= end + END_MARKER && AllZero(image[end..]) then Ok(files) else Err(Refused)
    else if !HeaderAccepted(image, root, end, e, files.Keys) || !ContentAccepted(image, end + BLOCK, e.info.size) then Err(Refused)
    else
      var m, data := MemberAt(root, e.info.name).value, end + BLOCK;
      var grown := files[m := image[data..data + e.info.size]];
      assert m in ALL - files.Keys && m !in ALL - grown.Keys;
      ScanFrom(image, root, reader, data + e.info.size + Padding(e.info.size), grown)
  }

  function Scan(image: Bytes, root: Bytes, reader: Reader): Result<map<Member, Bytes>, ArchiveError> {
    ScanFrom(image, root, reader, 0, map[])
  }

  lemma ScanStops(image: Bytes, root: Bytes, reader: Reader, end: nat, files: map<Member, Bytes>)
    ensures var e := reader(image, end);
      if e.Stop? then
        ScanFrom(image, root, reader, end, files)
        == (if files.Keys == ALL && |image| >= end + END_MARKER && AllZero(image[end..]) then Ok(files) else Err(Refused))
      else
        !HeaderAccepted(image, root, end, e, files.Keys) || !ContentAccepted(image, end + BLOCK, e.info.size)
        ==> ScanFrom(image, root, reader, end, files) == Err(Refused)
  {
    hide HeaderAccepted, ContentAccepted, MemberAt;
  }

  lemma ScanNext(image: Bytes, root: Bytes, reader: Reader, end: nat, files: map<Member, Bytes>)
    requires var e := reader(image, end);
      !e.Stop? && HeaderAccepted(image, root, end, e, files.Keys) && ContentAccepted(image, end + BLOCK, e.info.size)
    ensures var e, data := reader(image, end), end + BLOCK; var m, size := MemberAt(root, e.info.name).value, e.info.size;
      && m in ALL - files.Keys
      && ScanFrom(image, root, reader, end, files)
         == ScanFrom(image, root, reader, data + ((size + 511) / 512) * 512, files[m := image[data..data + size]])
  {
    hide HeaderAccepted, ContentAccepted, MemberAt;
  }

  /** The member loop of `validate_archive`. */
  method ValidateTar(image: Bytes, root: Bytes, reader: Reader) returns (r: Result<map<Member, Bytes>, ArchiveError>)
    ensures r == Scan(image, root, reader)
  {
    hide HeaderAccepted, ContentAccepted, MemberAt, ScanFrom;
    var end: nat, files: map<Member, Bytes> := 0, map[];
    var e := reader(image, end);
    while !e.Stop?
      invariant e == reader(image, end)
      invariant ScanFrom(image, root, reader, end, files) == Scan(image, root, reader)
      decreases ALL - files.Keys
    {
      ScanStops(image, root, reader, end, files);
      if !HeaderAccepted(image, root, end, e, files.Keys) {
        return Err(Refused);
      }
      var m, data, size := MemberAt(root, e.info.name).value, end + BLOCK, e.info.size;
      if !ContentAccepted(image, data, size) {
        return Err(Refused);
      }
      ScanNext(image, root, reader, end, files);
      ghost var before := files;
      files := files[m := image[data..data + size]];
      assert m in ALL - before.Keys && m !in ALL - files.Keys;
      end := data + ((size + 511) / 512) * 512;
      e := reader(image, end);
    }
    ScanStops(image, root, reader, end, files);
    if files.Keys != ALL || |image| < end + END_MARKER || !AllZero(image[end..]) {
      return Err(Refused);
    }
    return Ok(files);
  }

  // ------------------------------------------------ accepted images are canonical

  /** What the rest of an accepted image is, from `end` on. */
  ghost predicate Rest(image: Bytes, root: Bytes, end: nat, seen: map<Member, Bytes>, all: map<Member, Bytes>,
                       order: seq<Member>, z: nat)
  {
    && end <= |image| && all.Keys == ALL && z >= END_MARKER
    && Once(order, ALL - seen.Keys)
    && (forall m | m in seen :: m in all && all[m] == seen[m])
    && (forall m | m in order :: 0 < |all[m]| <= SizeBound(m) && ToBuf(Info(root, m, |all[m]|)).Some?)
    && image[end..] == Layout(root, order, all) + Zeros(z)
  }

  /** The header checks leave nothing free: the header is the one its name and size determine. */
  lemma AcceptedInfo(image: Bytes, root: Bytes, end: nat, e: Next, seen: set<Member>)
    requires HeaderAccepted(image, root, end, e, seen)
    ensures e.info == Info(root, MemberAt(root, e.info.name).value, e.info.size)
    ensures end + BLOCK <= |image| && ToBuf(e.info) == Some(image[end..end + BLOCK])
    ensures 0 < e.info.size <= SizeBound(MemberAt(root, e.info.name).value)
  {
    hide ToBuf, MemberAt;
  }

  lemma AcceptedPart(image: Bytes, root: Bytes, end: nat, e: Next, seen: set<Member>)
    requires HeaderAccepted(image, root, end, e, seen) && ContentAccepted(image, end + BLOCK, e.info.size)
    requires end + BLOCK + e.info.size + Padding(e.info.size) <= |image|
    ensures var m, data := MemberAt(root, e.info.name).value, end + BLOCK;
            var content := image[data..data + e.info.size];
            && ToBuf(Info(root, m, e.info.size)).Some?
            && image[end..data + e.info.size + Padding(e.info.size)] == Part(root, m, content)
  {
    hide ToBuf, MemberAt, HeaderAccepted, Info, Path;
    var m, data, size := MemberAt(root, e.info.name).value, end + BLOCK, e.info.size;
    AcceptedInfo(image, root, end, e, seen);
    AllZeroIsZeros(image[data + size..data + size + Padding(size)]);
    SliceThree(image, end, data, data + size, data + size + Padding(size));
  }

  /** Whatever the reader, an accepted image has no byte outside the canonical form. */
  lemma {:induction false} ScanSound(image: Bytes, root: Bytes, reader: Reader, end: nat, files: map<Member, Bytes>)
    returns (order: seq<Member>, z: nat)
    requires ScanFrom(image, root, reader, end, files).Ok?
    ensures Rest(image, root, end, files, ScanFrom(image, root, reader, end, files).value, order, z)
    decreases ALL - files.Keys
  {
    hide ToBuf, MemberAt, Layout, Part, HeaderAccepted, SizeBound;
    var e := reader(image, end);
    if e.Stop? {
      order, z := [], |image| - end;
      AllZeroIsZeros(image[end..]);
      NothingLeft(image, root, end, files, z);
    } else {
      var m, data, size := MemberAt(root, e.info.name).value, end + BLOCK, e.info.size;
      var stop := data + size + Padding(size);
      var grown := files[m := image[data..data + size]];
      var all := ScanFrom(image, root, reader, end, files).value;
      assert all == ScanFrom(image, root, reader, stop, grown).value;
      var rest, zeros := ScanSound(image, root, reader, stop, grown);
      AcceptedInfo(image, root, end, e, files.Keys);
      AcceptedPart(image, root, end, e, files.Keys);
      order, z := [m] + rest, zeros;
      RestGrows(image, root, end, stop, files, grown, all, m, rest, z);
    }
  }

  lemma NothingLeft(image: Bytes, root: Bytes, end: nat, files: map<Member, Bytes>, z: nat)
    requires files.Keys == ALL && z >= END_MARKER && end <= |image| && image[end..] == Zeros(z)
    ensures Rest(image, root, end, files, files, [], z)
  {
    assert Layout(root, [], files) + Zeros(z) == Zeros(z);
  }

  lemma RestGrows(image: Bytes, root: Bytes, end: nat, stop: nat, files: map<Member, Bytes>, grown: map<Member, Bytes>,
                  all: map<Member, Bytes>, m: Member, rest: seq<Member>, z: nat)
    requires Rest(image, root, stop, grown, all, rest, z)
    requires m in ALL && m !in files && m in grown && grown == files[m := grown[m]] && end <= stop <= |image|
    requires 0 < |grown[m]| <= SizeBound(m) && ToBuf(Info(root, m, |grown[m]|)).Some?
    requires image[end..stop] == Part(root, m, grown[m])
    ensures Rest(image, root, end, files, all, [m] + rest, z)
  {
    hide ToBuf, Part, Layout, SizeBound;
    var order := [m] + rest;
    assert grown.Keys == files.Keys + {m};
    OnceGrows(ALL - files.Keys, ALL - grown.Keys, m, rest);
    assert all[m] == grown[m];
    LayoutGrows(root, m, rest, all);
    SliceJoin(image, end, stop);
    JoinAssociates(Part(root, m, all[m]), Layout(root, rest, all), Zeros(z));
  }

  lemma LayoutGrows(root: Bytes, m: Member, rest: seq<Member>, all: map<Member, Bytes>)
    requires m in all && forall x | x in rest :: x in all
    ensures Layout(root, [m] + rest, all) == Part(root, m, all[m]) + Layout(root, rest, all)
  {
    hide Part;
    assert ([m] + rest)[1..] == rest;
  }

  lemma OnceGrows(members: set<Member>, others: set<Member>, m: Member, rest: seq<Member>)
    requires Once(rest, others) && m !in others && members == others + {m}
    ensures Once([m] + rest, members)
  {}

  /** Every accepted image is canonical, whatever the reader of members does. */
  lemma AcceptedIsCanonical(image: Bytes, root: Bytes, reader: Reader)
    requires Scan(image, root, reader).Ok?
    ensures Canonical(image, root, Scan(image, root, reader).value)
  {
    hide ToBuf, ScanFrom, Layout;
    var order, z := ScanSound(image, root, reader, 0, map[]);
    var files := Scan(image, root, reader).value;
    assert image[0..] == image;
    forall m | m in MEMBERS ensures SplitPath(Path(root, m)).Some? {
      assert m in order;
      HeaderNeedsPath(Info(root, m, |files[m]|));
    }
  }

  lemma HeaderNeedsPath(t: TarInfo)
    requires ToBuf(t).Some?
    ensures SplitPath(t.name).Some?
  {}

  // ------------------------------------------------ canonical images are accepted

  lemma FileNamePlain(m: Member)
    ensures NoNul(FileName(m)) && 0 < |FileName(m)| <= 15
    ensures forall i | 0 <= i < |FileName(m)| :: FileName(m)[i] != SLASH
  {}

  lemma InfoIsPlain(root: Bytes, m: Member, size: nat)
    requires PlainRoot(root) && size <= MAX_BINARY && SplitPath(Path(root, m)).Some?
    ensures Plain(Info(root, m, size)) && ToBuf(Info(root, m, size)).Some?
  {
    hide FileName, ToBuf, SplitPath;
    FileNamePlain(m);
    HeaderFits(Info(root, m, size));
  }

  lemma PathInjective(root: Bytes, m: Member)
    ensures MemberAt(root, Path(root, m)) == Some(m)
  {
    forall n: Member | n != m ensures Path(root, n) != Path(root, m) {
      assert Path(root, n)[|root| + 1..] == FileName(n);
      assert Path(root, m)[|root| + 1..] == FileName(m);
      assert FileName(m) != FileName(n);
    }
  }

  lemma PartShape(image: Bytes, root: Bytes, end: nat, m: Member, content: Bytes, after: Bytes)
    requires end <= |image| && image[end..] == Part(root, m, content) + after
    requires ToBuf(Info(root, m, |content|)).Some?
    ensures var data, stop := end + BLOCK, end + BLOCK + |content| + Padding(|content|);
      && stop <= |image|
      && ToBuf(Info(root, m, |content|)) == Some(image[end..data])
      && image[data..data + |content|] == content
      && AllZero(image[data + |content|..stop])
      && image[stop..] == after
  {
    hide ToBuf, Info, Path;
    var h, pad := Header(root, m, |content|), Zeros(Padding(|content|));
    HeaderLength(Info(root, m, |content|));
    FourParts(h, content, pad, after);
    TailSlice(image, end, 0, BLOCK);
    TailSlice(image, end, BLOCK, BLOCK + |content|);
    TailSlice(image, end, BLOCK + |content|, BLOCK + |content| + |pad|);
  }

  lemma HeaderLength(t: TarInfo)
    requires ToBuf(t).Some?
    ensures |ToBuf(t).value| == BLOCK
  {}

  lemma EndIsReached(image: Bytes, root: Bytes, reader: Reader, end: nat, files: map<Member, Bytes>, all: map<Member, Bytes>, z: nat)
    requires Faithful(reader, root) && Reached(image, root, end) && all.Keys == ALL
    requires end <= |image| && z >= END_MARKER && image[end..] == Layout(root, [], all) + Zeros(z)
    requires Once([], ALL - files.Keys) && forall m | m in files :: m in all && all[m] == files[m]
    ensures ScanFrom(image, root, reader, end, files) == Ok(all)
  {
    hide HeaderAccepted, ContentAccepted, Reached;
    assert image[end..] == Zeros(z);
    assert AllZero(image[end..end + BLOCK]);
    var none: seq<Member> := [];
    assert forall m | m in ALL - files.Keys :: m in none;
    assert ALL - files.Keys == {};
    forall m | m in ALL ensures m in files {
      assert m !in ALL - files.Keys;
    }
    assert files == all;
  }

  lemma OneMoreMember(image: Bytes, root: Bytes, reader: Reader, end: nat, files: map<Member, Bytes>,
                      m: Member, content: Bytes, after: Bytes)
    requires Faithful(reader, root) && Reached(image, root, end) && PlainRoot(root) && SplitPath(Path(root, m)).Some?
    requires m !in files && 0 < |content| <= SizeBound(m)
    requires end <= |image| && image[end..] == Part(root, m, content) + after
    ensures var stop := end + BLOCK + |content| + Padding(|content|);
      && stop <= |image| && image[stop..] == after
      && ScanFrom(image, root, reader, end, files) == ScanFrom(image, root, reader, stop, files[m := content])
  {
    hide ToBuf, MemberAt, Part, Faithful, HeaderAccepted, ContentAccepted, Info, ScanFrom, Path, AllZero, PlainRoot, Reached;
    InfoIsPlain(root, m, |content|);
    PartShape(image, root, end, m, content, after);
    MemberMet(image, root, reader, end, m, content, files.Keys);
    PaddingZero(image, end + BLOCK, |content|);
    ScanNext(image, root, reader, end, files);
  }

  lemma PaddingZero(image: Bytes, data: nat, size: nat)
    requires data + size + Padding(size) <= |image| && AllZero(image[data + size..data + size + Padding(size)])
    ensures ContentAccepted(image, data, size)
  {}

  /** A faithful reader meets the member, and its header passes every check. */
  lemma MemberMet(image: Bytes, root: Bytes, reader: Reader, end: nat, m: Member, content: Bytes, seen: set<Member>)
    requires Faithful(reader, root) && Reached(image, root, end) && PlainRoot(root) && SplitPath(Path(root, m)).Some?
    requires m !in seen && 0 < |content| <= SizeBound(m)
    requires end + BLOCK <= |image| && ToBuf(Info(root, m, |content|)) == Some(image[end..end + BLOCK])
    ensures reader(image, end) == Entry(Info(root, m, |content|), false, end, end + BLOCK)
    ensures HeaderAccepted(image, root, end, reader(image, end), seen)
    ensures Info(root, m, |content|).size == |content| && MemberAt(root, Info(root, m, |content|).name) == Some(m)
  {
    hide ToBuf, MemberAt, Path, Reached;
    InfoIsPlain(root, m, |content|);
    PathInjective(root, m);
  }

  lemma PartLength(root: Bytes, m: Member, content: Bytes)
    requires PlainRoot(root) && SplitPath(Path(root, m)).Some? && |content| <= SizeBound(m)
    ensures |Part(root, m, content)| == BLOCK + |content| + Padding(|content|)
  {
    hide ToBuf, Info, Path, SplitPath, PlainRoot;
    InfoIsPlain(root, m, |content|);
    HeaderLength(Info(root, m, |content|));
  }

  lemma ReachedBy(image: Bytes, root: Bytes, at: nat, order: seq<Member>, files: map<Member, Bytes>)
    requires at <= |image| && (forall m | m in order :: m in files) && image[..at] == Layout(root, order, files)
    ensures Reached(image, root, at)
  {}

  /** One more canonical member leads from one reached position to the next. */
  lemma ReachedNext(image: Bytes, root: Bytes, at: nat, done: seq<Member>, m: Member, all: map<Member, Bytes>, after: Bytes)
    requires m in all && (forall x | x in done :: x in all)
    requires at <= |image| && image[..at] == Layout(root, done, all) && image[at..] == Part(root, m, all[m]) + after
    ensures var next := at + |Part(root, m, all[m])|; next <= |image| && image[..next] == Layout(root, done + [m], all)
  {
    hide Part, Layout;
    LayoutSnoc(root, done, m, all);
    var part := Part(root, m, all[m]);
    assert |image[at..]| == |part| + |after|;
    assert image[at..at + |part|] == image[at..][..|part|] == part;
    assert image[..at + |part|] == image[..at] + image[at..at + |part|];
  }

  lemma OnceShrinks(order: seq<Member>, members: set<Member>, others: set<Member>)
    requires order != [] && Once(order, members) && others == members - {order[0]}
    ensures Once(order[1..], others)
  {
    forall m ensures m in order[1..] <==> m in others {
      if m in others {
        assert m in order;
      }
      if m in order[1..] {
        var i :| 0 <= i < |order[1..]| && order[1..][i] == m;
        assert order[i + 1] == m && order[0] != order[i + 1];
      }
    }
  }

  lemma RepresentableAt(root: Bytes, m: Member)
    requires Representable(root)
    ensures SplitPath(Path(root, m)).Some?
  {
    assert m in MEMBERS;
  }

  /** A canonical image is read back in full by any faithful reader. */
  lemma {:induction false} ScanComplete(image: Bytes, root: Bytes, reader: Reader, end: nat, files: map<Member, Bytes>,
                                        all: map<Member, Bytes>, done: seq<Member>, order: seq<Member>, z: nat)
    requires Faithful(reader, root) && PlainRoot(root) && Representable(root) && Complete(all)
    requires end <= |image| && (forall m | m in done :: m in all) && image[..end] == Layout(root, done, all)
    requires Once(order, ALL - files.Keys) && forall m | m in files :: m in all && all[m] == files[m]
    requires z >= END_MARKER && image[end..] == Layout(root, order, all) + Zeros(z)
    ensures ScanFrom(image, root, reader, end, files) == Ok(all)
    decreases |order|
  {
    hide ScanFrom, Part, Faithful, Representable, PlainRoot, Path, Reached;
    ReachedBy(image, root, end, done, all);
    if order == [] {
      EndIsReached(image, root, reader, end, files, all, z);
    } else {
      var m := order[0];
      assert m in ALL - files.Keys;
      var after := Layout(root, order[1..], all) + Zeros(z);
      JoinAssociates(Part(root, m, all[m]), Layout(root, order[1..], all), Zeros(z));
      assert SplitPath(Path(root, m)).Some? by { RepresentableAt(root, m); }
      OneMoreMember(image, root, reader, end, files, m, all[m], after);
      var grown := files[m := all[m]];
      OnceShrinks(order, ALL - files.Keys, ALL - grown.Keys);
      ReachedNext(image, root, end, done, m, all, after);
      PartLength(root, m, all[m]);
      ScanComplete(image, root, reader, end + BLOCK + |all[m]| + Padding(|all[m]|), grown, all, done + [m], order[1..], z);
    }
  }

  /**
    The main law: a faithful reader makes the validator accept exactly the canonical images, and
    return exactly their files. So an accepted image is determined by the order of its members,
    their contents and the number of trailing zeros.
  */
  lemma AcceptedIffCanonical(image: Bytes, root: Bytes, reader: Reader, files: map<Member, Bytes>)
    requires Faithful(reader, root) && PlainRoot(root)
    ensures Scan(image, root, reader) == Ok(files) <==> Canonical(image, root, files)
  {
    hide ScanFrom, Layout, Faithful;
    if Scan(image, root, reader) == Ok(files) {
      AcceptedIsCanonical(image, root, reader);
    }
    if Canonical(image, root, files) {
      var order: seq<Member>, z: nat :| Once(order, ALL) && z >= END_MARKER && image == Layout(root, order, files) + Zeros(z);
      assert image[0..] == image;
      var none: map<Member, Bytes> := map[];
      assert ALL - none.Keys == ALL;
      EmptyLayout(root, files);
      ScanComplete(image, root, reader, 0, map[], files, [], order, z);
    }
  }

  // ------------------------------------------------ the builder

  /** The zero blocks that close an archive whose members end at `offset`: two blocks, then a whole record. */
  function Trailer(offset: nat): (z: nat)
    ensures END_MARKER <= z < END_MARKER + RECORD
    ensures (offset + z) % RECORD == 0
  {
    var marked := offset + END_MARKER;
    if marked % RECORD == 0 then END_MARKER else END_MARKER + (RECORD - marked % RECORD)
  }

  function TarOf(root: Bytes, files: map<Member, Bytes>): Bytes
    requires files.Keys == ALL
  {
    Layout(root, MEMBERS, files) + Zeros(Trailer(|Layout(root, MEMBERS, files)|))
  }

  lemma {:induction false} LayoutSnoc(root: Bytes, order: seq<Member>, m: Member, files: map<Member, Bytes>)
    requires m in files && forall x | x in order :: x in files
    ensures Layout(root, order + [m], files) == Layout(root, order, files) + Part(root, m, files[m])
  {
    hide Part;
    if order == [] {
      assert [m][1..] == [];
      assert Part(root, m, files[m]) + [] == Part(root, m, files[m]);
    } else {
      assert (order + [m])[1..] == order[1..] + [m];
      LayoutSnoc(root, order[1..], m, files);
      JoinAssociates(Part(root, order[0], files[order[0]]), Layout(root, order[1..], files), Part(root, m, files[m]));
    }
  }

  lemma EmptyLayout(root: Bytes, files: map<Member, Bytes>)
    requires files.Keys == ALL
    ensures MEMBERS[..0] == [] && Layout(root, [], files) == []
  {}

  lemma PartWritten(root: Bytes, m: Member, content: Bytes)
    requires ToBuf(Info(root, m, |content|)).Some?
    ensures Part(root, m, content) == ToBuf(Info(root, m, |content|)).value + content + Zeros(Padding(|content|))
  {
    hide ToBuf;
  }

  /** The tar stream that `make_archive` writes; an error when ustar cannot hold a name or a size. */
  method MakeTar(root: Bytes, files: map<Member, Bytes>) returns (r: Result<Bytes, ArchiveError>)
    requires files.Keys == ALL
    ensures r.Ok? <==> forall m | m in MEMBERS :: ToBuf(Info(root, m, |files[m]|)).Some?
    ensures r.Ok? ==> r.value == TarOf(root, files)
  {
    hide ToBuf, Info, Part, Layout, Padding, Trailer;
    EmptyLayout(root, files);
    var stream: Bytes := [];
    var i := 0;
    while i < |MEMBERS|
      invariant 0 <= i <= |MEMBERS|
      invariant forall j | 0 <= j < i :: ToBuf(Info(root, MEMBERS[j], |files[MEMBERS[j]]|)).Some?
      invariant stream == Layout(root, MEMBERS[..i], files)
    {
      var m := MEMBERS[i];
      var header := ToBuf(Info(root, m, |files[m]|));
      if header.None? {
        assert m in MEMBERS;
        return Err(Refused);
      }
      PartWritten(root, m, files[m]);
      LayoutSnoc(root, MEMBERS[..i], m, files);
      assert MEMBERS[..i + 1] == MEMBERS[..i] + [m];
      stream := stream + (header.value + files[m] + Zeros(Padding(|files[m]|)));
      i := i + 1;
    }
    assert MEMBERS[..|MEMBERS|] == MEMBERS;
    return Ok(stream + Zeros(Trailer(|stream|)));
  }

  lemma {:induction false} LayoutLength(root: Bytes, order: seq<Member>, files: map<Member, Bytes>, bound: nat)
    requires forall m | m in order :: m in files && |files[m]| <= bound
    ensures |Layout(root, order, files)| <= |order| * (2 * BLOCK + bound)
  {
    hide Part;
    if order != [] {
      LayoutLength(root, order[1..], files, bound);
      PartAtMost(root, order[0], files[order[0]]);
      var k := 2 * BLOCK + bound;
      assert |order| * k == k + |order[1..]| * k;
    }
  }

  lemma HeaderAtMost(root: Bytes, m: Member, size: nat)
    ensures |Header(root, m, size)| <= BLOCK
  {}

  /** Every image `make_archive` lays out fits the bound on decompressed archives. */
  lemma TarFits(root: Bytes, files: map<Member, Bytes>)
    requires Complete(files)
    ensures |TarOf(root, files)| <= MAX_TAR
  {
    hide Part;
    assert MEMBERS == [Boxferry] + [License, Readme, BuildInfo];
    LayoutGrows(root, Boxferry, [License, Readme, BuildInfo], files);
    LayoutLength(root, [License, Readme, BuildInfo], files, MAX_TEXT);
    PartAtMost(root, Boxferry, files[Boxferry]);
  }

  lemma PartAtMost(root: Bytes, m: Member, content: Bytes)
    ensures |Part(root, m, content)| <= 2 * BLOCK + |content|
  {
    HeaderAtMost(root, m, |content|);
  }

  lemma TarIsCanonical(root: Bytes, files: map<Member, Bytes>)
    requires Representable(root) && Complete(files)
    ensures Canonical(TarOf(root, files), root, files)
  {
    hide Layout, Representable;
    assert Once(MEMBERS, ALL);
  }

  /** The round trip: what `make_archive` lays out any faithful reader reads back as exactly the four files given. */
  lemma ArchiveRoundTrip(root: Bytes, files: map<Member, Bytes>, reader: Reader)
    requires Faithful(reader, root) && PlainRoot(root) && Representable(root) && Complete(files)
    ensures forall m | m in MEMBERS :: ToBuf(Info(root, m, |files[m]|)).Some?
    ensures Scan(TarOf(root, files), root, reader) == Ok(files)
    ensures |TarOf(root, files)| <= MAX_TAR
  {
    hide ToBuf, Scan, TarOf, Canonical, Faithful, Representable, Info;
    forall m | m in MEMBERS ensures ToBuf(Info(root, m, |files[m]|)).Some? {
      RepresentableAt(root, m);
      InfoIsPlain(root, m, |files[m]|);
    }
    TarFits(root, files);
    TarIsCanonical(root, files);
    AcceptedIffCanonical(TarOf(root, files), root, reader, files);
  }

  // ------------------------------------------------ which roots fit

  /** The longest member path decides: ustar holds the archive exactly when its root fits the prefix field. */
  lemma RepresentableIff(root: Bytes)
    requires PlainRoot(root)
    ensures Representable(root) <==> |root| <= PREFIX_LENGTH
  {
    forall m: Member ensures SplitPath(Path(root, m)).Some? <==> |root| + 1 + |FileName(m)| <= NAME_LENGTH || |root| <= PREFIX_LENGTH {
      PathFits(root, m);
    }
    assert Boxferry in MEMBERS;
  }

  lemma PathFits(root: Bytes, m: Member)
    requires PlainRoot(root)
    ensures SplitPath(Path(root, m)).Some? <==> |root| + 1 + |FileName(m)| <= NAME_LENGTH || |root| <= PREFIX_LENGTH
  {
    var path := Path(root, m);
    hide FileName;
    FileNamePlain(m);
    assert path[|root|] == SLASH;
    forall i | 0 <= i < |path| ensures path[i] == SLASH <==> i == |root| {
      if i > |root| {
        assert path[i] == FileName(m)[i - |root| - 1];
      } else if i < |root| {
        assert path[i] == root[i];
      }
    }
  }
}
