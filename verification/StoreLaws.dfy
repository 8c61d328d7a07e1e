/** What the manifest binds, and exactly which directories are read or gathered. */
module StoreLaws {
  import opened Wrappers
  import opened Bytes
  import opened Binary
  import opened Store
  import Archive

  // ------------------------------------------------ the names

  /** The target triples, in full. */
  function Triple(t: Target): string {
    match t
    case X86Linux => "x86_64" + "-unknown" + "-linux-musl"
    case ArmLinux64 => "aarch64" + "-unknown" + "-linux-musl"
    case I686Linux => "i686" + "-unknown" + "-linux-musl"
    case ArmLinux32 => "armv7" + "-unknown" + "-linux-musleabihf"
    case X86Darwin => "x86_64" + "-apple" + "-darwin"
    case ArmDarwin => "aarch64" + "-apple" + "-darwin"
  }

  lemma TripleIs(t: Target)
    ensures TargetName(t) == Triple(t)
  {}

  /** The names that the release uses, and the order of its targets. */
  lemma NamesAre(args: Args)
    ensures forall t :: ArchiveName(args, t) == "boxferry-" + args.version + "-" + Triple(t) + ".tar.gz"
    ensures forall t :: WorkerName(args, t) == "boxferry-cli-" + args.revision + "-" + args.runId + "-" + Triple(t)
    ensures TARGETS == [X86Linux, ArmLinux64, I686Linux, ArmLinux32, X86Darwin, ArmDarwin]
  {
    hide TargetName, Triple;
    forall t: Target ensures TargetName(t) == Triple(t) { TripleIs(t); }
  }

  // ------------------------------------------------ what the manifest binds

  /** ASCII without quotation marks, as versions, revisions, run ids and digests are. */
  predicate Worded(s: string) {
    forall i | 0 <= i < |s| :: s[i] as int < 128 && s[i] != '"'
  }

  ghost predicate AllWorded(args: Args, world: World) {
    && Worded(args.version) && Worded(args.revision) && Worded(args.runId) && forall b :: Worded(world.hash(b))
  }

  lemma WordedJoin(a: string, b: string)
    ensures Worded(a + b) <==> Worded(a) && Worded(b)
  {
    forall i | 0 <= i < |a| ensures (a + b)[i] == a[i] {}
    forall i | 0 <= i < |b| ensures (a + b)[|a| + i] == b[i] {}
  }

  lemma NamesWorded(args: Args, t: Target)
    requires Worded(args.version)
    ensures Worded(TargetName(t)) && Worded(ArchiveName(args, t))
  {
    TargetWorded(t);
    assert Worded("boxferry-") && Worded("-") && Worded(".tar.gz");
    hide Worded, TargetName;
    WordedJoin("boxferry-", args.version);
    WordedJoin("boxferry-" + args.version, "-");
    WordedJoin("boxferry-" + args.version + "-", TargetName(t));
    WordedJoin(Root(args, t), ".tar.gz");
  }

  lemma TargetWorded(t: Target)
    ensures Worded(TargetName(t))
  {
    assert Worded(Architecture(t));
    assert Worded(Vendor(t));
    assert Worded(System(t));
    hide Worded, Architecture, Vendor, System;
    WordedJoin(Architecture(t), Vendor(t));
    WordedJoin(Architecture(t) + Vendor(t), System(t));
  }

  /** A quoted word ends at the first quotation mark, so what is quoted and what follows can be told apart. */
  lemma QuotedApart(x: string, y: string, r: string, s: string)
    requires Worded(x) && Worded(y) && Quoted(x) + r == Quoted(y) + s
    ensures x == y && r == s
  {
    QuoteEnds(x, y, r, s);
    QuoteEnds(y, x, s, r);
    var a, b := Quoted(x) + r, Quoted(y) + s;
    assert a[1..|x| + 1] == x && b[1..|y| + 1] == y;
    assert a[|x| + 2..] == r && b[|y| + 2..] == s;
  }

  lemma QuoteEnds(x: string, y: string, r: string, s: string)
    requires Worded(y) && Quoted(x) + r == Quoted(y) + s
    ensures |y| <= |x|
  {
    var a, b := Quoted(x) + r, Quoted(y) + s;
    assert a[|x| + 1] == '"';
    forall i | 0 < i < |y| + 1 ensures b[i] != '"' {
      assert b[i] == y[i - 1];
    }
  }

  lemma PrefixApart(p: string, r: string, s: string)
    requires p + r == p + s
    ensures r == s
  {
    assert (p + r)[|p|..] == r && (p + s)[|p|..] == s;
  }

  lemma RecordApart(a: Args, b: Args, t: Target, h: string, g: string, r: string, s: string)
    requires Worded(a.version) && Worded(b.version) && Worded(h) && Worded(g)
    requires RecordText(a, t, h) + r == RecordText(b, t, g) + s
    ensures h == g && r == s
  {
    NamesWorded(a, t);
    NamesWorded(b, t);
    var x, y := ArchiveName(a, t), ArchiveName(b, t);
    var open, middle := "    {\n      \"name\": ", ",\n      \"sha256\": ";
    var close := ",\n      \"target\": " + Quoted(TargetName(t)) + "\n    }";
    RecordParts(a, t, h, r, open, middle, close);
    RecordParts(b, t, g, s, open, middle, close);
    hide ArchiveName, TargetName, Quoted, Worded, RecordText;
    PrefixApart(open, Quoted(x) + (middle + (Quoted(h) + (close + r))), Quoted(y) + (middle + (Quoted(g) + (close + s))));
    QuotedApart(x, y, middle + (Quoted(h) + (close + r)), middle + (Quoted(g) + (close + s)));
    PrefixApart(middle, Quoted(h) + (close + r), Quoted(g) + (close + s));
    QuotedApart(h, g, close + r, close + s);
    PrefixApart(close, r, s);
  }

  lemma RecordParts(a: Args, t: Target, h: string, r: string, open: string, middle: string, close: string)
    requires open == "    {\n      \"name\": " && middle == ",\n      \"sha256\": "
    requires close == ",\n      \"target\": " + Quoted(TargetName(t)) + "\n    }"
    ensures RecordText(a, t, h) + r == open + (Quoted(ArchiveName(a, t)) + (middle + (Quoted(h) + (close + r))))
  {
    hide ArchiveName, TargetName, Quoted;
    var end := ",\n      \"target\": ";
    assert RecordText(a, t, h) == open + Quoted(ArchiveName(a, t)) + middle + Quoted(h) + end + Quoted(TargetName(t)) + "\n    }";
    Fold(open, Quoted(ArchiveName(a, t)), middle, Quoted(h), end, Quoted(TargetName(t)), "\n    }", r);
  }

  lemma Fold(a: string, b: string, c: string, d: string, e: string, f: string, g: string, r: string)
    ensures (a + b + c + d + e + f + g) + r == a + (b + (c + (d + ((e + f + g) + r))))
  {}

  lemma Shift(a: string, b: string, c: string, r: string)
    ensures (a + b + c) + r == a + (b + (c + r))
  {}

  /** Equal texts of the records list equal digests, and leave equal rests. */
  lemma {:induction false} RecordsApart(a: Args, b: Args, world: World, data: seq<Bytes>, other: seq<Bytes>, k: nat, r: string, s: string)
    requires k <= |data| == |other| == |TARGETS|
    requires Worded(a.version) && Worded(b.version) && forall x :: Worded(world.hash(x))
    requires RecordsText(a, world, data, k) + r == RecordsText(b, world, other, k) + s
    ensures forall i | 0 <= i < k :: world.hash(data[i]) == world.hash(other[i])
    ensures r == s
    decreases k
  {
    hide RecordText;
    if k == 0 {
      assert "" + r == r && "" + s == s;
    } else {
      var t, h, g := TARGETS[k - 1], world.hash(data[k - 1]), world.hash(other[k - 1]);
      var sep := if k == 1 then "" else ",\n";
      var x, y := RecordText(a, t, h), RecordText(b, t, g);
      Shift(RecordsText(a, world, data, k - 1), sep, x, r);
      Shift(RecordsText(b, world, other, k - 1), sep, y, s);
      assert RecordsText(a, world, data, k) == RecordsText(a, world, data, k - 1) + sep + x;
      assert RecordsText(b, world, other, k) == RecordsText(b, world, other, k - 1) + sep + y;
      RecordsApart(a, b, world, data, other, k - 1, sep + (x + r), sep + (y + s));
      PrefixApart(sep, x + r, y + s);
      RecordApart(a, b, t, h, g, r, s);
    }
  }

  // ------------------------------------------------ from bytes to text

  predicate AsciiOnly(s: string) {
    forall i | 0 <= i < |s| :: s[i] as int < 128
  }

  lemma AsciiJoin(a: string, b: string)
    ensures AsciiOnly(a + b) <==> AsciiOnly(a) && AsciiOnly(b)
  {
    forall i | 0 <= i < |a| ensures (a + b)[i] == a[i] {}
    forall i | 0 <= i < |b| ensures (a + b)[|a| + i] == b[i] {}
  }

  lemma AsciiInjective(a: string, b: string)
    requires AsciiOnly(a) && AsciiOnly(b) && Ascii(a) == Ascii(b)
    ensures a == b
  {
    assert |a| == |b|;
    forall i | 0 <= i < |a| ensures a[i] == b[i] {
      assert Ascii(a)[i] == Ascii(b)[i];
      assert a[i] as int == b[i] as int;
    }
  }

  lemma QuotedAscii(s: string)
    requires Worded(s)
    ensures AsciiOnly(Quoted(s))
  {}

  lemma RecordAscii(args: Args, t: Target, hash: string)
    requires Worded(args.version) && Worded(hash)
    ensures AsciiOnly(RecordText(args, t, hash))
  {
    hide AsciiOnly, Worded, Quoted, ArchiveName, TargetName;
    NamesWorded(args, t);
    QuotedAscii(ArchiveName(args, t));
    QuotedAscii(hash);
    QuotedAscii(TargetName(t));
    var open, middle, end, last := "    {\n      \"name\": ", ",\n      \"sha256\": ", ",\n      \"target\": ", "\n    }";
    RecordPiecesAscii(open, middle, end, last);
    var x, y, z := Quoted(ArchiveName(args, t)), Quoted(hash), Quoted(TargetName(t));
    assert RecordText(args, t, hash) == open + x + middle + y + end + z + last;
    hide RecordText;
    AsciiJoin(open, x);
    AsciiJoin(open + x, middle);
    AsciiJoin(open + x + middle, y);
    AsciiJoin(open + x + middle + y, end);
    AsciiJoin(open + x + middle + y + end, z);
    AsciiJoin(open + x + middle + y + end + z, last);
  }

  lemma RecordPiecesAscii(open: string, middle: string, end: string, last: string)
    requires open == "    {\n      \"name\": " && middle == ",\n      \"sha256\": "
    requires end == ",\n      \"target\": " && last == "\n    }"
    ensures AsciiOnly(open) && AsciiOnly(middle) && AsciiOnly(end) && AsciiOnly(last)
  {}

  lemma {:induction false} RecordsAscii(args: Args, world: World, data: seq<Bytes>, k: nat)
    requires k <= |data| == |TARGETS| && Worded(args.version) && forall b :: Worded(world.hash(b))
    ensures AsciiOnly(RecordsText(args, world, data, k))
    decreases k
  {
    if k > 0 {
      hide RecordText, Worded;
      var sep, x := if k == 1 then "" else ",\n", RecordText(args, TARGETS[k - 1], world.hash(data[k - 1]));
      assert AsciiOnly(sep);
      hide AsciiOnly;
      RecordsAscii(args, world, data, k - 1);
      RecordAscii(args, TARGETS[k - 1], world.hash(data[k - 1]));
      AsciiJoin(RecordsText(args, world, data, k - 1), sep);
      AsciiJoin(RecordsText(args, world, data, k - 1) + sep, x);
    }
  }

  const OPEN := "{\n  \"archives\": [\n"
  const RUN := "\n  ],\n  \"github_run_id\": "
  const REVISION := ",\n  \"revision\": "
  const VERSION := ",\n  \"schema_version\": 1,\n  \"version\": "
  const CLOSE := "\n}\n"

  /** The manifest in pieces: what does not depend on the invocation, its quoted words, and its records. */
  function Text(args: Args, records: string): string {
    OPEN + (records + (RUN + (Quoted(args.runId) + (REVISION + (Quoted(args.revision) + (VERSION + (Quoted(args.version) + CLOSE)))))))
  }

  lemma ManifestText(args: Args, world: World, data: seq<Bytes>)
    requires |data| == |TARGETS|
    ensures ManifestBytes(args, world, data) == Ascii(Text(args, RecordsText(args, world, data, |TARGETS|)))
  {
    hide RecordsText, Quoted;
    var records := RecordsText(args, world, data, |TARGETS|);
    Unfold(OPEN, records, RUN, Quoted(args.runId), REVISION, Quoted(args.revision), VERSION, Quoted(args.version), CLOSE);
    hide OPEN, RUN, REVISION, VERSION, CLOSE;
  }

  lemma Unfold(a: string, b: string, c: string, d: string, e: string, f: string, g: string, h: string, i: string)
    ensures a + b + c + d + e + f + g + h + i == a + (b + (c + (d + (e + (f + (g + (h + i)))))))
  {}

  lemma PiecesAscii()
    ensures AsciiOnly(OPEN) && AsciiOnly(RUN) && AsciiOnly(REVISION) && AsciiOnly(VERSION) && AsciiOnly(CLOSE)
  {
    FrontAscii();
    BackAscii();
    hide OPEN, RUN, REVISION, VERSION, CLOSE, AsciiOnly;
  }

  lemma FrontAscii()
    ensures AsciiOnly(OPEN) && AsciiOnly(RUN)
  {}

  lemma BackAscii()
    ensures AsciiOnly(REVISION) && AsciiOnly(VERSION) && AsciiOnly(CLOSE)
  {}

  lemma TextAscii(args: Args, records: string)
    requires Worded(args.version) && Worded(args.revision) && Worded(args.runId) && AsciiOnly(records)
    ensures AsciiOnly(Text(args, records))
  {
    hide AsciiOnly, Quoted, Worded, OPEN, RUN, REVISION, VERSION, CLOSE;
    QuotedAscii(args.runId);
    QuotedAscii(args.revision);
    QuotedAscii(args.version);
    PiecesAscii();
    var t8 := Quoted(args.version) + CLOSE;
    AsciiJoin(Quoted(args.version), CLOSE);
    AsciiJoin(VERSION, t8);
    AsciiJoin(Quoted(args.revision), VERSION + t8);
    AsciiJoin(REVISION, Quoted(args.revision) + (VERSION + t8));
    AsciiJoin(Quoted(args.runId), REVISION + (Quoted(args.revision) + (VERSION + t8)));
    var t4 := Quoted(args.runId) + (REVISION + (Quoted(args.revision) + (VERSION + t8)));
    AsciiJoin(RUN, t4);
    AsciiJoin(records, RUN + t4);
    AsciiJoin(OPEN, records + (RUN + t4));
  }

  lemma TextApart(a: Args, b: Args, world: World, data: seq<Bytes>, other: seq<Bytes>)
    requires AllWorded(a, world) && AllWorded(b, world) && |data| == |other| == |TARGETS|
    requires Text(a, RecordsText(a, world, data, |TARGETS|)) == Text(b, RecordsText(b, world, other, |TARGETS|))
    ensures a == b && forall i | 0 <= i < |TARGETS| :: world.hash(data[i]) == world.hash(other[i])
  {
    hide Quoted, RecordsText, OPEN, RUN, REVISION, VERSION, CLOSE;
    var x8, y8 := Quoted(a.version) + CLOSE, Quoted(b.version) + CLOSE;
    var x6, y6 := Quoted(a.revision) + (VERSION + x8), Quoted(b.revision) + (VERSION + y8);
    var x4, y4 := Quoted(a.runId) + (REVISION + x6), Quoted(b.runId) + (REVISION + y6);
    var x, y := RecordsText(a, world, data, |TARGETS|), RecordsText(b, world, other, |TARGETS|);
    PrefixApart(OPEN, x + (RUN + x4), y + (RUN + y4));
    RecordsApart(a, b, world, data, other, |TARGETS|, RUN + x4, RUN + y4);
    PrefixApart(RUN, x4, y4);
    QuotedApart(a.runId, b.runId, REVISION + x6, REVISION + y6);
    PrefixApart(REVISION, x6, y6);
    QuotedApart(a.revision, b.revision, VERSION + x8, VERSION + y8);
    PrefixApart(VERSION, x8, y8);
    QuotedApart(a.version, b.version, CLOSE, CLOSE);
  }

  lemma {:induction false} SameRecords(args: Args, world: World, data: seq<Bytes>, other: seq<Bytes>, k: nat)
    requires k <= |data| == |other| == |TARGETS|
    requires forall i | 0 <= i < |TARGETS| :: world.hash(data[i]) == world.hash(other[i])
    ensures RecordsText(args, world, data, k) == RecordsText(args, world, other, k)
    decreases k
  {
    hide RecordText;
    if k > 0 {
      SameRecords(args, world, data, other, k - 1);
    }
  }

  /**
    What the manifest binds: two manifests are the same bytes exactly when they are of the same version,
    revision and run, and each target's archives have the same digest.
  */
  lemma ManifestBinds(a: Args, b: Args, world: World, data: seq<Bytes>, other: seq<Bytes>)
    requires AllWorded(a, world) && AllWorded(b, world) && |data| == |other| == |TARGETS|
    ensures ManifestBytes(a, world, data) == ManifestBytes(b, world, other) <==>
            a == b && forall i | 0 <= i < |TARGETS| :: world.hash(data[i]) == world.hash(other[i])
  {
    hide ManifestBytes, Text, RecordsText, Worded;
    var x, y := RecordsText(a, world, data, |TARGETS|), RecordsText(b, world, other, |TARGETS|);
    ManifestText(a, world, data);
    ManifestText(b, world, other);
    RecordsAscii(a, world, data, |TARGETS|);
    RecordsAscii(b, world, other, |TARGETS|);
    TextAscii(a, x);
    TextAscii(b, y);
    if ManifestBytes(a, world, data) == ManifestBytes(b, world, other) {
      AsciiInjective(Text(a, x), Text(b, y));
      TextApart(a, b, world, data, other);
    }
    if a == b && forall i | 0 <= i < |TARGETS| :: world.hash(data[i]) == world.hash(other[i]) {
      SameRecords(a, world, data, other, |TARGETS|);
    }
  }

  // ------------------------------------------------ what is read and what is gathered

  /** A regular file, not empty and of at most `limit` bytes. */
  predicate Usable(entries: map<string, Node>, name: string, limit: nat) {
    name in entries && entries[name].File? && entries[name].data != [] && |entries[name].data| <= limit
  }

  function DataOf(entries: map<string, Node>, name: string): Bytes {
    if name in entries && entries[name].File? then entries[name].data else []
  }

  /** The six files, in the order of the targets. */
  function Six(entries: map<string, Node>, args: Args): (r: seq<Bytes>)
    ensures |r| == 6
  {
    seq(6, i requires 0 <= i < 6 => DataOf(entries, ArchiveName(args, TARGETS[i])))
  }

  /** An archive that can be read: at most 260 MiB, and accepted for its target. */
  predicate GoodArchive(entries: map<string, Node>, args: Args, world: World, t: Target) {
    Usable(entries, ArchiveName(args, t), 272629760) && world.archiveOk(DataOf(entries, ArchiveName(args, t)), t)
  }

  /** What a complete set is: these seven names and no other, six good archives, and the manifest of exactly those six. */
  ghost predicate CompleteSet(entries: map<string, Node>, args: Args, world: World) {
    && (forall name :: name in entries <==> name == "binary-manifest.json" || exists t: Target :: name == ArchiveName(args, t))
    && (forall t: Target :: GoodArchive(entries, args, world, t))
    && Usable(entries, "binary-manifest.json", 1048576)
    && world.reparse(DataOf(entries, "binary-manifest.json")) == Some(ManifestBytes(args, world, Six(entries, args)))
  }

  lemma EachTarget(t: Target)
    ensures t in TARGETS
  {
    match t
    case X86Linux => assert TARGETS[0] == t;
    case ArmLinux64 => assert TARGETS[1] == t;
    case I686Linux => assert TARGETS[2] == t;
    case ArmLinux32 => assert TARGETS[3] == t;
    case X86Darwin => assert TARGETS[4] == t;
    case ArmDarwin => assert TARGETS[5] == t;
  }

  lemma ArchiveMeans(entries: map<string, Node>, args: Args, world: World, t: Target)
    ensures ReadArchive(entries, args, world, t).Some? <==> GoodArchive(entries, args, world, t)
    ensures GoodArchive(entries, args, world, t) ==> ReadArchive(entries, args, world, t) == Some(DataOf(entries, ArchiveName(args, t)))
  {
    hide ArchiveName;
  }

  lemma NamesMean(name: Target -> string)
    ensures forall x :: x in ExpectedNames(name) <==> exists t: Target :: x == name(t)
  {
    forall t: Target ensures t in TARGETS { EachTarget(t); }
    forall x, t: Target | x == name(t) ensures x in ExpectedNames(name) {
      assert t in TARGETS;
      var i :| 0 <= i < |TARGETS| && TARGETS[i] == t;
    }
  }

  /** Every target is read exactly when each one can be. */
  lemma EachMeans(get: Target -> Option<Bytes>)
    ensures Each(get, 6).Some? <==> forall t: Target :: get(t).Some?
    ensures Each(get, 6).Some? ==> |Each(get, 6).value| == 6 && forall i | 0 <= i < 6 :: get(TARGETS[i]) == Some(Each(get, 6).value[i])
  {
    forall t: Target ensures t in TARGETS { EachTarget(t); }
    if Each(get, 6).Some? {
      forall t: Target ensures get(t).Some? {
        assert t in TARGETS;
        var i :| 0 <= i < |TARGETS| && TARGETS[i] == t;
      }
    }
  }

  lemma SixRead(entries: map<string, Node>, args: Args, world: World)
    ensures var each := Each(t => ReadArchive(entries, args, world, t), 6);
      && (each.Some? <==> forall t: Target :: GoodArchive(entries, args, world, t))
      && (each.Some? ==> each.value == Six(entries, args))
  {
    hide ArchiveName, ReadArchive, GoodArchive, Each, DataOf;
    var get := t => ReadArchive(entries, args, world, t);
    EachMeans(get);
    forall t: Target
      ensures get(t).Some? <==> GoodArchive(entries, args, world, t)
      ensures GoodArchive(entries, args, world, t) ==> get(t) == Some(DataOf(entries, ArchiveName(args, t)))
    {
      ArchiveMeans(entries, args, world, t);
    }
    if Each(get, 6).Some? {
      forall i | 0 <= i < 6 ensures Each(get, 6).value[i] == Six(entries, args)[i] {
        assert get(TARGETS[i]).Some?;
      }
    }
  }

  lemma ListingMeans(entries: map<string, Node>, args: Args)
    ensures entries.Keys == SetNames(args) <==>
      forall name :: name in entries <==> name == "binary-manifest.json" || exists t: Target :: name == ArchiveName(args, t)
  {
    hide ArchiveName, ExpectedNames;
    var archive := t => ArchiveName(args, t);
    NamesMean(archive);
    forall x ensures x in SetNames(args) <==> x == "binary-manifest.json" || exists t: Target :: x == ArchiveName(args, t) {
      if t: Target :| x == ArchiveName(args, t) {
        assert x == archive(t);
      }
    }
  }

  lemma ManifestRead(entries: map<string, Node>)
    ensures ReadRegular(entries, MANIFEST, Archive.MAX_TEXT).Some? <==> Usable(entries, "binary-manifest.json", 1048576)
    ensures Usable(entries, "binary-manifest.json", 1048576) ==>
              ReadRegular(entries, MANIFEST, Archive.MAX_TEXT) == Some(DataOf(entries, "binary-manifest.json"))
  {}

  /** Exactly which directories `read_set` accepts, and what it returns for one. */
  lemma ReadMeans(entries: map<string, Node>, args: Args, world: World)
    ensures ReadSpec(entries, args, world).Some? <==> CompleteSet(entries, args, world)
    ensures CompleteSet(entries, args, world) ==>
              var r := ReadSpec(entries, args, world).value;
              |r| == 6 && forall i | 0 <= i < 6 :: r[i].name == ArchiveName(args, TARGETS[i]) && r[i].data == Six(entries, args)[i]
  {
    hide ManifestBytes, ArchiveName, ReadArchive, GoodArchive, ReadRegular, Usable, SetNames, Each, Six, DataOf;
    ListingMeans(entries, args);
    SixRead(entries, args, world);
    ManifestRead(entries);
  }

  /** A worker's directory that holds its one good archive and nothing else. */
  ghost predicate GoodWorker(input: Node, args: Args, world: World, t: Target) {
    && input.Folder? && WorkerName(args, t) in input.entries && input.entries[WorkerName(args, t)].Folder?
    && var held := input.entries[WorkerName(args, t)].entries;
    (forall name :: name in held <==> name == ArchiveName(args, t)) && GoodArchive(held, args, world, t)
  }

  function WorkerData(input: Node, args: Args, t: Target): Bytes {
    if input.Folder? && WorkerName(args, t) in input.entries && input.entries[WorkerName(args, t)].Folder?
    then DataOf(input.entries[WorkerName(args, t)].entries, ArchiveName(args, t)) else []
  }

  lemma WorkerMeans(input: Node, args: Args, world: World, t: Target)
    requires input.Folder?
    ensures WorkerArchive(input.entries, args, world, t).Some? <==> GoodWorker(input, args, world, t)
    ensures GoodWorker(input, args, world, t) ==> WorkerArchive(input.entries, args, world, t) == Some(WorkerData(input, args, t))
  {
    hide ArchiveName, WorkerName, ReadArchive, GoodArchive;
    var name := WorkerName(args, t);
    if name in input.entries && input.entries[name].Folder? {
      var held := input.entries[name].entries;
      ArchiveMeans(held, args, world, t);
      assert held.Keys == {ArchiveName(args, t)} <==> forall x :: x in held <==> x == ArchiveName(args, t);
    }
  }

  /** Exactly which inputs `collect` gathers: six workers' directories and no other entry, each with its one good archive. */
  lemma GatherMeans(input: Node, args: Args, world: World)
    ensures GatherSpec(input, args, world).Some? <==>
      && input.Folder?
      && (forall name :: name in input.entries <==> exists t: Target :: name == WorkerName(args, t))
      && (forall t: Target :: GoodWorker(input, args, world, t))
    ensures GatherSpec(input, args, world).Some? ==>
      forall i | 0 <= i < 6 :: GatherSpec(input, args, world).value[i] == WorkerData(input, args, TARGETS[i])
  {
    hide WorkerName, WorkerArchive, GoodWorker, Each, WorkerData, ExpectedNames;
    if input.Folder? {
      var get := t => WorkerArchive(input.entries, args, world, t);
      EachMeans(get);
      forall t: Target
        ensures get(t).Some? <==> GoodWorker(input, args, world, t)
        ensures GoodWorker(input, args, world, t) ==> get(t) == Some(WorkerData(input, args, t))
      {
        WorkerMeans(input, args, world, t);
      }
      WorkersListed(input.entries, args);
    }
  }

  lemma WorkersListed(entries: map<string, Node>, args: Args)
    ensures entries.Keys == ExpectedNames(t => WorkerName(args, t)) <==>
            forall name :: name in entries <==> exists t: Target :: name == WorkerName(args, t)
  {
    hide WorkerName, ExpectedNames;
    var worker := t => WorkerName(args, t);
    NamesMean(worker);
    forall x ensures x in ExpectedNames(worker) <==> exists t: Target :: x == WorkerName(args, t) {
      if t: Target :| x == WorkerName(args, t) {
        assert x == worker(t);
      }
    }
  }

  /** A set is refused whose manifest was made for another version, revision or run, or for an archive of another digest. */
  lemma ManifestChecked(entries: map<string, Node>, a: Args, b: Args, world: World, other: seq<Bytes>)
    requires AllWorded(a, world) && AllWorded(b, world) && |other| == 6
    requires world.reparse(DataOf(entries, "binary-manifest.json")) == Some(ManifestBytes(b, world, other))
    ensures ReadSpec(entries, a, world).Some? ==> a == b && forall i | 0 <= i < 6 :: world.hash(Six(entries, a)[i]) == world.hash(other[i])
  {
    hide ReadSpec, ManifestBytes, AllWorded, GoodArchive, Usable, ArchiveName, DataOf, Six;
    ReadMeans(entries, a, world);
    ManifestBinds(a, b, world, Six(entries, a), other);
  }
}
