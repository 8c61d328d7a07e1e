/**
  The transactional store of scripts/release-binaries.py: exclusive creation, the all-or-nothing
  copy, and the pair `collect` and `read_set`.
*/
module Store {
  import opened Wrappers
  import opened Sequences
  import opened Bytes
  import opened Binary
  import Archive
  import Ustar

  /** A directory entry. The source opens regular files only and refuses symbolic links. */
  datatype Node = Link | File(data: Bytes) | Folder(entries: map<string, Node>)

  datatype Asset = Asset(name: string, data: Bytes)

  datatype Outcome = Fine | CreateFails | WriteFails(kept: nat)

  /** What happens around one write: entries other processes create first, then the outcome. */
  datatype Weather = Weather(arrivals: map<string, Node>, outcome: Outcome)

  // ------------------------------------------------ all or nothing

  function Names(assets: seq<Asset>): (r: set<string>)
    ensures forall x :: x in r <==> exists i :: 0 <= i < |assets| && assets[i].name == x
  {
    set i | 0 <= i < |assets| :: assets[i].name
  }

  /** The entries that the assets make, later ones over earlier ones. */
  function Written(assets: seq<Asset>): (m: map<string, Node>)
    ensures m.Keys == Names(assets)
  {
    if assets == [] then map[]
    else
      var n := |assets| - 1;
      NamesSnoc(assets);
      Written(assets[..n])[assets[n].name := File(assets[n].data)]
  }

  lemma NamesSnoc(assets: seq<Asset>)
    requires assets != []
    ensures var n := |assets| - 1; Names(assets) == Names(assets[..n]) + {assets[n].name}
  {
    var n := |assets| - 1;
    forall x ensures x in Names(assets) <==> x in Names(assets[..n]) + {assets[n].name} {
      if i :| 0 <= i < |assets| && assets[i].name == x {
        assert i < n ==> assets[..n][i].name == x;
      }
      if i :| 0 <= i < n && assets[..n][i].name == x {
        assert assets[i].name == x;
      }
    }
  }

  /**
    What the directory holds after `k` writes apart from the assets: what it held before, and what
    others created under names not yet taken.
  */
  function Foreign(before: map<string, Node>, assets: seq<Asset>, weather: nat -> Weather, k: nat): map<string, Node>
    requires k <= |assets|
  {
    if k == 0 then before
    else (weather(k - 1).arrivals - Names(assets[..k - 1])) + Foreign(before, assets, weather, k - 1)
  }

  /** The write of asset `i` meets no error and no entry of that name, old, foreign or our own. */
  predicate ClearAt(before: map<string, Node>, assets: seq<Asset>, weather: nat -> Weather, i: nat)
    requires i < |assets|
  {
    && assets[i].name !in before
    && weather(i).outcome.Fine?
    && (forall j | 0 <= j <= i :: assets[i].name !in weather(j).arrivals)
    && (forall j | 0 <= j < i :: assets[i].name != assets[j].name)
  }

  predicate Clear(before: map<string, Node>, assets: seq<Asset>, weather: nat -> Weather) {
    forall i | 0 <= i < |assets| :: ClearAt(before, assets, weather, i)
  }

  lemma {:induction false} InForeign(before: map<string, Node>, assets: seq<Asset>, weather: nat -> Weather, k: nat, name: string)
    requires k <= |assets|
    ensures name in Foreign(before, assets, weather, k) <==>
            name in before || exists j: nat :: j < k && name in weather(j).arrivals && name !in Names(assets[..j])
    decreases k
  {
    hide Names;
    if k > 0 {
      InForeign(before, assets, weather, k - 1, name);
    }
  }

  /** With nobody else at work, only the assets change the directory. */
  lemma {:induction false} NoForeigners(before: map<string, Node>, assets: seq<Asset>, weather: nat -> Weather, k: nat)
    requires k <= |assets| && forall j: nat | j < k :: weather(j).arrivals == map[]
    ensures Foreign(before, assets, weather, k) == before
    decreases k
  {
    hide Names;
    if k > 0 {
      NoForeigners(before, assets, weather, k - 1);
    }
  }

  /** Entries that arrive next to foreign entries `f` and our own `w`. */
  lemma ArrivalSplits<K, V>(a: map<K, V>, f: map<K, V>, w: map<K, V>)
    requires f.Keys !! w.Keys
    ensures a + (f + w) == ((a - w.Keys) + f) + w
    ensures ((a - w.Keys) + f).Keys !! w.Keys
  {}

  lemma EntryAdded<K, V>(f: map<K, V>, w: map<K, V>, k: K, v: V)
    requires f.Keys !! w.Keys
    ensures (f + w)[k := v] == f + w[k := v]
    ensures k !in f + w ==> f.Keys !! w[k := v].Keys
    ensures (f + w) - w.Keys == f
  {}

  /** The split of the directory into foreign entries and assets. */
  ghost predicate Splits(before: map<string, Node>, assets: seq<Asset>, weather: nat -> Weather, i: nat, now: map<string, Node>)
    requires i <= |assets|
  {
    && now == Foreign(before, assets, weather, i) + Written(assets[..i])
    && Foreign(before, assets, weather, i).Keys !! Names(assets[..i])
  }

  /** One write keeps the split, and undoing what was written leaves the foreign entries. */
  lemma WriteStep(before: map<string, Node>, assets: seq<Asset>, weather: nat -> Weather, i: nat, now: map<string, Node>)
    requires i < |assets| && Splits(before, assets, weather, i, now)
    ensures var arrived := weather(i).arrivals + now;
      && arrived - Names(assets[..i]) == Foreign(before, assets, weather, i + 1)
      && (assets[i].name !in arrived ==>
            Splits(before, assets, weather, i + 1, arrived[assets[i].name := File(assets[i].data)]))
  {
    hide Names;
    var f, w := Foreign(before, assets, weather, i), Written(assets[..i]);
    ArrivalSplits(weather(i).arrivals, f, w);
    assert assets[..i + 1][..i] == assets[..i];
    assert Foreign(before, assets, weather, i + 1) == (weather(i).arrivals - Names(assets[..i])) + f;
    hide Foreign;
    EntryAdded(Foreign(before, assets, weather, i + 1), w, assets[i].name, File(assets[i].data));
  }

  lemma SplitsAtStart(before: map<string, Node>, assets: seq<Asset>, weather: nat -> Weather)
    ensures Splits(before, assets, weather, 0, before) && Foreign(before, assets, weather, 0) == before
  {}

  /** When asset `i` can be written, given the split. */
  lemma WriteMeets(before: map<string, Node>, assets: seq<Asset>, weather: nat -> Weather, i: nat, now: map<string, Node>)
    requires i < |assets| && Splits(before, assets, weather, i, now)
    ensures assets[i].name !in weather(i).arrivals + now && weather(i).outcome.Fine? <==> ClearAt(before, assets, weather, i)
  {
    var name := assets[i].name;
    InForeign(before, assets, weather, i, name);
    assert name in Names(assets[..i]) <==> exists j :: 0 <= j < i && assets[j].name == name by {
      if j :| 0 <= j < i && assets[j].name == name {
        assert assets[..i][j].name == name;
      }
    }
    forall j | 0 <= j < i && name in Names(assets[..j]) ensures name in Names(assets[..i]) {
      var m :| 0 <= m < j && assets[..j][m].name == name;
      assert assets[m].name == name;
    }
  }

  lemma TakenNotClear(before: map<string, Node>, assets: seq<Asset>, weather: nat -> Weather, i: nat)
    requires i < |assets| && assets[i].name in before
    ensures !ClearAt(before, assets, weather, i)
  {}

  class Directory {
    var entries: map<string, Node>

    constructor (entries: map<string, Node>)
      ensures this.entries == entries
    {
      this.entries := entries;
    }

    /** `write_new`: exclusive creation, and no trace of a write that failed part way. */
    method WriteNew(a: Asset, w: Weather) returns (ok: bool)
      modifies this
      ensures var arrived := w.arrivals + old(entries);
        && (ok <==> a.name !in arrived && w.outcome.Fine?)
        && entries == if ok then arrived[a.name := File(a.data)] else arrived
    {
      entries := w.arrivals + entries;
      if a.name in entries || w.outcome.CreateFails? {
        return false;
      }
      entries := entries[a.name := File([])];
      if w.outcome.WriteFails? {
        var kept := if w.outcome.kept <= |a.data| then w.outcome.kept else |a.data|;
        entries := entries[a.name := File(a.data[..kept])];
        entries := entries - {a.name};
        return false;
      }
      entries := entries[a.name := File(a.data)];
      return true;
    }

    /** The cleanup of a failed copy. */
    method Unlink(assets: seq<Asset>)
      modifies this
      ensures entries == old(entries) - Names(assets)
    {
      assert Names(assets[..0]) == {};
      hide Names;
      var i := 0;
      while i < |assets|
        invariant 0 <= i <= |assets|
        invariant entries == old(entries) - Names(assets[..i])
      {
        assert assets[..i + 1][..i] == assets[..i];
        NamesSnoc(assets[..i + 1]);
        entries := entries - {assets[i].name};
        i := i + 1;
      }
      assert assets[..i] == assets;
    }

    /**
      `copy_new`: it adds every asset exactly when no name is taken and no write fails; otherwise
      the directory is left with what it held and what others created, and nothing is overwritten.
    */
    method CopyNew(assets: seq<Asset>, weather: nat -> Weather) returns (ok: bool, ghost steps: nat)
      modifies this
      ensures ok <==> Clear(old(entries), assets, weather)
      ensures ok ==> Splits(old(entries), assets, weather, |assets|, entries)
      ensures !ok ==> steps <= |assets| && entries == Foreign(old(entries), assets, weather, steps)
    {
      hide Names, Foreign, Written, ClearAt, Splits;
      ghost var before := entries;
      SplitsAtStart(before, assets, weather);
      steps := 0;
      var i := 0;
      while i < |assets|
        invariant 0 <= i <= |assets|
        invariant entries == before
      {
        if assets[i].name in entries {
          TakenNotClear(before, assets, weather, i);
          return false, 0;
        }
        i := i + 1;
      }
      i := 0;
      while i < |assets|
        invariant 0 <= i <= |assets|
        invariant Splits(before, assets, weather, i, entries)
        invariant forall j | 0 <= j < i :: ClearAt(before, assets, weather, j)
      {
        WriteStep(before, assets, weather, i, entries);
        WriteMeets(before, assets, weather, i, entries);
        ok := WriteNew(assets[i], weather(i));
        if !ok {
          Unlink(assets[..i]);
          steps := i + 1;
          assert !ClearAt(before, assets, weather, i);
          return;
        }
        i := i + 1;
      }
      return true, 0;
    }
  }

  // ------------------------------------------------ names and the manifest

  datatype Args = Args(version: string, revision: string, runId: string)

  /**
    The parts of the program that stay abstract: SHA-256 in hexadecimal, whether `validate_archive`
    accepts bytes for a target, and `json_bytes(parse_json(...))`, which is None on malformed text.
  */
  datatype World = World(hash: Bytes -> string, archiveOk: (Bytes, Target) -> bool, reparse: Bytes -> Option<Bytes>)

  const TARGETS: seq<Target> := [X86Linux, ArmLinux64, I686Linux, ArmLinux32, X86Darwin, ArmDarwin]
  const MANIFEST: string := "binary-manifest.json"

  function Architecture(t: Target): string {
    match t
    case X86Linux => "x86_64"
    case ArmLinux64 => "aarch64"
    case I686Linux => "i686"
    case ArmLinux32 => "armv7"
    case X86Darwin => "x86_64"
    case ArmDarwin => "aarch64"
  }

  function Vendor(t: Target): string {
    if t.X86Darwin? || t.ArmDarwin? then "-apple" else "-unknown"
  }

  function System(t: Target): string {
    if t.X86Darwin? || t.ArmDarwin? then "-darwin" else if t.ArmLinux32? then "-linux-musleabihf" else "-linux-musl"
  }

  /** The target triple, such as "x86_64-unknown-linux-musl". */
  function TargetName(t: Target): (s: string)
    ensures 19 <= |s| <= 30
  {
    Architecture(t) + Vendor(t) + System(t)
  }

  function Root(args: Args, t: Target): string {
    "boxferry-" + args.version + "-" + TargetName(t)
  }

  function ArchiveName(args: Args, t: Target): string {
    Root(args, t) + ".tar.gz"
  }

  function WorkerName(args: Args, t: Target): string {
    "boxferry-cli-" + args.revision + "-" + args.runId + "-" + TargetName(t)
  }

  lemma TargetNameInjective(t: Target, u: Target)
    requires TargetName(t) == TargetName(u)
    ensures t == u
  {}

  lemma Cancel(a: string, x: string, y: string, b: string)
    requires a + x + b == a + y + b
    ensures x == y
  {
    assert |x| == |y|;
    assert x == (a + x + b)[|a|..|a| + |x|];
    assert y == (a + y + b)[|a|..|a| + |y|];
  }

  /** The six archives and the manifest have seven different names. */
  lemma ArchiveNamesDiffer(args: Args, t: Target, u: Target)
    ensures ArchiveName(args, t) == ArchiveName(args, u) ==> t == u
    ensures ArchiveName(args, t) != MANIFEST
  {
    hide TargetName;
    assert ArchiveName(args, t)[1] == 'o' && MANIFEST[1] == 'i';
    if ArchiveName(args, t) == ArchiveName(args, u) {
      Cancel("boxferry-" + args.version + "-", TargetName(t), TargetName(u), ".tar.gz");
      TargetNameInjective(t, u);
    }
  }

  function Quoted(s: string): string {
    "\"" + s + "\""
  }

  function RecordText(args: Args, t: Target, hash: string): string {
    "    {\n      \"name\": " + Quoted(ArchiveName(args, t)) + ",\n      \"sha256\": " + Quoted(hash)
    + ",\n      \"target\": " + Quoted(TargetName(t)) + "\n    }"
  }

  function RecordsText(args: Args, world: World, data: seq<Bytes>, k: nat): string
    requires k <= |data| == |TARGETS|
  {
    if k == 0 then ""
    else RecordsText(args, world, data, k - 1) + (if k == 1 then "" else ",\n") + RecordText(args, TARGETS[k - 1], world.hash(data[k - 1]))
  }

  /** `json_bytes(manifest(args, records))`: sorted keys, two spaces of indentation, a final newline. */
  function ManifestBytes(args: Args, world: World, data: seq<Bytes>): Bytes
    requires |data| == |TARGETS|
  {
    Ascii("{\n  \"archives\": [\n" + RecordsText(args, world, data, |TARGETS|) + "\n  ],\n  \"github_run_id\": " + Quoted(args.runId)
          + ",\n  \"revision\": " + Quoted(args.revision) + ",\n  \"schema_version\": 1,\n  \"version\": " + Quoted(args.version) + "\n}\n")
  }

  /** The lengths that `binding` admits, and those of a digest in hexadecimal. */
  ghost predicate Bound(args: Args, world: World) {
    && 1 <= |args.version| <= 128 && |args.revision| == 40 && 1 <= |args.runId| <= 20
    && forall b :: |world.hash(b)| == 64
  }

  lemma {:induction false} RecordsShort(args: Args, world: World, data: seq<Bytes>, k: nat)
    requires k <= |data| == |TARGETS| && Bound(args, world)
    ensures |RecordsText(args, world, data, k)| <= 400 * k
    decreases k
  {
    hide TargetName;
    if k > 0 {
      RecordsShort(args, world, data, k - 1);
      assert |world.hash(data[k - 1])| == 64;
    }
  }

  /** The manifest always fits the bound its reader sets. */
  lemma ManifestFits(args: Args, world: World, data: seq<Bytes>)
    requires |data| == |TARGETS| && Bound(args, world)
    ensures 0 < |ManifestBytes(args, world, data)| <= Archive.MAX_TEXT
  {
    RecordsShort(args, world, data, |TARGETS|);
  }

  /**
    A finding: `binding` admits versions of 128 characters, but the archive root has room for a
    version and a target of 145 characters together, since ustar keeps at most 155 before the slash.
  */
  lemma PackageableIff(args: Args, t: Target)
    requires PlainText(args.version)
    ensures Archive.Representable(Ascii(Root(args, t))) <==> |args.version| + |TargetName(t)| <= 145
  {
    assert PlainText("boxferry-") && PlainText("-");
    hide TargetName, PlainText, Archive.Representable, Archive.PlainRoot;
    TargetNamePlain(t);
    PlainJoin("boxferry-", args.version);
    PlainJoin("boxferry-" + args.version, "-");
    PlainJoin("boxferry-" + args.version + "-", TargetName(t));
    PlainRootOf(Root(args, t));
    Archive.RepresentableIff(Ascii(Root(args, t)));
  }

  /** No target leaves room for a version of 127 characters or more. */
  lemma LongVersionsUnpackageable(args: Args, t: Target)
    requires PlainText(args.version) && |args.version| >= 127
    ensures !Archive.Representable(Ascii(Root(args, t)))
  {
    hide Archive.Representable, PlainText;
    PackageableIff(args, t);
  }

  /** A pre-release of 128 characters: digits and dots, a hyphen, and one identifier of letters. */
  function LongVersion(): (v: string)
    ensures |v| == 128 && v[..6] == "1.0.0-" && forall i | 6 <= i < 128 :: v[i] == 'a'
  {
    "1.0.0-" + seq(122, i => 'a')
  }

  /** The failing input: `binding` admits this version, and for every target some member has no ustar header. */
  lemma LongVersionRefused(args: Args, t: Target, files: map<Archive.Member, Bytes>)
    requires args.version == LongVersion() && files.Keys == Archive.ALL
    ensures exists m :: m in Archive.MEMBERS && Ustar.ToBuf(Archive.Info(Ascii(Root(args, t)), m, |files[m]|)).None?
  {
    var v := LongVersion();
    assert PlainText(v) by {
      assert v[..6] == "1.0.0-";
      forall i | 0 <= i < |v| ensures 0 < v[i] as int < 128 && v[i] != '/' {
        assert i < 6 ==> v[i] == v[..6][i];
      }
    }
    LongVersionsUnpackageable(args, t);
    Unrepresentable(Ascii(Root(args, t)), files);
  }

  lemma Unrepresentable(root: Bytes, files: map<Archive.Member, Bytes>)
    requires !Archive.Representable(root) && files.Keys == Archive.ALL
    ensures exists m :: m in Archive.MEMBERS && Ustar.ToBuf(Archive.Info(root, m, |files[m]|)).None?
  {
    hide Ustar.ToBuf, Ustar.SplitPath, Archive.Path;
    var m :| m in Archive.MEMBERS && Ustar.SplitPath(Archive.Path(root, m)).None?;
    var info := Archive.Info(root, m, |files[m]|);
    if Ustar.ToBuf(info).Some? {
      Archive.HeaderNeedsPath(info);
    }
  }

  /** ASCII without NUL or slash, as the pattern for versions requires. */
  predicate PlainText(s: string) {
    forall i | 0 <= i < |s| :: 0 < s[i] as int < 128 && s[i] != '/'
  }

  lemma PlainJoin(a: string, b: string)
    ensures PlainText(a + b) <==> PlainText(a) && PlainText(b)
  {
    forall i | 0 <= i < |a| ensures (a + b)[i] == a[i] {}
    forall i | 0 <= i < |b| ensures (a + b)[|a| + i] == b[i] {}
  }

  lemma PlainRootOf(s: string)
    requires PlainText(s) && s != ""
    ensures Archive.PlainRoot(Ascii(s))
  {
    assert '/' as int == Ustar.SLASH;
    forall i | 0 <= i < |s| ensures Ascii(s)[i] != 0 && Ascii(s)[i] != Ustar.SLASH {
      assert Ascii(s)[i] == s[i] as int;
      assert s[i] == s[i] as int as char;
    }
  }

  lemma TargetNamePlain(t: Target)
    ensures PlainText(TargetName(t))
  {
    assert PlainText(Architecture(t));
    assert PlainText(Vendor(t));
    assert PlainText(System(t));
    hide PlainText, Architecture, Vendor, System;
    PlainJoin(Architecture(t), Vendor(t));
    PlainJoin(Architecture(t) + Vendor(t), System(t));
  }

  // ------------------------------------------------ collect and read_set

  /** `read_regular`: a regular file, not empty and within its bound. */
  function ReadRegular(entries: map<string, Node>, name: string, limit: nat): (r: Option<Bytes>)
    ensures r.Some? <==> name in entries && entries[name].File? && 0 < |entries[name].data| <= limit
  {
    if name in entries && entries[name].File? && 0 < |entries[name].data| <= limit then Some(entries[name].data) else None
  }

  /** An archive read from a directory and accepted for its target. */
  function ReadArchive(entries: map<string, Node>, args: Args, world: World, t: Target): Option<Bytes> {
    match ReadRegular(entries, ArchiveName(args, t), Archive.MAX_ARCHIVE)
    case None => None
    case Some(data) => if world.archiveOk(data, t) then Some(data) else None
  }

  /** The archive of one worker: its directory holds that canonical archive and nothing else. */
  function WorkerArchive(workers: map<string, Node>, args: Args, world: World, t: Target): Option<Bytes> {
    var name := WorkerName(args, t);
    if name in workers && workers[name].Folder? && workers[name].entries.Keys == {ArchiveName(args, t)}
    then ReadArchive(workers[name].entries, args, world, t) else None
  }

  /** The first `k` targets in order, each by `get`; None as soon as one fails. */
  function Each(get: Target -> Option<Bytes>, k: nat): (r: Option<seq<Bytes>>)
    requires k <= |TARGETS|
    ensures r.Some? <==> forall i | 0 <= i < k :: get(TARGETS[i]).Some?
    ensures r.Some? ==> |r.value| == k && forall i | 0 <= i < k :: get(TARGETS[i]) == Some(r.value[i])
  {
    if k == 0 then Some([])
    else
      match Each(get, k - 1)
      case None => None
      case Some(s) =>
        match get(TARGETS[k - 1])
        case None => None
        case Some(data) => Some(s + [data])
  }

  function Assets(args: Args, data: seq<Bytes>): (r: seq<Asset>)
    requires |data| <= |TARGETS|
    ensures |r| == |data|
  {
    seq(|data|, i requires 0 <= i < |data| => Asset(ArchiveName(args, TARGETS[i]), data[i]))
  }

  function ExpectedNames(name: Target -> string): set<string> {
    set i | 0 <= i < |TARGETS| :: name(TARGETS[i])
  }

  function SetNames(args: Args): set<string> {
    ExpectedNames(t => ArchiveName(args, t)) + {MANIFEST}
  }

  /** What `read_set` returns for a directory: the six archives in target order, or nothing. */
  function ReadSpec(entries: map<string, Node>, args: Args, world: World): Option<seq<Asset>> {
    if entries.Keys != SetNames(args) then None
    else
      match Each(t => ReadArchive(entries, args, world, t), |TARGETS|)
      case None => None
      case Some(data) =>
        match ReadRegular(entries, MANIFEST, Archive.MAX_TEXT)
        case None => None
        case Some(text) => if world.reparse(text) == Some(ManifestBytes(args, world, data)) then Some(Assets(args, data)) else None
  }

  /** What `collect` gathers from the worker directories. */
  function GatherSpec(input: Node, args: Args, world: World): (r: Option<seq<Bytes>>)
    ensures r.Some? ==> |r.value| == |TARGETS|
  {
    if !input.Folder? || input.entries.Keys != ExpectedNames(t => WorkerName(args, t)) then None
    else Each(t => WorkerArchive(input.entries, args, world, t), |TARGETS|)
  }

  function Collected(args: Args, world: World, data: seq<Bytes>): (r: seq<Asset>)
    requires |data| == |TARGETS|
    ensures |r| == |TARGETS| + 1
  {
    Assets(args, data) + [Asset(MANIFEST, ManifestBytes(args, world, data))]
  }

  /** `names`: entries one by one, refused as soon as they exceed the maximum. */
  method ListNames(entries: map<string, Node>, maximum: nat) returns (r: Option<set<string>>)
    ensures r == if |entries.Keys| <= maximum then Some(entries.Keys) else None
  {
    var found: set<string>, rest := {}, entries.Keys;
    while rest != {}
      invariant found + rest == entries.Keys && found !! rest
      invariant |found| <= maximum
      decreases rest
    {
      var name :| name in rest;
      found, rest := found + {name}, rest - {name};
      if |found| > maximum {
        SubsetSize(found, entries.Keys);
        return None;
      }
    }
    return Some(found);
  }

  method ReadSet(source: Node, args: Args, world: World) returns (r: Option<seq<Asset>>)
    ensures r == if source.Folder? then ReadSpec(source.entries, args, world) else None
  {
    hide ReadArchive, ManifestBytes, SetNames;
    if !source.Folder? {
      return None;
    }
    var entries := source.entries;
    var listed := ListNames(entries, |SetNames(args)|);
    if listed != Some(SetNames(args)) {
      return None;
    }
    ghost var get := t => ReadArchive(entries, args, world, t);
    var data, i := [], 0;
    while i < |TARGETS|
      invariant 0 <= i <= |TARGETS|
      invariant Each(get, i) == Some(data)
    {
      var one := ReadArchive(entries, args, world, TARGETS[i]);
      assert get(TARGETS[i]) == one;
      if one.None? {
        return None;
      }
      data := data + [one.value];
      i := i + 1;
    }
    var text := ReadRegular(entries, MANIFEST, Archive.MAX_TEXT);
    if text.None? || world.reparse(text.value) != Some(ManifestBytes(args, world, data)) {
      return None;
    }
    return Some(Assets(args, data));
  }

  method Gather(input: Node, args: Args, world: World) returns (r: Option<seq<Bytes>>)
    ensures r == GatherSpec(input, args, world)
  {
    hide WorkerArchive;
    if !input.Folder? {
      return None;
    }
    var expected := ExpectedNames(t => WorkerName(args, t));
    var listed := ListNames(input.entries, |expected|);
    if listed != Some(expected) {
      return None;
    }
    ghost var get := t => WorkerArchive(input.entries, args, world, t);
    var data, i := [], 0;
    while i < |TARGETS|
      invariant 0 <= i <= |TARGETS|
      invariant Each(get, i) == Some(data)
    {
      var one := WorkerArchive(input.entries, args, world, TARGETS[i]);
      assert get(TARGETS[i]) == one;
      if one.None? {
        return None;
      }
      data := data + [one.value];
      i := i + 1;
    }
    return Some(data);
  }

  /** `collect`: gather everything, then copy it into an empty directory outside the input. */
  method Collect(input: Node, args: Args, world: World, outside: bool, output: Directory, weather: nat -> Weather)
    returns (ok: bool, ghost steps: nat)
    modifies output
    ensures var data := GatherSpec(input, args, world); var before := old(output.entries);
      && (ok <==> data.Some? && outside && before == map[] && Clear(before, Collected(args, world, data.value), weather))
      && (ok ==> Splits(before, Collected(args, world, data.value), weather, |TARGETS| + 1, output.entries))
      && (!ok && data.Some? ==> steps <= |TARGETS| + 1 && output.entries == Foreign(before, Collected(args, world, data.value), weather, steps))
      && (!ok && data.None? ==> output.entries == before)
  {
    hide GatherSpec, Clear, Splits, Collected;
    steps := 0;
    var data := Gather(input, args, world);
    if data.None? {
      return false, 0;
    }
    var assets := Collected(args, world, data.value);
    if !outside || output.entries != map[] {
      return false, 0;
    }
    ok, steps := output.CopyNew(assets, weather);
  }

  // ------------------------------------------------ what is collected can be read back

  /** The reader's text round trip: the canonical manifest parses and encodes to itself. */
  ghost predicate Reparses(args: Args, world: World, data: seq<Bytes>)
    requires |data| == |TARGETS|
  {
    var text := ManifestBytes(args, world, data);
    world.reparse(text) == Some(text)
  }

  lemma CollectedNames(args: Args, world: World, data: seq<Bytes>)
    requires |data| == |TARGETS|
    ensures Names(Collected(args, world, data)) == SetNames(args)
  {
    hide ArchiveName, ManifestBytes;
    var assets := Collected(args, world, data);
    forall x ensures x in Names(assets) <==> x in SetNames(args) {
      if i :| 0 <= i < |assets| && assets[i].name == x {
        assert i < 6 ==> (t => ArchiveName(args, t))(TARGETS[i]) == x;
      }
      if i :| 0 <= i < |TARGETS| && (t => ArchiveName(args, t))(TARGETS[i]) == x {
        assert assets[i].name == x;
      }
      assert assets[6].name == MANIFEST;
    }
  }

  /** Distinct names are each written with their own data. */
  lemma {:induction false} WrittenHas(assets: seq<Asset>, i: nat)
    requires i < |assets|
    requires forall j, k | 0 <= j < k < |assets| :: assets[j].name != assets[k].name
    ensures assets[i].name in Written(assets) && Written(assets)[assets[i].name] == File(assets[i].data)
    decreases |assets|
  {
    var n := |assets| - 1;
    if i < n {
      WrittenHas(assets[..n], i);
    }
  }

  lemma TargetsDiffer(i: nat, j: nat)
    requires i < j < |TARGETS|
    ensures TARGETS[i] != TARGETS[j]
  {}

  lemma CollectedDistinct(args: Args, world: World, data: seq<Bytes>)
    requires |data| == |TARGETS|
    ensures var assets := Collected(args, world, data);
      forall j, k | 0 <= j < k < |assets| :: assets[j].name != assets[k].name
  {
    hide ArchiveName, ManifestBytes;
    var assets := Collected(args, world, data);
    forall j, k | 0 <= j < k < |assets| ensures assets[j].name != assets[k].name {
      ArchiveNamesDiffer(args, TARGETS[j], if k < 6 then TARGETS[k] else TARGETS[j]);
      if k < 6 {
        TargetsDiffer(j, k);
      }
    }
  }

  /** The six archives, each nonempty, within its bound and accepted for its target. */
  ghost predicate Archives(world: World, data: seq<Bytes>) {
    |data| == |TARGETS| && forall i | 0 <= i < |TARGETS| :: 0 < |data[i]| <= Archive.MAX_ARCHIVE && world.archiveOk(data[i], TARGETS[i])
  }

  lemma GatheredAreArchives(input: Node, args: Args, world: World)
    requires GatherSpec(input, args, world).Some?
    ensures Archives(world, GatherSpec(input, args, world).value)
  {
    var data := GatherSpec(input, args, world).value;
    var get := t => WorkerArchive(input.entries, args, world, t);
    forall i | 0 <= i < |TARGETS| ensures 0 < |data[i]| <= Archive.MAX_ARCHIVE && world.archiveOk(data[i], TARGETS[i]) {
      assert get(TARGETS[i]).Some?;
    }
  }

  lemma WrittenArchive(args: Args, world: World, data: seq<Bytes>, i: nat)
    requires Archives(world, data) && i < |TARGETS|
    ensures ReadArchive(Written(Collected(args, world, data)), args, world, TARGETS[i]) == Some(data[i])
  {
    hide ManifestBytes, ArchiveName, Names, Written;
    var assets := Collected(args, world, data);
    CollectedDistinct(args, world, data);
    WrittenHas(assets, i);
    assert assets[i] == Asset(ArchiveName(args, TARGETS[i]), data[i]);
  }

  lemma WrittenManifest(args: Args, world: World, data: seq<Bytes>)
    requires |data| == |TARGETS| && Bound(args, world)
    ensures ReadRegular(Written(Collected(args, world, data)), MANIFEST, Archive.MAX_TEXT) == Some(ManifestBytes(args, world, data))
  {
    hide ManifestBytes, Names, Written, Bound;
    CollectedDistinct(args, world, data);
    WrittenHas(Collected(args, world, data), |TARGETS|);
    ManifestFits(args, world, data);
  }

  /** A directory holding just the collected assets is read back in full and in order. */
  lemma WrittenReadsBack(args: Args, world: World, data: seq<Bytes>)
    requires |data| == |TARGETS| && Archives(world, data) && Bound(args, world) && Reparses(args, world, data)
    ensures ReadSpec(Written(Collected(args, world, data)), args, world) == Some(Assets(args, data))
  {
    hide ManifestBytes, SetNames, Names, Collected, ReadArchive, ReadRegular, Bound, Archives, Written;
    CollectedNames(args, world, data);
    var now := Written(Collected(args, world, data));
    var get := t => ReadArchive(now, args, world, t);
    forall i | 0 <= i < |TARGETS| ensures get(TARGETS[i]) == Some(data[i]) {
      WrittenArchive(args, world, data, i);
    }
    assert Each(get, |TARGETS|).Some?;
    assert Each(get, |TARGETS|).value == data;
    WrittenManifest(args, world, data);
  }

  /**
    The round trip: what a successful `collect` leaves behind is accepted by `read_set` under the
    same arguments exactly when nobody else put an entry there, and the same six archives come back
    in the same order.
  */
  lemma CollectedReadsBack(input: Node, args: Args, world: World, weather: nat -> Weather, now: map<string, Node>)
    requires GatherSpec(input, args, world).Some? && Bound(args, world) && Reparses(args, world, GatherSpec(input, args, world).value)
    requires Splits(map[], Collected(args, world, GatherSpec(input, args, world).value), weather, |TARGETS| + 1, now)
    ensures var data := GatherSpec(input, args, world).value;
      ReadSpec(now, args, world) ==
        if Foreign(map[], Collected(args, world, data), weather, |TARGETS| + 1) == map[] then Some(Assets(args, data)) else None
  {
    hide ManifestBytes, SetNames, Names, Collected, ReadArchive, ReadRegular, Bound, Foreign, Written, GatherSpec, Reparses, Archives;
    var data := GatherSpec(input, args, world).value;
    var assets := Collected(args, world, data);
    var foreign := Foreign(map[], assets, weather, |TARGETS| + 1);
    assert assets[..|TARGETS| + 1] == assets;
    CollectedNames(args, world, data);
    if foreign == map[] {
      assert now == Written(assets);
      GatheredAreArchives(input, args, world);
      hide ReadSpec;
      WrittenReadsBack(args, world, data);
    } else {
      var name :| name in foreign;
      assert name in now && name !in SetNames(args);
    }
  }
}
