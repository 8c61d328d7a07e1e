/** Every record `run_task` marks passed meets the validator's checks, and exactly when it does not. */
module EvidenceLaws {
  import opened Wrappers
  import opened Sequences
  import opened Sampler
  import opened Evidence

  // ------------------------------------------------ what registering leaves behind

  ghost predicate GoodRecord(r: Record) {
    && r.sources != []
    && (forall i, j | 0 <= i < j < |r.sources| :: (r.sources[i].role, r.sources[i].path) != (r.sources[j].role, r.sources[j].path))
    && (forall role :: role in r.roles <==> exists x :: x in r.sources && x.role == role)
    && (forall path :: path in r.paths <==> exists x :: x in r.sources && x.path == path)
    && (forall x | x in r.sources :: x.observation.view.device == r.device)
    && r.minimum <= r.baseline
  }

  ghost predicate RoleRegistered(fs: seq<Record>, role: string) {
    exists r :: r in fs && role in r.roles
  }

  ghost function Good(): Record -> bool {
    (r: Record) => GoodRecord(r)
  }

  /** The records after registering the paths `done`, whose roles are all different. */
  ghost predicate Registered(fs: seq<Record>, done: seq<(string, string)>) {
    && (forall i, j | 0 <= i < j < |fs| :: fs[i].device != fs[j].device)
    && (forall i | 0 <= i < |fs| :: Good()(fs[i]))
    && (forall r, x | r in fs && x in r.sources :: (x.role, x.path) in done)
    && (forall d | d in done :: RoleRegistered(fs, d.0))
  }

  ghost predicate DistinctRoles(paths: seq<(string, string)>) {
    forall i, j | 0 <= i < j < |paths| :: paths[i].0 != paths[j].0
  }

  lemma SourceAdded(r: Record, role: string, path: string, o: Observation)
    requires r.sources == [] ==> r.roles == [] && r.paths == []
    requires r.sources != [] ==> GoodRecord(r)
    requires r.minimum <= r.baseline && o.view.device == r.device
    requires forall x | x in r.sources :: x.role != role
    ensures GoodRecord(AddSource(r, role, path, o)) && role in AddSource(r, role, path, o).roles
    ensures forall x | x in AddSource(r, role, path, o).sources :: x in r.sources || (x.role == role && x.path == path)
    ensures forall y | y in r.roles :: y in AddSource(r, role, path, o).roles
    ensures AddSource(r, role, path, o).device == r.device
  {
    var t, x := AddSource(r, role, path, o), Source(role, path, o);
    assert t.sources == r.sources + [x];
    assert x in t.sources && forall y :: y in t.sources <==> y in r.sources || y == x;
    assert forall y :: y in t.roles <==> y in r.roles || y == role;
    assert forall y :: y in t.paths <==> y in r.paths || y == path;
  }

  /** Registering one more path, under a role not used before, keeps everything. */
  lemma RegisterKeeps(fs: seq<Record>, done: seq<(string, string)>, role: string, path: string, calls: Readings, k: nat)
    requires Registered(fs, done) && forall d | d in done :: d.0 != role
    requires Register(fs, role, path, calls, k).Some?
    ensures Registered(Register(fs, role, path, calls, k).value.0, done + [(role, path)])
  {
    hide AddSource;
    var o := calls(k).observation;
    match IndexOf(fs, o.view.device)
    case Some(i) =>
      assert Good()(fs[i]);
      assert fs[i] in fs;
      SourceAdded(fs[i], role, path, o);
      Replaced(fs, done, i, AddSource(fs[i], role, path, o), role, path);
    case None =>
      var free := calls(k + 1).free.value;
      var blank := Record(o.view.device, [], [], [], free, free);
      SourceAdded(blank, role, path, o);
      Appended(fs, done, AddSource(blank, role, path, o), role, path);
  }

  lemma Replaced(fs: seq<Record>, done: seq<(string, string)>, i: nat, r: Record, role: string, path: string)
    requires Registered(fs, done) && i < |fs|
    requires GoodRecord(r) && r.device == fs[i].device && role in r.roles
    requires forall x | x in r.sources :: x in fs[i].sources || (x.role == role && x.path == path)
    requires forall y | y in fs[i].roles :: y in r.roles
    ensures Registered(fs[i := r], done + [(role, path)])
  {
    hide GoodRecord;
    var next := fs[i := r];
    assert fs[i] in fs && next[i] == r;
    forall q, x | q in next && x in q.sources ensures (x.role, x.path) in done + [(role, path)] {
      assert q == r || q in fs;
    }
    forall d | d in done + [(role, path)] ensures RoleRegistered(next, d.0) {
      if d in done {
        var q :| q in fs && d.0 in q.roles;
        var j :| 0 <= j < |fs| && fs[j] == q;
        assert next[j] in next;
      } else {
        assert r in next;
      }
    }
  }

  lemma Appended(fs: seq<Record>, done: seq<(string, string)>, r: Record, role: string, path: string)
    requires Registered(fs, done)
    requires GoodRecord(r) && role in r.roles && forall x | x in fs :: x.device != r.device
    requires forall x | x in r.sources :: x.role == role && x.path == path
    ensures Registered(fs + [r], done + [(role, path)])
  {
    hide GoodRecord;
    var next := fs + [r];
    assert r in next && forall q | q in fs :: q in next;
    forall i, j | 0 <= i < j < |next| ensures next[i].device != next[j].device {
      if j == |fs| {
        assert fs[i] in fs;
      }
    }
    forall d | d in done + [(role, path)] ensures RoleRegistered(next, d.0) {
      if d in done {
        var q :| q in fs && d.0 in q.roles;
        assert q in next;
      }
    }
  }

  lemma {:induction false} RegisterAllKeeps(fs: seq<Record>, done: seq<(string, string)>, paths: seq<(string, string)>, calls: Readings, k: nat)
    requires Registered(fs, done) && DistinctRoles(done + paths)
    requires !RegisterAll(fs, paths, calls, k).1
    ensures Registered(RegisterAll(fs, paths, calls, k).0, done + paths)
    decreases |paths|
  {
    hide Registered, Register;
    if paths == [] {
      assert done + paths == done;
    } else {
      var all := done + paths;
      assert all[|done|] == paths[0];
      forall d | d in done ensures d.0 != paths[0].0 {
        var i :| 0 <= i < |done| && done[i] == d;
        assert all[i].0 != all[|done|].0;
      }
      RegisterKeeps(fs, done, paths[0].0, paths[0].1, calls, k);
      var next := Register(fs, paths[0].0, paths[0].1, calls, k).value;
      assert done + [(paths[0].0, paths[0].1)] + paths[1..] == all;
      RegisterAllKeeps(next.0, done + [(paths[0].0, paths[0].1)], paths[1..], calls, next.1);
    }
  }

  lemma ShapeRegistered(a: seq<Record>, b: seq<Record>, done: seq<(string, string)>)
    requires Registered(a, done) && SameShape(a, b) && forall i | 0 <= i < |a| :: b[i].minimum <= b[i].baseline
    ensures Registered(b, done)
  {
    forall i | 0 <= i < |b|
      ensures Good()(b[i]) && b[i].device == a[i].device && b[i].roles == a[i].roles && b[i].sources == a[i].sources
    {
      assert Good()(a[i]) && a[i].(minimum := 0) == b[i].(minimum := 0);
    }
    forall r, x | r in b && x in r.sources ensures (x.role, x.path) in done {
      var i :| 0 <= i < |b| && b[i] == r;
      assert a[i] in a;
    }
    forall d | d in done ensures RoleRegistered(b, d.0) {
      var r :| r in a && d.0 in r.roles;
      var i :| 0 <= i < |a| && a[i] == r;
      assert b[i] in b;
    }
  }

  // ------------------------------------------------ rounding

  /** Rounding a drop up to mebibytes agrees with the rounded ends, or is one more. */
  lemma RoundedDrop(b: nat, m: nat)
    requires m <= b
    ensures var g := (b - m + MEBIBYTE - 1) / MEBIBYTE;
            && m / MEBIBYTE <= b / MEBIBYTE
            && (g == b / MEBIBYTE - m / MEBIBYTE || g == b / MEBIBYTE - m / MEBIBYTE + 1)
  {}

  // ------------------------------------------------ from the records to the accepted snapshot

  lemma MapMembers<T(!new), U(!new)>(f: T -> U, s: seq<T>, y: U)
    ensures y in Map(f, s) <==> exists x :: x in s && y == f(x)
  {
    if x :| x in s && y == f(x) {
      var i :| 0 <= i < |s| && s[i] == x;
      assert Map(f, s)[i] == y;
    }
    if y in Map(f, s) {
      var i :| 0 <= i < |s| && Map(f, s)[i] == y;
      assert s[i] in s;
    }
  }

  lemma SnapshotMembers(s: State, f: Filesystem)
    ensures f in SnapshotOf(s).filesystems <==> exists r :: r in s.filesystems && f == FilesystemOf()(r)
  {
    hide FilesystemOf, Sort, Map, DeviceLe, LeastBaseline;
    var unsorted := Map(FilesystemOf(), s.filesystems);
    MultisetMembers(SnapshotOf(s).filesystems, unsorted);
    MapMembers(FilesystemOf(), s.filesystems, f);
  }

  function DeviceOf(): Filesystem -> string {
    (f: Filesystem) => f.device
  }

  lemma DevicesStayDistinct(s: State)
    requires forall i, j | 0 <= i < j < |s.filesystems| :: s.filesystems[i].device != s.filesystems[j].device
    ensures var fs := SnapshotOf(s).filesystems; forall i, j | 0 <= i < j < |fs| :: fs[i].device != fs[j].device
  {
    var unsorted, sorted := Map(FilesystemOf(), s.filesystems), SnapshotOf(s).filesystems;
    MapPermutation(DeviceOf(), sorted, unsorted);
    assert Distinct(Map(DeviceOf(), unsorted));
    DistinctPermutation(Map(DeviceOf(), sorted), Map(DeviceOf(), unsorted));
    var devices := Map(DeviceOf(), sorted);
    forall i, j | 0 <= i < j < |sorted| ensures sorted[i].device != sorted[j].device {
      assert devices[i] != devices[j];
    }
  }

  /** One record's snapshot passes the checks that concern it alone. */
  lemma RecordAccepted(r: Record, wellPlaced: Source -> bool)
    requires GoodRecord(r) && forall x | x in r.sources :: wellPlaced(x)
    ensures var f := FilesystemOf()(r);
      && ObservationsAccepted(f, wellPlaced)
      && f.minimumMib <= f.baselineMib
      && (f.growthMib == f.baselineMib - f.minimumMib || f.growthMib == f.baselineMib - f.minimumMib + 1)
      && (forall role :: role in f.roles <==> role in r.roles)
  {
    var f := FilesystemOf()(r);
    MultisetMembers(f.roles, r.roles);
    MultisetMembers(f.paths, r.paths);
    RoundedDrop(r.baseline, r.minimum);
  }

  lemma ShownRoles(r: Record, role: string)
    ensures role in FilesystemOf()(r).roles <==> role in r.roles
  {
    MultisetMembers(FilesystemOf()(r).roles, r.roles);
  }

  lemma RolesShown(s: State, done: seq<(string, string)>, role: string)
    requires Registered(s.filesystems, done)
    ensures HasRole(SnapshotOf(s).filesystems, role) <==> exists d :: d in done && d.0 == role
  {
    hide SnapshotOf, FilesystemOf, GoodRecord;
    if f :| f in SnapshotOf(s).filesystems && role in f.roles {
      SnapshotMembers(s, f);
      var r :| r in s.filesystems && f == FilesystemOf()(r);
      ShownRoles(r, role);
      RegisteredRecord(s.filesystems, done, r);
      GoodRoles(r, role);
      var x :| x in r.sources && x.role == role;
      assert (x.role, x.path) in done;
    }
    if d :| d in done && d.0 == role {
      assert RoleRegistered(s.filesystems, d.0);
      var r :| r in s.filesystems && role in r.roles;
      var f := FilesystemOf()(r);
      ShownRoles(r, role);
      SnapshotMembers(s, f);
    }
  }

  lemma GoodRoles(r: Record, role: string)
    requires GoodRecord(r)
    ensures role in r.roles <==> exists x :: x in r.sources && x.role == role
  {}

  lemma SnapshotAccepted(task: Task, s: State, done: seq<(string, string)>, wellPlaced: Source -> bool)
    requires Registered(s.filesystems, done) && !s.diskError
    requires exists d :: d in done && d.0 == CHECKOUT
    requires exists d :: d in done && d.0 == TEMPORARY
    requires forall r, x | r in s.filesystems && x in r.sources :: wellPlaced(x)
    requires forall f | f in SnapshotOf(s).filesystems :: task.minimumDisk <= f.baselineMib
    ensures FilesystemsAccepted(task, SnapshotOf(s), wellPlaced) <==>
              (PODMAN in task.requiredTools ==> exists d :: d in done && d.0 == GRAPH_ROOT)
  {
    hide Registered, ObservationsAccepted, HasRole;
    var o := SnapshotOf(s);
    RolesShown(s, done, CHECKOUT);
    RolesShown(s, done, TEMPORARY);
    RolesShown(s, done, GRAPH_ROOT);
    RegisteredDevices(s.filesystems, done);
    DevicesStayDistinct(s);
    forall f | f in o.filesystems
      ensures ObservationsAccepted(f, wellPlaced) && f.minimumMib <= f.baselineMib
              && (f.growthMib == f.baselineMib - f.minimumMib || f.growthMib == f.baselineMib - f.minimumMib + 1)
    {
      SnapshotMembers(s, f);
      var r :| r in s.filesystems && f == FilesystemOf()(r);
      RegisteredRecord(s.filesystems, done, r);
      RecordAccepted(r, wellPlaced);
    }
    SumPermutation(GrowthOf(), o.filesystems, Map(FilesystemOf(), s.filesystems));
    RoleNeedsFilesystem(o.filesystems, CHECKOUT);
  }

  lemma RoleNeedsFilesystem(fs: seq<Filesystem>, role: string)
    ensures HasRole(fs, role) ==> fs != []
  {}

  lemma RegisteredDevices(fs: seq<Record>, done: seq<(string, string)>)
    requires Registered(fs, done)
    ensures forall i, j | 0 <= i < j < |fs| :: fs[i].device != fs[j].device
  {}

  lemma RegisteredRecord(fs: seq<Record>, done: seq<(string, string)>, r: Record)
    requires Registered(fs, done) && r in fs
    ensures GoodRecord(r)
  {
    var i :| 0 <= i < |fs| && fs[i] == r;
    assert Good()(fs[i]);
  }

  // ------------------------------------------------ the state at the end of a task

  lemma ShapesCompose(a: seq<Record>, b: seq<Record>, c: seq<Record>)
    requires SameShape(a, b) && SameShape(b, c)
    ensures SameShape(a, c)
  {
    forall i | 0 <= i < |a| ensures a[i].(minimum := 0) == c[i].(minimum := 0) {
      assert a[i].(minimum := 0) == b[i].(minimum := 0);
    }
  }

  lemma InitialSane(paths: seq<(string, string)>, memory: Option<int>, calls: Readings)
    requires !Initial(paths, memory, calls).diskError && DistinctRoles(paths)
    ensures Sane(Initial(paths, memory, calls)) && Registered(Initial(paths, memory, calls).filesystems, paths)
  {
    assert [] + paths == paths;
    RegisterAllKeeps([], [], paths, calls, 0);
    var fs := Initial(paths, memory, calls).filesystems;
    forall x | x in fs ensures x.sources != [] && x.minimum <= x.baseline {
      RegisteredRecord(fs, paths, x);
    }
  }

  lemma PathsDistinct(task: Task, env: Environment)
    ensures DistinctRoles(RegisteredPaths(task, env))
    ensures exists d :: d in RegisteredPaths(task, env) && d.0 == CHECKOUT
    ensures exists d :: d in RegisteredPaths(task, env) && d.0 == TEMPORARY
    ensures (exists d :: d in RegisteredPaths(task, env) && d.0 == GRAPH_ROOT) <==>
              PODMAN in task.requiredTools && env.podmanAtDiscovery && env.graphRoot.Some?
  {
    var p := RegisteredPaths(task, env);
    assert CHECKOUT[0] != TEMPORARY[0] && CHECKOUT[0] != GRAPH_ROOT[0] && TEMPORARY[0] != GRAPH_ROOT[0];
    assert p[0] == (CHECKOUT, env.checkout) && p[1] == (TEMPORARY, env.temporary);
    assert p[0] in p && p[1] in p;
    if |p| == 3 {
      assert p[2].0 == GRAPH_ROOT && p[2] in p;
    }
  }

  /** Without a disk error at the end there was none before, and the records are those first registered. */
  lemma FinalRecords(task: Task, env: Environment)
    requires !AtEnd(task, env).diskError
    ensures Registered(AtEnd(task, env).filesystems, RegisteredPaths(task, env))
    ensures SameShape(AfterPreflight(task, env).filesystems, AtEnd(task, env).filesystems)
  {
    hide Registered, SameShape, Initial;
    var s0 := Initial(RegisteredPaths(task, env), env.baselineMemory, env.baseline);
    var s1 := AfterPreflight(task, env);
    var s2 := Run(s1, env.during);
    var s3 := RssFallback(s2, env.fallbackRss);
    NoEarlierError(task, env);
    PathsDistinct(task, env);
    InitialSane(RegisteredPaths(task, env), env.baselineMemory, env.baseline);
    StepMonotone(s0, env.preflight);
    DiskRun(s1, env.during);
    StepMonotone(s3, env.final);
    ShapesCompose(s1.filesystems, s2.filesystems, AtEnd(task, env).filesystems);
    ShapesCompose(s0.filesystems, s1.filesystems, AtEnd(task, env).filesystems);
    ShapeRegistered(s0.filesystems, AtEnd(task, env).filesystems, RegisteredPaths(task, env)) by {
      assert forall x | x in AtEnd(task, env).filesystems :: x.minimum <= x.baseline;
    }
  }

  lemma NoEarlierError(task: Task, env: Environment)
    requires !AtEnd(task, env).diskError
    ensures !Initial(RegisteredPaths(task, env), env.baselineMemory, env.baseline).diskError
  {
    hide Initial, RegisteredPaths;
    ErrorLatched(AfterPreflight(task, env), env.during);
  }

  lemma {:induction false} ErrorLatched(s: State, samples: seq<Sample>)
    ensures s.diskError ==> Run(s, samples).diskError
  {
    if samples != [] {
      ErrorLatched(s, samples[..|samples| - 1]);
    }
  }

  // ------------------------------------------------ the main law

  /** All that is used of `round(_, 3)`: it is monotone, and whole seconds are kept. */
  ghost predicate Rounds(round: int -> int) {
    && (forall a: int, b: int | a <= b :: round(a) <= round(b))
    && (forall n: int :: round(n * 1000000) == n * 1000)
  }

  ghost predicate WellPlaced(fs: seq<Record>, wellPlaced: Source -> bool) {
    forall r, x | r in fs && x in r.sources :: wellPlaced(x)
  }

  /**
    Every record that `run_task` marks passed is accepted by the validator, if and only if podman,
    when the task requires it, was already found when the sampler chose what to measure.
  */
  lemma PassedAcceptedIff(task: Task, env: Environment, round: int -> int, wellPlaced: Source -> bool)
    requires Rounds(round) && WellPlaced(AtEnd(task, env).filesystems, wellPlaced)
    requires Produced(task, env, round).state == Passed
    ensures Accepts(task, Produced(task, env, round), env.revision, wellPlaced) <==>
              (PODMAN in task.requiredTools ==> env.podmanAtDiscovery)
  {
    hide FilesystemsAccepted, SnapshotOf, AtEnd, RegisteredPaths;
    var after := SnapshotOf(AtEnd(task, env));
    PassedSnapshot(task, env, round);
    FinalRecords(task, env);
    PathsDistinct(task, env);
    DiskMinimumKept(task, env);
    SnapshotAccepted(task, AtEnd(task, env), RegisteredPaths(task, env), wellPlaced);
    assert round(env.elapsed) <= round(task.deadlineSeconds * 1000000);
  }

  /** What a passed record shows, field by field. */
  lemma PassedSnapshot(task: Task, env: Environment, round: int -> int)
    requires Produced(task, env, round).state == Passed
    ensures !AtEnd(task, env).diskError
    ensures PreflightPasses(task, env, SnapshotOf(AfterPreflight(task, env)))
    ensures WithinBudget(task, env, SnapshotOf(AtEnd(task, env))) && env.exitStatus == 0
    ensures SnapshotOf(AtEnd(task, env)).availableMemory == SnapshotOf(AfterPreflight(task, env)).availableMemory
  {
    hide PreflightPasses, Initial, AfterPreflight;
    BaselineKept(AfterPreflight(task, env), env.during);
  }

  lemma {:induction false} BaselineKept(s: State, samples: seq<Sample>)
    ensures Run(s, samples).baselineMemory == s.baselineMemory
  {
    if samples != [] {
      BaselineKept(s, samples[..|samples| - 1]);
    }
  }

  lemma DiskMinimumKept(task: Task, env: Environment)
    requires SameShape(AfterPreflight(task, env).filesystems, AtEnd(task, env).filesystems)
    requires !LowFilesystem(task, SnapshotOf(AfterPreflight(task, env)))
    ensures forall f | f in SnapshotOf(AtEnd(task, env)).filesystems :: task.minimumDisk <= f.baselineMib
  {
    hide SnapshotOf, AtEnd, AfterPreflight;
    var s, t := AfterPreflight(task, env), AtEnd(task, env);
    forall f | f in SnapshotOf(t).filesystems ensures task.minimumDisk <= f.baselineMib {
      SnapshotMembers(t, f);
      var r :| r in t.filesystems && f == FilesystemOf()(r);
      var i :| 0 <= i < |t.filesystems| && t.filesystems[i] == r;
      assert s.filesystems[i].(minimum := 0) == r.(minimum := 0);
      var g := FilesystemOf()(s.filesystems[i]);
      assert s.filesystems[i] in s.filesystems;
      SnapshotMembers(s, g);
      assert g.baselineMib == f.baselineMib;
    }
  }

  // ------------------------------------------------ where it fails

  /** A machine with 50 GiB free on its one filesystem, whenever one looks. */
  const SEEN := Observation("/", View("8:1", "/"))
  const FREE_MIB: nat := 51200
  const ROOMY := Some(FREE_MIB * MEBIBYTE)

  function SteadyCalls(): Readings {
    (k: nat) => Read(SEEN, ROOMY)
  }

  /** A sample of available memory in mebibytes and of the resident size of the task's processes. */
  function Look(memory: int, rss: Option<nat>): Sample {
    Sample.Sample(Some(memory), rss, SteadyCalls())
  }

  /**
    Podman is not found while the sampler is made, and is found by the preflight a moment later. The
    command runs for two seconds, takes 20 MiB and 92 MiB of the machine's memory, and exits with 0.
  */
  const FLICKER := Environment(
    false, false, None, "/checkout", "/tmp", Some(8192), SteadyCalls(),
    Caller(1000, 1000, [1000], true, None, None, false, None, []), (tool: string) => true, [], Look(8190, None),
    false, [Look(8100, Some(20480))], 0, false, 2000000, "4f2a", 18944, Look(8180, None), false)

  /** A minute, 512 MiB of memory, 1 GiB of disk, and 64 MiB of growth. */
  const PODMAN_TASK := Task(false, None, [PODMAN], 60, 512, 1024, 512, 64)

  ghost predicate Steady(fs: seq<Record>) {
    forall r | r in fs :: r.baseline == r.minimum == FREE_MIB * MEBIBYTE && r.device == SEEN.view.device
                          && r.sources != [] && forall x | x in r.sources :: x.observation == SEEN
  }

  lemma SteadyRegister(fs: seq<Record>, role: string, path: string, k: nat)
    requires Steady(fs)
    ensures Register(fs, role, path, SteadyCalls(), k).Some? && Steady(Register(fs, role, path, SteadyCalls(), k).value.0)
  {}

  lemma {:induction false} SteadyRegisterAll(fs: seq<Record>, paths: seq<(string, string)>, k: nat)
    requires Steady(fs)
    ensures !RegisterAll(fs, paths, SteadyCalls(), k).1 && Steady(RegisterAll(fs, paths, SteadyCalls(), k).0)
    decreases |paths|
  {
    hide Register, Steady;
    if paths != [] {
      SteadyRegister(fs, paths[0].0, paths[0].1, k);
      var next := Register(fs, paths[0].0, paths[0].1, SteadyCalls(), k).value;
      SteadyRegisterAll(next.0, paths[1..], next.1);
    }
  }

  lemma SteadyStep(s: State, x: Sample)
    requires Steady(s.filesystems) && !s.diskError && x.calls == SteadyCalls()
    ensures !Step(s, x).diskError && Step(s, x).filesystems == s.filesystems
  {
    forall r | 0 <= r < |s.filesystems| ensures CleanRecord(s.filesystems, x.calls, r) {
      assert s.filesystems[r] in s.filesystems;
    }
    assert Lowered(s.filesystems, x.calls) == s.filesystems by {
      forall r | 0 <= r < |s.filesystems| ensures Lowered(s.filesystems, x.calls)[r] == s.filesystems[r] {
        assert s.filesystems[r] in s.filesystems;
      }
    }
  }

  lemma {:induction false} NoGrowth(fs: seq<Record>)
    requires Steady(fs)
    ensures Sum(GrowthOf(), Map(FilesystemOf(), fs)) == 0
  {
    hide Sort;
    if fs != [] {
      assert fs[0] in fs;
      NoGrowth(fs[1..]);
      assert Map(FilesystemOf(), fs) == [FilesystemOf()(fs[0])] + Map(FilesystemOf(), fs[1..]);
      assert GrowthMib(fs[0]) == 0;
    }
  }

  /** What is known of the state after the preflight and of the state at the end. */
  ghost predicate FlickerState(s: State, peak: int, rss: nat) {
    && !s.diskError && s.memoryComplete && s.baselineMemory == Some(8192) && s.peakMemory == Some(peak) && s.peakRss == rss
    && Steady(s.filesystems)
  }

  lemma FlickerStep(s: State, peak: int, rss: nat, memory: int, measured: Option<nat>)
    requires FlickerState(s, peak, rss) && memory <= 8192
    ensures FlickerState(Step(s, Look(memory, measured)), Max(peak, 8192 - memory),
                         if measured.Some? then Max(rss, measured.value) else rss)
  {
    hide CleanSample, Lowered, Steady, SteadyCalls;
    SteadyStep(s, Look(memory, measured));
  }

  lemma FlickerStates()
    ensures FlickerState(AfterPreflight(PODMAN_TASK, FLICKER), 2, 0)
    ensures FlickerState(AtEnd(PODMAN_TASK, FLICKER), 92, 20480)
  {
    hide RegisterAll, RegisteredPaths, Step, Steady;
    EmptySteady();
    SteadyRegisterAll([], RegisteredPaths(PODMAN_TASK, FLICKER), 0);
    var s0 := Initial(RegisteredPaths(PODMAN_TASK, FLICKER), FLICKER.baselineMemory, FLICKER.baseline);
    FlickerStep(s0, 0, 0, 8190, None);
    var s1 := Step(s0, FLICKER.preflight);
    FlickerStep(s1, 2, 0, 8100, Some(20480));
    var s2 := Step(s1, FLICKER.during[0]);
    assert FLICKER.during[..0] == [];
    assert Run(s1, FLICKER.during[..0]) == s1;
    assert Run(s1, FLICKER.during) == s2;
    FlickerStep(s2, 92, 20480, 8180, None);
  }

  lemma EmptySteady()
    ensures Steady([])
  {}

  /** The lookup changes between discovery and preflight: the record passes, and the validator refuses it. */
  lemma FlickerRefused(round: int -> int, wellPlaced: Source -> bool)
    requires Rounds(round) && WellPlaced(AtEnd(PODMAN_TASK, FLICKER).filesystems, wellPlaced)
    ensures Produced(PODMAN_TASK, FLICKER, round).state == Passed
    ensures !Accepts(PODMAN_TASK, Produced(PODMAN_TASK, FLICKER, round), FLICKER.revision, wellPlaced)
  {
    hide AtEnd, AfterPreflight, Accepts, Steady;
    FlickerStates();
    assert PODMAN in PODMAN_TASK.requiredTools;
    FlickerPasses();
    PassedAcceptedIff(PODMAN_TASK, FLICKER, round, wellPlaced);
  }

  lemma SteadyRoomy(s: State)
    requires Steady(s.filesystems)
    ensures !LowFilesystem(PODMAN_TASK, SnapshotOf(s)) && SnapshotOf(s).growth == 0
  {
    NoGrowth(s.filesystems);
    hide SnapshotOf, Sort;
    forall f | f in SnapshotOf(s).filesystems ensures f.baselineMib == FREE_MIB {
      SnapshotMembers(s, f);
    }
  }

  lemma FlickerPasses()
    requires FlickerState(AfterPreflight(PODMAN_TASK, FLICKER), 2, 0)
    requires FlickerState(AtEnd(PODMAN_TASK, FLICKER), 92, 20480)
    ensures PreflightPasses(PODMAN_TASK, FLICKER, SnapshotOf(AfterPreflight(PODMAN_TASK, FLICKER)))
    ensures WithinBudget(PODMAN_TASK, FLICKER, SnapshotOf(AtEnd(PODMAN_TASK, FLICKER)))
  {
    hide AtEnd, AfterPreflight, Sum, Map, Sort, Steady, LowFilesystem;
    SteadyRoomy(AfterPreflight(PODMAN_TASK, FLICKER));
    SteadyRoomy(AtEnd(PODMAN_TASK, FLICKER));
  }
}
