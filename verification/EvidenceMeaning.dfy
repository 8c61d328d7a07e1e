/** What `run_task` reports and decides, in terms of the readings that the machine gave and nothing else. */
module EvidenceMeaning {
  import opened Wrappers
  import opened Sequences
  import opened Sampler
  import opened SamplerLaws
  import opened Evidence
  import EvidenceLaws

  // ------------------------------------------------ the readings

  /** The samples taken up to the preflight's snapshot, or up to the last one. */
  function Taken(env: Environment, ran: bool): seq<Sample> {
    if ran then [env.preflight] + env.during + [env.final] else [env.preflight]
  }

  ghost function RecordsAt(task: Task, env: Environment): seq<Record> {
    RegisterAll([], RegisteredPaths(task, env), env.baseline, 0).0
  }

  ghost predicate Unregistered(task: Task, env: Environment) {
    exists i: nat | i < |RegisteredPaths(task, env)| :: !Readable(env.baseline, i)
  }

  ghost predicate DiskFailed(task: Task, env: Environment, ran: bool) {
    Unregistered(task, env) || exists x | x in Taken(env, ran) :: SampleFails(RecordsAt(task, env), x.calls)
  }

  ghost predicate MemoryLost(env: Environment, ran: bool) {
    env.baselineMemory.None? || exists x | x in Taken(env, ran) :: x.memory.None?
  }

  /** The largest drop of available memory below the baseline, or 0 when it never dropped. */
  ghost predicate LargestDrop(peak: int, baseline: int, samples: seq<Sample>) {
    && peak >= 0
    && (forall x | x in samples && x.memory.Some? :: baseline - x.memory.value <= peak)
    && (peak == 0 || exists x :: x in samples && x.memory.Some? && peak == baseline - x.memory.value)
  }

  /** The largest of a starting value and the resident sizes that were measured. */
  ghost predicate LargestRss(peak: nat, start: nat, samples: seq<Sample>) {
    && peak >= start
    && (forall x | x in samples && x.rss.Some? :: x.rss.value <= peak)
    && (peak == start || exists x :: x in samples && x.rss == Some(peak))
  }

  /** The children's own maximum stands in when nothing but zero was measured while the command ran. */
  ghost predicate PeakRss(peak: nat, env: Environment, ran: bool) {
    if ran then exists m: nat :: LargestRss(m, 0, [env.preflight] + env.during) && LargestRss(peak, if m == 0 then env.fallbackRss else m, [env.final])
    else LargestRss(peak, 0, [env.preflight])
  }

  /** The samples whose counters are used: those before the first one that fails. */
  ghost predicate UsedSamples(n: nat, fs: seq<Record>, unregistered: bool, samples: seq<Sample>) {
    && n <= |samples| && (unregistered ==> n == 0)
    && (forall i | 0 <= i < n :: !SampleFails(fs, samples[i].calls))
    && (!unregistered && n < |samples| ==> SampleFails(fs, samples[n].calls))
  }

  /** The least of the baseline and the counters shown by the first `n` samples. */
  ghost predicate LeastFree(m: nat, fs: seq<Record>, r: nat, samples: seq<Sample>, n: nat)
    requires r < |fs| && n <= |samples|
  {
    && m <= fs[r].baseline
    && (forall i, free: nat | 0 <= i < n && ShowsFree(fs, samples[i].calls, r, free) :: m <= free)
    && (m == fs[r].baseline || exists i :: 0 <= i < n && ShowsFree(fs, samples[i].calls, r, m))
  }

  ghost predicate MinimaKept(now: seq<Record>, fs: seq<Record>, unregistered: bool, samples: seq<Sample>) {
    exists n: nat :: UsedSamples(n, fs, unregistered, samples) && MinimaOver(now, fs, samples, n)
  }

  ghost predicate MinimaOver(now: seq<Record>, fs: seq<Record>, samples: seq<Sample>, n: nat)
    requires n <= |samples|
  {
    && |now| == |fs|
    && forall r: nat | r < |fs| :: now[r] == fs[r].(minimum := now[r].minimum) && LeastFree(now[r].minimum, fs, r, samples, n)
  }

  /** The sampler holds exactly what the readings so far say. */
  ghost predicate Holds(s: State, task: Task, env: Environment, ran: bool) {
    && s.baselineMemory == env.baselineMemory
    && (s.memoryComplete <==> !MemoryLost(env, ran))
    && (s.memoryComplete ==> s.peakMemory.Some? && LargestDrop(s.peakMemory.value, env.baselineMemory.value, Taken(env, ran)))
    && (s.diskError <==> DiskFailed(task, env, ran))
    && PeakRss(s.peakRss, env, ran)
    && MinimaKept(s.filesystems, RecordsAt(task, env), Unregistered(task, env), Taken(env, ran))
  }

  // ------------------------------------------------ the sampler holds what the readings say

  lemma RecordsMean(task: Task, env: Environment) returns (n: nat)
    ensures var paths := RegisteredPaths(task, env);
      && Registrable(paths, env.baseline, n) && RecordsOf(RecordsAt(task, env), paths, env.baseline, n)
      && (Unregistered(task, env) <==> n < |paths|)
      && (Unregistered(task, env) <==> Initial(paths, env.baselineMemory, env.baseline).diskError)
  {
    hide RegisteredPaths, RegisterAll, RecordsOf, Readable;
    var paths := RegisteredPaths(task, env);
    RegistrationMeans(paths, env.baseline);
    var (fs, failed) := RegisterAll([], paths, env.baseline, 0);
    n :| RegisteredUpTo(fs, failed, paths, env.baseline, n);
  }

  lemma InitialHolds(task: Task, env: Environment)
    ensures var s := Initial(RegisteredPaths(task, env), env.baselineMemory, env.baseline);
      && Sane(s) && s.filesystems == RecordsAt(task, env) && (s.diskError <==> Unregistered(task, env))
      && forall r: nat | r < |s.filesystems| :: s.filesystems[r].sources != [] && s.filesystems[r].minimum == s.filesystems[r].baseline
  {
    var n := RecordsMean(task, env);
    hide RegisteredPaths, RegisterAll, Readable, SourcesOn, BaselineOf;
    var paths := RegisteredPaths(task, env);
    var s := Initial(paths, env.baselineMemory, env.baseline);
    assert forall r | 0 <= r < |s.filesystems| :: Recorded(s.filesystems[r], paths, env.baseline, n);
  }

  lemma {:induction false} RunCons(s: State, x: Sample, rest: seq<Sample>)
    ensures Run(s, [x] + rest) == Run(Step(s, x), rest)
  {
    hide Step;
    var all := [x] + rest;
    if rest == [] {
      assert all[..0] == [] && all[0] == x;
      assert Run(s, all[..0]) == s;
    } else {
      RunCons(s, x, rest[..|rest| - 1]);
      assert all[..|all| - 1] == [x] + rest[..|rest| - 1];
      assert all[|all| - 1] == rest[|rest| - 1];
    }
  }

  lemma StepAfterFallback(s: State, rss: nat, x: Sample)
    ensures Step(RssFallback(s, rss), x).(peakRss := 0) == Step(s, x).(peakRss := 0)
  {
    hide CleanSample, Lowered;
  }

  /** The fallback replaces a resident size and nothing else. */
  lemma AtEndRuns(task: Task, env: Environment)
    ensures var s := Initial(RegisteredPaths(task, env), env.baselineMemory, env.baseline);
      && AfterPreflight(task, env) == Run(s, Taken(env, false))
      && AtEnd(task, env).(peakRss := 0) == Run(s, Taken(env, true)).(peakRss := 0)
  {
    hide Initial, RegisteredPaths, Step;
    var s := Initial(RegisteredPaths(task, env), env.baselineMemory, env.baseline);
    RunCons(s, env.preflight, []);
    assert [env.preflight] + [] == [env.preflight];
    RunCons(s, env.preflight, env.during);
    var before := [env.preflight] + env.during;
    var all := Taken(env, true);
    assert all[..|all| - 1] == before && all[|all| - 1] == env.final;
    assert Run(s, all) == Step(Run(s, before), env.final);
    StepAfterFallback(Run(s, before), env.fallbackRss, env.final);
  }

  lemma {:induction false} RssRun(s: State, samples: seq<Sample>)
    ensures LargestRss(Run(s, samples).peakRss, s.peakRss, samples)
  {
    if samples != [] {
      var init, x := samples[..|samples| - 1], samples[|samples| - 1];
      assert samples == init + [x];
      RssRun(s, init);
      RssGrows(Run(s, init).peakRss, s.peakRss, init, x);
    }
  }

  lemma RssGrows(peak: nat, start: nat, init: seq<Sample>, x: Sample)
    requires LargestRss(peak, start, init)
    ensures LargestRss(if x.rss.Some? then Max(peak, x.rss.value) else peak, start, init + [x])
  {
    var all := init + [x];
    assert x in all && forall y | y in init :: y in all;
  }

  lemma RssHolds(task: Task, env: Environment)
    ensures PeakRss(AfterPreflight(task, env).peakRss, env, false)
    ensures PeakRss(AtEnd(task, env).peakRss, env, true)
  {
    hide Initial, RegisteredPaths, Step, LargestRss;
    var s := Initial(RegisteredPaths(task, env), env.baselineMemory, env.baseline);
    InitialRss(RegisteredPaths(task, env), env.baselineMemory, env.baseline);
    AtEndRuns(task, env);
    RssRun(s, [env.preflight]);
    RunCons(s, env.preflight, env.during);
    RssRun(s, [env.preflight] + env.during);
    var t := RssFallback(Run(AfterPreflight(task, env), env.during), env.fallbackRss);
    RssRun(t, [env.final]);
    assert [env.final][..0] == [] && [env.final][0] == env.final;
    assert Run(t, [env.final]) == Step(Run(t, [env.final][..0]), env.final) == Step(t, env.final);
  }

  lemma InitialRss(paths: seq<(string, string)>, memory: Option<int>, calls: Readings)
    ensures Initial(paths, memory, calls).peakRss == 0
    ensures Initial(paths, memory, calls).baselineMemory == memory
    ensures Initial(paths, memory, calls).memoryComplete == memory.Some?
    ensures memory.Some? ==> Initial(paths, memory, calls).peakMemory == Some(0)
  {
    hide RegisterAll;
  }

  lemma MemoryHolds(task: Task, env: Environment, ran: bool)
    ensures var s := Run(Initial(RegisteredPaths(task, env), env.baselineMemory, env.baseline), Taken(env, ran));
      && s.baselineMemory == env.baselineMemory
      && (s.memoryComplete <==> !MemoryLost(env, ran))
      && (s.memoryComplete ==> s.peakMemory.Some? && LargestDrop(s.peakMemory.value, env.baselineMemory.value, Taken(env, ran)))
  {
    InitialHolds(task, env);
    InitialRss(RegisteredPaths(task, env), env.baselineMemory, env.baseline);
    hide Initial, RegisteredPaths, Taken, Run;
    MemoryRun(Initial(RegisteredPaths(task, env), env.baselineMemory, env.baseline), Taken(env, ran));
  }

  lemma {:induction false} UsedMeans(s: State, samples: seq<Sample>)
    ensures UsedSamples(Used(s, samples), s.filesystems, s.diskError, samples)
  {
    if samples != [] && !s.diskError {
      SampleFailsIff(s.filesystems, samples[0].calls);
      hide SampleFails, CleanSample;
      var rest := samples[1..];
      UsedMeans(s, rest);
      assert forall i | 0 < i < |samples| :: samples[i] == rest[i - 1];
    }
  }

  lemma LeastMeans(m: nat, s: State, samples: seq<Sample>, n: nat, r: nat)
    requires r < |s.filesystems| && s.filesystems[r].sources != [] && s.filesystems[r].minimum == s.filesystems[r].baseline
    requires n <= |samples| && forall i | 0 <= i < n :: !SampleFails(s.filesystems, samples[i].calls)
    requires IsLeast(m, s, samples, n, r)
    ensures LeastFree(m, s.filesystems, r, samples, n)
  {
    hide SampleFails;
    forall i | 0 <= i < n
      ensures ShowsFree(s.filesystems, samples[i].calls, r, Counter(s.filesystems, samples[i].calls, r))
      ensures forall free: nat | ShowsFree(s.filesystems, samples[i].calls, r, free) :: free == Counter(s.filesystems, samples[i].calls, r)
    {
      CounterShown(s.filesystems, samples[i].calls, r);
    }
    hide ShowsFree, Counter;
  }

  lemma DiskHolds(task: Task, env: Environment, ran: bool)
    ensures var s := Run(Initial(RegisteredPaths(task, env), env.baselineMemory, env.baseline), Taken(env, ran));
      && (s.diskError <==> DiskFailed(task, env, ran))
      && MinimaKept(s.filesystems, RecordsAt(task, env), Unregistered(task, env), Taken(env, ran))
  {
    hide Initial, RegisteredPaths, Taken, Run, SampleFails, Used, IsLeast, LeastFree;
    InitialHolds(task, env);
    hide RecordsAt, Unregistered;
    var s := Initial(RegisteredPaths(task, env), env.baselineMemory, env.baseline);
    var samples := Taken(env, ran);
    DiskRun(s, samples);
    UsedMeans(s, samples);
    var n := Used(s, samples);
    assert (exists x | x in samples :: SampleFails(s.filesystems, x.calls)) ==> n < |samples| || s.diskError;
    forall r: nat | r < |s.filesystems|
      ensures var t := Run(s, samples).filesystems; t[r] == s.filesystems[r].(minimum := t[r].minimum) && LeastFree(t[r].minimum, s.filesystems, r, samples, n)
    {
      LeastMeans(Run(s, samples).filesystems[r].minimum, s, samples, n, r);
      assert s.filesystems[r].(minimum := 0) == Run(s, samples).filesystems[r].(minimum := 0);
    }
    assert MinimaOver(Run(s, samples).filesystems, s.filesystems, samples, n);
  }

  lemma SamplerHolds(task: Task, env: Environment)
    ensures Holds(AfterPreflight(task, env), task, env, false)
    ensures Holds(AtEnd(task, env), task, env, true)
  {
    hide Initial, RegisteredPaths, Taken, Run, AfterPreflight, AtEnd, PeakRss, LargestDrop, MinimaKept, MemoryLost, DiskFailed, RecordsAt, Unregistered;
    AtEndRuns(task, env);
    RssHolds(task, env);
    MemoryHolds(task, env, false);
    MemoryHolds(task, env, true);
    DiskHolds(task, env, false);
    DiskHolds(task, env, true);
  }

  // ------------------------------------------------ what is reported

  /** The reported record shows what the readings say. */
  ghost predicate Reports(o: Observed, task: Task, env: Environment, ran: bool) {
    exists s :: Holds(s, task, env, ran) && Shows(o, s)
  }

  /** A privileged task wants root; another wants an account that is not root and keeps no root group, behind sudo if started by root. */
  ghost predicate NoIdentity(privileged: bool, c: Caller) {
    || (privileged && c.euid != 0)
    || (!privileged && c.euid != 0 && (!c.account || c.egid == 0 || exists g :: g in c.groups && g == 0))
    || (!privileged && c.euid == 0
        && (c.sudoUid.None? || c.sudoGid.None? || c.sudoUid == Some(0) || c.sudoGid == Some(0) || c.sudoIsRoot
            || c.sudoAccount.None? || Some(c.sudoAccount.value.0) != c.sudoUid || Some(c.sudoAccount.value.1) != c.sudoGid
            || exists g :: g in c.sudoGroups && g == 0))
  }

  /** The reasons for which a task is not started. */
  ghost predicate Refused(task: Task, env: Environment) {
    || (exists tool :: tool in task.requiredTools && !env.found(tool))
    || env.missingEnvironment != []
    || NoIdentity(task.privileged, env.caller)
    || ("podman" in task.requiredTools && env.podmanAtDiscovery && env.graphRoot.None?)
    || DiskFailed(task, env, false)
    || env.baselineMemory.None? || env.baselineMemory.value < task.minimumMemory
    || exists r :: r in RecordsAt(task, env) && r.baseline < task.minimumDisk * 1048576
  }

  /** Every budget is kept: the disk growth is the reported one, all else is in terms of the readings. */
  ghost predicate Kept(task: Task, env: Environment, growth: int) {
    && !env.tierExceeded && !env.timedOut && env.elapsed <= task.deadlineSeconds * 1000000
    && !DiskFailed(task, env, true) && !MemoryLost(env, true)
    && (forall x | x in Taken(env, true) :: env.baselineMemory.value - x.memory.value <= task.maximumRss)
    && (forall x | x in Taken(env, true) && x.rss.Some? :: x.rss.value <= task.maximumRss * 1024)
    && ((forall x | x in [env.preflight] + env.during :: x.rss.None? || x.rss == Some(0)) ==> env.fallbackRss <= task.maximumRss * 1024)
    && growth <= task.maximumGrowth
  }

  ghost predicate Started(task: Task, env: Environment) {
    !env.exhaustedAtStart && !Refused(task, env) && !env.exhaustedAfterPreflight
  }

  lemma IdentityMeans(privileged: bool, c: Caller)
    ensures ExecutionIdentity(privileged, c).None? <==> NoIdentity(privileged, c)
    ensures !NoIdentity(privileged, c) ==>
              ExecutionIdentity(privileged, c) == Some(if privileged then 0 else if c.euid != 0 then c.euid else c.sudoUid.value)
  {}

  lemma LowMeans(task: Task, o: Observed, s: State, fs: seq<Record>)
    requires Shows(o, s) && |s.filesystems| == |fs| && forall r: nat | r < |fs| :: s.filesystems[r].baseline == fs[r].baseline
    ensures LowFilesystem(task, o) <==> exists r :: r in fs && r.baseline < task.minimumDisk * 1048576
  {
    hide StringLe, TotalGrowth;
    if LowFilesystem(task, o) {
      var f :| f in o.filesystems && f.baselineMib < task.minimumDisk;
      var i :| 0 <= i < |o.filesystems| && o.filesystems[i] == f;
      assert ShowsAny(o.filesystems[i], s.filesystems);
      var j :| 0 <= j < |s.filesystems| && ShownAs(f, s.filesystems[j]);
      BaselineLow(f, s.filesystems[j], task.minimumDisk);
      assert fs[j] in fs;
    }
    if r :| r in fs && r.baseline < task.minimumDisk * 1048576 {
      var j :| 0 <= j < |fs| && fs[j] == r;
      assert AnyShows(o.filesystems, s.filesystems[j]);
      var i :| 0 <= i < |o.filesystems| && ShownAs(o.filesystems[i], s.filesystems[j]);
      BaselineLow(o.filesystems[i], s.filesystems[j], task.minimumDisk);
      assert o.filesystems[i] in o.filesystems;
    }
  }

  lemma BaselineLow(f: Filesystem, r: Record, mib: nat)
    requires ShownAs(f, r)
    ensures f.baselineMib < mib <==> r.baseline < mib * 1048576
  {
    hide StringLe;
  }

  lemma MinimaShape(now: seq<Record>, fs: seq<Record>, unregistered: bool, samples: seq<Sample>)
    requires MinimaKept(now, fs, unregistered, samples)
    ensures |now| == |fs| && forall r: nat | r < |fs| :: now[r].baseline == fs[r].baseline
  {
    hide SampleFails, LeastFree;
    var n: nat :| UsedSamples(n, fs, unregistered, samples) && MinimaOver(now, fs, samples, n);
    forall r: nat | r < |fs| ensures now[r].baseline == fs[r].baseline {
      assert now[r] == fs[r].(minimum := now[r].minimum);
    }
  }

  lemma PreflightMeans(task: Task, env: Environment)
    ensures PreflightPasses(task, env, SnapshotOf(AfterPreflight(task, env))) <==> !Refused(task, env)
  {
    hide SnapshotOf, AfterPreflight, PeakRss, LargestDrop, MinimaKept, MemoryLost, DiskFailed, RecordsAt, Unregistered, Missing, NoIdentity, LowFilesystem, Shows, Taken;
    SamplerHolds(task, env);
    var s := AfterPreflight(task, env);
    SnapshotMeans(s);
    ShownFields(SnapshotOf(s), s);
    MinimaShape(s.filesystems, RecordsAt(task, env), Unregistered(task, env), Taken(env, false));
    LowMeans(task, SnapshotOf(s), s, RecordsAt(task, env));
    IdentityMeans(task.privileged, env.caller);
    hide ExecutionIdentity;
    assert Missing(task.requiredTools, env.found) == [] <==> !exists tool :: tool in task.requiredTools && !env.found(tool);
  }

  lemma ShownFields(o: Observed, s: State)
    requires Shows(o, s)
    ensures o.availableMemory == s.baselineMemory && o.diskError == s.diskError && o.peakRss == s.peakRss
    ensures o.peakMemory == if s.memoryComplete then s.peakMemory else None
  {}

  lemma RssKept(peak: nat, env: Environment, limit: nat)
    requires PeakRss(peak, env, true)
    ensures peak <= limit <==>
      && (forall x | x in Taken(env, true) && x.rss.Some? :: x.rss.value <= limit)
      && ((forall x | x in [env.preflight] + env.during :: x.rss.None? || x.rss == Some(0)) ==> env.fallbackRss <= limit)
  {
    var before := [env.preflight] + env.during;
    var m: nat :| LargestRss(m, 0, before) && LargestRss(peak, if m == 0 then env.fallbackRss else m, [env.final]);
    assert forall x :: x in Taken(env, true) <==> x in before || x == env.final;
    assert env.final in [env.final];
    assert m == 0 <==> forall x | x in before :: x.rss.None? || x.rss == Some(0);
  }

  lemma BudgetMeans(task: Task, env: Environment)
    ensures var o := SnapshotOf(AtEnd(task, env)); WithinBudget(task, env, o) <==> Kept(task, env, o.growth)
  {
    hide SnapshotOf, AtEnd, PeakRss, MinimaKept, DiskFailed, RecordsAt, Unregistered, Shows, Taken;
    SamplerHolds(task, env);
    var s := AtEnd(task, env);
    SnapshotMeans(s);
    ShownFields(SnapshotOf(s), s);
    RssKept(s.peakRss, env, task.maximumRss * 1024);
  }

  /**
    Exactly when a task is passed, failed or not started, on the readings alone. A task that is passed had
    every reading of memory and of the filesystems available.
  */
  lemma DecisionMeans(task: Task, env: Environment, round: int -> int)
    ensures var e := Produced(task, env, round);
      && (e.state == Unavailable <==> !env.exhaustedAtStart && Refused(task, env))
      && (e.state == Passed <==>
            Started(task, env) && env.exitStatus == 0 && e.observed.Some? && Kept(task, env, e.observed.value.growth))
      && (e.state == Passed ==> env.baselineMemory.Some? && forall x | x in Taken(env, true) :: x.memory.Some?)
  {
    hide SnapshotOf, AtEnd, AfterPreflight, PreflightPasses, WithinBudget, Refused, DiskFailed, Taken;
    PreflightMeans(task, env);
    BudgetMeans(task, env);
  }

  /**
    What the record reports: everything is as the readings up to the last snapshot say. The memory peak is
    missing exactly when one of those readings was, and otherwise it is the largest drop.
  */
  lemma ProducedMeans(task: Task, env: Environment, round: int -> int)
    ensures var e := Produced(task, env, round); var ran := Started(task, env);
      && (e.observed.None? <==> env.exhaustedAtStart)
      && (e.observed.Some? ==>
            && Reports(e.observed.value, task, env, ran)
            && (e.observed.value.peakMemory.None? <==> MemoryLost(env, ran))
            && (e.observed.value.peakMemory.Some? ==> LargestDrop(e.observed.value.peakMemory.value, env.baselineMemory.value, Taken(env, ran)))
            && e.observed.value.availableMemory == env.baselineMemory
            && (e.observed.value.diskError <==> DiskFailed(task, env, ran))
            && PeakRss(e.observed.value.peakRss, env, ran))
  {
    hide SnapshotOf, AtEnd, AfterPreflight, PreflightPasses, WithinBudget, Refused, DiskFailed, Taken, MemoryLost, LargestDrop, PeakRss, MinimaKept, Shows;
    PreflightMeans(task, env);
    SamplerHolds(task, env);
    SnapshotMeans(AfterPreflight(task, env));
    SnapshotMeans(AtEnd(task, env));
    ShownFields(SnapshotOf(AfterPreflight(task, env)), AfterPreflight(task, env));
    ShownFields(SnapshotOf(AtEnd(task, env)), AtEnd(task, env));
  }

  lemma {:induction false} MissingMeans(tools: seq<string>, found: string -> bool, tool: string)
    ensures tool in Missing(tools, found) <==> tool in tools && !found(tool)
  {
    if tools != [] {
      MissingMeans(tools[1..], found, tool);
    }
  }

  /** The fields beside the resources: what was missing, who ran it, and how the command ended when it was started. */
  lemma ProducedFields(task: Task, env: Environment, round: int -> int)
    ensures var e := Produced(task, env, round);
      && (forall tool :: tool in e.missingTools <==> !env.exhaustedAtStart && tool in task.requiredTools && !env.found(tool))
      && e.missingEnvironment == (if env.exhaustedAtStart then [] else env.missingEnvironment)
      && e.effectiveUid == (if env.exhaustedAtStart || NoIdentity(task.privileged, env.caller) || env.caller.euid != 0 then env.caller.euid
                            else if task.privileged then 0 else env.caller.sudoUid.value)
      && e.exitStatus == (if Started(task, env) then Some(env.exitStatus) else None)
      && e.timedOut == (if Started(task, env) then Some(env.timedOut) else None)
      && e.lensRevision == (if Started(task, env) && task.lens.Some? then Some(env.revision) else None)
      && e.wallMilliseconds == round(env.elapsed) && e.concurrency == 1
  {
    hide SnapshotOf, AtEnd, AfterPreflight, PreflightPasses, WithinBudget, Refused, Missing;
    PreflightMeans(task, env);
    IdentityMeans(task.privileged, env.caller);
    forall tool ensures tool in Missing(task.requiredTools, env.found) <==> tool in task.requiredTools && !env.found(tool) {
      MissingMeans(task.requiredTools, env.found, tool);
    }
  }

  // ------------------------------------------------ what the validator refuses

  function RolesIn(sources: seq<Source>): set<string> {
    set x | x in sources :: x.role
  }

  function PathsIn(sources: seq<Source>): set<string> {
    set x | x in sources :: x.path
  }

  /** A filesystem whose sources repeat a place, do not match its roles and paths, or lie elsewhere. */
  ghost predicate BadSources(f: Filesystem, wellPlaced: Source -> bool) {
    || (exists i, j :: 0 <= i < j < |f.sources| && f.sources[i].role == f.sources[j].role && f.sources[i].path == f.sources[j].path)
    || RolesIn(f.sources) != (set role | role in f.roles) || PathsIn(f.sources) != (set path | path in f.paths)
    || (exists x :: x in f.sources && (x.observation.view.device != f.device || !wellPlaced(x)))
  }

  /** A filesystem that began below the disk minimum, or whose three figures do not fit together. */
  ghost predicate BadFigures(f: Filesystem, minimumDisk: nat) {
    || f.baselineMib < minimumDisk || f.baselineMib < f.minimumMib
    || !(f.baselineMib - f.minimumMib <= f.growthMib <= f.baselineMib - f.minimumMib + 1)
  }

  ghost predicate NoneHas(fs: seq<Filesystem>, role: string) {
    forall i | 0 <= i < |fs| :: role !in fs[i].roles
  }

  /** What is wrong with the filesystems of a passed task. */
  ghost predicate BadFilesystems(task: Task, o: Observed, wellPlaced: Source -> bool) {
    || o.filesystems == []
    || (exists i, j :: 0 <= i < j < |o.filesystems| && o.filesystems[i].device == o.filesystems[j].device)
    || (exists i :: 0 <= i < |o.filesystems| && BadSources(o.filesystems[i], wellPlaced))
    || NoneHas(o.filesystems, "checkout") || NoneHas(o.filesystems, "temporary-directory")
    || ("podman" in task.requiredTools && NoneHas(o.filesystems, "podman-graph-root"))
    || (exists i :: 0 <= i < |o.filesystems| && BadFigures(o.filesystems[i], task.minimumDisk))
    || TotalGrowth(o.filesystems) != o.growth
    || o.availableDisk.None?
    || (exists i :: 0 <= i < |o.filesystems| && o.filesystems[i].baselineMib < o.availableDisk.value)
    || (forall i | 0 <= i < |o.filesystems| :: o.filesystems[i].baselineMib != o.availableDisk.value)
  }

  lemma SetsAgree<T(!new)>(a: set<T>, s: seq<T>)
    ensures a == (set x | x in s) <==> forall x :: x in s <==> x in a
  {
    if forall x :: x in s <==> x in a {
      assert a == (set x | x in s);
    }
  }

  lemma SourcesRefused(f: Filesystem, wellPlaced: Source -> bool)
    ensures ObservationsAccepted(f, wellPlaced) <==> !BadSources(f, wellPlaced)
  {
    SetsAgree(RolesIn(f.sources), f.roles);
    SetsAgree(PathsIn(f.sources), f.paths);
    forall role ensures role in RolesIn(f.sources) <==> exists x :: x in f.sources && x.role == role {}
    forall path ensures path in PathsIn(f.sources) <==> exists x :: x in f.sources && x.path == path {}
    hide RolesIn, PathsIn;
  }

  lemma RoleMissing(fs: seq<Filesystem>, role: string)
    ensures HasRole(fs, role) <==> !NoneHas(fs, role)
  {
    if f :| f in fs && role in f.roles {
      var i :| 0 <= i < |fs| && fs[i] == f;
    }
    if i :| 0 <= i < |fs| && role in fs[i].roles {
      assert fs[i] in fs;
    }
  }

  lemma DiskFigure(fs: seq<Filesystem>, least: nat)
    requires fs != []
    ensures least == LeastBaseline(fs) <==>
      && (forall i | 0 <= i < |fs| :: least <= fs[i].baselineMib)
      && (exists i :: 0 <= i < |fs| && fs[i].baselineMib == least)
  {
    var f := LeastIs(fs);
    hide LeastBaseline;
    var i :| 0 <= i < |fs| && fs[i] == f;
    assert forall j | 0 <= j < |fs| :: LeastBaseline(fs) <= fs[j].baselineMib;
  }

  lemma FilesystemsRefused(task: Task, o: Observed, wellPlaced: Source -> bool)
    ensures FilesystemsAccepted(task, o, wellPlaced) <==> !BadFilesystems(task, o, wellPlaced)
  {
    hide ObservationsAccepted, BadSources, HasRole, NoneHas, LeastBaseline, TotalGrowth, Sum;
    forall f ensures ObservationsAccepted(f, wellPlaced) <==> !BadSources(f, wellPlaced) { SourcesRefused(f, wellPlaced); }
    forall role ensures HasRole(o.filesystems, role) <==> !NoneHas(o.filesystems, role) { RoleMissing(o.filesystems, role); }
    GrowthTotals(o.filesystems);
    if o.filesystems != [] && o.availableDisk.Some? {
      DiskFigure(o.filesystems, o.availableDisk.value);
    }
    EachFilesystem(task, o, wellPlaced);
    hide BadFigures;
  }

  lemma EachFilesystem(task: Task, o: Observed, wellPlaced: Source -> bool)
    ensures (forall f | f in o.filesystems :: ObservationsAccepted(f, wellPlaced)) <==>
            !exists i :: 0 <= i < |o.filesystems| && BadSources(o.filesystems[i], wellPlaced)
    ensures (forall f | f in o.filesystems ::
               f.baselineMib >= task.minimumDisk && f.minimumMib <= f.baselineMib
               && (f.growthMib == f.baselineMib - f.minimumMib || f.growthMib == f.baselineMib - f.minimumMib + 1)) <==>
            !exists i :: 0 <= i < |o.filesystems| && BadFigures(o.filesystems[i], task.minimumDisk)
  {
    hide ObservationsAccepted, BadSources;
    forall f ensures ObservationsAccepted(f, wellPlaced) <==> !BadSources(f, wellPlaced) { SourcesRefused(f, wellPlaced); }
    forall i | 0 <= i < |o.filesystems| ensures o.filesystems[i] in o.filesystems {}
  }

  /** Exactly which records the validator refuses: one wrong figure, of any kind, is enough, and only passed tasks are checked. */
  lemma RefusedIff(task: Task, e: TaskEvidence, revision: string, wellPlaced: Source -> bool)
    ensures !Accepts(task, e, revision, wellPlaced) <==>
      e.state == Passed &&
      (|| e.observed.None?
       || e.observed.value.diskError
       || e.wallMilliseconds > task.deadlineSeconds * 1000
       || e.observed.value.availableMemory.None? || e.observed.value.availableMemory.value < task.minimumMemory
       || e.observed.value.peakMemory.None? || e.observed.value.peakMemory.value > task.maximumRss
       || e.observed.value.peakRss > task.maximumRss * 1024
       || e.observed.value.growth > task.maximumGrowth
       || e.concurrency != 1
       || e.exitStatus.None? || e.exitStatus.value != 0
       || e.timedOut.None? || e.timedOut.value
       || |e.missingTools| > 0 || |e.missingEnvironment| > 0
       || (task.privileged && e.effectiveUid != 0) || (!task.privileged && e.effectiveUid == 0)
       || BadFilesystems(task, e.observed.value, wellPlaced)
       || (task.lens.Some? && e.lensRevision != Some(revision)))
  {
    if e.observed.Some? {
      FilesystemsRefused(task, e.observed.value, wellPlaced);
    }
    hide FilesystemsAccepted, BadFilesystems;
  }
}
