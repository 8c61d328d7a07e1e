/**
  The producer and the validator of one task's evidence: `run_task` decides "passed" from raw
  readings, `validate_evidence_semantics` re-checks the record from whole mebibytes.
*/
module Evidence {
  import opened Wrappers
  import opened Sequences
  import opened Sampler

  const PODMAN := "podman"
  const CHECKOUT := "checkout"
  const TEMPORARY := "temporary-directory"
  const GRAPH_ROOT := "podman-graph-root"

  datatype Task = Task(
    privileged: bool, lens: Option<string>, requiredTools: seq<string>,
    deadlineSeconds: nat, minimumMemory: int, minimumDisk: nat, maximumRss: nat, maximumGrowth: nat)

  // ------------------------------------------------ identity

  /** What the process environment says about who runs the task; lookups that fail are None. */
  datatype Caller = Caller(
    euid: nat, egid: nat, groups: seq<nat>, account: bool,
    sudoUid: Option<nat>, sudoGid: Option<nat>, sudoIsRoot: bool, sudoAccount: Option<(nat, nat)>, sudoGroups: seq<nat>)

  /** The uid a task runs under; None when the source gives a reason not to run it. */
  function ExecutionIdentity(privileged: bool, c: Caller): (uid: Option<nat>)
    ensures uid.Some? ==> (privileged <==> uid.value == 0)
    // Who is refused: a privileged task without root, and a task without root that would keep the root
    // group or, started by root, has no consistent non-root identity behind sudo.
    ensures privileged ==> (uid.None? <==> c.euid != 0)
    ensures !privileged && c.euid != 0 ==> (uid == Some(c.euid) <==> c.account && c.egid != 0 && 0 !in c.groups) && (uid.None? || uid == Some(c.euid))
    ensures !privileged && c.euid == 0 ==>
              (uid.Some? <==>
                && c.sudoUid.Some? && c.sudoGid.Some? && !c.sudoIsRoot && 0 !in c.sudoGroups
                && c.sudoAccount == Some((c.sudoUid.value, c.sudoGid.value)) && c.sudoUid.value != 0 && c.sudoGid.value != 0)
              && (uid.None? || uid == c.sudoUid)
  {
    if privileged then (if c.euid != 0 then None else Some(0))
    else if c.euid != 0 then
      if !c.account || c.egid == 0 || 0 in c.groups then None else Some(c.euid)
    else if c.sudoUid.None? || c.sudoGid.None? || c.sudoUid.value == 0 || c.sudoGid.value == 0 || c.sudoIsRoot
            || c.sudoAccount != Some((c.sudoUid.value, c.sudoGid.value)) || 0 in c.sudoGroups then None
    else Some(c.sudoUid.value)
  }

  // ------------------------------------------------ the producer

  /** Everything outside the program that one task's run meets, in the order it is met. */
  datatype Environment = Environment(
    exhaustedAtStart: bool,
    podmanAtDiscovery: bool, graphRoot: Option<string>, checkout: string, temporary: string,
    baselineMemory: Option<int>, baseline: Readings,
    caller: Caller, found: string -> bool, missingEnvironment: seq<string>, preflight: Sample,
    exhaustedAfterPreflight: bool,
    during: seq<Sample>, exitStatus: int, timedOut: bool, elapsed: int, revision: string,
    fallbackRss: nat, final: Sample, tierExceeded: bool)

  datatype TaskState = Passed | Failed | Unavailable

  datatype TaskEvidence = TaskEvidence(
    state: TaskState, wallMilliseconds: int, exitStatus: Option<int>, timedOut: Option<bool>, concurrency: nat,
    missingTools: seq<string>, missingEnvironment: seq<string>, effectiveUid: nat, lensRevision: Option<string>,
    observed: Option<Observed>)

  /** The registered paths: the graph root only when podman was found when the sampler was made. */
  function RegisteredPaths(task: Task, env: Environment): seq<(string, string)> {
    [(CHECKOUT, env.checkout), (TEMPORARY, env.temporary)]
    + if PODMAN in task.requiredTools && env.podmanAtDiscovery && env.graphRoot.Some? then [(GRAPH_ROOT, env.graphRoot.value)] else []
  }

  predicate DiscoveryFailed(task: Task, env: Environment) {
    PODMAN in task.requiredTools && env.podmanAtDiscovery && env.graphRoot.None?
  }

  function Missing(tools: seq<string>, found: string -> bool): (r: seq<string>)
    ensures r == [] <==> forall t | t in tools :: found(t)
  {
    if tools == [] then [] else (if found(tools[0]) then [] else [tools[0]]) + Missing(tools[1..], found)
  }

  predicate LowFilesystem(task: Task, o: Observed) {
    exists f :: f in o.filesystems && f.baselineMib < task.minimumDisk
  }

  /** `preflight` gives no reason to skip the task. */
  predicate PreflightPasses(task: Task, env: Environment, o: Observed) {
    && Missing(task.requiredTools, env.found) == [] && env.missingEnvironment == []
    && ExecutionIdentity(task.privileged, env.caller).Some?
    && !DiscoveryFailed(task, env) && !o.diskError
    && o.availableMemory.Some? && task.minimumMemory <= o.availableMemory.value
    && !LowFilesystem(task, o)
  }

  /** `run_task` finds every budget kept. */
  predicate WithinBudget(task: Task, env: Environment, o: Observed) {
    && !o.diskError && !env.tierExceeded
    && env.elapsed <= task.deadlineSeconds * 1000000 && !env.timedOut
    && o.peakRss <= task.maximumRss * 1024
    && o.peakMemory.Some? && o.peakMemory.value <= task.maximumRss
    && o.growth <= task.maximumGrowth
  }

  ghost function AfterPreflight(task: Task, env: Environment): State {
    Step(Initial(RegisteredPaths(task, env), env.baselineMemory, env.baseline), env.preflight)
  }

  ghost function AtEnd(task: Task, env: Environment): State {
    Step(RssFallback(Run(AfterPreflight(task, env), env.during), env.fallbackRss), env.final)
  }

  /** What `run_task` reports; times are microseconds, `round` turns them into milliseconds. */
  ghost function Produced(task: Task, env: Environment, round: int -> int): TaskEvidence {
    var before := SnapshotOf(AfterPreflight(task, env));
    var uid := ExecutionIdentity(task.privileged, env.caller);
    var missing := Missing(task.requiredTools, env.found);
    var shownUid := if uid.Some? then uid.value else env.caller.euid;
    if env.exhaustedAtStart then TaskEvidence(Failed, round(env.elapsed), None, None, 1, [], [], env.caller.euid, None, None)
    else if !PreflightPasses(task, env, before) then
      TaskEvidence(Unavailable, round(env.elapsed), None, None, 1, missing, env.missingEnvironment, shownUid, None, Some(before))
    else if env.exhaustedAfterPreflight then
      TaskEvidence(Failed, round(env.elapsed), None, None, 1, missing, env.missingEnvironment, shownUid, None, Some(before))
    else
      var after := SnapshotOf(AtEnd(task, env));
      TaskEvidence(if WithinBudget(task, env, after) && env.exitStatus == 0 then Passed else Failed,
                   round(env.elapsed), Some(env.exitStatus), Some(env.timedOut), 1, missing, env.missingEnvironment, shownUid,
                   if task.lens.Some? then Some(env.revision) else None, Some(after))
  }

  /** `run_task`, with one sampler kept from preflight to the end. */
  method RunTask(task: Task, env: Environment, round: int -> int) returns (e: TaskEvidence)
    ensures e == Produced(task, env, round)
  {
    hide PreflightPasses, WithinBudget, SnapshotOf, Step, Initial;
    if env.exhaustedAtStart {
      return TaskEvidence(Failed, round(env.elapsed), None, None, 1, [], [], env.caller.euid, None, None);
    }
    var sampler := new ResourceSampler(RegisteredPaths(task, env), env.baselineMemory, env.baseline);
    sampler.TakeSample(env.preflight);
    var before := sampler.Snapshot();
    var uid := ExecutionIdentity(task.privileged, env.caller);
    var missing := Missing(task.requiredTools, env.found);
    var shownUid := if uid.Some? then uid.value else env.caller.euid;
    if !PreflightPasses(task, env, before) {
      return TaskEvidence(Unavailable, round(env.elapsed), None, None, 1, missing, env.missingEnvironment, shownUid, None, Some(before));
    }
    if env.exhaustedAfterPreflight {
      return TaskEvidence(Failed, round(env.elapsed), None, None, 1, missing, env.missingEnvironment, shownUid, None, Some(before));
    }
    var i := 0;
    assert env.during[..0] == [];
    while i < |env.during|
      invariant 0 <= i <= |env.during|
      invariant sampler.Now() == Run(AfterPreflight(task, env), env.during[..i])
    {
      assert env.during[..i + 1][..i] == env.during[..i];
      sampler.TakeSample(env.during[i]);
      i := i + 1;
    }
    assert env.during[..|env.during|] == env.during;
    sampler.ApplyRssFallback(env.fallbackRss);
    sampler.TakeSample(env.final);
    var after := sampler.Snapshot();
    var passed := WithinBudget(task, env, after) && env.exitStatus == 0;
    return TaskEvidence(if passed then Passed else Failed, round(env.elapsed), Some(env.exitStatus), Some(env.timedOut), 1,
                        missing, env.missingEnvironment, shownUid, if task.lens.Some? then Some(env.revision) else None, Some(after));
  }

  // ------------------------------------------------ the validator

  /** Path provenance of one filesystem; `wellPlaced` stands for the canonical-path and mount checks on one source. */
  ghost predicate ObservationsAccepted(f: Filesystem, wellPlaced: Source -> bool) {
    && (forall i, j | 0 <= i < j < |f.sources| :: (f.sources[i].role, f.sources[i].path) != (f.sources[j].role, f.sources[j].path))
    && (forall role :: role in f.roles <==> exists x :: x in f.sources && x.role == role)
    && (forall path :: path in f.paths <==> exists x :: x in f.sources && x.path == path)
    && (forall x | x in f.sources :: x.observation.view.device == f.device && wellPlaced(x))
  }

  ghost predicate HasRole(fs: seq<Filesystem>, role: string) {
    exists f :: f in fs && role in f.roles
  }

  /** The filesystem part of the checks on a passed task. */
  ghost predicate FilesystemsAccepted(task: Task, o: Observed, wellPlaced: Source -> bool) {
    && o.filesystems != []
    && (forall i, j | 0 <= i < j < |o.filesystems| :: o.filesystems[i].device != o.filesystems[j].device)
    && (forall f | f in o.filesystems :: ObservationsAccepted(f, wellPlaced))
    && HasRole(o.filesystems, CHECKOUT) && HasRole(o.filesystems, TEMPORARY)
    && (PODMAN in task.requiredTools ==> HasRole(o.filesystems, GRAPH_ROOT))
    && (forall f | f in o.filesystems ::
          f.baselineMib >= task.minimumDisk && f.minimumMib <= f.baselineMib
          && (f.growthMib == f.baselineMib - f.minimumMib || f.growthMib == f.baselineMib - f.minimumMib + 1))
    && Sum(GrowthOf(), o.filesystems) == o.growth
    && o.availableDisk == Some(LeastBaseline(o.filesystems))
  }

  /** `validate_evidence_semantics` on one task, chronology aside; only passed tasks are checked. */
  ghost predicate Accepts(task: Task, e: TaskEvidence, revision: string, wellPlaced: Source -> bool) {
    e.state == Passed ==>
      && e.observed.Some? && var o := e.observed.value;
      && !o.diskError
      && e.wallMilliseconds <= task.deadlineSeconds * 1000
      && o.availableMemory.Some? && task.minimumMemory <= o.availableMemory.value
      && o.peakMemory.Some? && o.peakMemory.value <= task.maximumRss
      && o.peakRss <= task.maximumRss * 1024
      && o.growth <= task.maximumGrowth
      && e.concurrency == 1
      && e.exitStatus == Some(0) && e.timedOut == Some(false)
      && e.missingTools == [] && e.missingEnvironment == []
      && (task.privileged <==> e.effectiveUid == 0)
      && FilesystemsAccepted(task, o, wellPlaced)
      && (task.lens.Some? ==> e.lensRevision == Some(revision))
  }
}
