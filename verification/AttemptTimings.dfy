/**
  Per-attempt timing of aggregate evidence: the validator that re-derives every attempt, and
  what its adjacent checks imply about the whole run.
*/
module AttemptTimings {
  import opened Wrappers
  import opened Sequences
  import opened Intervals
  import opened Timing

  /** A JSON member as Python sees it: absent (or null), of a type the check refuses, or a value. */
  datatype Field<+T> = Absent | Mistyped | Given(value: T)

  /** One entry of `attempt_timings`; an entry that is not an object has every member absent. */
  datatype AttemptTiming = AttemptTiming(
    attempt: Field<int>,
    startedAt: Field<string>,
    finishedAt: Field<string>,
    activeWall: Field<int>,
    concurrency: Field<int>,
    taskIds: Field<seq<string>>)

  datatype EvidenceKind = Serial | Local | Worker | Aggregate

  /** `deadline` is the tier deadline in the unit that `round` produces. */
  datatype Run = Run(
    kind: EvidenceKind,
    githubRunAttempt: Field<int>,
    attemptTimings: Field<seq<AttemptTiming>>,
    wall: int,
    deadline: int,
    maximumConcurrency: int)

  // -------------------------------------------------- what is looked up

  /** `{task["id"]: task for task in tasks}`: the last task of an id wins. */
  function ById(tasks: seq<Task>): map<string, Task> {
    if tasks == [] then map[] else ById(tasks[..|tasks| - 1])[tasks[|tasks| - 1].id := tasks[|tasks| - 1]]
  }

  function IdOf(): Task -> string {
    (t: Task) => t.id
  }

  function Ids(tasks: seq<Task>): (r: seq<string>)
    ensures |r| == |tasks| && forall i | 0 <= i < |tasks| :: r[i] == tasks[i].id
  {
    Map(IdOf(), tasks)
  }

  ghost predicate UniqueIds(tasks: seq<Task>) {
    Distinct(Ids(tasks))
  }

  lemma {:induction false} ByIdKeys(tasks: seq<Task>)
    ensures forall id :: id in ById(tasks) <==> id in Ids(tasks)
    ensures forall id | id in ById(tasks) :: ById(tasks)[id] in tasks && ById(tasks)[id].id == id
  {
    if tasks != [] {
      var init, last := tasks[..|tasks| - 1], tasks[|tasks| - 1];
      ByIdKeys(init);
      assert Ids(tasks) == Ids(init) + [last.id];
    }
  }

  lemma {:induction false} ByIdFinds(tasks: seq<Task>, i: nat)
    requires UniqueIds(tasks) && i < |tasks|
    ensures tasks[i].id in ById(tasks) && ById(tasks)[tasks[i].id] == tasks[i]
  {
    var n := |tasks| - 1;
    if i < n {
      var init := tasks[..n];
      assert Ids(init) == Ids(tasks)[..n];
      assert UniqueIds(init);
      assert Ids(tasks)[i] != Ids(tasks)[n];
      ByIdFinds(init, i);
    }
  }

  /** `[by_id[task_id] for task_id in task_ids]`. */
  function Chosen(byId: map<string, Task>, ids: seq<string>): (r: seq<Task>)
    requires forall id | id in ids :: id in byId
    ensures |r| == |ids| && forall i | 0 <= i < |ids| :: r[i] == byId[ids[i]]
  {
    seq(|ids|, i requires 0 <= i < |ids| => byId[ids[i]])
  }

  /** Python's `min`/`max` with a key keep the first extreme element. */
  function Earliest(tasks: seq<Task>): (t: Task)
    requires tasks != []
    ensures t in tasks && forall u | u in tasks :: t.started.instant <= u.started.instant
  {
    if |tasks| == 1 then tasks[0] else
      var t := Earliest(tasks[1..]);
      if tasks[0].started.instant <= t.started.instant then tasks[0] else t
  }

  function Latest(tasks: seq<Task>): (t: Task)
    requires tasks != []
    ensures t in tasks && forall u | u in tasks :: u.finished.instant <= t.finished.instant
  {
    if |tasks| == 1 then tasks[0] else
      var t := Latest(tasks[1..]);
      if t.finished.instant <= tasks[0].finished.instant then tasks[0] else t
  }

  // -------------------------------------------------- acceptance, declared

  predicate NamesTasks(t: AttemptTiming, byId: map<string, Task>) {
    && t.taskIds.Given? && t.taskIds.value != []
    && (forall i, j | 0 <= i < j < |t.taskIds.value| :: t.taskIds.value[i] != t.taskIds.value[j])
    && (forall id | id in t.taskIds.value :: id in byId)
  }

  function Group(t: AttemptTiming, byId: map<string, Task>): (r: seq<Task>)
    requires NamesTasks(t, byId)
    ensures r != []
  {
    Chosen(byId, t.taskIds.value)
  }

  /** What an entry must say about the tasks of its attempt. */
  ghost predicate Matches(t: AttemptTiming, group: seq<Task>, run: Run, round: int -> int)
    requires group != []
  {
    var spans := Spans(group);
    && AllProper(spans)
    && t.startedAt == Given(Earliest(group).started.text)
    && t.finishedAt == Given(Latest(group).finished.text)
    && t.activeWall == Given(round(Measure(spans)))
    && t.concurrency == Given(MaxOverlap(spans))
    && round(Measure(spans)) <= run.deadline
    && MaxOverlap(spans) <= run.maximumConcurrency
  }

  /** What one entry must satisfy, whatever the other entries say. */
  ghost predicate Describes(t: AttemptTiming, run: Run, byId: map<string, Task>, round: int -> int) {
    NamesTasks(t, byId) && Matches(t, Group(t, byId), run, round)
  }

  ghost predicate Starts(group: seq<Task>, previousFinished: Option<int>)
    requires group != []
  {
    previousFinished.Some? ==> previousFinished.value <= Earliest(group).started.instant
  }

  /** What two neighbouring entries must satisfy; nothing is ever compared further apart. */
  ghost predicate Follows(a: AttemptTiming, b: AttemptTiming, byId: map<string, Task>) {
    && NamesTasks(a, byId) && NamesTasks(b, byId)
    && a.attempt.Given? && b.attempt.Given? && a.attempt.value < b.attempt.value
    && Latest(Group(a, byId)).finished.instant <= Earliest(Group(b, byId)).started.instant
  }

  function IdsOf(): AttemptTiming -> set<string> {
    (t: AttemptTiming) => if t.taskIds.Given? then set id | id in t.taskIds.value else {}
  }

  ghost function EachEntry(run: Run, byId: map<string, Task>, round: int -> int): AttemptTiming -> bool {
    (t: AttemptTiming) => t.attempt.Given? && 0 < t.attempt.value && Describes(t, run, byId, round)
  }

  ghost function NextEntry(byId: map<string, Task>): (AttemptTiming, AttemptTiming) -> bool {
    (a: AttemptTiming, b: AttemptTiming) => Follows(a, b, byId)
  }

  /** A prefix of entries passes every check made inside the validator's loop. */
  ghost predicate PrefixAccepted(ts: seq<AttemptTiming>, run: Run, byId: map<string, Task>, round: int -> int) {
    Chained(EachEntry(run, byId, round), NextEntry(byId), IdsOf(), ts)
  }

  ghost predicate Accepted(ts: seq<AttemptTiming>, run: Run, tasks: seq<Task>, round: int -> int) {
    ts != [] && PrefixAccepted(ts, run, ById(tasks), round) && Keys(IdsOf(), ts) == ById(tasks).Keys
  }

  ghost predicate IsLongest(ts: seq<AttemptTiming>, wall: int) {
    && (exists i :: 0 <= i < |ts| && ts[i].activeWall == Given(wall))
    && (forall i | 0 <= i < |ts| && ts[i].activeWall.Given? :: ts[i].activeWall.value <= wall)
  }

  // -------------------------------------------------- the validator

  /** The re-derivation of one entry from the tasks of its attempt. */
  method CheckGroup(t: AttemptTiming, group: seq<Task>, run: Run, round: int -> int, previousFinished: Option<int>)
    returns (r: Result<(int, int), TimingError>)
    requires group != []
    ensures r.Ok? <==> Matches(t, group, run, round) && Starts(group, previousFinished)
    ensures r.Ok? ==> t.activeWall == Given(r.value.0) && r.value.1 == Latest(group).finished.instant
  {
    var active := ActiveIntervalSeconds(group, round);
    if active.Err? {
      return Err(active.error);
    }
    var overlap := MaximumIntervalOverlap(group);
    var started, finished := Earliest(group).started, Latest(group).finished;
    if previousFinished.Some? && started.instant < previousFinished.value {
      return Err(Refused);
    }
    if t.startedAt != Given(started.text) || t.finishedAt != Given(finished.text)
       || t.activeWall != Given(active.value) || t.concurrency != Given(overlap.value) {
      return Err(Refused);
    }
    if active.value > run.deadline || overlap.value > run.maximumConcurrency {
      return Err(Refused);
    }
    return Ok((active.value, finished.instant));
  }

  /** One entry of the validator's loop, checked in the source's order against what came before. */
  method CheckAttempt(t: AttemptTiming, run: Run, byId: map<string, Task>, round: int -> int,
                      previousAttempt: int, seen: set<string>, previousFinished: Option<int>)
    returns (r: Result<(int, int), TimingError>)
    ensures r.Ok? <==>
              && t.attempt.Given? && previousAttempt < t.attempt.value
              && Describes(t, run, byId, round)
              && IdsOf()(t) !! seen
              && Starts(Group(t, byId), previousFinished)
    ensures r.Ok? ==> t.activeWall == Given(r.value.0) && r.value.1 == Latest(Group(t, byId)).finished.instant
  {
    if !t.attempt.Given? || t.attempt.value <= previousAttempt {
      return Err(Refused);
    }
    if !NamesTasks(t, byId) {
      return Err(Refused);
    }
    DisjointSets(seen, IdsOf()(t));
    if seen * IdsOf()(t) != {} {
      return Err(Refused);
    }
    r := CheckGroup(t, Group(t, byId), run, round, previousFinished);
  }

  ghost function LastAttempt(ts: seq<AttemptTiming>): int {
    if ts == [] || !ts[|ts| - 1].attempt.Given? then 0 else ts[|ts| - 1].attempt.value
  }

  ghost function LastFinish(ts: seq<AttemptTiming>, byId: map<string, Task>): Option<int> {
    if ts == [] || !NamesTasks(ts[|ts| - 1], byId) then None
    else Some(Latest(Group(ts[|ts| - 1], byId)).finished.instant)
  }

  /** What the loop compares with the entries before is exactly what the chain needs. */
  lemma EntryExtends(before: seq<AttemptTiming>, t: AttemptTiming, run: Run, byId: map<string, Task>, round: int -> int)
    requires PrefixAccepted(before, run, byId, round)
    ensures PrefixAccepted(before + [t], run, byId, round) <==>
              && t.attempt.Given? && LastAttempt(before) < t.attempt.value
              && Describes(t, run, byId, round)
              && IdsOf()(t) !! Keys(IdsOf(), before)
              && Starts(Group(t, byId), LastFinish(before, byId))
  {
    hide Matches, Group, Earliest, Latest;
    ChainedSnoc(EachEntry(run, byId, round), NextEntry(byId), IdsOf(), before, t);
    if before != [] {
      assert EachEntry(run, byId, round)(before[|before| - 1]);
    }
  }

  /**
    The validator. It returns the wall time the evidence must state; for aggregate evidence it
    accepts exactly the entries that satisfy `Accepted`, and returns the longest attempt.
  */
  method ValidateAttemptTimings(run: Run, tasks: seq<Task>, round: int -> int) returns (r: Result<int, TimingError>)
    ensures run.kind == Worker ==>
              (r == Ok(run.wall) <==> run.githubRunAttempt.Given? && run.githubRunAttempt.value >= 1
                                      && run.attemptTimings == Given([]))
    ensures run.kind == Serial || run.kind == Local ==>
              (r == Ok(run.wall) <==> run.attemptTimings == Given([])
                                      && (run.kind == Local ==> run.githubRunAttempt.Absent?))
    ensures run.kind != Aggregate && r.Ok? ==> r.value == run.wall
    ensures run.kind == Aggregate ==>
              (r.Ok? <==> run.githubRunAttempt.Absent? && run.attemptTimings.Given?
                          && Accepted(run.attemptTimings.value, run, tasks, round))
    ensures run.kind == Aggregate && r.Ok? ==> IsLongest(run.attemptTimings.value, r.value)
  {
    if run.kind == Worker {
      if !run.githubRunAttempt.Given? || run.githubRunAttempt.value < 1 || run.attemptTimings != Given([]) {
        return Err(Refused);
      }
      return Ok(run.wall);
    }
    if run.kind != Aggregate {
      if run.attemptTimings != Given([]) || (run.kind == Local && !run.githubRunAttempt.Absent?) {
        return Err(Refused);
      }
      return Ok(run.wall);
    }
    if !run.githubRunAttempt.Absent? || !run.attemptTimings.Given? || run.attemptTimings.value == [] {
      return Err(Refused);
    }
    r := ValidateEntries(run.attemptTimings.value, run, tasks, round);
  }

  /** What the loop remembers of the entries it has accepted. */
  datatype Progress = Progress(attempt: int, seen: set<string>, finished: Option<int>)

  ghost function ProgressOf(ts: seq<AttemptTiming>, byId: map<string, Task>): Progress {
    Progress(LastAttempt(ts), Keys(IdsOf(), ts), LastFinish(ts, byId))
  }

  /** One turn of the loop: entry `k` is accepted exactly when the entries up to it are. */
  method CheckNext(ts: seq<AttemptTiming>, k: nat, run: Run, byId: map<string, Task>, round: int -> int, p: Progress)
    returns (r: Result<(int, Progress), TimingError>)
    requires k < |ts| && PrefixAccepted(ts[..k], run, byId, round)
    requires p == ProgressOf(ts[..k], byId)
    ensures r.Ok? <==> PrefixAccepted(ts[..k + 1], run, byId, round)
    ensures r.Ok? ==> ts[k].activeWall == Given(r.value.0) && r.value.1 == ProgressOf(ts[..k + 1], byId)
  {
    hide PrefixAccepted, Matches, Earliest, Latest, Group;
    var t := ts[k];
    var checked := CheckAttempt(t, run, byId, round, p.attempt, p.seen, p.finished);
    EntryExtends(ts[..k], t, run, byId, round);
    assert ts[..k + 1] == ts[..k] + [t];
    if checked.Err? {
      return Err(checked.error);
    }
    return Ok((checked.value.0, Progress(t.attempt.value, p.seen + IdsOf()(t), Some(checked.value.1))));
  }

  lemma PrefixOfAccepted(ts: seq<AttemptTiming>, k: nat, run: Run, byId: map<string, Task>, round: int -> int)
    requires k <= |ts| && PrefixAccepted(ts, run, byId, round)
    ensures PrefixAccepted(ts[..k], run, byId, round)
  {
    ChainedPrefix(EachEntry(run, byId, round), NextEntry(byId), IdsOf(), ts, k);
  }

  /** The validator's loop over the entries of aggregate evidence. */
  method ValidateEntries(ts: seq<AttemptTiming>, run: Run, tasks: seq<Task>, round: int -> int)
    returns (r: Result<int, TimingError>)
    requires ts != []
    ensures r.Ok? <==> Accepted(ts, run, tasks, round)
    ensures r.Ok? ==> IsLongest(ts, r.value)
  {
    hide PrefixAccepted, ProgressOf, ById, IsLongest, Keys, IdsOf;
    var byId := ById(tasks);
    NothingChecked(ts, run, byId, round);
    var p := Progress(0, {}, None);
    var longest := 0;
    var k := 0;
    while k < |ts|
      invariant 0 <= k <= |ts|
      invariant PrefixAccepted(ts[..k], run, byId, round)
      invariant p == ProgressOf(ts[..k], byId)
      invariant k > 0 ==> IsLongest(ts[..k], longest)
    {
      var checked := CheckNext(ts, k, run, byId, round, p);
      if checked.Err? {
        if PrefixAccepted(ts, run, byId, round) {
          PrefixOfAccepted(ts, k + 1, run, byId, round);
        }
        return Err(checked.error);
      }
      LongestGrows(ts, k, longest, checked.value.0);
      p := checked.value.1;
      longest := if k == 0 then checked.value.0 else Max(longest, checked.value.0);
      k := k + 1;
    }
    assert ts[..|ts|] == ts;
    assert p.seen == Keys(IdsOf(), ts) by { SeenIds(ts, byId); }
    if p.seen != byId.Keys {
      return Err(Refused);
    }
    return Ok(longest);
  }

  lemma NothingChecked(ts: seq<AttemptTiming>, run: Run, byId: map<string, Task>, round: int -> int)
    ensures PrefixAccepted(ts[..0], run, byId, round)
    ensures ProgressOf(ts[..0], byId) == Progress(0, {}, None)
  {}

  lemma SeenIds(ts: seq<AttemptTiming>, byId: map<string, Task>)
    ensures ProgressOf(ts, byId).seen == Keys(IdsOf(), ts)
  {}

  lemma LongestGrows(ts: seq<AttemptTiming>, k: nat, longest: int, active: int)
    requires k < |ts| && ts[k].activeWall == Given(active)
    requires k > 0 ==> IsLongest(ts[..k], longest)
    ensures IsLongest(ts[..k + 1], if k == 0 then active else Max(longest, active))
  {
    var r := ts[..k + 1];
    assert r[k] == ts[k];
    if k > 0 {
      var i :| 0 <= i < k && ts[..k][i].activeWall == Given(longest);
      assert r[i] == ts[..k][i];
      forall j | 0 <= j < |r| && r[j].activeWall.Given? ensures r[j].activeWall.value <= Max(longest, active) {
        assert j == k || r[j] == ts[..k][j];
      }
    }
  }
}
