/**
  The collector combines worker evidence: it groups tasks by GitHub attempt in catalogue order
  and writes the timings that the validator then re-derives in the order of the sorted ids.
*/
module Collector {
  import opened Wrappers
  import opened Sequences
  import opened Intervals
  import opened Timing
  import opened AttemptTimings
  import opened AttemptLaws

  /** One worker document, reduced to its task and its `github_run_attempt`. */
  datatype WorkerEvidence = WorkerEvidence(task: Task, attempt: Field<int>)

  /** Tier limits; the deadline is in the unit that `round` produces. */
  datatype Limits = Limits(deadline: int, maximumConcurrency: int)

  datatype Built = Built(startedAt: string, finishedAt: string, wall: int, concurrency: int, timings: seq<AttemptTiming>)

  predicate IntLe(a: int, b: int) {
    a <= b
  }

  function TaskOf(): WorkerEvidence -> Task {
    (w: WorkerEvidence) => w.task
  }

  function TasksIn(workers: seq<WorkerEvidence>): (r: seq<Task>)
    ensures |r| == |workers| && forall i | 0 <= i < |workers| :: r[i] == workers[i].task
  {
    Map(TaskOf(), workers)
  }

  predicate Positive(workers: seq<WorkerEvidence>) {
    forall w | w in workers :: w.attempt.Given? && w.attempt.value >= 1
  }

  /** The tasks of one attempt, in the order of the workers. */
  function Members(workers: seq<WorkerEvidence>, attempt: int): seq<Task> {
    if workers == [] then [] else
      var last := workers[|workers| - 1];
      Members(workers[..|workers| - 1], attempt) + if last.attempt == Given(attempt) then [last.task] else []
  }

  /** The attempts in the order in which they are first met: the insertion order of the dictionary. */
  function Met(workers: seq<WorkerEvidence>): seq<int> {
    if workers == [] then [] else
      var last := workers[|workers| - 1];
      var before := Met(workers[..|workers| - 1]);
      if last.attempt.Given? && last.attempt.value !in before then before + [last.attempt.value] else before
  }

  function Attempts(workers: seq<WorkerEvidence>): (r: seq<int>)
    ensures multiset(r) == multiset(Met(workers))
  {
    Sort(IntLe, Met(workers))
  }

  function EntryFor(attempt: int, group: seq<Task>, round: int -> int): AttemptTiming
    requires group != []
  {
    AttemptTiming(
      Given(attempt),
      Given(Earliest(group).started.text),
      Given(Latest(group).finished.text),
      Given(round(Measure(Spans(group)))),
      Given(MaxOverlap(Spans(group))),
      Given(Sort(StringLe, Ids(group))))
  }

  ghost predicate WithinLimits(group: seq<Task>, limits: Limits, round: int -> int) {
    && group != [] && AllProper(Spans(group))
    && round(Measure(Spans(group))) <= limits.deadline
    && MaxOverlap(Spans(group)) <= limits.maximumConcurrency
  }

  ghost function Fits(limits: Limits, round: int -> int): seq<Task> -> bool {
    (group: seq<Task>) => WithinLimits(group, limits, round)
  }

  /** Every attempt is within the limits on its own. */
  ghost predicate AttemptsWithinLimits(workers: seq<WorkerEvidence>, limits: Limits, round: int -> int) {
    forall n | n in Met(workers) :: Fits(limits, round)(Members(workers, n))
  }

  // ------------------------------------------------ grouping

  lemma {:induction false} MetMembers(workers: seq<WorkerEvidence>)
    ensures Distinct(Met(workers))
    ensures forall n :: n in Met(workers) <==> exists w :: w in workers && w.attempt == Given(n)
    ensures forall n :: n in Met(workers) <==> Members(workers, n) != []
  {
    if workers != [] {
      var init, last := workers[..|workers| - 1], workers[|workers| - 1];
      MetMembers(init);
      assert workers == init + [last];
    }
  }

  lemma {:induction false} MembersExactly(workers: seq<WorkerEvidence>, n: int, t: Task)
    ensures t in Members(workers, n) <==> exists w :: w in workers && w.task == t && w.attempt == Given(n)
  {
    if workers != [] {
      var init, last := workers[..|workers| - 1], workers[|workers| - 1];
      MembersExactly(init, n, t);
      assert workers == init + [last];
    }
  }

  lemma {:induction false} MembersDistinct(workers: seq<WorkerEvidence>, n: int)
    requires Distinct(TasksIn(workers))
    ensures Distinct(Members(workers, n))
  {
    if workers != [] {
      var init, last := workers[..|workers| - 1], workers[|workers| - 1];
      assert TasksIn(init) == TasksIn(workers)[..|workers| - 1];
      MembersDistinct(init, n);
      MembersExactly(init, n, last.task);
      forall w | w in init ensures w.task != last.task {
        var i :| 0 <= i < |init| && init[i] == w;
        assert TasksIn(workers)[i] != TasksIn(workers)[|workers| - 1];
      }
    }
  }

  /** `attempt_tasks.setdefault(attempt, []).append(task)` over all workers. */
  method GroupByAttempt(workers: seq<WorkerEvidence>) returns (r: Result<(map<int, seq<Task>>, seq<int>), TimingError>)
    ensures r.Ok? <==> Positive(workers)
    ensures r.Ok? ==> r.value.1 == Met(workers)
    ensures r.Ok? ==> forall n | n in Met(workers) :: n in r.value.0 && r.value.0[n] == Members(workers, n)
  {
    var groups: map<int, seq<Task>>, order: seq<int> := map[], [];
    var i := 0;
    while i < |workers|
      invariant 0 <= i <= |workers|
      invariant Positive(workers[..i])
      invariant order == Met(workers[..i])
      invariant forall n | n in order :: n in groups && groups[n] == Members(workers[..i], n)
    {
      var w := workers[i];
      if !w.attempt.Given? || w.attempt.value < 1 {
        return Err(Refused);
      }
      assert workers[..i + 1][..i] == workers[..i];
      MetMembers(workers[..i]);
      var n := w.attempt.value;
      if n !in order {
        order := order + [n];
        groups := groups[n := []];
      }
      groups := groups[n := groups[n] + [w.task]];
      i := i + 1;
    }
    assert workers[..|workers|] == workers;
    return Ok((groups, order));
  }

  // ------------------------------------------------ building the entries

  ghost function IsEntry(round: int -> int): (AttemptTiming, int, seq<Task>) -> bool {
    (t: AttemptTiming, n: int, group: seq<Task>) => group != [] && t == EntryFor(n, group, round)
  }

  /** `timings` holds the entries of the first attempts, in order. */
  ghost predicate EntriesBuilt(timings: seq<AttemptTiming>, workers: seq<WorkerEvidence>, attempts: seq<int>, round: int -> int) {
    && |timings| <= |attempts|
    && (forall i | 0 <= i < |timings| :: IsEntry(round)(timings[i], attempts[i], Members(workers, attempts[i])))
  }

  /** `max(item["active_wall_seconds"] for item in attempt_timings)`. */
  method LongestOf(timings: seq<AttemptTiming>) returns (wall: int)
    requires timings != [] && forall t | t in timings :: t.activeWall.Given?
    ensures IsLongest(timings, wall)
  {
    wall := timings[0].activeWall.value;
    for i := 1 to |timings|
      invariant exists j :: 0 <= j < i && timings[j].activeWall == Given(wall)
      invariant forall j | 0 <= j < i :: timings[j].activeWall.value <= wall
    {
      wall := Max(wall, timings[i].activeWall.value);
    }
  }

  lemma EntriesStateWall(timings: seq<AttemptTiming>, workers: seq<WorkerEvidence>, attempts: seq<int>, round: int -> int)
    requires EntriesBuilt(timings, workers, attempts, round)
    ensures forall t | t in timings :: t.activeWall.Given?
  {
    forall t | t in timings ensures t.activeWall.Given? {
      var i :| 0 <= i < |timings| && timings[i] == t;
      assert IsEntry(round)(timings[i], attempts[i], Members(workers, attempts[i]));
    }
  }

  /** The entry of one attempt, refused when the attempt is outside the limits. */
  method BuildEntry(n: int, group: seq<Task>, limits: Limits, round: int -> int) returns (r: Result<AttemptTiming, TimingError>)
    requires group != []
    ensures r.Ok? <==> Fits(limits, round)(group)
    ensures r.Ok? ==> IsEntry(round)(r.value, n, group)
  {
    var active := ActiveIntervalSeconds(group, round);
    if active.Err? {
      return Err(active.error);
    }
    if active.value > limits.deadline {
      return Err(Refused);
    }
    var overlap := MaximumIntervalOverlap(group);
    if overlap.value > limits.maximumConcurrency {
      return Err(Refused);
    }
    var entry := AttemptTiming(Given(n), Given(Earliest(group).started.text), Given(Latest(group).finished.text),
                               Given(active.value), Given(overlap.value), Given(Sort(StringLe, Ids(group))));
    assert entry == EntryFor(n, group, round);
    assert IsEntry(round)(entry, n, group);
    return Ok(entry);
  }

  method BuildEntries(workers: seq<WorkerEvidence>, groups: map<int, seq<Task>>, attempts: seq<int>, limits: Limits, round: int -> int)
    returns (r: Result<seq<AttemptTiming>, TimingError>)
    requires forall n | n in attempts :: n in groups && groups[n] == Members(workers, n) && groups[n] != []
    ensures r.Ok? <==> forall n | n in attempts :: Fits(limits, round)(Members(workers, n))
    ensures r.Ok? ==> |r.value| == |attempts| && EntriesBuilt(r.value, workers, attempts, round)
  {
    hide Members, IsEntry, Fits;
    var timings: seq<AttemptTiming> := [];
    var i := 0;
    while i < |attempts|
      invariant 0 <= i == |timings| <= |attempts|
      invariant EntriesBuilt(timings, workers, attempts, round)
      invariant forall j | 0 <= j < i :: Fits(limits, round)(Members(workers, attempts[j]))
    {
      var n := attempts[i];
      assert n in attempts;
      var entry := BuildEntry(n, groups[n], limits, round);
      if entry.Err? {
        return Err(entry.error);
      }
      timings := timings + [entry.value];
      i := i + 1;
    }
    return Ok(timings);
  }

  /** The part of `collect` that derives the aggregate's timing from the ordered workers. */
  method BuildAggregate(workers: seq<WorkerEvidence>, limits: Limits, round: int -> int) returns (r: Result<Built, TimingError>)
    requires workers != []
    ensures r.Ok? <==> && Positive(workers) && AttemptsWithinLimits(workers, limits, round)
                       && MaxOverlap(Spans(TasksIn(workers))) <= limits.maximumConcurrency
    ensures r.Ok? ==> && |r.value.timings| == |Attempts(workers)|
                      && EntriesBuilt(r.value.timings, workers, Attempts(workers), round)
                      && IsLongest(r.value.timings, r.value.wall)
                      && r.value.startedAt == Earliest(TasksIn(workers)).started.text
                      && r.value.finishedAt == Latest(TasksIn(workers)).finished.text
                      && r.value.concurrency == MaxOverlap(Spans(TasksIn(workers)))
  {
    var grouped := GroupByAttempt(workers);
    if grouped.Err? {
      return Err(grouped.error);
    }
    MetMembers(workers);
    var attempts := Sort(IntLe, grouped.value.1);
    MultisetMembers(attempts, grouped.value.1);
    assert attempts != [] by {
      assert workers[0] in workers;
      assert workers[0].attempt.value in Met(workers);
    }
    var entries := BuildEntries(workers, grouped.value.0, attempts, limits, round);
    if entries.Err? {
      return Err(entries.error);
    }
    var tasks := TasksIn(workers);
    EntriesStateWall(entries.value, workers, attempts, round);
    var wall := LongestOf(entries.value);
    AllMembersProper(workers, limits, round);
    var overlap := MaximumIntervalOverlap(tasks);
    if overlap.value > limits.maximumConcurrency {
      return Err(Refused);
    }
    return Ok(Built(Earliest(tasks).started.text, Latest(tasks).finished.text, wall, overlap.value, entries.value));
  }

  lemma AllMembersProper(workers: seq<WorkerEvidence>, limits: Limits, round: int -> int)
    requires Positive(workers) && AttemptsWithinLimits(workers, limits, round)
    ensures AllProper(Spans(TasksIn(workers)))
  {
    var s := Spans(TasksIn(workers));
    forall x | x in s ensures x.start < x.finish {
      var i :| 0 <= i < |s| && s[i] == x;
      var w := workers[i];
      assert w in workers;
      MetMembers(workers);
      MembersExactly(workers, w.attempt.value, w.task);
      GroupSpans(Members(workers, w.attempt.value));
    }
  }
}
