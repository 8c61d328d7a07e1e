/** When the collector's timings are the ones the validator recomputes, and when they are not. */
module CollectorLaws {
  import opened Wrappers
  import opened Sequences
  import opened Intervals
  import opened Timing
  import opened AttemptTimings
  import opened AttemptLaws
  import opened Collector

  /** A group as the validator visits it: looked up through the sorted ids. */
  function Resorted(tasks: seq<Task>, group: seq<Task>): (r: seq<Task>)
    requires forall t | t in group :: t.id in ById(tasks)
    ensures |r| == |group|
  {
    var ids := Sort(StringLe, Ids(group));
    MultisetMembers(ids, Ids(group));
    Chosen(ById(tasks), ids)
  }

  /** The groups of the attempts, in the order of the attempts. */
  ghost function AttemptGroups(workers: seq<WorkerEvidence>): (r: seq<seq<Task>>)
    ensures |r| == |Attempts(workers)|
    ensures forall i | 0 <= i < |r| :: r[i] == Members(workers, Attempts(workers)[i])
  {
    seq(|Attempts(workers)|, i requires 0 <= i < |Attempts(workers)| => Members(workers, Attempts(workers)[i]))
  }

  /** The two visiting orders meet the same text first among the tasks that start (finish) together. */
  ghost predicate TextsAgree(tasks: seq<Task>, group: seq<Task>) {
    && group != [] && (forall t | t in group :: t.id in ById(tasks))
    && Earliest(group).started.text == Earliest(Resorted(tasks, group)).started.text
    && Latest(group).finished.text == Latest(Resorted(tasks, group)).finished.text
  }

  /** One text per instant, as `now()` writes timestamps. */
  ghost predicate Canonical(tasks: seq<Task>) {
    && (forall a, b | a in tasks && b in tasks && a.started.instant == b.started.instant :: a.started.text == b.started.text)
    && (forall a, b | a in tasks && b in tasks && a.finished.instant == b.finished.instant :: a.finished.text == b.finished.text)
  }

  // ------------------------------------------------ one attempt

  lemma MembersAreTasks(workers: seq<WorkerEvidence>, n: int)
    requires UniqueIds(TasksIn(workers))
    ensures forall t | t in Members(workers, n) :: t in TasksIn(workers) && t.id in ById(TasksIn(workers)) && ById(TasksIn(workers))[t.id] == t
    ensures Distinct(Members(workers, n))
  {
    var tasks := TasksIn(workers);
    DistinctTasks(tasks);
    MembersDistinct(workers, n);
    forall t | t in Members(workers, n) ensures t in tasks && t.id in ById(tasks) && ById(tasks)[t.id] == t {
      MembersExactly(workers, n, t);
      var w :| w in workers && w.task == t;
      var i :| 0 <= i < |workers| && workers[i] == w;
      assert tasks[i] == t;
      ByIdFinds(tasks, i);
    }
  }

  /** Looking a group up through its sorted ids permutes it. */
  lemma ResortedPermutes(tasks: seq<Task>, group: seq<Task>)
    requires Distinct(group) && forall t | t in group :: t.id in ById(tasks) && ById(tasks)[t.id] == t
    ensures multiset(Resorted(tasks, group)) == multiset(group)
    ensures Distinct(Sort(StringLe, Ids(group)))
  {
    var byId := ById(tasks);
    var ids := Sort(StringLe, Ids(group));
    assert Distinct(Ids(group)) by {
      forall i, j | 0 <= i < j < |group| ensures Ids(group)[i] != Ids(group)[j] {
        assert byId[group[i].id] == group[i] && byId[group[j].id] == group[j];
      }
    }
    DistinctPermutation(ids, Ids(group));
    MultisetMembers(ids, Ids(group));
    var r := Resorted(tasks, group);
    forall i, j | 0 <= i < j < |r| ensures r[i] != r[j] {
      IdRecovered(byId, group, ids[i]);
      IdRecovered(byId, group, ids[j]);
    }
    forall t ensures t in r <==> t in group {
      if t in r {
        var i :| 0 <= i < |r| && r[i] == t;
        IdRecovered(byId, group, ids[i]);
      }
      if t in group {
        var k :| 0 <= k < |group| && group[k] == t;
        assert Ids(group)[k] in ids;
        var i :| 0 <= i < |ids| && ids[i] == t.id;
        assert r[i] == t;
      }
    }
    DistinctSameMembers(r, group);
  }

  lemma IdRecovered(byId: map<string, Task>, group: seq<Task>, id: string)
    requires forall t | t in group :: t.id in byId && byId[t.id] == t
    requires id in Ids(group)
    ensures id in byId && byId[id] in group && byId[id].id == id
  {
    var k :| 0 <= k < |group| && Ids(group)[k] == id;
    assert group[k] in group;
  }

  lemma EntryNames(n: int, tasks: seq<Task>, group: seq<Task>, round: int -> int)
    requires group != [] && Distinct(group) && forall t | t in group :: t.id in ById(tasks) && ById(tasks)[t.id] == t
    ensures NamesTasks(EntryFor(n, group, round), ById(tasks))
    ensures Group(EntryFor(n, group, round), ById(tasks)) == Resorted(tasks, group)
  {
    ResortedPermutes(tasks, group);
    MultisetMembers(Sort(StringLe, Ids(group)), Ids(group));
  }

  lemma SameExtremes(a: seq<Task>, b: seq<Task>)
    requires a != [] && b != [] && multiset(a) == multiset(b)
    ensures Earliest(a).started.instant == Earliest(b).started.instant
    ensures Latest(a).finished.instant == Latest(b).finished.instant
  {
    MultisetMembers(a, b);
  }

  /** The validator re-derives one collected entry exactly when the texts agree. */
  lemma EntryReDerived(n: int, tasks: seq<Task>, group: seq<Task>, run: Run, round: int -> int)
    requires group != [] && Distinct(group) && forall t | t in group :: t.id in ById(tasks) && ById(tasks)[t.id] == t
    requires WithinLimits(group, Limits(run.deadline, run.maximumConcurrency), round)
    ensures Describes(EntryFor(n, group, round), run, ById(tasks), round) <==> TextsAgree(tasks, group)
  {
    hide Earliest, Latest, MaxOverlap, Measure, Spans, Sort, Ids, ById;
    EntryNames(n, tasks, group, round);
    ResortedPermutes(tasks, group);
    PermutedTasks(Resorted(tasks, group), group);
  }

  lemma EntriesFollow(m: int, n: int, tasks: seq<Task>, a: seq<Task>, b: seq<Task>, round: int -> int)
    requires a != [] && Distinct(a) && forall t | t in a :: t.id in ById(tasks) && ById(tasks)[t.id] == t
    requires b != [] && Distinct(b) && forall t | t in b :: t.id in ById(tasks) && ById(tasks)[t.id] == t
    ensures Follows(EntryFor(m, a, round), EntryFor(n, b, round), ById(tasks)) <==>
              m < n && Latest(a).finished.instant <= Earliest(b).started.instant
  {
    hide Earliest, Latest, MaxOverlap, Measure, Spans, Sort, Ids, ById;
    EntryNames(m, tasks, a, round);
    EntryNames(n, tasks, b, round);
    ResortedPermutes(tasks, a);
    ResortedPermutes(tasks, b);
    SameExtremes(Resorted(tasks, a), a);
    SameExtremes(Resorted(tasks, b), b);
  }

  lemma EntryIds(n: int, group: seq<Task>, round: int -> int)
    requires group != []
    ensures forall id :: id in IdsOf()(EntryFor(n, group, round)) <==> id in Ids(group)
  {
    MultisetMembers(Sort(StringLe, Ids(group)), Ids(group));
  }

  // ------------------------------------------------ all attempts

  lemma AttemptsIncrease(workers: seq<WorkerEvidence>)
    ensures forall i, j | 0 <= i < j < |Attempts(workers)| :: Attempts(workers)[i] < Attempts(workers)[j]
    ensures forall n :: n in Attempts(workers) <==> n in Met(workers)
  {
    MetMembers(workers);
    SortSorted(IntLe, Met(workers));
    DistinctPermutation(Attempts(workers), Met(workers));
    MultisetMembers(Attempts(workers), Met(workers));
    forall i, j | 0 <= i < j < |Attempts(workers)| ensures Attempts(workers)[i] < Attempts(workers)[j] {
      assert IntLe(Attempts(workers)[i], Attempts(workers)[j]);
    }
  }

  /** Everything `collect` establishes before it hands the timings to the validator. */
  ghost predicate Collected(timings: seq<AttemptTiming>, workers: seq<WorkerEvidence>, run: Run, round: int -> int) {
    && workers != [] && Positive(workers) && UniqueIds(TasksIn(workers))
    && AttemptsWithinLimits(workers, Limits(run.deadline, run.maximumConcurrency), round)
    && |timings| == |Attempts(workers)| && EntriesBuilt(timings, workers, Attempts(workers), round)
  }

  /** What is known about entry `i` and its group. */
  lemma CollectedEntry(timings: seq<AttemptTiming>, workers: seq<WorkerEvidence>, run: Run, round: int -> int, i: nat)
    requires Collected(timings, workers, run, round) && i < |timings|
    ensures var n := Attempts(workers)[i]; var group := Members(workers, n);
      && n >= 1 && group != [] && timings[i] == EntryFor(n, group, round)
      && WithinLimits(group, Limits(run.deadline, run.maximumConcurrency), round)
      && Distinct(group)
      && (forall t | t in group :: t in TasksIn(workers) && t.id in ById(TasksIn(workers)) && ById(TasksIn(workers))[t.id] == t)
  {
    var n := Attempts(workers)[i];
    assert IsEntry(round)(timings[i], n, Members(workers, n));
    MembersAreTasks(workers, n);
    AttemptsIncrease(workers);
    MetMembers(workers);
    assert n in Met(workers);
    assert Fits(Limits(run.deadline, run.maximumConcurrency), round)(Members(workers, n));
  }

  lemma CollectedDisjoint(timings: seq<AttemptTiming>, workers: seq<WorkerEvidence>, run: Run, round: int -> int, i: nat, j: nat)
    requires Collected(timings, workers, run, round) && i < j < |timings|
    ensures IdsOf()(timings[i]) !! IdsOf()(timings[j])
  {
    var m, n := Attempts(workers)[i], Attempts(workers)[j];
    var a, b := Members(workers, m), Members(workers, n);
    var byId := ById(TasksIn(workers));
    CollectedEntry(timings, workers, run, round, i);
    CollectedEntry(timings, workers, run, round, j);
    EntryIds(m, a, round);
    EntryIds(n, b, round);
    AttemptsIncrease(workers);
    forall id | id in Ids(a) ensures id !in Ids(b) {
      IdRecovered(byId, a, id);
      MembersApart(workers, m, n, byId[id]);
      if id in Ids(b) {
        IdRecovered(byId, b, id);
        assert false;
      }
    }
  }

  lemma OneDocument(workers: seq<WorkerEvidence>, v: WorkerEvidence, w: WorkerEvidence)
    requires Distinct(TasksIn(workers)) && v in workers && w in workers && v.task == w.task
    ensures v == w
  {
    var i :| 0 <= i < |workers| && workers[i] == v;
    var j :| 0 <= j < |workers| && workers[j] == w;
    assert TasksIn(workers)[i] == TasksIn(workers)[j];
  }

  lemma MembersApart(workers: seq<WorkerEvidence>, m: int, n: int, t: Task)
    requires UniqueIds(TasksIn(workers)) && m != n && t in Members(workers, m)
    ensures t !in Members(workers, n)
  {
    DistinctTasks(TasksIn(workers));
    MembersExactly(workers, m, t);
    MembersExactly(workers, n, t);
    var w :| w in workers && w.task == t && w.attempt == Given(m);
    forall v | v in workers && v.task == t ensures v.attempt == Given(m) {
      OneDocument(workers, v, w);
    }
  }

  lemma CollectedCovers(timings: seq<AttemptTiming>, workers: seq<WorkerEvidence>, run: Run, round: int -> int)
    requires Collected(timings, workers, run, round)
    ensures Keys(IdsOf(), timings) == ById(TasksIn(workers)).Keys
  {
    var tasks := TasksIn(workers);
    ByIdKeys(tasks);
    KeysMembers(IdsOf(), timings);
    forall id | id in Keys(IdsOf(), timings) ensures id in ById(tasks) {
      var i :| 0 <= i < |timings| && id in IdsOf()(timings[i]);
      CollectedEntry(timings, workers, run, round, i);
      EntryIds(Attempts(workers)[i], Members(workers, Attempts(workers)[i]), round);
      IdRecovered(ById(tasks), Members(workers, Attempts(workers)[i]), id);
    }
    forall id | id in ById(tasks) ensures id in Keys(IdsOf(), timings) {
      TaskIsNamed(timings, workers, run, round, ById(tasks)[id]);
    }
  }

  /** The entry of a worker's attempt, and the attempt's group with the worker's task. */
  lemma AttemptOfTask(workers: seq<WorkerEvidence>, t: Task) returns (i: nat)
    requires Positive(workers) && t in TasksIn(workers)
    ensures i < |Attempts(workers)| && t in Members(workers, Attempts(workers)[i])
  {
    hide Attempts, Members, Met;
    var k :| 0 <= k < |workers| && TasksIn(workers)[k] == t;
    assert workers[k] in workers;
    var n := workers[k].attempt.value;
    MembersExactly(workers, n, t);
    MetMembers(workers);
    AttemptsIncrease(workers);
    i :| 0 <= i < |Attempts(workers)| && Attempts(workers)[i] == n;
  }

  lemma MemberIsNamed(timings: seq<AttemptTiming>, workers: seq<WorkerEvidence>, run: Run, round: int -> int, t: Task, i: nat)
    requires Collected(timings, workers, run, round) && i < |timings| && t in Members(workers, Attempts(workers)[i])
    ensures t.id in IdsOf()(timings[i])
  {
    hide Attempts, Members, EntryFor, AttemptsWithinLimits, EntriesBuilt, UniqueIds;
    var group := Members(workers, Attempts(workers)[i]);
    CollectedEntry(timings, workers, run, round, i);
    EntryIds(Attempts(workers)[i], group, round);
    var m :| 0 <= m < |group| && group[m] == t;
    assert Ids(group)[m] == t.id;
  }

  lemma TaskIsNamed(timings: seq<AttemptTiming>, workers: seq<WorkerEvidence>, run: Run, round: int -> int, t: Task)
    requires Collected(timings, workers, run, round) && t in TasksIn(workers)
    ensures t.id in Keys(IdsOf(), timings)
  {
    hide Attempts, Members, IdsOf, Keys, AttemptsWithinLimits, EntriesBuilt, UniqueIds;
    var i := AttemptOfTask(workers, t);
    MemberIsNamed(timings, workers, run, round, t, i);
    KeysMembers(IdsOf(), timings);
  }

  /** Neighbouring attempts do not overlap. */
  ghost predicate Ordered(workers: seq<WorkerEvidence>) {
    var a := Attempts(workers);
    && (forall n | n in a :: Members(workers, n) != [])
    && (forall i | 0 <= i < |a| - 1 ::
          Latest(Members(workers, a[i])).finished.instant <= Earliest(Members(workers, a[i + 1])).started.instant)
  }

  ghost predicate AllTextsAgree(workers: seq<WorkerEvidence>) {
    forall n | n in Attempts(workers) :: TextsAgree(TasksIn(workers), Members(workers, n))
  }

  /**
    The exact condition: what `collect` builds is accepted by the validator, which walks the
    tasks in another order, if and only if the attempts are chronological and the texts agree.
  */
  lemma CollectedAcceptedIff(timings: seq<AttemptTiming>, workers: seq<WorkerEvidence>, run: Run, round: int -> int)
    requires Collected(timings, workers, run, round)
    ensures Accepted(timings, run, TasksIn(workers), round) <==> Ordered(workers) && AllTextsAgree(workers)
  {
    hide EachEntry, NextEntry, Collected, Ordered, AllTextsAgree, IdsOf, ById, Keys;
    CollectedCovers(timings, workers, run, round);
    AttemptsIncrease(workers);
    CollectedNonempty(timings, workers, run, round);
    EachIff(timings, workers, run, round);
    NextIff(timings, workers, run, round);
    forall i, j | 0 <= i < j < |timings| ensures IdsOf()(timings[i]) !! IdsOf()(timings[j]) {
      CollectedDisjoint(timings, workers, run, round, i, j);
    }
  }

  lemma CollectedNonempty(timings: seq<AttemptTiming>, workers: seq<WorkerEvidence>, run: Run, round: int -> int)
    requires Collected(timings, workers, run, round)
    ensures timings != []
  {
    assert workers[0] in workers;
    MetMembers(workers);
    AttemptsIncrease(workers);
    assert workers[0].attempt.value in Attempts(workers);
  }

  lemma EachIff(timings: seq<AttemptTiming>, workers: seq<WorkerEvidence>, run: Run, round: int -> int)
    requires Collected(timings, workers, run, round)
    ensures (forall i | 0 <= i < |timings| :: EachEntry(run, ById(TasksIn(workers)), round)(timings[i])) <==> AllTextsAgree(workers)
  {
    var byId := ById(TasksIn(workers));
    forall i | 0 <= i < |timings|
      ensures EachEntry(run, byId, round)(timings[i]) <==> TextsAgree(TasksIn(workers), Members(workers, Attempts(workers)[i]))
    {
      CollectedEntry(timings, workers, run, round, i);
      EntryReDerived(Attempts(workers)[i], TasksIn(workers), Members(workers, Attempts(workers)[i]), run, round);
    }
  }

  lemma NextIff(timings: seq<AttemptTiming>, workers: seq<WorkerEvidence>, run: Run, round: int -> int)
    requires Collected(timings, workers, run, round)
    ensures (forall i | 0 <= i < |timings| - 1 :: NextEntry(ById(TasksIn(workers)))(timings[i], timings[i + 1])) <==> Ordered(workers)
  {
    var a := Attempts(workers);
    forall n | n in a ensures Members(workers, n) != [] {
      AttemptsIncrease(workers);
      MetMembers(workers);
    }
    forall i | 0 <= i < |timings| - 1
      ensures NextEntry(ById(TasksIn(workers)))(timings[i], timings[i + 1]) <==>
                Latest(Members(workers, a[i])).finished.instant <= Earliest(Members(workers, a[i + 1])).started.instant
    {
      CollectedEntry(timings, workers, run, round, i);
      CollectedEntry(timings, workers, run, round, i + 1);
      AttemptsIncrease(workers);
      EntriesFollow(a[i], a[i + 1], TasksIn(workers), Members(workers, a[i]), Members(workers, a[i + 1]), round);
    }
  }

  /** With canonical timestamps the texts always agree, whatever the order of the ids. */
  lemma CanonicalTextsAgree(workers: seq<WorkerEvidence>)
    requires UniqueIds(TasksIn(workers)) && Canonical(TasksIn(workers))
    ensures AllTextsAgree(workers)
  {
    var tasks := TasksIn(workers);
    forall n | n in Attempts(workers) ensures TextsAgree(tasks, Members(workers, n)) {
      var group := Members(workers, n);
      AttemptsIncrease(workers);
      MetMembers(workers);
      MembersAreTasks(workers, n);
      ResortedPermutes(tasks, group);
      MultisetMembers(Resorted(tasks, group), group);
      SameExtremes(Resorted(tasks, group), group);
    }
  }

  /**
    For canonical timestamps and chronological attempts within the limits, the entries that
    `collect` writes are exactly those the validator recomputes.
  */
  lemma CanonicalCollectionAccepted(timings: seq<AttemptTiming>, workers: seq<WorkerEvidence>, run: Run, round: int -> int)
    requires Collected(timings, workers, run, round)
    requires Canonical(TasksIn(workers)) && Ordered(workers)
    ensures Accepted(timings, run, TasksIn(workers), round)
  {
    CanonicalTextsAgree(workers);
    CollectedAcceptedIff(timings, workers, run, round);
  }

  lemma LongestUnique(timings: seq<AttemptTiming>, v: int, w: int)
    requires IsLongest(timings, v) && IsLongest(timings, w)
    ensures v == w
  {}

  /** The collector's own global concurrency check is implied by its per-attempt checks. */
  lemma GlobalCheckImplied(workers: seq<WorkerEvidence>, limits: Limits, round: int -> int)
    requires workers != [] && Positive(workers) && UniqueIds(TasksIn(workers))
    requires AttemptsWithinLimits(workers, limits, round) && Ordered(workers)
    ensures MaxOverlap(Spans(TasksIn(workers))) <= limits.maximumConcurrency
  {
    var groups := AttemptGroups(workers);
    AttemptsIncrease(workers);
    assert workers[0] in workers;
    MetMembers(workers);
    assert workers[0].attempt.value in Attempts(workers);
    forall i | 0 <= i < |groups| ensures WithinLimits(groups[i], limits, round) {
      assert Attempts(workers)[i] in Met(workers);
      assert Fits(limits, round)(groups[i]);
    }
    assert Chronological(groups);
    GroupsDecompose(groups);
    LargestOverlapBounds(groups);
    GroupsCoverWorkers(workers);
    PermutedTasks(Flatten(groups), TasksIn(workers));
  }

  lemma GroupsCoverWorkers(workers: seq<WorkerEvidence>)
    requires Positive(workers) && UniqueIds(TasksIn(workers))
    ensures multiset(Flatten(AttemptGroups(workers))) == multiset(TasksIn(workers))
  {
    var groups, tasks := AttemptGroups(workers), TasksIn(workers);
    AttemptsIncrease(workers);
    forall i | 0 <= i < |groups| ensures Distinct(groups[i]) {
      MembersAreTasks(workers, Attempts(workers)[i]);
    }
    forall i, j, x | 0 <= i < j < |groups| && x in groups[i] ensures x !in groups[j] {
      MembersApart(workers, Attempts(workers)[i], Attempts(workers)[j], x);
    }
    FlattenDistinct(groups);
    DistinctTasks(tasks);
    forall t ensures t in Flatten(groups) <==> t in tasks {
      InFlatten(groups, t);
      if t in Flatten(groups) {
        var i :| 0 <= i < |groups| && t in groups[i];
        MembersAreTasks(workers, Attempts(workers)[i]);
      }
      if t in tasks {
        var k :| 0 <= k < |workers| && tasks[k] == t;
        assert workers[k] in workers;
        MembersExactly(workers, workers[k].attempt.value, t);
        MetMembers(workers);
        var i :| 0 <= i < |Attempts(workers)| && Attempts(workers)[i] == workers[k].attempt.value;
        assert t in groups[i];
      }
    }
    DistinctSameMembers(Flatten(groups), tasks);
  }

  /**
    `collect`: build the aggregate, then submit it to the validator and compare the wall times.
    Success means exactly: every check of the construction, chronological attempts, agreeing texts.
  */
  method Collect(workers: seq<WorkerEvidence>, limits: Limits, round: int -> int) returns (r: Result<Built, TimingError>)
    requires workers != [] && UniqueIds(TasksIn(workers))
    ensures r.Ok? <==> && Positive(workers) && AttemptsWithinLimits(workers, limits, round)
                       && Ordered(workers) && AllTextsAgree(workers)
    ensures r.Ok? ==> && r.value.concurrency == MaxOverlap(Spans(TasksIn(workers))) <= limits.maximumConcurrency
                      && IsLongest(r.value.timings, r.value.wall)
  {
    ghost var target := Run(Aggregate, Absent, Absent, 0, limits.deadline, limits.maximumConcurrency);
    var built := BuildAggregate(workers, limits, round);
    if built.Err? {
      GlobalCheckNeverAlone(workers, limits, round);
      return Err(built.error);
    }
    var timings := built.value.timings;
    var run := Run(Aggregate, Absent, Given(timings), built.value.wall, limits.deadline, limits.maximumConcurrency);
    var validated := ValidateAttemptTimings(run, TasksIn(workers), round);
    CollectedAcceptedIff(timings, workers, run, round);
    if validated.Err? {
      return Err(validated.error);
    }
    LongestUnique(timings, validated.value, built.value.wall);
    if validated.value != run.wall {
      return Err(Refused);
    }
    return Ok(built.value);
  }

  lemma GlobalCheckNeverAlone(workers: seq<WorkerEvidence>, limits: Limits, round: int -> int)
    requires workers != [] && UniqueIds(TasksIn(workers))
    requires !(Positive(workers) && AttemptsWithinLimits(workers, limits, round)
               && MaxOverlap(Spans(TasksIn(workers))) <= limits.maximumConcurrency)
    ensures !(Positive(workers) && AttemptsWithinLimits(workers, limits, round) && Ordered(workers))
  {
    if Positive(workers) && AttemptsWithinLimits(workers, limits, round) && Ordered(workers) {
      GlobalCheckImplied(workers, limits, round);
      assert false;
    }
  }

  // ------------------------------------------------ where it fails

  /** Two tasks that start together, one written with an offset of an hour. */
  const OFFSET := Task("a", Stamp(0, "1970-01-01T01:00:00+01:00"), Stamp(5, "1970-01-01T00:00:00.000005Z"))
  const PLAIN := Task("b", Stamp(0, "1970-01-01T00:00:00Z"), Stamp(5, "1970-01-01T00:00:00.000005Z"))

  /** The catalogue lists "b" before "a"; the sorted ids list "a" before "b". */
  const OFFSET_WORKERS := [WorkerEvidence(PLAIN, Given(1)), WorkerEvidence(OFFSET, Given(1))]

  lemma OffsetGroup()
    ensures Members(OFFSET_WORKERS, 1) == [PLAIN, OFFSET] && TasksIn(OFFSET_WORKERS) == [PLAIN, OFFSET]
    ensures Met(OFFSET_WORKERS) == [1] && Attempts(OFFSET_WORKERS) == [1]
  {
    assert OFFSET_WORKERS[..1] == [WorkerEvidence(PLAIN, Given(1))];
    assert Members(OFFSET_WORKERS[..1], 1) == [PLAIN];
    assert Met(OFFSET_WORKERS[..1]) == [1];
  }

  lemma SortTwo<T>(le: (T, T) -> bool, x: T, y: T)
    requires !le(y, x)
    ensures Sort(le, [y, x]) == [x, y]
  {
    var s, t := [y, x], [x];
    assert s[1..] == t && t[1..] == [];
    assert Sort(le, []) == [];
    assert Sort(le, t) == [x];
    assert Insert(le, y, []) == [y];
    assert Insert(le, y, t) == [x] + [y];
  }

  lemma OffsetSorted()
    ensures Sort(StringLe, Ids([PLAIN, OFFSET])) == ["a", "b"]
  {
    assert Ids([PLAIN, OFFSET]) == ["b", "a"];
    SortTwo(StringLe, "a", "b");
  }

  lemma OffsetLookup()
    ensures ById([PLAIN, OFFSET]) == map["b" := PLAIN, "a" := OFFSET]
    ensures UniqueIds([PLAIN, OFFSET])
  {
    assert [PLAIN, OFFSET][..1] == [PLAIN] && [PLAIN][..0] == [];
    assert ById([PLAIN]) == map["b" := PLAIN];
  }

  lemma OffsetTextsDisagree()
    ensures !TextsAgree([PLAIN, OFFSET], [PLAIN, OFFSET])
  {
    var group := [PLAIN, OFFSET];
    OffsetSorted();
    OffsetLookup();
    assert Resorted(group, group) == [OFFSET, PLAIN];
    assert [OFFSET, PLAIN][1..] == [PLAIN] && [PLAIN, OFFSET][1..] == [OFFSET];
    assert Earliest([OFFSET, PLAIN]) == OFFSET && Earliest(group) == PLAIN;
    assert OFFSET.started.text[12] != PLAIN.started.text[12];
  }

  /** Whatever `collect` writes for these workers is refused. */
  lemma OffsetsNeverAccepted(timings: seq<AttemptTiming>, run: Run, round: int -> int)
    requires Collected(timings, OFFSET_WORKERS, run, round)
    ensures Ordered(OFFSET_WORKERS) && !Accepted(timings, run, TasksIn(OFFSET_WORKERS), round)
  {
    OffsetGroup();
    OffsetTextsDisagree();
    assert 1 in Attempts(OFFSET_WORKERS);
    CollectedAcceptedIff(timings, OFFSET_WORKERS, run, round);
  }

  lemma OffsetSpans()
    ensures AllProper(Spans([PLAIN, OFFSET])) && Measure(Spans([PLAIN, OFFSET])) == 5 && MaxOverlap(Spans([PLAIN, OFFSET])) <= 2
  {
    var s, i := Spans([PLAIN, OFFSET]), Interval(0, 5);
    assert s == [i, i] && s[1..] == [i] && [i][1..] == [];
    PointsSize(i);
    assert Union([i]) == Points(i) + Union([]) == Points(i);
    assert Union(s) == Points(i) + Union([i]) == Points(i);
    MaxOverlapIsMaximum(s);
    var t: int :| Depth(s, t) == MaxOverlap(s);
    DepthPositive(s, t);
  }

  /**
    Without canonical timestamps the agreement fails: these workers form one attempt, so they are in
    order and, for limits of two workers and their own active time, `collect` writes timings for them,
    which the validator refuses.
  */
  lemma OffsetsRefused(run: Run, round: int -> int) returns (timings: seq<AttemptTiming>)
    requires round(5) <= run.deadline && 2 <= run.maximumConcurrency
    ensures Collected(timings, OFFSET_WORKERS, run, round) && Ordered(OFFSET_WORKERS)
    ensures !Accepted(timings, run, TasksIn(OFFSET_WORKERS), round)
  {
    hide Accepted, Measure, MaxOverlap, Spans, Earliest, Latest, Sort;
    OffsetGroup();
    OffsetSpans();
    OffsetLookup();
    var group := [PLAIN, OFFSET];
    timings := [EntryFor(1, group, round)];
    assert IsEntry(round)(timings[0], 1, group);
    assert Fits(Limits(run.deadline, run.maximumConcurrency), round)(group);
    OffsetsNeverAccepted(timings, run, round);
  }
}
