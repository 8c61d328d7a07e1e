/** Exactly which attempt timings are accepted, in terms of the tasks alone. */
module AttemptMeaning {
  import opened Sequences
  import opened Intervals
  import opened Timing
  import opened AttemptTimings
  import opened AttemptLaws

  /** Task `k` starts no later than any other, and is the first of those that start then. */
  ghost predicate StartsFirst(group: seq<Task>, k: nat) {
    && k < |group|
    && (forall j | 0 <= j < |group| :: group[k].started.instant <= group[j].started.instant)
    && (forall j | 0 <= j < k :: group[k].started.instant < group[j].started.instant)
  }

  /** Task `k` finishes no earlier than any other, and is the first of those that finish then. */
  ghost predicate FinishesLast(group: seq<Task>, k: nat) {
    && k < |group|
    && (forall j | 0 <= j < |group| :: group[j].finished.instant <= group[k].finished.instant)
    && (forall j | 0 <= j < k :: group[j].finished.instant < group[k].finished.instant)
  }

  /** An entry states the ids, the two times, the active time and the concurrency of these tasks, within the limits. */
  ghost predicate States(t: AttemptTiming, group: seq<Task>, run: Run, round: int -> int) {
    && group != [] && (forall x | x in group :: x.started.instant < x.finished.instant)
    && t.taskIds.Given? && |t.taskIds.value| == |group| && (forall k | 0 <= k < |group| :: t.taskIds.value[k] == group[k].id)
    && (exists k: nat :: StartsFirst(group, k) && t.startedAt == Given(group[k].started.text))
    && (exists k: nat :: FinishesLast(group, k) && t.finishedAt == Given(group[k].finished.text))
    && t.activeWall == Given(round(Measure(Spans(group)))) && round(Measure(Spans(group))) <= run.deadline
    && t.concurrency == Given(MaxOverlap(Spans(group))) && MaxOverlap(Spans(group)) <= run.maximumConcurrency
  }

  /** The entries, in order of positive attempts, split all the tasks into groups one of which ends before the next begins. */
  ghost predicate SplitsRun(ts: seq<AttemptTiming>, groups: seq<seq<Task>>, run: Run, tasks: seq<Task>, round: int -> int) {
    && ts != [] && |groups| == |ts|
    && (forall i | 0 <= i < |ts| :: ts[i].attempt.Given? && ts[i].attempt.value > 0 && States(ts[i], groups[i], run, round))
    && (forall i, j | 0 <= i < j < |ts| :: ts[i].attempt.value < ts[j].attempt.value)
    && multiset(Flatten(groups)) == multiset(tasks)
    && (forall i, j, a, b | 0 <= i < j < |groups| && a in groups[i] && b in groups[j] :: a.finished.instant <= b.started.instant)
  }

  lemma {:induction false} EarliestAt(group: seq<Task>) returns (k: nat)
    requires group != []
    ensures StartsFirst(group, k) && Earliest(group) == group[k]
    decreases |group|
  {
    if |group| == 1 || group[0].started.instant <= Earliest(group[1..]).started.instant {
      k := 0;
      forall j | 0 <= j < |group| ensures group[k].started.instant <= group[j].started.instant {
        assert group[j] in group;
      }
    } else {
      var rest := group[1..];
      var l := EarliestAt(rest);
      k := l + 1;
      assert forall j | 0 < j < |group| :: group[j] == rest[j - 1];
    }
  }

  lemma {:induction false} LatestAt(group: seq<Task>) returns (k: nat)
    requires group != []
    ensures FinishesLast(group, k) && Latest(group) == group[k]
    decreases |group|
  {
    if |group| == 1 || Latest(group[1..]).finished.instant <= group[0].finished.instant {
      k := 0;
      forall j | 0 <= j < |group| ensures group[j].finished.instant <= group[k].finished.instant {
        assert group[j] in group;
      }
    } else {
      var rest := group[1..];
      var l := LatestAt(rest);
      k := l + 1;
      assert forall j | 0 < j < |group| :: group[j] == rest[j - 1];
    }
  }

  lemma ProperTasks(group: seq<Task>)
    ensures AllProper(Spans(group)) <==> forall x | x in group :: x.started.instant < x.finished.instant
  {
    if AllProper(Spans(group)) {
      forall x | x in group ensures x.started.instant < x.finished.instant {
        var i :| 0 <= i < |group| && group[i] == x;
        assert Spans(group)[i] in Spans(group);
      }
    }
  }

  lemma StartText(group: seq<Task>, text: Field<string>)
    requires group != []
    ensures text == Given(Earliest(group).started.text) <==> exists k: nat :: StartsFirst(group, k) && text == Given(group[k].started.text)
  {
    var k := EarliestAt(group);
    hide Earliest;
    assert forall i: nat | StartsFirst(group, i) :: i == k;
  }

  lemma FinishText(group: seq<Task>, text: Field<string>)
    requires group != []
    ensures text == Given(Latest(group).finished.text) <==> exists k: nat :: FinishesLast(group, k) && text == Given(group[k].finished.text)
  {
    var k := LatestAt(group);
    hide Latest;
    assert forall i: nat | FinishesLast(group, i) :: i == k;
  }

  /** What is checked of one entry is what it states of its tasks. */
  lemma DescribesMeans(t: AttemptTiming, group: seq<Task>, run: Run, byId: map<string, Task>, round: int -> int)
    requires NamesTasks(t, byId) && group == Group(t, byId) && forall id | id in byId :: byId[id].id == id
    ensures Describes(t, run, byId, round) <==> States(t, group, run, round)
  {
    hide Earliest, Latest, MaxOverlap, Measure, StartsFirst, FinishesLast, AllProper, Spans;
    StartText(group, t.startedAt);
    FinishText(group, t.finishedAt);
    ProperTasks(group);
    assert forall i | 0 <= i < |group| :: group[i] == byId[t.taskIds.value[i]];
  }

  /** Accepted entries split the run. */
  lemma AcceptedSplits(ts: seq<AttemptTiming>, run: Run, tasks: seq<Task>, round: int -> int)
    requires UniqueIds(tasks) && Accepted(ts, run, tasks, round)
    ensures exists groups :: SplitsRun(ts, groups, run, tasks, round)
  {
    var byId := ById(tasks);
    AcceptedRunDecomposes(ts, run, tasks, round);
    EntriesDescribe(ts, run, byId, round);
    ByIdKeys(tasks);
    var groups := Groups(ts, byId);
    forall i | 0 <= i < |ts| ensures ts[i].attempt.Given? && ts[i].attempt.value > 0 && States(ts[i], groups[i], run, round) {
      assert EachEntry(run, byId, round)(ts[i]);
      DescribesMeans(ts[i], groups[i], run, byId, round);
    }
    AttemptsAscend(ts, run, byId, round);
    assert SplitsRun(ts, groups, run, tasks, round);
  }

  lemma AttemptsAscend(ts: seq<AttemptTiming>, run: Run, byId: map<string, Task>, round: int -> int)
    requires PrefixAccepted(ts, run, byId, round)
    ensures forall i | 0 <= i < |ts| :: ts[i].attempt.Given?
    ensures forall i, j | 0 <= i < j < |ts| :: ts[i].attempt.value < ts[j].attempt.value
  {
    forall i | 0 <= i < |ts| ensures ts[i].attempt.Given? { assert EachEntry(run, byId, round)(ts[i]); }
    forall i, j | 0 <= i < j < |ts| ensures ts[i].attempt.value < ts[j].attempt.value { AttemptBefore(ts, run, byId, round, i, j); }
  }

  lemma {:induction false} AttemptBefore(ts: seq<AttemptTiming>, run: Run, byId: map<string, Task>, round: int -> int, i: nat, j: nat)
    requires PrefixAccepted(ts, run, byId, round) && i < j < |ts|
    requires forall k | 0 <= k < |ts| :: ts[k].attempt.Given?
    ensures ts[i].attempt.value < ts[j].attempt.value
    decreases j
  {
    hide NamesTasks, Group, Latest, Earliest, Describes;
    assert NextEntry(byId)(ts[j - 1], ts[j - 1 + 1]);
    if i < j - 1 {
      AttemptBefore(ts, run, byId, round, i, j - 1);
    }
  }

  lemma DistinctParts<T>(a: seq<T>, b: seq<T>)
    requires Distinct(a + b)
    ensures Distinct(a) && Distinct(b) && forall i, j | 0 <= i < |a| && 0 <= j < |b| :: a[i] != b[j]
  {
    var s := a + b;
    forall i, j | 0 <= i < |a| && 0 <= j < |b| ensures a[i] != b[j] {
      assert s[i] != s[|a| + j];
    }
    forall i, j | 0 <= i < j < |a| ensures a[i] != a[j] {
      assert s[i] != s[j];
    }
    forall i, j | 0 <= i < j < |b| ensures b[i] != b[j] {
      assert s[|a| + i] != s[|a| + j];
    }
  }

  lemma HeadApart(head: seq<Task>, rest: seq<Task>)
    requires Distinct(Ids(head + rest))
    ensures Distinct(Ids(head)) && Distinct(Ids(rest)) && forall a, b | a in head && b in rest :: a.id != b.id
  {
    assert Ids(head + rest) == Ids(head) + Ids(rest);
    DistinctParts(Ids(head), Ids(rest));
    forall a, b | a in head && b in rest ensures a.id != b.id {
      var k :| 0 <= k < |head| && head[k] == a;
      var l :| 0 <= l < |rest| && rest[l] == b;
      assert Ids(head)[k] != Ids(rest)[l];
    }
  }

  /** Tasks of different ids, taken group by group, have different ids within a group and across groups. */
  lemma {:induction false} IdsApart(groups: seq<seq<Task>>)
    requires Distinct(Ids(Flatten(groups)))
    ensures forall i | 0 <= i < |groups| :: Distinct(Ids(groups[i]))
    ensures forall i, j, a, b | 0 <= i < j < |groups| && a in groups[i] && b in groups[j] :: a.id != b.id
  {
    if groups != [] {
      var head, rest := groups[0], groups[1..];
      HeadApart(head, Flatten(rest));
      IdsApart(rest);
      hide Flatten, Ids, Distinct;
      forall i | 0 <= i < |groups| ensures Distinct(Ids(groups[i])) {
        assert i == 0 || groups[i] == rest[i - 1];
      }
      forall i, j, a, b | 0 <= i < j < |groups| && a in groups[i] && b in groups[j] ensures a.id != b.id {
        assert groups[j] == rest[j - 1];
        if i == 0 {
          InFlatten(rest, b);
        } else {
          assert groups[i] == rest[i - 1];
        }
      }
    }
  }

  lemma GroupsNamed(groups: seq<seq<Task>>, tasks: seq<Task>)
    requires UniqueIds(tasks) && multiset(Flatten(groups)) == multiset(tasks)
    ensures forall i | 0 <= i < |groups| :: Distinct(Ids(groups[i]))
    ensures forall i, j, a, b | 0 <= i < j < |groups| && a in groups[i] && b in groups[j] :: a.id != b.id
    ensures forall i, x | 0 <= i < |groups| && x in groups[i] :: x.id in ById(tasks) && ById(tasks)[x.id] == x
    ensures forall x | x in tasks :: exists i :: 0 <= i < |groups| && x in groups[i]
  {
    hide ById;
    MapPermutation(IdOf(), Flatten(groups), tasks);
    DistinctPermutation(Ids(Flatten(groups)), Ids(tasks));
    IdsApart(groups);
    MultisetMembers(Flatten(groups), tasks);
    hide Flatten, Ids;
    forall i, x | 0 <= i < |groups| && x in groups[i] ensures x.id in ById(tasks) && ById(tasks)[x.id] == x {
      InFlatten(groups, x);
      var k :| 0 <= k < |tasks| && tasks[k] == x;
      ByIdFinds(tasks, k);
    }
    forall x | x in tasks ensures exists i :: 0 <= i < |groups| && x in groups[i] {
      InFlatten(groups, x);
    }
  }

  lemma EntryNames(t: AttemptTiming, group: seq<Task>, run: Run, byId: map<string, Task>, round: int -> int)
    requires States(t, group, run, round) && Distinct(Ids(group))
    requires forall x | x in group :: x.id in byId && byId[x.id] == x
    ensures NamesTasks(t, byId) && Group(t, byId) == group
    ensures forall id :: id in IdsOf()(t) <==> exists x :: x in group && x.id == id
  {
    hide StartsFirst, FinishesLast, Spans, Measure, MaxOverlap;
    var ids := t.taskIds.value;
    forall i, j | 0 <= i < j < |ids| ensures ids[i] != ids[j] {
      assert Ids(group)[i] != Ids(group)[j];
    }
    forall id | id in ids ensures id in byId {
      var k :| 0 <= k < |ids| && ids[k] == id;
      assert group[k] in group;
    }
    forall k | 0 <= k < |ids| ensures byId[ids[k]] == group[k] {
      assert group[k] in group;
    }
    assert Group(t, byId) == group;
    forall x | x in group ensures x.id in IdsOf()(t) {
      var k :| 0 <= k < |group| && group[k] == x;
    }
    forall id | id in IdsOf()(t) ensures exists x :: x in group && x.id == id {
      var k :| 0 <= k < |ids| && ids[k] == id;
      assert group[k] in group;
    }
  }

  lemma EntryAccepted(t: AttemptTiming, group: seq<Task>, run: Run, byId: map<string, Task>, round: int -> int)
    requires States(t, group, run, round) && Distinct(Ids(group)) && t.attempt.Given? && t.attempt.value > 0
    requires forall x | x in group :: x.id in byId && byId[x.id] == x
    requires forall id | id in byId :: byId[id].id == id
    ensures EachEntry(run, byId, round)(t) && NamesTasks(t, byId) && Group(t, byId) == group
    ensures forall id :: id in IdsOf()(t) <==> exists x :: x in group && x.id == id
  {
    hide States, NamesTasks, Group, Describes, IdsOf;
    EntryNames(t, group, run, byId, round);
    DescribesMeans(t, group, run, byId, round);
  }

  lemma NeighboursFollow(t: AttemptTiming, u: AttemptTiming, a: seq<Task>, b: seq<Task>, byId: map<string, Task>)
    requires NamesTasks(t, byId) && NamesTasks(u, byId) && a == Group(t, byId) && b == Group(u, byId)
    requires t.attempt.Given? && u.attempt.Given? && t.attempt.value < u.attempt.value
    requires forall x, y | x in a && y in b :: x.finished.instant <= y.started.instant
    ensures NextEntry(byId)(t, u)
  {
    hide NamesTasks, Group;
    assert Latest(a) in a && Earliest(b) in b;
  }

  /** A run that is split so is accepted. */
  lemma SplitsAccepted(ts: seq<AttemptTiming>, groups: seq<seq<Task>>, run: Run, tasks: seq<Task>, round: int -> int)
    requires UniqueIds(tasks) && SplitsRun(ts, groups, run, tasks, round)
    ensures Accepted(ts, run, tasks, round)
  {
    hide States, ById, NamesTasks, Group, IdsOf, Flatten, UniqueIds, EachEntry, NextEntry, Distinct, Ids;
    var byId := ById(tasks);
    GroupsNamed(groups, tasks);
    ByIdKeys(tasks);
    forall i | 0 <= i < |ts|
      ensures EachEntry(run, byId, round)(ts[i]) && NamesTasks(ts[i], byId) && Group(ts[i], byId) == groups[i]
      ensures forall id :: id in IdsOf()(ts[i]) <==> exists x :: x in groups[i] && x.id == id
    {
      EntryAccepted(ts[i], groups[i], run, byId, round);
    }
    forall i | 0 <= i < |ts| - 1 ensures NextEntry(byId)(ts[i], ts[i + 1]) {
      NeighboursFollow(ts[i], ts[i + 1], groups[i], groups[i + 1], byId);
    }
    forall i, j | 0 <= i < j < |ts| ensures IdsOf()(ts[i]) !! IdsOf()(ts[j]) {}
    KeysAre(ts, groups, tasks);
  }

  lemma KeysAre(ts: seq<AttemptTiming>, groups: seq<seq<Task>>, tasks: seq<Task>)
    requires |groups| == |ts|
    requires forall i | 0 <= i < |ts| :: forall id :: id in IdsOf()(ts[i]) <==> exists x :: x in groups[i] && x.id == id
    requires forall i, x | 0 <= i < |groups| && x in groups[i] :: x.id in ById(tasks)
    requires forall x | x in tasks :: exists i :: 0 <= i < |groups| && x in groups[i]
    ensures Keys(IdsOf(), ts) == ById(tasks).Keys
  {
    hide ById, IdsOf;
    KeysMembers(IdsOf(), ts);
    ByIdKeys(tasks);
    forall id | id in ById(tasks) ensures id in Keys(IdsOf(), ts) {
      var x := ById(tasks)[id];
      var i :| 0 <= i < |groups| && x in groups[i];
      assert id in IdsOf()(ts[i]);
    }
  }

  /**
    Exactly which timings are accepted for tasks of different ids: those that split the tasks into attempts,
    each finished before the next begins, and that state of each attempt what its own tasks say.
  */
  lemma AcceptedIff(ts: seq<AttemptTiming>, run: Run, tasks: seq<Task>, round: int -> int)
    requires UniqueIds(tasks)
    ensures Accepted(ts, run, tasks, round) <==> exists groups :: SplitsRun(ts, groups, run, tasks, round)
  {
    hide Accepted, SplitsRun, UniqueIds;
    if Accepted(ts, run, tasks, round) {
      AcceptedSplits(ts, run, tasks, round);
    }
    if groups :| SplitsRun(ts, groups, run, tasks, round) {
      SplitsAccepted(ts, groups, run, tasks, round);
    }
  }
}
