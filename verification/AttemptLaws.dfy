/** What accepted attempt timings say about the whole run, from checks on neighbours only. */
module AttemptLaws {
  import opened Sequences
  import opened Intervals
  import opened Timing
  import opened AttemptTimings

  // ------------------------------------------------ groups of tasks in order

  /** Neighbouring groups do not overlap; nothing is said about groups further apart. */
  ghost predicate Chronological(groups: seq<seq<Task>>) {
    && (forall i | 0 <= i < |groups| :: groups[i] != [] && AllProper(Spans(groups[i])))
    && (forall i | 0 <= i < |groups| - 1 :: Latest(groups[i]).finished.instant <= Earliest(groups[i + 1]).started.instant)
  }

  lemma GroupSpans(group: seq<Task>)
    requires group != [] && AllProper(Spans(group))
    ensures forall t | t in group :: Earliest(group).started.instant <= t.started.instant < t.finished.instant <= Latest(group).finished.instant
  {
    forall t | t in group ensures t.started.instant < t.finished.instant {
      var i :| 0 <= i < |group| && group[i] == t;
      assert Spans(group)[i] in Spans(group);
    }
  }

  /** By induction along the chain: any earlier group has finished before any later one starts. */
  lemma {:induction false} ChainOrders(groups: seq<seq<Task>>, i: nat, j: nat)
    requires Chronological(groups) && i < j < |groups|
    ensures Latest(groups[i]).finished.instant <= Earliest(groups[j]).started.instant
    decreases j
  {
    hide Earliest, Latest, Spans;
    if i + 1 < j {
      ChainOrders(groups, i, j - 1);
      GroupSpans(groups[j - 1]);
      assert Earliest(groups[j - 1]) in groups[j - 1];
      assert Latest(groups[j - 1]).finished.instant <= Earliest(groups[j - 1 + 1]).started.instant;
    }
  }

  lemma EarlierFinishesFirst(groups: seq<seq<Task>>, i: nat, j: nat, a: Task, b: Task)
    requires Chronological(groups) && i < j < |groups| && a in groups[i] && b in groups[j]
    ensures a.finished.instant <= b.started.instant
  {
    ChainOrders(groups, i, j);
  }

  function LargestOverlap(groups: seq<seq<Task>>): nat {
    if groups == [] then 0 else Max(MaxOverlap(Spans(groups[0])), LargestOverlap(groups[1..]))
  }

  function MeasureOf(): seq<Task> -> int {
    (group: seq<Task>) => Measure(Spans(group))
  }

  lemma {:induction false} LargestOverlapBounds(groups: seq<seq<Task>>)
    ensures forall i | 0 <= i < |groups| :: MaxOverlap(Spans(groups[i])) <= LargestOverlap(groups)
    ensures groups != [] ==> exists i :: 0 <= i < |groups| && MaxOverlap(Spans(groups[i])) == LargestOverlap(groups)
  {
    if groups != [] {
      var rest := groups[1..];
      LargestOverlapBounds(rest);
      forall i | 0 <= i < |groups| ensures MaxOverlap(Spans(groups[i])) <= LargestOverlap(groups) {
        assert i == 0 || groups[i] == rest[i - 1];
      }
      if LargestOverlap(groups) != MaxOverlap(Spans(groups[0])) {
        var i :| 0 <= i < |rest| && MaxOverlap(Spans(rest[i])) == LargestOverlap(rest);
        assert groups[i + 1] == rest[i];
      }
    }
  }

  lemma TailChronological(groups: seq<seq<Task>>)
    requires Chronological(groups) && groups != []
    ensures Chronological(groups[1..])
  {
    var rest := groups[1..];
    forall i | 0 <= i < |rest| - 1
      ensures Latest(rest[i]).finished.instant <= Earliest(rest[i + 1]).started.instant
    {
      assert Latest(groups[i + 1]).finished.instant <= Earliest(groups[i + 1 + 1]).started.instant;
    }
  }

  lemma HeadBeforeTail(groups: seq<seq<Task>>)
    requires Chronological(groups) && groups != []
    ensures Before(Spans(groups[0]), Spans(Flatten(groups[1..])))
  {
    hide Chronological, Earliest, Latest, Flatten;
    var rest := groups[1..];
    var a, b := Spans(groups[0]), Spans(Flatten(rest));
    forall x, y | x in a && y in b ensures x.finish <= y.start {
      var k :| 0 <= k < |a| && a[k] == x;
      var l :| 0 <= l < |b| && b[l] == y;
      var t := Flatten(rest)[l];
      InFlatten(rest, t);
      var j :| 0 <= j < |rest| && t in rest[j];
      EarlierFinishesFirst(groups, 0, j + 1, groups[0][k], t);
    }
  }

  /** Overlap and measure of all tasks decompose over chronological groups. */
  lemma {:induction false} GroupsDecompose(groups: seq<seq<Task>>)
    requires Chronological(groups)
    ensures AllProper(Spans(Flatten(groups)))
    ensures MaxOverlap(Spans(Flatten(groups))) == LargestOverlap(groups)
    ensures Measure(Spans(Flatten(groups))) == Sum(MeasureOf(), groups)
  {
    if groups != [] {
      TailChronological(groups);
      GroupsDecompose(groups[1..]);
      SpansAppend(groups[0], Flatten(groups[1..]));
      HeadBeforeTail(groups);
      WindowsDecompose(Spans(groups[0]), Spans(Flatten(groups[1..])));
    }
  }

  // ------------------------------------------------ the groups of the entries

  /** The tasks of each attempt, in the order its entry names them. */
  ghost function Groups(ts: seq<AttemptTiming>, byId: map<string, Task>): (r: seq<seq<Task>>)
    requires forall i | 0 <= i < |ts| :: NamesTasks(ts[i], byId)
    ensures |r| == |ts| && forall i | 0 <= i < |ts| :: r[i] == Group(ts[i], byId)
  {
    seq(|ts|, i requires 0 <= i < |ts| => Group(ts[i], byId))
  }

  lemma EntriesDescribe(ts: seq<AttemptTiming>, run: Run, byId: map<string, Task>, round: int -> int)
    requires PrefixAccepted(ts, run, byId, round)
    ensures forall i | 0 <= i < |ts| :: NamesTasks(ts[i], byId) && Describes(ts[i], run, byId, round)
    ensures forall i, j | 0 <= i < j < |ts| :: IdsOf()(ts[i]) !! IdsOf()(ts[j])
    ensures Chronological(Groups(ts, byId))
  {
    forall i | 0 <= i < |ts| ensures NamesTasks(ts[i], byId) && Describes(ts[i], run, byId, round) {
      assert EachEntry(run, byId, round)(ts[i]);
    }
    var groups := Groups(ts, byId);
    forall i | 0 <= i < |groups| - 1 ensures Latest(groups[i]).finished.instant <= Earliest(groups[i + 1]).started.instant {
      assert NextEntry(byId)(ts[i], ts[i + 1]);
    }
  }

  lemma DistinctAppend<T>(a: seq<T>, b: seq<T>)
    requires Distinct(a) && Distinct(b) && forall x | x in a :: x !in b
    ensures Distinct(a + b)
  {
    forall i, j | 0 <= i < j < |a + b| ensures (a + b)[i] != (a + b)[j] {
      if i < |a| <= j {
        assert a[i] in a && b[j - |a|] in b;
      }
    }
  }

  lemma {:induction false} FlattenDistinct<T(!new)>(ss: seq<seq<T>>)
    requires forall i | 0 <= i < |ss| :: Distinct(ss[i])
    requires forall i, j, x | 0 <= i < j < |ss| && x in ss[i] :: x !in ss[j]
    ensures Distinct(Flatten(ss))
  {
    if ss != [] {
      var tail := ss[1..];
      forall i, j, x | 0 <= i < j < |tail| && x in tail[i] ensures x !in tail[j] {
        assert tail[i] == ss[i + 1] && tail[j] == ss[j + 1];
      }
      FlattenDistinct(tail);
      forall x | x in Flatten(tail) ensures x !in ss[0] {
        InFlatten(tail, x);
        var i :| 0 <= i < |tail| && x in tail[i];
        assert tail[i] == ss[i + 1];
      }
      DistinctAppend(ss[0], Flatten(tail));
    }
  }

  lemma DistinctSameMembers<T(!new)>(a: seq<T>, b: seq<T>)
    requires Distinct(a) && Distinct(b)
    requires forall x :: x in a <==> x in b
    ensures multiset(a) == multiset(b)
  {
    DistinctByCount(a);
    DistinctByCount(b);
    forall x ensures multiset(a)[x] == multiset(b)[x] {
      assert x in a <==> x in multiset(a);
      assert x in b <==> x in multiset(b);
    }
  }

  lemma DistinctTasks(tasks: seq<Task>)
    requires UniqueIds(tasks)
    ensures Distinct(tasks)
  {
    forall i, j | 0 <= i < j < |tasks| ensures tasks[i] != tasks[j] {
      assert Ids(tasks)[i] != Ids(tasks)[j];
    }
  }

  lemma IdInGroup(t: AttemptTiming, byId: map<string, Task>, x: Task)
    requires forall id | id in byId :: byId[id].id == id
    requires NamesTasks(t, byId)
    ensures x in Group(t, byId) <==> x.id in IdsOf()(t) && byId[x.id] == x
  {
    if x.id in IdsOf()(t) && byId[x.id] == x {
      var m :| 0 <= m < |t.taskIds.value| && t.taskIds.value[m] == x.id;
      assert Group(t, byId)[m] == x;
    }
  }

  lemma GroupsMembers(ts: seq<AttemptTiming>, byId: map<string, Task>, groups: seq<seq<Task>>, t: Task)
    requires Keys(IdsOf(), ts) == byId.Keys
    requires forall id | id in byId :: byId[id].id == id
    requires forall i | 0 <= i < |ts| :: NamesTasks(ts[i], byId)
    requires groups == Groups(ts, byId)
    ensures t in Flatten(groups) <==> t.id in byId && byId[t.id] == t
  {
    InFlatten(groups, t);
    KeysMembers(IdsOf(), ts);
    if t in Flatten(groups) {
      var i :| 0 <= i < |groups| && t in groups[i];
      IdInGroup(ts[i], byId, t);
    }
    if t.id in byId && byId[t.id] == t {
      var i :| 0 <= i < |ts| && t.id in IdsOf()(ts[i]);
      IdInGroup(ts[i], byId, t);
      assert t in groups[i];
    }
  }

  /** The attempts partition the tasks: each task is in exactly one attempt, and none is left out. */
  lemma AttemptsPartition(ts: seq<AttemptTiming>, tasks: seq<Task>, groups: seq<seq<Task>>)
    requires UniqueIds(tasks) && Keys(IdsOf(), ts) == ById(tasks).Keys
    requires forall i | 0 <= i < |ts| :: NamesTasks(ts[i], ById(tasks))
    requires forall i, j | 0 <= i < j < |ts| :: IdsOf()(ts[i]) !! IdsOf()(ts[j])
    requires groups == Groups(ts, ById(tasks))
    ensures multiset(Flatten(groups)) == multiset(tasks)
  {
    ByIdKeys(tasks);
    GroupsAreDistinct(ts, ById(tasks), groups);
    FlattenDistinct(groups);
    DistinctTasks(tasks);
    forall t ensures t in Flatten(groups) <==> t in tasks {
      GroupsMembers(ts, ById(tasks), groups, t);
      if t in tasks {
        var k :| 0 <= k < |tasks| && tasks[k] == t;
        ByIdFinds(tasks, k);
      }
    }
    DistinctSameMembers(Flatten(groups), tasks);
  }

  lemma GroupsAreDistinct(ts: seq<AttemptTiming>, byId: map<string, Task>, groups: seq<seq<Task>>)
    requires forall i | 0 <= i < |ts| :: NamesTasks(ts[i], byId)
    requires forall i, j | 0 <= i < j < |ts| :: IdsOf()(ts[i]) !! IdsOf()(ts[j])
    requires forall id | id in byId :: byId[id].id == id
    requires groups == Groups(ts, byId)
    ensures forall i | 0 <= i < |groups| :: Distinct(groups[i])
    ensures forall i, j, x | 0 <= i < j < |groups| && x in groups[i] :: x !in groups[j]
  {
    forall i, j, x | 0 <= i < j < |groups| && x in groups[i] ensures x !in groups[j] {
      IdInGroup(ts[i], byId, x);
      assert x.id !in IdsOf()(ts[j]);
      if x in groups[j] {
        IdInGroup(ts[j], byId, x);
        assert false;
      }
    }
  }

  lemma LimitHolds(ts: seq<AttemptTiming>, run: Run, byId: map<string, Task>, round: int -> int, groups: seq<seq<Task>>)
    requires forall i | 0 <= i < |ts| :: NamesTasks(ts[i], byId) && Describes(ts[i], run, byId, round)
    requires groups == Groups(ts, byId) && ts != []
    ensures LargestOverlap(groups) <= run.maximumConcurrency
  {
    LargestOverlapBounds(groups);
    var i :| 0 <= i < |groups| && MaxOverlap(Spans(groups[i])) == LargestOverlap(groups);
    assert Describes(ts[i], run, byId, round);
  }

  /**
    The main law. Accepted aggregate evidence, checked only attempt by attempt and against the
    attempt before, splits the tasks into attempts such that every task of an earlier attempt
    has finished before any task of a later one starts; so the overlap of the whole run is the
    largest attempt overlap, its active time is the sum of the attempts' active times, and the
    concurrency limit holds for the run as a whole.
  */
  lemma AcceptedRunDecomposes(ts: seq<AttemptTiming>, run: Run, tasks: seq<Task>, round: int -> int)
    requires UniqueIds(tasks) && Accepted(ts, run, tasks, round)
    ensures forall i | 0 <= i < |ts| :: NamesTasks(ts[i], ById(tasks))
    ensures var groups := Groups(ts, ById(tasks));
      && multiset(Flatten(groups)) == multiset(tasks)
      && (forall i, j, a, b | 0 <= i < j < |groups| && a in groups[i] && b in groups[j] :: a.finished.instant <= b.started.instant)
      && MaxOverlap(Spans(tasks)) == LargestOverlap(groups)
      && Measure(Spans(tasks)) == Sum(MeasureOf(), groups)
    ensures MaxOverlap(Spans(tasks)) <= run.maximumConcurrency
  {
    EntriesDescribe(ts, run, ById(tasks), round);
    var groups := Groups(ts, ById(tasks));
    AttemptsPartition(ts, tasks, groups);
    GroupsDecompose(groups);
    PermutedTasks(Flatten(groups), tasks);
    AllPairsOrdered(groups);
    LimitHolds(ts, run, ById(tasks), round, groups);
  }

  lemma PermutedTasks(a: seq<Task>, b: seq<Task>)
    requires multiset(a) == multiset(b)
    ensures MaxOverlap(Spans(a)) == MaxOverlap(Spans(b)) && Measure(Spans(a)) == Measure(Spans(b))
    ensures AllProper(Spans(a)) <==> AllProper(Spans(b))
  {
    SpansPermutation(a, b);
    MaxOverlapPermutation(Spans(a), Spans(b));
    MeasurePermutation(Spans(a), Spans(b));
    MultisetMembers(Spans(a), Spans(b));
  }

  lemma AllPairsOrdered(groups: seq<seq<Task>>)
    requires Chronological(groups)
    ensures forall i, j, a, b | 0 <= i < j < |groups| && a in groups[i] && b in groups[j] :: a.finished.instant <= b.started.instant
  {
    forall i, j, a: Task, b: Task | 0 <= i < j < |groups| && a in groups[i] && b in groups[j]
      ensures a.finished.instant <= b.started.instant
    {
      EarlierFinishesFirst(groups, i, j, a, b);
    }
  }
}
