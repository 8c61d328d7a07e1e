/**
  The sweep line and the interval merge of scripts/migration-readiness.py, run as the source
  runs them and proved against the set-level definitions of `Intervals`.
*/
module Timing {
  import opened Wrappers
  import opened Sequences
  import opened Intervals

  /** A parsed RFC 3339 timestamp: its instant in microseconds, and the text it was written as. */
  datatype Stamp = Stamp(instant: int, text: string)

  datatype Task = Task(id: string, started: Stamp, finished: Stamp)

  datatype TimingError = EmptyOrReversed(id: string) | Inconsistent | NoIntervals | Refused

  function SpanOf(): Task -> Interval {
    (t: Task) => Interval(t.started.instant, t.finished.instant)
  }

  function Spans(tasks: seq<Task>): (s: seq<Interval>)
    ensures |s| == |tasks|
    ensures forall i | 0 <= i < |tasks| :: s[i] == Interval(tasks[i].started.instant, tasks[i].finished.instant)
  {
    Map(SpanOf(), tasks)
  }

  lemma {:induction false} SpansAppend(a: seq<Task>, b: seq<Task>)
    ensures Spans(a + b) == Spans(a) + Spans(b)
  {}

  lemma SpansPermutation(a: seq<Task>, b: seq<Task>)
    requires multiset(a) == multiset(b)
    ensures multiset(Spans(a)) == multiset(Spans(b))
  {
    MapPermutation(SpanOf(), a, b);
  }

  /** The first task whose interval is empty or reversed: the one the source complains about. */
  ghost predicate FirstImproper(tasks: seq<Task>, id: string) {
    exists i :: 0 <= i < |tasks| && tasks[i].id == id
                && tasks[i].finished.instant <= tasks[i].started.instant && AllProper(Spans(tasks[..i]))
  }

  /** The loop both interval functions open with: collect the intervals, refusing the first improper one. */
  method CollectSpans(tasks: seq<Task>) returns (r: Result<seq<Interval>, TimingError>)
    ensures r.Ok? <==> AllProper(Spans(tasks))
    ensures r.Ok? ==> r.value == Spans(tasks)
    ensures r.Err? ==> r.error.EmptyOrReversed? && FirstImproper(tasks, r.error.id)
  {
    var spans: seq<Interval> := [];
    for i := 0 to |tasks|
      invariant spans == Spans(tasks)[..i] == Spans(tasks[..i])
      invariant AllProper(spans)
    {
      var task := tasks[i];
      if task.finished.instant <= task.started.instant {
        assert Spans(tasks)[i] in Spans(tasks);
        return Err(EmptyOrReversed(task.id));
      }
      spans := spans + [Interval(task.started.instant, task.finished.instant)];
      assert spans == Spans(tasks[..i + 1]);
    }
    return Ok(spans);
  }

  // ------------------------------------------------------------- the sweep

  datatype Event = Event(when: int, delta: int)

  /** Ordered by instant; at one instant every finish (-1) comes before every start (+1). */
  predicate EventLe(a: Event, b: Event) {
    a.when < b.when || (a.when == b.when && a.delta <= b.delta)
  }

  lemma EventOrder()
    ensures TotalOrder(EventLe)
  {}

  function DeltaOf(): Event -> int {
    (e: Event) => e.delta
  }

  function DeltaUpTo(t: int): Event -> int {
    (e: Event) => if e.when <= t then e.delta else 0
  }

  function EventsOf(s: seq<Interval>): seq<Event> {
    if s == [] then [] else EventsOf(s[..|s| - 1]) + [Event(s[|s| - 1].start, 1), Event(s[|s| - 1].finish, -1)]
  }

  lemma {:induction false} EventsCountDepth(s: seq<Interval>, t: int)
    requires AllProper(s)
    ensures Sum(DeltaUpTo(t), EventsOf(s)) == Depth(s, t)
    ensures Sum(DeltaOf(), EventsOf(s)) == 0
    ensures forall e | e in EventsOf(s) :: e.delta == 1 || e.delta == -1
  {
    if s != [] {
      var init, last := s[..|s| - 1], s[|s| - 1];
      assert s == init + [last];
      EventsCountDepth(init, t);
      var a, b := Event(last.start, 1), Event(last.finish, -1);
      assert EventsOf(s) == (EventsOf(init) + [a]) + [b];
      SumSnoc(DeltaUpTo(t), EventsOf(init), a);
      SumSnoc(DeltaUpTo(t), EventsOf(init) + [a], b);
      SumSnoc(DeltaOf(), EventsOf(init), a);
      SumSnoc(DeltaOf(), EventsOf(init) + [a], b);
      SumSnoc(ActiveAt(t), init, last);
      assert last in s;
    }
  }

  /** Sorted events split at an instant: the running count there is the depth there. */
  lemma {:induction false} SplitAt(e: seq<Event>, t: int) returns (k: nat)
    requires Sorted(EventLe, e)
    ensures k <= |e|
    ensures Sum(DeltaOf(), e[..k]) == Sum(DeltaUpTo(t), e)
  {
    if e == [] || t < e[0].when {
      k := 0;
      SumNothing(e, t);
    } else {
      assert Sorted(EventLe, e[1..]) by {
        forall i, j | 0 <= i < j < |e[1..]| ensures EventLe(e[1..][i], e[1..][j]) {
          assert EventLe(e[i + 1], e[j + 1]);
        }
      }
      k := SplitAt(e[1..], t);
      k := k + 1;
      assert e[..k][1..] == e[1..][..k - 1];
    }
  }

  lemma {:induction false} SumNothing(e: seq<Event>, t: int)
    requires forall x | x in e :: t < x.when
    ensures Sum(DeltaUpTo(t), e) == 0
  {
    if e != [] { SumNothing(e[1..], t); }
  }

  lemma {:induction false} SumNonNegative(e: seq<Event>, t: int)
    requires forall x | x in e :: x.when <= t ==> x.delta >= 0
    ensures Sum(DeltaUpTo(t), e) >= 0
  {
    if e != [] { SumNonNegative(e[1..], t); }
  }

  lemma {:induction false} SumAllUpTo(e: seq<Event>, t: int)
    requires forall x | x in e :: x.when <= t
    ensures Sum(DeltaUpTo(t), e) == Sum(DeltaOf(), e)
  {
    if e != [] { SumAllUpTo(e[1..], t); }
  }

  /** No running count of the sorted events exceeds the overlap: ties close before they open. */
  lemma {:induction false} RunningCountBounded(s: seq<Interval>, e: seq<Event>, k: nat)
    requires AllProper(s) && Sorted(EventLe, e) && multiset(e) == multiset(EventsOf(s))
    requires k <= |e|
    ensures Sum(DeltaOf(), e[..k]) <= MaxOverlap(s)
  {
    hide MaxOverlap, EventsOf, Depth, DeltaUpTo;
    if k > 0 {
      var last := e[k - 1];
      assert e[..k] == e[..k - 1] + [last];
      SumSnoc(DeltaOf(), e[..k - 1], last);
      MultisetMembers(e, EventsOf(s));
      EventsCountDepth(s, last.when);
      if last.delta < 0 {
        RunningCountBounded(s, e, k - 1);
      } else {
        assert e[k - 1] in e;
        forall x | x in e[k..] ensures x.when <= last.when ==> x.delta >= 0 {
          var j :| k <= j < |e| && e[j] == x;
          assert EventLe(e[k - 1], e[j]);
        }
        forall x | x in e[..k] ensures x.when <= last.when {
          var j :| 0 <= j < k && e[j] == x;
          assert j == k - 1 || EventLe(e[j], e[k - 1]);
        }
        SumNonNegative(e[k..], last.when);
        SumAllUpTo(e[..k], last.when);
        assert e == e[..k] + e[k..];
        SumAppend(DeltaUpTo(last.when), e[..k], e[k..]);
        SumPermutation(DeltaUpTo(last.when), e, EventsOf(s));
        MaxOverlapIsMaximum(s);
        assert Depth(s, last.when) <= MaxOverlap(s);
      }
    }
  }

  /** The largest running count is the overlap. */
  lemma SweepFindsOverlap(s: seq<Interval>, e: seq<Event>, m: int)
    requires AllProper(s) && s != [] && Sorted(EventLe, e) && multiset(e) == multiset(EventsOf(s))
    requires forall k | 0 <= k <= |e| :: Sum(DeltaOf(), e[..k]) <= m
    requires exists k :: 0 <= k <= |e| && Sum(DeltaOf(), e[..k]) == m
    ensures m == MaxOverlap(s)
  {
    var top :| 0 <= top <= |e| && Sum(DeltaOf(), e[..top]) == m;
    RunningCountBounded(s, e, top);
    MaxOverlapIsMaximum(s);
    var t: int :| Depth(s, t) == MaxOverlap(s);
    EventsCountDepth(s, t);
    SumPermutation(DeltaUpTo(t), e, EventsOf(s));
    var k := SplitAt(e, t);
  }

  /** The sweep itself: the final running count and the largest one. */
  method Sweep(sorted: seq<Event>) returns (active: int, maximum: int)
    ensures active == Sum(DeltaOf(), sorted)
    ensures forall j | 0 <= j <= |sorted| :: Sum(DeltaOf(), sorted[..j]) <= maximum
    ensures exists j :: 0 <= j <= |sorted| && Sum(DeltaOf(), sorted[..j]) == maximum
  {
    active, maximum := 0, 0;
    assert sorted[..0] == [];
    for k := 0 to |sorted|
      invariant active == Sum(DeltaOf(), sorted[..k])
      invariant forall j | 0 <= j <= k :: Sum(DeltaOf(), sorted[..j]) <= maximum
      invariant exists j :: 0 <= j <= k && Sum(DeltaOf(), sorted[..j]) == maximum
    {
      assert sorted[..k + 1] == sorted[..k] + [sorted[k]];
      SumSnoc(DeltaOf(), sorted[..k], sorted[k]);
      active := active + sorted[k].delta;
      maximum := Max(maximum, active);
    }
    assert sorted[..|sorted|] == sorted;
  }

  /**
    Worker overlap, by the sweep over sorted events. The final consistency check can fire only
    on an empty list: the running count always returns to zero.
  */
  method MaximumIntervalOverlap(tasks: seq<Task>) returns (r: Result<nat, TimingError>)
    ensures r.Ok? <==> tasks != [] && AllProper(Spans(tasks))
    ensures r.Ok? ==> r.value == MaxOverlap(Spans(tasks)) && r.value >= 1
    ensures r == Err(Inconsistent) <==> tasks == []
    ensures r.Err? && tasks != [] ==> r.error.EmptyOrReversed? && FirstImproper(tasks, r.error.id)
  {
    var spans := CollectSpans(tasks);
    if spans.Err? {
      return Err(spans.error);
    }
    var events := EventsOf(spans.value);
    var sorted := Sort(EventLe, events);
    EventOrder();
    SortSorted(EventLe, events);
    var active, maximum := Sweep(sorted);
    EventsCountDepth(spans.value, 0);
    SumPermutation(DeltaOf(), sorted, events);
    if tasks == [] {
      assert sorted == [] by { MultisetMembers(sorted, events); }
      return Err(Inconsistent);
    }
    SweepFindsOverlap(spans.value, sorted, maximum);
    MaxOverlapIsMaximum(spans.value);
    if active != 0 || maximum < 1 {
      return Err(Inconsistent);
    }
    return Ok(maximum);
  }

  // ------------------------------------------------------------- the merge

  /** Python's order on pairs: by start, then by finish. */
  predicate IntervalLe(a: Interval, b: Interval) {
    a.start < b.start || (a.start == b.start && a.finish <= b.finish)
  }

  lemma IntervalOrder()
    ensures TotalOrder(IntervalLe)
  {}

  /** Python's `min` with a key: the first of the intervals that start earliest. */
  function FirstStarting(s: seq<Interval>): (m: Interval)
    requires s != []
    ensures m in s && forall i | i in s :: m.start <= i.start
  {
    if |s| == 1 then s[0] else
      var m := FirstStarting(s[1..]);
      if s[0].start <= m.start then s[0] else m
  }

  /**
    The merge: walk the sorted intervals, closing the current block whenever the next interval
    starts after its end. The result is the measure of the union.
  */
  method Merge(sorted: seq<Interval>, first: Interval) returns (active: int)
    requires Sorted(IntervalLe, sorted) && AllProper(sorted)
    requires first in sorted && forall i | i in sorted :: first.start <= i.start
    ensures active == Measure(sorted)
  {
    hide Union, Points;
    FirstIsSeen(sorted, first);
    active := 0;
    var current := first;
    ghost var closed: set<int>, seen := {}, Points(first);
    for i := 0 to |sorted|
      invariant BlockGrowing(closed, current, seen)
      invariant active == |closed|
      invariant i < |sorted| ==> current.start <= sorted[i].start
      invariant seen == Union(sorted[..i]) + Points(first)
    {
      var next := sorted[i];
      MergeStep(sorted, i);
      MergeAdvances(closed, current, next, seen);
      seen := seen + Points(next);
      if next.start > current.finish {
        active := active + (current.finish - current.start);
        closed := closed + Points(current);
        current := next;
      } else {
        current := Interval(current.start, Max(current.finish, next.finish));
      }
    }
    BlockClosed(closed, current);
    active := active + (current.finish - current.start);
    assert sorted[..|sorted|] == sorted;
  }

  lemma FirstIsSeen(sorted: seq<Interval>, first: Interval)
    requires first in sorted
    ensures Union(sorted[..0]) + Points(first) == Points(first)
    ensures Union(sorted) + Points(first) == Union(sorted)
  {
    UnionMembers(sorted);
  }

  /** Everything seen is the closed blocks plus the block being grown, which lies after them. */
  ghost predicate BlockGrowing(closed: set<int>, block: Interval, seen: set<int>) {
    && block.start < block.finish
    && seen == closed + Points(block)
    && (forall t | t in closed :: t < block.start)
  }

  lemma MergeStep(sorted: seq<Interval>, i: nat)
    requires i < |sorted| && Sorted(IntervalLe, sorted) && AllProper(sorted)
    ensures sorted[i].start < sorted[i].finish
    ensures forall p :: Union(sorted[..i]) + p + Points(sorted[i]) == Union(sorted[..i + 1]) + p
    ensures i + 1 < |sorted| ==> sorted[i].start <= sorted[i + 1].start
  {
    assert sorted[i] in sorted;
    assert sorted[..i + 1] == sorted[..i] + [sorted[i]];
    UnionAppend(sorted[..i], [sorted[i]]);
    assert Union([sorted[i]]) == Points(sorted[i]);
    if i + 1 < |sorted| {
      assert IntervalLe(sorted[i], sorted[i + 1]);
    }
  }

  /** Either branch of the merge keeps the shape, now with one more interval seen. */
  lemma MergeAdvances(closed: set<int>, current: Interval, next: Interval, seen: set<int>)
    requires BlockGrowing(closed, current, seen)
    requires current.start <= next.start < next.finish
    ensures next.start > current.finish ==>
              && BlockGrowing(closed + Points(current), next, seen + Points(next))
              && |closed + Points(current)| == |closed| + (current.finish - current.start)
    ensures next.start <= current.finish ==>
              BlockGrowing(closed, Interval(current.start, Max(current.finish, next.finish)), seen + Points(next))
  {
    BlockClosed(closed, current);
    if next.start <= current.finish {
      var grown := Interval(current.start, Max(current.finish, next.finish));
      assert Points(grown) == Points(current) + Points(next);
      assert closed + Points(grown) == (closed + Points(current)) + Points(next);
    }
  }

  lemma BlockClosed(closed: set<int>, block: Interval)
    requires block.start < block.finish
    requires forall t | t in closed :: t < block.start
    ensures |closed + Points(block)| == |closed| + (block.finish - block.start)
  {
    PointsSize(block);
    assert closed !! Points(block);
  }

  /**
    Active time: the exact measure of the union of the intervals, rounded. `round` stands for
    Python's `round(_, 3)` on seconds; nothing is assumed about it.
  */
  method ActiveIntervalSeconds(tasks: seq<Task>, round: int -> int) returns (r: Result<int, TimingError>)
    ensures r.Ok? <==> tasks != [] && AllProper(Spans(tasks))
    ensures r.Ok? ==> r.value == round(Measure(Spans(tasks)))
    ensures r == Err(NoIntervals) <==> tasks == []
    ensures r.Err? && tasks != [] ==> r.error.EmptyOrReversed? && FirstImproper(tasks, r.error.id)
  {
    var spans := CollectSpans(tasks);
    if spans.Err? {
      return Err(spans.error);
    }
    if spans.value == [] {
      return Err(NoIntervals);
    }
    var first := FirstStarting(spans.value);
    var sorted := Sort(IntervalLe, spans.value);
    IntervalOrder();
    SortSorted(IntervalLe, spans.value);
    MultisetMembers(sorted, spans.value);
    var active := Merge(sorted, first);
    MeasurePermutation(sorted, spans.value);
    return Ok(round(active));
  }
}
