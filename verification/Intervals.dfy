/**
  Half-open intervals of instants (microseconds), as sets of facts: how many are active at an
  instant, and which instants they cover. The sweep and the merge in `Timing` are
  proved against these.
*/
module Intervals {
  import opened Sequences

  datatype Interval = Interval(start: int, finish: int)

  predicate Contains(i: Interval, t: int) {
    i.start <= t < i.finish
  }

  ghost predicate AllProper(s: seq<Interval>) {
    forall i | i in s :: i.start < i.finish
  }

  function ActiveAt(t: int): Interval -> int {
    (i: Interval) => if Contains(i, t) then 1 else 0
  }

  /** How many of the intervals are active at instant `t`. */
  function Depth(s: seq<Interval>, t: int): int {
    Sum(ActiveAt(t), s)
  }

  lemma {:induction false} DepthPositive(s: seq<Interval>, t: int)
    ensures 0 <= Depth(s, t) <= |s|
    ensures 0 < Depth(s, t) <==> exists i :: i in s && Contains(i, t)
  {
    if s != [] {
      DepthPositive(s[1..], t);
      if i :| i in s && Contains(i, t) {
        assert i == s[0] || i in s[1..];
      }
    }
  }

  // ------------------------------------------------------------- overlap

  function MaxDepthAt(s: seq<Interval>, probes: seq<Interval>): nat {
    if probes == [] then 0 else
      DepthPositive(s, probes[0].start);
      Max(Depth(s, probes[0].start), MaxDepthAt(s, probes[1..]))
  }

  /** The reference definition of overlap: the largest depth found at any start. */
  function MaxOverlap(s: seq<Interval>): nat {
    MaxDepthAt(s, s)
  }

  lemma {:induction false} MaxDepthAtBounds(s: seq<Interval>, probes: seq<Interval>)
    ensures forall p | p in probes :: Depth(s, p.start) <= MaxDepthAt(s, probes)
    ensures probes != [] ==> exists p :: p in probes && Depth(s, p.start) == MaxDepthAt(s, probes)
  {
    if probes != [] {
      MaxDepthAtBounds(s, probes[1..]);
      DepthPositive(s, probes[0].start);
      assert probes[0] in probes;
    }
  }

  /** Among the intervals active at `t`, one starts last; all of them are active at its start. */
  lemma {:induction false} LatestStart(s: seq<Interval>, t: int) returns (p: Interval)
    requires exists i :: i in s && Contains(i, t)
    ensures p in s && Contains(p, t)
    ensures forall i | i in s && Contains(i, t) :: i.start <= p.start
  {
    if exists i :: i in s[1..] && Contains(i, t) {
      p := LatestStart(s[1..], t);
      if Contains(s[0], t) && p.start < s[0].start {
        p := s[0];
      }
    } else {
      p := s[0];
    }
  }

  /** `MaxOverlap` is the maximum of `Depth` over ALL instants, and some instant reaches it. */
  lemma MaxOverlapIsMaximum(s: seq<Interval>)
    ensures forall t: int :: Depth(s, t) <= MaxOverlap(s)
    ensures s != [] ==> exists t: int :: Depth(s, t) == MaxOverlap(s)
    ensures AllProper(s) && s != [] ==> 1 <= MaxOverlap(s)
  {
    MaxDepthAtBounds(s, s);
    forall t: int ensures Depth(s, t) <= MaxOverlap(s) {
      DepthPositive(s, t);
      if Depth(s, t) > 0 {
        var p := LatestStart(s, t);
        forall i | i in s ensures ActiveAt(t)(i) <= ActiveAt(p.start)(i) {}
        SumAtMost(ActiveAt(t), ActiveAt(p.start), s);
      }
    }
    if s != [] {
      var p :| p in s && Depth(s, p.start) == MaxDepthAt(s, s);
      if AllProper(s) {
        assert Contains(s[0], s[0].start);
        DepthPositive(s, s[0].start);
        assert s[0] in s;
      }
    }
  }

  lemma MaxOverlapUnique(s: seq<Interval>, m: int)
    requires s != []
    requires forall t: int :: Depth(s, t) <= m
    requires exists t: int :: Depth(s, t) >= m
    ensures m == MaxOverlap(s)
  {
    MaxOverlapIsMaximum(s);
    var t: int :| Depth(s, t) >= m;
    assert Depth(s, t) <= MaxOverlap(s);
    var u: int :| Depth(s, u) == MaxOverlap(s);
    assert Depth(s, u) <= m;
  }

  /** Overlap does not depend on the order of the intervals. */
  lemma MaxOverlapPermutation(a: seq<Interval>, b: seq<Interval>)
    requires multiset(a) == multiset(b)
    ensures MaxOverlap(a) == MaxOverlap(b)
  {
    MultisetMembers(a, b);
    forall t: int ensures Depth(a, t) == Depth(b, t) {
      SumPermutation(ActiveAt(t), a, b);
    }
    if a != [] {
      MaxOverlapIsMaximum(a);
      var t: int :| Depth(a, t) == MaxOverlap(a);
      assert Depth(b, t) >= MaxOverlap(a);
      forall u: int ensures Depth(b, u) <= MaxOverlap(a) { assert Depth(a, u) == Depth(b, u); }
      MaxOverlapUnique(b, MaxOverlap(a));
    }
  }

  // --------------------------------------------------------------- union

  function Points(i: Interval): set<int> {
    set t: int | i.start <= t < i.finish && Contains(i, t)
  }

  /** The instants covered by at least one of the intervals. */
  function Union(s: seq<Interval>): set<int> {
    if s == [] then {} else Points(s[0]) + Union(s[1..])
  }

  /** The measure of the union, in microseconds. */
  function Measure(s: seq<Interval>): nat {
    |Union(s)|
  }

  lemma {:induction false} UnionMembers(s: seq<Interval>)
    ensures forall t: int :: t in Union(s) <==> exists i :: i in s && Contains(i, t)
  {
    if s != [] {
      UnionMembers(s[1..]);
      forall t: int ensures t in Union(s) <==> exists i :: i in s && Contains(i, t) {
        if t in Points(s[0]) {
          assert s[0] in s && Contains(s[0], t);
        }
        if i :| i in s && Contains(i, t) {
          assert i == s[0] || i in s[1..];
        }
      }
    }
  }

  lemma {:induction false} UnionAppend(a: seq<Interval>, b: seq<Interval>)
    ensures Union(a + b) == Union(a) + Union(b)
  {
    if a == [] {
      assert a + b == b;
    } else {
      UnionAppend(a[1..], b);
      assert (a + b)[1..] == a[1..] + b;
    }
  }

  lemma MeasurePermutation(a: seq<Interval>, b: seq<Interval>)
    requires multiset(a) == multiset(b)
    ensures Union(a) == Union(b) && Measure(a) == Measure(b)
  {
    MultisetMembers(a, b);
    UnionMembers(a);
    UnionMembers(b);
  }

  lemma {:induction false} PointsSize(i: Interval)
    requires i.start <= i.finish
    ensures |Points(i)| == i.finish - i.start
    decreases i.finish - i.start
  {
    if i.start < i.finish {
      var rest := Interval(i.start + 1, i.finish);
      PointsSize(rest);
      assert Points(i) == {i.start} + Points(rest);
    } else {
      assert Points(i) == {};
    }
  }

  // ------------------------------------------------------ double counting

  function Length(): Interval -> int {
    (i: Interval) => i.finish - i.start
  }

  /** The part of an interval that lies in `[lo, hi)`. */
  function ClippedLength(lo: int, hi: int): Interval -> int {
    (i: Interval) => Max(0, Min(i.finish, hi) - Max(i.start, lo))
  }

  function DepthOver(s: seq<Interval>, lo: int, hi: int): int
    decreases hi - lo
  {
    if hi <= lo then 0 else DepthOver(s, lo, hi - 1) + Depth(s, hi - 1)
  }

  /** Counting by instants agrees with counting by intervals. */
  lemma {:induction false} CountBothWays(s: seq<Interval>, lo: int, hi: int)
    requires AllProper(s) && lo <= hi
    ensures DepthOver(s, lo, hi) == Sum(ClippedLength(lo, hi), s)
    decreases hi - lo
  {
    if lo == hi {
      SumAtMost(ClippedLength(lo, lo), ActiveNever(), s);
      SumAtMost(ActiveNever(), ClippedLength(lo, lo), s);
      SumZero(s);
    } else {
      CountBothWays(s, lo, hi - 1);
      SumPointwise(ClippedLength(lo, hi - 1), ActiveAt(hi - 1), ClippedLength(lo, hi), s);
    }
  }

  function ActiveNever(): Interval -> int {
    (i: Interval) => 0
  }

  lemma {:induction false} SumZero(s: seq<Interval>)
    ensures Sum(ActiveNever(), s) == 0
  {
    if s != [] { SumZero(s[1..]); }
  }

  /** The covered instants of a window. */
  function CoveredIn(s: seq<Interval>, lo: int, hi: int): set<int> {
    set t: int | lo <= t < hi && t in Union(s)
  }

  lemma OneMoreTimes(n: int, m: int)
    ensures (n + 1) * m == n * m + m
  {}

  /** Every covered instant is counted at least once and at most `m` times. */
  lemma {:induction false} CoverageBounds(s: seq<Interval>, lo: int, hi: int, m: nat)
    requires lo <= hi
    requires forall t: int :: Depth(s, t) <= m
    ensures |CoveredIn(s, lo, hi)| <= DepthOver(s, lo, hi) <= |CoveredIn(s, lo, hi)| * m
    decreases hi - lo
  {
    if lo == hi {
      assert CoveredIn(s, lo, hi) == {};
    } else {
      CoverageBounds(s, lo, hi - 1, m);
      var before := CoveredIn(s, lo, hi - 1);
      OneDepth(s, hi - 1, m);
      if hi - 1 in Union(s) {
        assert CoveredIn(s, lo, hi) == before + {hi - 1};
        OneMoreTimes(|before|, m);
      } else {
        assert CoveredIn(s, lo, hi) == before;
      }
    }
  }

  lemma OneDepth(s: seq<Interval>, t: int, m: nat)
    requires Depth(s, t) <= m
    ensures if t in Union(s) then 1 <= Depth(s, t) <= m else Depth(s, t) == 0
  {
    UnionMembers(s);
    DepthPositive(s, t);
  }

  lemma {:induction false} SumOfClippedLengths(s: seq<Interval>, lo: int, hi: int)
    requires forall i | i in s :: lo <= i.start < i.finish <= hi
    ensures Sum(ClippedLength(lo, hi), s) == Sum(Length(), s)
  {
    if s != [] { SumOfClippedLengths(s[1..], lo, hi); }
  }

  /**
    Double counting: the total worker time lies between the active time and the active time
    multiplied by the overlap, and the active time fits in the span of the run.
  */
  lemma DoubleCounting(s: seq<Interval>, lo: int, hi: int)
    requires s != []
    requires forall i | i in s :: lo <= i.start < i.finish <= hi
    ensures Measure(s) <= Sum(Length(), s) <= Measure(s) * MaxOverlap(s)
    ensures Measure(s) <= hi - lo
  {
    assert s[0] in s;
    UnionMembers(s);
    assert CoveredIn(s, lo, hi) == Union(s);
    CountBothWays(s, lo, hi);
    MaxOverlapIsMaximum(s);
    CoverageBounds(s, lo, hi, MaxOverlap(s));
    SumOfClippedLengths(s, lo, hi);
    var all := Interval(lo, hi);
    PointsSize(all);
    assert Union(s) <= Points(all);
    SubsetSize(Union(s), Points(all));
  }

  // --------------------------------------------------- disjoint windows

  /** Every interval of `a` has finished by the time any interval of `b` starts. */
  ghost predicate Before(a: seq<Interval>, b: seq<Interval>) {
    forall i, j | i in a && j in b :: i.finish <= j.start
  }

  /** Overlap and measure decompose over consecutive windows. */
  lemma WindowsDecompose(a: seq<Interval>, b: seq<Interval>)
    requires AllProper(a) && AllProper(b) && Before(a, b)
    ensures MaxOverlap(a + b) == Max(MaxOverlap(a), MaxOverlap(b))
    ensures Measure(a + b) == Measure(a) + Measure(b)
  {
    UnionAppend(a, b);
    UnionMembers(a);
    UnionMembers(b);
    assert Union(a) !! Union(b) by {
      forall t | t in Union(a) ensures t !in Union(b) {
        var i :| i in a && Contains(i, t);
        if j :| j in b && Contains(j, t) {
          assert false;
        }
      }
    }
    assert |Union(a) + Union(b)| == |Union(a)| + |Union(b)|;
    WindowsOverlap(a, b);
  }

  lemma WindowsOverlap(a: seq<Interval>, b: seq<Interval>)
    requires AllProper(a) && AllProper(b) && Before(a, b)
    ensures MaxOverlap(a + b) == Max(MaxOverlap(a), MaxOverlap(b))
  {
    var m := Max(MaxOverlap(a), MaxOverlap(b));
    MaxOverlapIsMaximum(a);
    MaxOverlapIsMaximum(b);
    forall t: int
      ensures Depth(a + b, t) == Depth(a, t) + Depth(b, t)
      ensures Depth(a + b, t) <= m
    {
      SumAppend(ActiveAt(t), a, b);
      DepthPositive(a, t);
      DepthPositive(b, t);
      if Depth(a, t) > 0 {
        var i :| i in a && Contains(i, t);
        if j :| j in b && Contains(j, t) {
          assert false;
        }
      }
      assert Depth(a, t) <= MaxOverlap(a) && Depth(b, t) <= MaxOverlap(b);
    }
    if a + b != [] {
      if MaxOverlap(b) <= MaxOverlap(a) && a != [] {
        var t: int :| Depth(a, t) == MaxOverlap(a);
        DepthPositive(b, t);
        assert Depth(a + b, t) >= m;
      } else {
        var t: int :| Depth(b, t) == MaxOverlap(b);
        DepthPositive(a, t);
        assert Depth(a + b, t) >= m;
      }
      MaxOverlapUnique(a + b, m);
    }
  }
}
