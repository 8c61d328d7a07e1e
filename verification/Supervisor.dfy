/**
  `execute` of scripts/reviewed-docker-consumer-run.py: supervise one child process against an
  environment that decides its output, its exit, the signals and the clock.
*/
module Supervisor {
  import opened Wrappers
  import opened Bytes
  import opened Diagnostic

  /**
    What one turn of the supervision loop meets: the first signal delivered so far, the clock when
    it is compared with the deadline and when a stop sets the new one, whether the observer raises,
    what the pipe yields (an empty chunk is its end), and whether the child has exited.
  */
  datatype Turn = Turn(cancelled: Option<int>, now: int, stopNow: int, observerRaises: bool, read: Option<Bytes>, exited: bool)

  /** The environment of a whole run; `status` is None when the final wait times out. */
  datatype Env = Env(
    start: int, early: Option<int>, turns: nat -> Turn,
    closing: Option<int>, closeNow: int, exitedAtClose: bool, status: Option<int>, late: Option<int>)

  datatype Action = Term(deadline: int, leaderOnly: bool) | Kill | Reap

  datatype Outcome = Returned(log: Bytes) | Cancelled(kind: int) | Rejected

  /** The clock never goes back, and sooner or later it passes any instant; it may stand still for a while. */
  ghost predicate Advancing(env: Env) {
    && (forall k: nat :: env.turns(k).now <= env.turns(k).stopNow <= env.turns(k + 1).now)
    && (forall bound: int :: Passes(env, bound))
  }

  ghost predicate Passes(env: Env, bound: int) {
    exists k: nat :: env.turns(k).now >= bound
  }

  /** A turn by which the clock has passed an instant. */
  ghost function Passing(env: Env, bound: int): (k: nat)
    requires Advancing(env)
    ensures env.turns(k).now >= bound
  {
    assert Passes(env, bound);
    var k: nat :| env.turns(k).now >= bound;
    k
  }

  lemma {:induction false} ClockOrder(env: Env, i: nat, j: nat)
    requires Advancing(env) && i <= j
    ensures env.turns(i).now <= env.turns(j).now
    decreases j
  {
    if i < j {
      ClockOrder(env, i, j - 1);
      assert env.turns(j - 1).now <= env.turns(j - 1).stopNow <= env.turns(j - 1 + 1).now;
    }
  }

  lemma NotYetPassed(env: Env, turns: nat, bound: int)
    requires Advancing(env) && env.turns(turns).now < bound
    ensures turns < Passing(env, bound)
  {
    hide Advancing;
    if Passing(env, bound) <= turns {
      ClockOrder(env, Passing(env, bound), turns);
    }
  }

  /** The end of the output has been read within the first `k` turns. */
  ghost predicate Ended(env: Env, k: nat) {
    exists j: nat :: j < k && env.turns(j).read == Some([])
  }

  /** What the child has written, as read within the first `k` turns. */
  ghost function Output(env: Env, k: nat): Bytes {
    if k == 0 then []
    else if Ended(env, k - 1) || env.turns(k - 1).read.None? then Output(env, k - 1)
    else Output(env, k - 1) + env.turns(k - 1).read.value
  }

  lemma EndedStep(env: Env, k: nat)
    ensures Ended(env, k + 1) <==> Ended(env, k) || env.turns(k).read == Some([])
    ensures !Ended(env, 0)
  {
    if Ended(env, k + 1) && env.turns(k).read != Some([]) {
      var j: nat :| j < k + 1 && env.turns(j).read == Some([]);
      assert j < k;
    }
    if Ended(env, k) {
      var j: nat :| j < k && env.turns(j).read == Some([]);
      assert j < k + 1;
    }
  }

  lemma NothingYet(env: Env)
    ensures !Ended(env, 0) && Output(env, 0) == []
  {}

  /** The first cancellation wins; later signals change nothing. */
  function Latch(cancelled: Option<int>, signal: Option<int>): Option<int> {
    if cancelled.Some? then cancelled else signal
  }

  /** The signal in force after `k` turns. */
  function Signals(env: Env, k: nat): Option<int> {
    if k == 0 then env.early else Latch(Signals(env, k - 1), env.turns(k - 1).cancelled)
  }

  /** The signal in force is the first that was delivered, and there is one as soon as any was. */
  lemma {:induction false} SignalsMeaning(env: Env, k: nat)
    ensures Signals(env, k).None? <==> env.early.None? && forall j: nat | j < k :: env.turns(j).cancelled.None?
    ensures env.early.Some? ==> Signals(env, k) == env.early
    ensures env.early.None? ==>
              forall j: nat | j < k && env.turns(j).cancelled.Some? && (forall i: nat | i < j :: env.turns(i).cancelled.None?) ::
                Signals(env, k) == env.turns(j).cancelled
    decreases k
  {
    if k > 0 {
      SignalsMeaning(env, k - 1);
    }
  }

  /** The latches of a run: `failed` and the deadline only ever move together, and only once. */
  class Latches {
    var failed: bool
    var cancellationFailure: bool
    var deadline: int
    var actions: seq<Action>
    /** Every value the deadline has had. */
    ghost var deadlines: seq<int>

    constructor (deadline: int)
      ensures !failed && !cancellationFailure && this.deadline == deadline && actions == [] && deadlines == [deadline]
    {
      failed, cancellationFailure, actions := false, false, [];
      this.deadline := deadline;
      deadlines := [deadline];
    }

    method StopWork(now: int, cleanup: int, preserveGuard: bool, cancellation: bool)
      modifies this
      ensures failed
      ensures old(failed) ==> unchanged(this)
      ensures !old(failed) ==> cancellationFailure == cancellation && deadline == now + cleanup
                               && actions == old(actions) + [Term(now + cleanup, preserveGuard)]
                               && deadlines == old(deadlines) + [now + cleanup]
    {
      if !failed {
        failed := true;
        cancellationFailure := cancellation;
        deadline := now + cleanup;
        deadlines := deadlines + [deadline];
        actions := actions + [Term(deadline, preserveGuard)];
      }
    }
  }

  /** What holds between turns: no stop and no action, or one stop with the deadline it set. */
  ghost predicate StoppedOnce(failed: bool, deadline: int, actions: seq<Action>, deadlines: seq<int>, first: int, preserveGuard: bool) {
    if failed then actions == [Term(deadline, preserveGuard)] && deadlines == [first, deadline]
    else actions == [] && deadline == first && deadlines == [first]
  }

  /** The deadline has moved at most once, and then with the TERM that announces it. */
  ghost predicate MovedOnce(deadlines: seq<int>, first: int, actions: seq<Action>, preserveGuard: bool) {
    || (deadlines == [first] && forall i | 0 <= i < |actions| :: !actions[i].Term?)
    || (|deadlines| == 2 && deadlines[0] == first && actions != [] && actions[0] == Term(deadlines[1], preserveGuard)
        && forall i | 0 < i < |actions| :: !actions[i].Term?)
  }

  // ------------------------------------------------ what the environment decides

  /** The pipe has ended and the child has exited: the loop is not entered again. */
  ghost predicate Done(env: Env, k: nat) {
    Ended(env, k) && env.turns(k).exited
  }

  /** Turn `k` meets a reason to stop: a signal, the limit in time, or more output than is allowed. */
  ghost predicate Trigger(env: Env, limit: int, maximum: nat, k: nat) {
    Signals(env, k + 1).Some? || env.turns(k).now >= limit || |Output(env, k + 1)| > maximum
  }

  /** `stop` is the first of the turns begun that meets a reason to stop. */
  ghost predicate StopAt(env: Env, limit: int, maximum: nat, begun: nat, stop: Option<nat>) {
    match stop
    case None => forall k: nat | k < begun :: !Trigger(env, limit, maximum, k)
    case Some(first) =>
      first < begun && Trigger(env, limit, maximum, first) && forall k: nat | k < first :: !Trigger(env, limit, maximum, k)
  }

  /** Turn `k` finds the deadline of an earlier stop, or of a signal in this very turn, passed. */
  ghost predicate Overdue(env: Env, cleanup: int, stop: Option<nat>, k: nat) {
    && stop.Some? && (stop.value < k || (stop.value == k && Signals(env, k + 1).Some?))
    && env.turns(k).now >= env.turns(stop.value).stopNow + cleanup
  }

  /**
    How the loop ran: `turns` turns in full, none of them a reason to leave it, and then it was done, or
    the observer raised, or the turn begun found itself overdue.
  */
  ghost predicate Ran(env: Env, limit: int, maximum: nat, cleanup: int, turns: nat, begun: nat, stop: Option<nat>, raised: bool) {
    && turns <= begun <= turns + 1
    && StopAt(env, limit, maximum, begun, stop)
    && (forall k: nat | k < turns :: Full(env, cleanup, stop, k))
    && (begun == turns && !raised ==> Done(env, turns))
    && (raised ==> begun == turns && !Done(env, turns) && env.turns(turns).observerRaises)
    && (begun > turns ==> !Done(env, turns) && !env.turns(turns).observerRaises && Overdue(env, cleanup, stop, turns))
  }

  ghost predicate Full(env: Env, cleanup: int, stop: Option<nat>, k: nat) {
    !Done(env, k) && !env.turns(k).observerRaises && !Overdue(env, cleanup, stop, k)
  }

  /** The stop of a longer run is the stop of a shorter one, once it has happened. */
  lemma StopsAgree(env: Env, limit: int, maximum: nat, b: nat, c: nat, stop: Option<nat>, other: Option<nat>)
    requires StopAt(env, limit, maximum, b, stop) && StopAt(env, limit, maximum, c, other) && b <= c
    ensures stop.Some? ==> other == stop
    ensures other.Some? && other.value < b ==> stop == other
  {
    hide Trigger;
    if stop.Some? && other.Some? {
      assert !(stop.value < other.value) && !(other.value < stop.value);
    }
  }

  /** The turn at which the loop was left is no turn that the loop takes in full. */
  lemma LeftNotFull(env: Env, limit: int, maximum: nat, cleanup: int, turns: nat, begun: nat, stop: Option<nat>, raised: bool, other: Option<nat>)
    requires Ran(env, limit, maximum, cleanup, turns, begun, stop, raised) && (stop.Some? ==> other == stop)
    ensures !Full(env, cleanup, other, turns)
  {
    hide Trigger, Done;
  }

  /** The environment alone decides how the loop runs. */
  lemma RanOnce(env: Env, limit: int, maximum: nat, cleanup: int, t: nat, b: nat, stop: Option<nat>, raised: bool,
                u: nat, c: nat, other: Option<nat>, broken: bool)
    requires Ran(env, limit, maximum, cleanup, t, b, stop, raised) && Ran(env, limit, maximum, cleanup, u, c, other, broken)
    requires t <= u
    ensures t == u && b == c && stop == other && raised == broken
  {
    hide Trigger, Done, Full;
    if b <= c {
      StopsAgree(env, limit, maximum, b, c, stop, other);
      LeftNotFull(env, limit, maximum, cleanup, t, b, stop, raised, other);
    } else {
      StopsAgree(env, limit, maximum, c, b, other, stop);
      LeftNotFull(env, limit, maximum, cleanup, u, c, other, broken, stop);
    }
  }

  /**
    The child behaves for `n` turns: it then has ended by itself with an accepted status and some output,
    and no signal, no limit and no observer got in the way.
  */
  ghost predicate WellBehaved(env: Env, limit: int, maximum: nat, accepted: set<int>, n: nat) {
    && Done(env, n) && Signals(env, n).None?
    && (forall k: nat | k < n :: !Done(env, k) && !env.turns(k).observerRaises && env.turns(k).now < limit)
    && 0 < |Output(env, n)| <= maximum
    && env.closing.None? && env.exitedAtClose && env.late.None? && env.status.Some? && env.status.value in accepted
  }

  lemma {:induction false} OutputGrows(env: Env, j: nat, k: nat)
    requires j <= k
    ensures Output(env, j) <= Output(env, k)
    decreases k
  {
    if j < k {
      OutputGrows(env, j, k - 1);
    }
  }

  lemma WellBehavedRuns(env: Env, limit: int, maximum: nat, cleanup: int, accepted: set<int>, n: nat,
                        turns: nat, begun: nat, stop: Option<nat>, raised: bool)
    requires WellBehaved(env, limit, maximum, accepted, n) && Ran(env, limit, maximum, cleanup, turns, begun, stop, raised)
    ensures turns == begun == n && stop.None? && !raised
  {
    hide Ended, Output, Done;
    forall k: nat | k < n ensures !Trigger(env, limit, maximum, k) {
      SignalsMeaning(env, n);
      SignalsMeaning(env, k + 1);
      OutputGrows(env, k + 1, n);
    }
    assert turns > n ==> Full(env, cleanup, stop, n);
    assert Ran(env, limit, maximum, cleanup, n, n, None, false);
    if turns <= n {
      RanOnce(env, limit, maximum, cleanup, turns, begun, stop, raised, n, n, None, false);
    }
  }

  // ------------------------------------------------ the supervisor

  /** What the log holds: all output read, or, once stopped, all that was read before the turn of the stop. */
  ghost predicate Captured(env: Env, k: nat, stop: Option<nat>, log: Bytes) {
    log == Output(env, if stop.Some? then stop.value else k)
  }

  lemma CapturedBounded(env: Env, limit: int, maximum: nat, begun: nat, turns: nat, stop: Option<nat>, log: Bytes)
    requires turns <= begun && StopAt(env, limit, maximum, begun, stop) && Captured(env, turns, stop, log)
    requires stop.Some? ==> stop.value <= turns
    ensures log <= Output(env, turns) && |log| <= maximum
  {
    hide Ended;
    var k := if stop.Some? then stop.value else turns;
    OutputGrows(env, k, turns);
    if k > 0 {
      assert !Trigger(env, limit, maximum, k - 1);
      assert |Output(env, k - 1 + 1)| <= maximum;
    }
  }

  lemma OutputStep(env: Env, k: nat)
    ensures Output(env, k + 1) ==
            if Ended(env, k) || env.turns(k).read.None? then Output(env, k) else Output(env, k) + env.turns(k).read.value
    ensures env.turns(k).read == Some([]) ==> Output(env, k + 1) == Output(env, k)
  {}

  /** The actions of a started run: at most one TERM, and only it moves the deadline; KILL, then the leader is reaped. */
  ghost predicate ActionsInOrder(actions: seq<Action>, preserveGuard: bool) {
    exists d, reaped :: actions == ActionsOf(d, preserveGuard, reaped)
  }

  /** `stopped` is the deadline set by the only stop, if there was one. */
  function ActionsOf(stopped: Option<int>, preserveGuard: bool, reaped: bool): seq<Action> {
    (if stopped.Some? then [Term(stopped.value, preserveGuard)] else []) + [Kill] + (if reaped then [Reap] else [])
  }

  /** The last actions of a run, after at most one stop. */
  lemma Ending(failed: bool, deadline: int, before: seq<Action>, deadlines: seq<int>, first: int, preserveGuard: bool,
               reaped: bool, actions: seq<Action>)
    requires StoppedOnce(failed, deadline, before, deadlines, first, preserveGuard)
    requires actions == before + [Kill] + (if reaped then [Reap] else [])
    ensures actions != [] && ActionsInOrder(actions, preserveGuard) && MovedOnce(deadlines, first, actions, preserveGuard)
    ensures Reap in actions <==> reaped
    ensures actions == [Kill, Reap] <==> !failed && reaped
    ensures |deadlines| == 2 <==> failed
  {
    assert actions == ActionsOf(if failed then Some(deadline) else None, preserveGuard, reaped);
    if reaped {
      assert actions[|actions| - 1] == Reap;
    }
  }

  /** The signal in force when the run ends. */
  function FinalSignal(env: Env, signal: Option<int>): Option<int> {
    Latch(Latch(signal, env.closing), env.late)
  }

  /** The run is stopped, in the loop or at its end. */
  predicate StoppedInAll(env: Env, failed: bool, signal: Option<int>) {
    failed || signal.Some? || env.closing.Some? || !env.exitedAtClose
  }

  /** How a run that was started ends: cleanup of the owned group, the diagnostic, and the outcome. */
  method Close(env: Env, signal: Option<int>, raised: bool, latches: Latches, cleanup: int, preserveGuard: bool,
               accepted: set<int>, diagnostic: MechanismFailureDiagnostic?, ended: bool, log: Bytes, ghost first: int)
    returns (outcome: Outcome, actions: seq<Action>, emitted: Option<string>)
    requires StoppedOnce(latches.failed, latches.deadline, latches.actions, latches.deadlines, first, preserveGuard)
    requires !latches.failed ==> !latches.cancellationFailure
    requires signal.None? ==> !latches.cancellationFailure
    requires diagnostic != null ==> diagnostic.Valid()
    modifies latches
    ensures actions != [] && ActionsInOrder(actions, preserveGuard) && (Reap in actions <==> env.status.Some?)
    ensures MovedOnce(latches.deadlines, first, actions, preserveGuard)
    // A stop that has happened stands; otherwise a signal or a child still running stops the run now.
    ensures old(latches.failed) ==> latches.deadlines == old(latches.deadlines)
    ensures !old(latches.failed) ==>
              latches.deadlines == if StoppedInAll(env, false, signal) then [first, env.closeNow + cleanup] else [first]
    ensures outcome.Returned? <==>
              && !raised && !StoppedInAll(env, old(latches.failed), signal)
              && env.status.Some? && env.status.value in accepted && log != [] && !(env.late.Some? && env.status == Some(0))
    ensures outcome.Returned? ==> outcome.log == log
    ensures outcome.Cancelled? <==>
              && !raised && env.status.Some?
              && (|| (if old(latches.failed) then old(latches.cancellationFailure) else signal.Some? || env.closing.Some?)
                  || (!StoppedInAll(env, old(latches.failed), signal) && env.late.Some? && env.status == Some(0)))
    ensures outcome.Cancelled? ==> FinalSignal(env, signal) == Some(outcome.kind)
    ensures actions == [Kill, Reap] <==> !StoppedInAll(env, old(latches.failed), signal) && env.status.Some?
    ensures emitted == if diagnostic != null && ended && env.status.Some? && env.status.value !in accepted
                          && FinalSignal(env, signal).None?
                       then Verdict(diagnostic.fed) else None
  {
    hide Verdict, Summarises, STAGES, PREFIX, ActionsInOrder, MovedOnce;
    var cancelled := Latch(signal, env.closing);
    if cancelled.Some? {
      latches.StopWork(env.closeNow, cleanup, preserveGuard, true);
    }
    if !env.exitedAtClose {
      latches.StopWork(env.closeNow, cleanup, preserveGuard, false);
    }
    actions := latches.actions + [Kill];
    if env.status.Some? {
      actions := actions + [Reap];
    }
    Ending(latches.failed, latches.deadline, latches.actions, latches.deadlines, first, preserveGuard, env.status.Some?, actions);
    cancelled := Latch(cancelled, env.late);
    emitted := None;
    if diagnostic != null && ended && env.status.Some? && env.status.value !in accepted
       && cancelled.None? && !latches.cancellationFailure {
      emitted := diagnostic.LastEnteredStage();
    }
    if raised || env.status.None? {
      outcome := Rejected;
    } else if latches.cancellationFailure || (cancelled.Some? && !latches.failed && env.status.value == 0) {
      outcome := Cancelled(cancelled.value);
    } else if latches.failed || env.status.value !in accepted || log == [] {
      outcome := Rejected;
    } else {
      outcome := Returned(log);
    }
  }

  /** What the latches show of the only stop of the loop. */
  ghost predicate LatchesShow(env: Env, cleanup: int, stop: Option<nat>, failed: bool, deadline: int, cancellation: bool) {
    && failed == stop.Some?
    && (stop.Some? ==> deadline == env.turns(stop.value).stopNow + cleanup && cancellation == Signals(env, stop.value + 1).Some?)
    && (stop.None? ==> !cancellation)
  }

  /** One turn finds the first reason to stop, if it meets one and none was met before. */
  lemma TurnStops(env: Env, limit: int, maximum: nat, k: nat, before: Option<nat>, after: Option<nat>)
    requires StopAt(env, limit, maximum, k, before)
    requires before.Some? ==> after == before
    requires before.None? ==> after == if Trigger(env, limit, maximum, k) then Some(k) else None
    ensures StopAt(env, limit, maximum, k + 1, after)
  {
    hide Trigger;
  }

  lemma RunStarts(env: Env, limit: int, maximum: nat)
    ensures StopAt(env, limit, maximum, 0, None) && Captured(env, 0, None, []) && Signals(env, 0) == env.early
  {}

  lemma SignalStep(env: Env, k: nat)
    ensures Signals(env, k + 1) == Latch(Signals(env, k), env.turns(k).cancelled)
  {}

  lemma TurnTaken(env: Env, cleanup: int, turns: nat, before: Option<nat>, after: Option<nat>)
    requires forall k: nat | k < turns :: Full(env, cleanup, before, k)
    requires (before.Some? ==> after == before) && (before.None? && after.Some? ==> after.value == turns)
    ensures forall k: nat | k < turns :: Full(env, cleanup, after, k)
  {
    hide Done;
    forall k: nat | k < turns ensures Full(env, cleanup, after, k) {
      assert Full(env, cleanup, before, k);
    }
  }

  /** What a turn that is left early found. */
  lemma TurnOverdue(env: Env, limit: int, maximum: nat, cleanup: int, k: nat, before: Option<nat>, after: Option<nat>)
    requires StopAt(env, limit, maximum, k, before) && forall j: nat | j < k :: Full(env, cleanup, before, j)
    requires before.Some? || Signals(env, k + 1).Some?
    requires after == if before.Some? then before else Some(k)
    requires env.turns(k).now >= env.turns(after.value).stopNow + cleanup
    ensures StopAt(env, limit, maximum, k + 1, after) && Overdue(env, cleanup, after, k)
    ensures forall j: nat | j < k :: Full(env, cleanup, after, j)
  {
    TurnStops(env, limit, maximum, k, before, after);
    TurnTaken(env, cleanup, k, before, after);
  }

  /** What a turn that is taken in full found. */
  lemma TurnFull(env: Env, limit: int, maximum: nat, cleanup: int, k: nat, before: Option<nat>, after: Option<nat>)
    requires StopAt(env, limit, maximum, k, before) && forall j: nat | j < k :: Full(env, cleanup, before, j)
    requires !Done(env, k) && !env.turns(k).observerRaises
    requires after == if before.Some? then before
                      else if Signals(env, k + 1).Some? || env.turns(k).now >= limit || |Output(env, k + 1)| > maximum then Some(k)
                      else None
    requires before.Some? || Signals(env, k + 1).Some? ==> env.turns(k).now < env.turns(after.value).stopNow + cleanup
    ensures StopAt(env, limit, maximum, k + 1, after)
    ensures forall j: nat | j < k + 1 :: Full(env, cleanup, after, j)
  {
    hide Done;
    TurnStops(env, limit, maximum, k, before, after);
    TurnTaken(env, cleanup, k, before, after);
    assert Full(env, cleanup, after, k);
  }

  lemma CapturedTurn(env: Env, turns: nat, before: Option<nat>, after: Option<nat>, log: Bytes, next: Bytes)
    requires Captured(env, turns, before, log)
    requires (before.Some? ==> after == before) && (before.None? && after.Some? ==> after.value == turns)
    requires next == if after.Some? then log else Output(env, turns + 1)
    ensures Captured(env, turns + 1, after, next)
  {}

  /** The first half of a turn: a latched signal, then the clock. Overdue means leaving the loop. */
  method LookAtClock(turn: Turn, cancelled: Option<int>, cleanup: int, preserveGuard: bool, latches: Latches) returns (overdue: bool)
    modifies latches
    ensures overdue <==> (old(latches.failed) || cancelled.Some?) && turn.now >= latches.deadline
    ensures old(latches.failed) || (cancelled.None? && turn.now < old(latches.deadline)) ==> unchanged(latches)
    ensures !old(latches.failed) && (cancelled.Some? || turn.now >= old(latches.deadline)) ==>
              && latches.failed && latches.cancellationFailure == cancelled.Some? && latches.deadline == turn.stopNow + cleanup
              && latches.actions == old(latches.actions) + [Term(latches.deadline, preserveGuard)]
              && latches.deadlines == old(latches.deadlines) + [latches.deadline]
  {
    if cancelled.Some? {
      latches.StopWork(turn.stopNow, cleanup, preserveGuard, true);
    }
    if turn.now >= latches.deadline {
      if latches.failed {
        return true;
      }
      latches.StopWork(turn.stopNow, cleanup, preserveGuard, false);
    }
    return false;
  }

  /** A nonempty chunk is read in this turn. */
  predicate Takes(turn: Turn, ended: bool) {
    !ended && turn.read.Some? && turn.read.value != []
  }

  /** The second half of a turn: the pipe. */
  method ReadPipe(turn: Turn, ended: bool, total: nat, maximum: nat, cleanup: int, preserveGuard: bool, latches: Latches,
                  log: Bytes, given: MechanismFailureDiagnostic?)
    returns (nowEnded: bool, nowTotal: nat, kept: Bytes, diagnostic: MechanismFailureDiagnostic?)
    requires given != null ==> given.Valid()
    modifies latches, if given == null then {} else {given}
    ensures nowEnded <==> ended || turn.read == Some([])
    ensures nowTotal == if Takes(turn, ended) then total + |turn.read.value| else total
    ensures !Takes(turn, ended) || nowTotal <= maximum || old(latches.failed) ==> unchanged(latches)
    ensures Takes(turn, ended) && nowTotal > maximum && !old(latches.failed) ==>
              && latches.failed && !latches.cancellationFailure && latches.deadline == turn.stopNow + cleanup
              && latches.actions == old(latches.actions) + [Term(latches.deadline, preserveGuard)]
              && latches.deadlines == old(latches.deadlines) + [latches.deadline]
    ensures kept == if Takes(turn, ended) && !latches.failed then log + turn.read.value else log
    ensures diagnostic == if Takes(turn, ended) && latches.failed then null else given
    ensures diagnostic != null ==>
              diagnostic.Valid() && diagnostic.fed == old(diagnostic.fed) + if Takes(turn, ended) then turn.read.value else []
  {
    hide Verdict, Summarises;
    nowEnded, nowTotal, kept, diagnostic := ended, total, log, given;
    if !ended && turn.read.Some? {
      var raw := turn.read.value;
      if raw == [] {
        nowEnded := true;
      } else {
        nowTotal := total + |raw|;
        if nowTotal > maximum {
          latches.StopWork(turn.stopNow, cleanup, preserveGuard, false);
        }
        if !latches.failed {
          kept := log + raw;
          if diagnostic != null {
            diagnostic.Feed(raw);
          }
        } else {
          diagnostic := null;
        }
      }
    }
  }

  /** The supervision loop: observe, latch signals, compare the clock, read the pipe. */
  method Supervise(env: Env, maximum: nat, cleanup: int, preserveGuard: bool, latches: Latches,
                   given: MechanismFailureDiagnostic?)
    returns (cancelled: Option<int>, raised: bool, ended: bool, log: Bytes, turns: nat, diagnostic: MechanismFailureDiagnostic?,
             ghost begun: nat, ghost stop: Option<nat>)
    requires Advancing(env) && env.early.None?
    requires !latches.failed && !latches.cancellationFailure && latches.actions == [] && latches.deadlines == [latches.deadline]
    requires given != null ==> given.Valid() && given.fed == []
    modifies latches, if given == null then {} else {given}
    ensures Ran(env, old(latches.deadline), maximum, cleanup, turns, begun, stop, raised)
    ensures cancelled == Signals(env, begun)
    ensures LatchesShow(env, cleanup, stop, latches.failed, latches.deadline, latches.cancellationFailure)
    ensures StoppedOnce(latches.failed, latches.deadline, latches.actions, latches.deadlines, old(latches.deadline), preserveGuard)
    ensures ended == Ended(env, turns) && Captured(env, turns, stop, log)
    ensures log <= Output(env, turns) && |log| <= maximum
    ensures diagnostic == if log == Output(env, turns) then given else null
    ensures diagnostic != null ==> diagnostic.Valid() && diagnostic.fed == Output(env, turns)
  {
    hide Verdict, Summarises, Output, Ended, Advancing, Passing, StopAt, Signals, Full, Overdue, Trigger;
    NothingYet(env);
    RunStarts(env, latches.deadline, maximum);
    ghost var limit := latches.deadline;
    cancelled, raised, ended, log, turns, diagnostic, begun, stop := None, false, false, [], 0, given, 0, None;
    var total := 0;
    while !ended || !env.turns(turns).exited
      invariant ended == Ended(env, turns) && total == |Output(env, turns)|
      invariant StoppedOnce(latches.failed, latches.deadline, latches.actions, latches.deadlines, limit, preserveGuard)
      invariant LatchesShow(env, cleanup, stop, latches.failed, latches.deadline, latches.cancellationFailure)
      invariant StopAt(env, limit, maximum, turns, stop) && Captured(env, turns, stop, log)
      invariant !raised && begun == turns && cancelled == Signals(env, turns) && (stop.None? ==> cancelled.None?)
      invariant forall k: nat | k < turns :: Full(env, cleanup, stop, k)
      invariant (stop.None? ==> total <= maximum) && (stop.Some? ==> stop.value < turns) && |log| <= total
      invariant diagnostic == if log == Output(env, turns) then given else null
      invariant diagnostic != null ==> diagnostic.Valid() && diagnostic.fed == Output(env, turns)
      decreases if latches.failed then 0 else 1, Passing(env, latches.deadline) - turns
    {
      var turn := env.turns(turns);
      ghost var before, kept := stop, log;
      if turn.observerRaises {
        raised := true;
        break;
      }
      SignalStep(env, turns);
      cancelled := Latch(cancelled, turn.cancelled);
      begun := turns + 1;
      var overdue := LookAtClock(turn, cancelled, cleanup, preserveGuard, latches);
      if latches.failed && stop.None? {
        stop := Some(turns);
      }
      if overdue {
        TurnOverdue(env, limit, maximum, cleanup, turns, before, stop);
        break;
      }
      if turn.now < latches.deadline {
        NotYetPassed(env, turns, latches.deadline);
      }
      EndedStep(env, turns);
      OutputStep(env, turns);
      ended, total, log, diagnostic := ReadPipe(turn, ended, total, maximum, cleanup, preserveGuard, latches, log, diagnostic);
      if latches.failed && stop.None? {
        stop := Some(turns);
      }
      TurnFull(env, limit, maximum, cleanup, turns, before, stop);
      CapturedTurn(env, turns, before, stop, kept, log);
      turns := turns + 1;
    }
    CapturedBounded(env, limit, maximum, begun, turns, stop, log);
  }

  /** What is known of a started run: how its loop ran, and what stopped it. */
  ghost predicate Started(env: Env, limit: int, maximum: nat, cleanup: int, turns: nat, begun: nat, stop: Option<nat>, raised: bool,
                          log: Bytes, deadlines: seq<int>)
  {
    && Ran(env, limit, maximum, cleanup, turns, begun, stop, raised) && Captured(env, turns, stop, log)
    && deadlines ==
         if stop.Some? then [limit, env.turns(stop.value).stopNow + cleanup]
         else if StoppedInAll(env, false, Signals(env, begun)) then [limit, env.closeNow + cleanup]
         else [limit]
  }

  /** The stop of the run, in the loop or at its end, was for a signal. */
  ghost predicate StoppedBySignal(env: Env, begun: nat, stop: Option<nat>) {
    if stop.Some? then Signals(env, stop.value + 1).Some? else Signals(env, begun).Some? || env.closing.Some?
  }

  /**
    The supervisor. It always terminates: once stopped, the deadline stands still.
    `turns` counts the turns of the loop that read the pipe.
  */
  method Execute(env: Env, seconds: int, maximum: nat, cleanup: int, preserveGuard: bool, accepted: set<int>, diagnostics: bool)
    returns (outcome: Outcome, log: Bytes, actions: seq<Action>, emitted: Option<string>, turns: nat,
             ghost raised: bool, ghost deadlines: seq<int>, ghost begun: nat, ghost stop: Option<nat>)
    requires Advancing(env)
    ensures actions == [] <==> seconds <= 0 || env.early.Some?
    ensures actions == [] ==> log == [] && emitted.None? && outcome == (if seconds <= 0 then Rejected else Cancelled(env.early.value))
    // The log never holds anything but a bounded prefix of what the child wrote.
    ensures log <= Output(env, turns) && |log| <= maximum
    // How the loop runs, whether and when it stops the child, and the log, are decided by the environment alone.
    ensures actions != [] ==> Started(env, env.start + seconds, maximum, cleanup, turns, begun, stop, raised, log, deadlines)
    // KILL comes before the leader is reaped, and the deadline moves at most once, however many signals, overflows and timeouts follow.
    ensures actions != [] ==> ActionsInOrder(actions, preserveGuard) && (Reap in actions <==> env.status.Some?)
    ensures actions != [] ==> MovedOnce(deadlines, env.start + seconds, actions, preserveGuard)
    ensures actions != [] ==>
              (actions == [Kill, Reap] <==> !StoppedInAll(env, stop.Some?, Signals(env, begun)) && env.status.Some?)
    // A returned log is the complete output of a child that exited by itself with an accepted status.
    ensures outcome.Returned? ==>
              && outcome.log == log == Output(env, turns) && Ended(env, turns) && log != []
              && actions == [Kill, Reap] && env.exitedAtClose && env.turns(turns).exited
              && env.status.Some? && env.status.value in accepted
    // And exactly such a child's log is returned, unless the observer raised or a signal came with status 0.
    ensures actions != [] ==>
              (outcome.Returned? <==>
                && !raised && actions == [Kill, Reap] && env.status.Some? && env.status.value in accepted && log != []
                && !(env.late.Some? && env.status == Some(0)))
    ensures actions != [] ==>
              (outcome.Cancelled? <==>
                && !raised && env.status.Some?
                && (|| StoppedBySignal(env, begun, stop)
                    || (actions == [Kill, Reap] && env.late.Some? && env.status == Some(0))))
    ensures actions != [] && outcome.Cancelled? ==> FinalSignal(env, Signals(env, begun)) == Some(outcome.kind)
    // A child that behaves has its whole output returned, and is never sent a TERM.
    ensures seconds > 0 && env.early.None? ==>
              ReturnsWhenBehaved(env, env.start + seconds, maximum, accepted, outcome, actions)
    // What is emitted is what the child's entire output says, and it is emitted exactly when all of it was kept.
    ensures actions != [] ==>
              emitted == if diagnostics && Ended(env, turns) && log == Output(env, turns) && env.status.Some?
                            && env.status.value !in accepted && FinalSignal(env, Signals(env, begun)).None?
                         then Verdict(Output(env, turns)) else None
    ensures emitted.Some? ==> !outcome.Returned? && !outcome.Cancelled?
  {
    hide Verdict, Summarises, STAGES, PREFIX, Output, Ended, ActionsInOrder, Advancing, MovedOnce, Ran, Signals, ReturnsWhenBehaved;
    NothingYet(env);
    outcome, log, actions, emitted, turns, raised, deadlines, begun, stop := Rejected, [], [], None, 0, false, [], 0, None;
    if seconds <= 0 {
      return;
    }
    var cancelled := env.early;
    if cancelled.Some? {
      outcome := Cancelled(cancelled.value);
      return;
    }
    var latches := new Latches(env.start + seconds);
    var diagnostic: MechanismFailureDiagnostic? := null;
    if diagnostics {
      diagnostic := new MechanismFailureDiagnostic();
    }
    var signal, broken, ended, kept;
    signal, broken, ended, log, turns, kept, begun, stop := Supervise(env, maximum, cleanup, preserveGuard, latches, diagnostic);
    raised := broken;
    RanFacts(env, env.start + seconds, maximum, cleanup, turns, begun, stop, raised);
    outcome, actions, emitted := Close(env, signal, broken, latches, cleanup, preserveGuard, accepted, kept, ended, log, env.start + seconds);
    deadlines := latches.deadlines;
    ReturnsBehaved(env, env.start + seconds, maximum, cleanup, accepted, turns, begun, stop, raised, log, outcome, actions);
  }

  lemma ReturnsBehaved(env: Env, limit: int, maximum: nat, cleanup: int, accepted: set<int>, turns: nat, begun: nat,
                       stop: Option<nat>, raised: bool, log: Bytes, outcome: Outcome, actions: seq<Action>)
    requires Ran(env, limit, maximum, cleanup, turns, begun, stop, raised) && Captured(env, turns, stop, log)
    requires actions == [Kill, Reap] <==> !StoppedInAll(env, stop.Some?, Signals(env, begun)) && env.status.Some?
    requires (&& !raised && actions == [Kill, Reap] && env.status.Some? && env.status.value in accepted && log != []
              && !(env.late.Some? && env.status == Some(0))) ==> outcome == Returned(log)
    ensures ReturnsWhenBehaved(env, limit, maximum, accepted, outcome, actions)
  {
    hide Ran, WellBehaved, Signals, Output;
    forall n: nat | WellBehaved(env, limit, maximum, accepted, n)
      ensures outcome == Returned(Output(env, n)) && actions == [Kill, Reap]
    {
      WellBehavedRuns(env, limit, maximum, cleanup, accepted, n, turns, begun, stop, raised);
      WellBehavedFacts(env, limit, maximum, accepted, n);
    }
  }

  /** A child that behaves has its whole output returned, and is never sent a TERM. */
  ghost predicate ReturnsWhenBehaved(env: Env, limit: int, maximum: nat, accepted: set<int>, outcome: Outcome, actions: seq<Action>) {
    forall n: nat | WellBehaved(env, limit, maximum, accepted, n) :: outcome == Returned(Output(env, n)) && actions == [Kill, Reap]
  }

  /** Without a stop no signal is in force, and a loop that is left without an error is done. */
  lemma RanFacts(env: Env, limit: int, maximum: nat, cleanup: int, turns: nat, begun: nat, stop: Option<nat>, raised: bool)
    requires Ran(env, limit, maximum, cleanup, turns, begun, stop, raised) && env.early.None?
    ensures stop.None? ==> Signals(env, begun).None?
    ensures stop.Some? && Signals(env, stop.value + 1).Some? ==> Signals(env, begun).Some?
    ensures stop.None? && !raised ==> Done(env, turns)
  {
    hide Output, Ended;
    if stop.None? && begun > 0 {
      assert !Trigger(env, limit, maximum, begun - 1);
      assert Signals(env, begun - 1 + 1).None?;
    }
    if stop.Some? {
      SignalsMeaning(env, stop.value + 1);
      SignalsMeaning(env, begun);
    }
  }

  lemma WellBehavedFacts(env: Env, limit: int, maximum: nat, accepted: set<int>, n: nat)
    requires WellBehaved(env, limit, maximum, accepted, n)
    ensures Signals(env, n).None? && Output(env, n) != [] && env.closing.None? && env.exitedAtClose && env.late.None?
    ensures env.status.Some? && env.status.value in accepted
  {}
}
