/**
 The barrier of a channel sweep: the server thread schedules one update per channel and
 then waits until the workers have finished them all.  pending_requests is a size_t
 under its own mutex, the semaphore has another.  UpdateFinished holds the first over
 both the decrement and the signal, and Wait never reads the counter, so each
 operation is one step.
 */
module Barrier {

  const Size: nat := 0x1_0000_0000_0000_0000

  /** tokens is the value of the semaphore; scheduled and finished are histories. */
  datatype Updater = Updater(pending: nat, tokens: nat, active: bool, waiting: bool, scheduled: nat, finished: nat)

  function Initial(): Updater {
    Updater(0, 0, false, false, 0, 0)
  }

  // ---------- the operations ----------

  /** The mutex is held around Execute, so no worker can finish the request before it is counted. */
  function Schedule(u: Updater): Updater {
    u.(pending := (u.pending + 1) % Size, active := true, scheduled := u.scheduled + 1)
  }

  function Finish(u: Updater): Updater {
    var pending := (u.pending - 1) % Size;
    u.(pending := pending, finished := u.finished + 1, tokens := if pending <= 0 then u.tokens + 1 else u.tokens)
  }

  function EnterWait(u: Updater): Updater {
    u.(waiting := u.active)
  }

  function LeaveWait(u: Updater): Updater
    requires u.tokens > 0
  {
    u.(tokens := u.tokens - 1, active := false, waiting := false)
  }

  datatype Event = DoSchedule | DoFinish | DoEnterWait | DoLeaveWait

  predicate Enabled(u: Updater, ev: Event) {
    match ev
    case DoSchedule => !u.waiting
    case DoFinish => u.finished < u.scheduled
    case DoEnterWait => !u.waiting
    case DoLeaveWait => u.waiting && u.tokens > 0
  }

  function Step(u: Updater, ev: Event): Updater
    requires Enabled(u, ev)
  {
    match ev
    case DoSchedule => Schedule(u)
    case DoFinish => Finish(u)
    case DoEnterWait => EnterWait(u)
    case DoLeaveWait => LeaveWait(u)
  }

  predicate CanRun(u: Updater, evs: seq<Event>)
    decreases |evs|
  {
    evs == [] || (Enabled(u, evs[0]) && CanRun(Step(u, evs[0]), evs[1..]))
  }

  function Run(u: Updater, evs: seq<Event>): Updater
    requires CanRun(u, evs)
    decreases |evs|
  {
    if evs == [] then u else Run(Step(u, evs[0]), evs[1..])
  }

  // ---------- counting, and no hang ----------

  /** The last clause is why Wait cannot hang: when all updates are finished, a token is there. */
  ghost predicate Inv(u: Updater) {
    && u.finished <= u.scheduled && u.scheduled - u.finished < Size
    && u.pending == u.scheduled - u.finished
    && (u.waiting ==> u.active)
    && (u.active && u.pending == 0 ==> u.tokens > 0)
  }

  lemma {:induction false} StepKeeps(u: Updater, ev: Event)
    requires Inv(u) && Enabled(u, ev) && u.scheduled - u.finished + 1 < Size
    ensures Inv(Step(u, ev))
  {
  }

  /** Fewer than 2^64 updates are ever scheduled. */
  lemma {:induction false} RunKeeps(u: Updater, evs: seq<Event>)
    requires Inv(u) && CanRun(u, evs) && u.scheduled + |evs| < Size
    ensures Inv(Run(u, evs)) && Run(u, evs).scheduled <= u.scheduled + |evs|
    decreases |evs|
  {
    if evs != [] {
      StepKeeps(u, evs[0]);
      RunKeeps(Step(u, evs[0]), evs[1..]);
    }
  }

  /** The counter is scheduled minus finished, and a waiter whose updates are all finished can leave. */
  ghost predicate CountedAndFree(u: Updater) {
    && u.pending == u.scheduled - u.finished
    && (u.waiting ==> Enabled(u, DoLeaveWait) || Enabled(u, DoFinish))
    && (u.waiting && u.scheduled == u.finished ==> Enabled(u, DoLeaveWait))
  }

  lemma {:induction false} InvMeans(u: Updater)
    requires Inv(u)
    ensures CountedAndFree(u)
  {
  }

  lemma {:induction false} CountedAndNeverStuck(u: Updater, evs: seq<Event>)
    requires u == Initial() && CanRun(u, evs) && |evs| < Size
    ensures CountedAndFree(Run(u, evs))
  {
    RunKeeps(u, evs);
    InvMeans(Run(u, evs));
  }

  // ---------- when Wait is a barrier ----------

  function Finishes(n: nat): seq<Event> {
    seq(n, i => DoFinish)
  }

  lemma {:induction false} AfterFinishes(u: Updater, n: nat)
    requires Inv(u) && n <= u.pending
    ensures CanRun(u, Finishes(n))
    ensures Run(u, Finishes(n)) == u.(pending := u.pending - n, finished := u.finished + n,
      tokens := if 0 < n == u.pending then u.tokens + 1 else u.tokens)
    decreases n
  {
    if n > 0 {
      var evs := Finishes(n);
      assert evs[0] == DoFinish && evs[1..] == Finishes(n - 1);
      assert Inv(Finish(u));
      AfterFinishes(Finish(u), n - 1);
    }
  }

  /** Whenever the waiter can leave, every update is finished. */
  ghost predicate IsBarrier(u: Updater) {
    forall n: nat :: n <= u.pending && CanRun(u, Finishes(n)) && Enabled(Run(u, Finishes(n)), DoLeaveWait)
      ==> Run(u, Finishes(n)).pending == 0
  }

  /** Wait is a barrier exactly when, as it starts, no token is left over or nothing is pending. */
  lemma {:induction false} BarrierIff(u: Updater)
    requires Inv(u) && u.waiting
    ensures IsBarrier(u) <==> u.tokens == 0 || u.pending == 0
  {
    if u.tokens == 0 || u.pending == 0 {
      forall n: nat | n <= u.pending
        ensures CanRun(u, Finishes(n)) &&
          (Enabled(Run(u, Finishes(n)), DoLeaveWait) ==> Run(u, Finishes(n)).pending == 0)
      {
        AfterFinishes(u, n);
      }
    } else {
      AfterFinishes(u, 0);
      assert Enabled(Run(u, Finishes(0)), DoLeaveWait);
    }
  }

  // ---------- rounds ----------

  /** Between two sweeps nothing is pending and no token is left. */
  ghost predicate Clean(u: Updater) {
    Inv(u) && !u.waiting && !u.active && u.pending == 0 && u.tokens == 0
  }

  /** The part of a round before Wait: updates are scheduled, and some finish meanwhile. */
  ghost predicate Scheduling(evs: seq<Event>) {
    forall i :: 0 <= i < |evs| ==> evs[i] == DoSchedule || evs[i] == DoFinish
  }

  function Outstanding(evs: seq<Event>): int {
    if evs == [] then 0 else
    Outstanding(evs[..|evs| - 1]) + if evs[|evs| - 1] == DoSchedule then 1 else -1
  }

  /** The counter never falls to zero before the last update has been scheduled. */
  predicate NeverDrained(evs: seq<Event>) {
    |evs| <= 1 ||
    (NeverDrained(evs[..|evs| - 1]) && (evs[|evs| - 1] == DoSchedule ==> Outstanding(evs[..|evs| - 1]) > 0))
  }

  /** How often the counter falls to zero. */
  function Hits(evs: seq<Event>): nat {
    if evs == [] then 0 else
    Hits(evs[..|evs| - 1]) + if evs[|evs| - 1] == DoFinish && Outstanding(evs) == 0 then 1 else 0
  }

  lemma {:induction false} CanRunSnoc(u: Updater, evs: seq<Event>, ev: Event)
    ensures CanRun(u, evs + [ev]) <==> CanRun(u, evs) && Enabled(Run(u, evs), ev)
    ensures CanRun(u, evs + [ev]) ==> Run(u, evs + [ev]) == Step(Run(u, evs), ev)
    decreases |evs|
  {
    if evs == [] {
      assert evs + [ev] == [ev];
      assert [ev][1..] == [];
    } else {
      assert (evs + [ev])[1..] == evs[1..] + [ev];
      if Enabled(u, evs[0]) {
        CanRunSnoc(Step(u, evs[0]), evs[1..], ev);
      }
    }
  }

  /** The state in which a round reaches Wait. */
  lemma {:induction false} RoundReaches(u: Updater, evs: seq<Event>)
    requires Clean(u) && Scheduling(evs) && CanRun(u, evs) && u.scheduled + |evs| < Size
    ensures var v := Run(u, evs);
      Inv(v) && !v.waiting && v.pending == Outstanding(evs) && v.tokens == Hits(evs) && (evs != [] ==> v.active)
  {
    if evs != [] {
      var front, ev := evs[..|evs| - 1], evs[|evs| - 1];
      assert evs == front + [ev];
      CanRunSnoc(u, front, ev);
      RoundReaches(u, front);
      RunKeeps(u, evs);
      RunKeeps(u, front);
    }
  }

  /** A round whose counter never drains early hits zero at most once, and only at its end; any other hits it too often. */
  lemma {:induction false} HitsIff(u: Updater, evs: seq<Event>)
    requires Clean(u) && Scheduling(evs) && CanRun(u, evs) && u.scheduled + |evs| < Size && evs != []
    ensures NeverDrained(evs) <==> Hits(evs) == (if Outstanding(evs) == 0 then 1 else 0)
    ensures Hits(evs) >= (if Outstanding(evs) == 0 then 1 else 0)
  {
    var front, ev := evs[..|evs| - 1], evs[|evs| - 1];
    assert evs == front + [ev];
    CanRunSnoc(u, front, ev);
    RoundReaches(u, front);
    var v := Run(u, front);
    assert ev == DoSchedule || ev == DoFinish;
    assert v.pending == Outstanding(front) && (ev == DoFinish ==> v.finished < v.scheduled);
    if front != [] {
      HitsIff(u, front);
      HitsStep(evs);
    } else {
      assert evs == [ev];
    }
  }

  lemma {:induction false} HitsStep(evs: seq<Event>)
    requires |evs| > 1
    requires var front := evs[..|evs| - 1];
      && (evs[|evs| - 1] == DoSchedule || evs[|evs| - 1] == DoFinish)
      && Outstanding(front) >= 0 && (evs[|evs| - 1] == DoFinish ==> Outstanding(front) > 0)
      && (NeverDrained(front) <==> Hits(front) == if Outstanding(front) == 0 then 1 else 0)
      && Hits(front) >= if Outstanding(front) == 0 then 1 else 0
    ensures NeverDrained(evs) <==> Hits(evs) == (if Outstanding(evs) == 0 then 1 else 0)
    ensures Hits(evs) >= (if Outstanding(evs) == 0 then 1 else 0)
  {
  }

  /** The round is right: Wait is a barrier, and leaves the updater clean. */
  ghost predicate RoundHolds(u: Updater, evs: seq<Event>)
    requires CanRun(u, evs)
  {
    var v := EnterWait(Run(u, evs));
    && IsBarrier(v)
    && LeavesClean(v)
  }

  ghost predicate LeavesClean(u: Updater) {
    forall n: nat :: n <= u.pending && CanRun(u, Finishes(n)) && Enabled(Run(u, Finishes(n)), DoLeaveWait)
      ==> Clean(LeaveWait(Run(u, Finishes(n))))
  }

  /**
   The unconditional barrier is false.  Exactly the rounds in which the counter does not
   drain before the last update is scheduled are right.
   */
  lemma {:induction false} RoundIff(u: Updater, evs: seq<Event>)
    requires Clean(u) && Scheduling(evs) && CanRun(u, evs) && u.scheduled + |evs| < Size && evs != []
    ensures RoundHolds(u, evs) <==> NeverDrained(evs)
  {
    RoundReaches(u, evs);
    HitsIff(u, evs);
    var v := EnterWait(Run(u, evs));
    BarrierIff(v);
    if NeverDrained(evs) {
      forall n: nat | n <= v.pending
        ensures CanRun(v, Finishes(n)) &&
          (Enabled(Run(v, Finishes(n)), DoLeaveWait) ==> Clean(LeaveWait(Run(v, Finishes(n)))))
      {
        AfterFinishes(v, n);
      }
    } else if v.pending == 0 {
      AfterFinishes(v, 0);
      assert !Clean(LeaveWait(Run(v, Finishes(0))));
    }
  }

  /** The sweep is over: the pending updates have finished and the waiter has left. */
  function AfterRound(u: Updater, evs: seq<Event>): Updater
    requires CanRun(u, evs)
  {
    var v := EnterWait(Run(u, evs));
    if CanRun(v, Finishes(v.pending)) && Enabled(Run(v, Finishes(v.pending)), DoLeaveWait)
    then LeaveWait(Run(v, Finishes(v.pending))) else v
  }

  /** Each sweep runs from where the one before has ended. */
  ghost predicate Sweeps(u: Updater, rounds: seq<seq<Event>>)
    decreases |rounds|
  {
    rounds == [] ||
    (Scheduling(rounds[0]) && CanRun(u, rounds[0]) && u.scheduled + |rounds[0]| < Size
     && (NeverDrained(rounds[0]) ==> Sweeps(AfterRound(u, rounds[0]), rounds[1..])))
  }

  ghost predicate AllHold(u: Updater, rounds: seq<seq<Event>>)
    decreases |rounds|
  {
    rounds == [] ||
    (CanRun(u, rounds[0]) && RoundHolds(u, rounds[0]) && AllHold(AfterRound(u, rounds[0]), rounds[1..]))
  }

  /** Any number of sweeps, also over no channel, are all right if and only if no counter drains early in any of them. */
  lemma {:induction false} SweepsIff(u: Updater, rounds: seq<seq<Event>>)
    requires Clean(u) && Sweeps(u, rounds)
    ensures AllHold(u, rounds) <==> forall i :: 0 <= i < |rounds| ==> NeverDrained(rounds[i])
    decreases |rounds|
  {
    if rounds != [] {
      var evs := rounds[0];
      if evs == [] {
        EmptyRound(u);
      } else {
        RoundIff(u, evs);
      }
      if NeverDrained(evs) {
        AfterClean(u, evs);
        SweepsIff(AfterRound(u, evs), rounds[1..]);
        assert forall i :: 1 <= i < |rounds| ==> rounds[i] == rounds[1..][i - 1];
      }
    }
  }

  /** A sweep over no channel leaves a clean updater clean: Wait returns at once. */
  lemma {:induction false} EmptyRound(u: Updater)
    requires Clean(u)
    ensures RoundHolds(u, []) && AfterRound(u, []) == u
  {
    var v := EnterWait(Run(u, []));
    assert v == u && Finishes(0) == [];
    forall n: nat | n <= v.pending
      ensures Finishes(n) == [] && !Enabled(Run(v, []), DoLeaveWait)
    {
    }
  }

  lemma {:induction false} AfterClean(u: Updater, evs: seq<Event>)
    requires Clean(u) && Scheduling(evs) && CanRun(u, evs) && u.scheduled + |evs| < Size && NeverDrained(evs)
    ensures Clean(AfterRound(u, evs))
  {
    if evs == [] {
      EmptyRound(u);
    } else {
      RoundReaches(u, evs);
      HitsIff(u, evs);
      var v := EnterWait(Run(u, evs));
      AfterFinishes(v, v.pending);
    }
  }

  /** The first of two updates finishes before the second is scheduled: Wait returns while one is pending. */
  lemma {:induction false} TooEarly(u: Updater, evs: seq<Event>)
    requires u == Initial() && evs == [DoSchedule, DoFinish, DoSchedule, DoEnterWait, DoLeaveWait]
    ensures CanRun(u, evs) && Run(u, evs).pending == 1
  {
    var u3 := Schedule(Finish(Schedule(u)));
    OneStep(EnterWait(u3), evs[4..]);
    OneStep(u3, evs[3..]);
    OneStep(Finish(Schedule(u)), evs[2..]);
    OneStep(Schedule(u), evs[1..]);
    OneStep(u, evs);
  }

  lemma {:induction false} OneStep(u: Updater, evs: seq<Event>)
    requires evs != [] && Enabled(u, evs[0]) && CanRun(Step(u, evs[0]), evs[1..])
    ensures CanRun(u, evs) && Run(u, evs) == Run(Step(u, evs[0]), evs[1..])
  {
  }
}
