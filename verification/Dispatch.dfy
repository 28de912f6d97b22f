/**
 Handing requests to worker threads: producers put a request in the locked queue and
 signal the semaphore, workers wait on the semaphore and take a request.  Threads
 interleave between any two atomic steps.
 */
module Dispatch {

  /** Where a thread stands. */
  datatype Pc =
    | Outside    // neither adding nor waiting
    | Added      // its request is in the queue, the semaphore is not raised yet
    | Raised     // value is incremented and the mutex released, pthread_cond_signal is due
    | Asleep     // in pthread_cond_wait
    | Woken      // woken, has not looked at value again
    | Past       // left Wait, has not taken a request yet

  /** The last three fields are histories; missed counts the workers that found the queue empty. */
  datatype Pool = Pool(pcs: seq<Pc>, value: int, queue: seq<nat>,
    added: seq<nat>, taken: seq<nat>, missed: nat)

  function Initial(threads: nat): Pool {
    Pool(seq(threads, i => Outside), 0, [], [], [], 0)
  }

  function Count(pcs: seq<Pc>, pc: Pc): nat {
    multiset(pcs)[pc]
  }

  // ---------- the atomic steps ----------

  function Move(p: Pool, t: nat, pc: Pc): Pool
    requires t < |p.pcs|
  {
    p.(pcs := p.pcs[t := pc])
  }

  /** LockQueue::add. */
  function Add(p: Pool, t: nat, item: nat): Pool
    requires t < |p.pcs|
  {
    Move(p, t, Added).(queue := p.queue + [item], added := p.added + [item])
  }

  /** The locked part of Signal. */
  function Raise(p: Pool, t: nat): Pool
    requires t < |p.pcs|
  {
    Move(p, t, Raised).(value := p.value + 1)
  }

  /** pthread_cond_signal wakes the chosen sleeper, or nobody when nobody sleeps. */
  function Notify(p: Pool, t: nat, chosen: nat): Pool
    requires t < |p.pcs| && t != chosen
  {
    if chosen < |p.pcs| && p.pcs[chosen] == Asleep then Move(Move(p, t, Outside), chosen, Woken) else Move(p, t, Outside)
  }

  /** The test at the head of the loop in Wait, with the mutex held. */
  function Test(p: Pool, t: nat): Pool
    requires t < |p.pcs|
  {
    if p.value <= 0 then Move(p, t, Asleep) else Move(p, t, Past).(value := p.value - 1)
  }

  /** LockQueue::next after Wait. */
  function Take(p: Pool, t: nat): Pool
    requires t < |p.pcs|
  {
    if p.queue == [] then Move(p, t, Outside).(missed := p.missed + 1)
    else Move(p, t, Outside).(queue := p.queue[1..], taken := p.taken + [p.queue[0]])
  }

  datatype Event =
    | DoAdd(t: nat, item: nat) | DoRaise(t: nat) | DoNotify(t: nat, chosen: nat)
    | DoEnter(t: nat) | DoWake(t: nat) | DoRecheck(t: nat) | DoTake(t: nat)

  /** DoNotify must choose a sleeper while there is one; DoWake is a spurious wake-up. */
  ghost predicate Enabled(p: Pool, ev: Event) {
    ev.t < |p.pcs| &&
    match ev
    case DoAdd(t, _) => p.pcs[t] == Outside
    case DoRaise(t) => p.pcs[t] == Added
    case DoNotify(t, chosen) =>
      p.pcs[t] == Raised && t != chosen &&
      (Asleep in p.pcs ==> chosen < |p.pcs| && p.pcs[chosen] == Asleep)
    case DoEnter(t) => p.pcs[t] == Outside
    case DoWake(t) => p.pcs[t] == Asleep
    case DoRecheck(t) => p.pcs[t] == Woken
    case DoTake(t) => p.pcs[t] == Past
  }

  function Step(p: Pool, ev: Event): Pool
    requires Enabled(p, ev)
  {
    match ev
    case DoAdd(t, item) => Add(p, t, item)
    case DoRaise(t) => Raise(p, t)
    case DoNotify(t, chosen) => Notify(p, t, chosen)
    case DoEnter(t) => Test(p, t)
    case DoWake(t) => Move(p, t, Woken)
    case DoRecheck(t) => Test(p, t)
    case DoTake(t) => Take(p, t)
  }

  /** The pools that some interleaving of the steps reaches. */
  ghost predicate Reaches(p: Pool, evs: seq<Event>, q: Pool)
    decreases |evs|
  {
    if evs == [] then p == q else Enabled(p, evs[0]) && Reaches(Step(p, evs[0]), evs[1..], q)
  }

  // ---------- invariants ----------

  /** Every queued request has its token: free in the semaphore, held by a worker past Wait, or still owed by its producer. */
  ghost predicate Tokens(p: Pool) {
    p.value >= 0 && |p.queue| == p.value + Count(p.pcs, Past) + Count(p.pcs, Added)
  }

  /** While somebody sleeps, every free token has a wake-up on its way. */
  ghost predicate NoLostWakeUp(p: Pool) {
    Count(p.pcs, Asleep) > 0 ==> p.value <= Count(p.pcs, Raised) + Count(p.pcs, Woken)
  }

  /** Requests come out once each, in the order in which they went in, and nobody finds the queue empty. */
  ghost predicate OnceEach(p: Pool) {
    p.added == p.taken + p.queue && p.missed == 0
  }

  ghost predicate Inv(p: Pool) {
    Tokens(p) && NoLostWakeUp(p) && OnceEach(p)
  }

  function Change(pc: Pc, from: Pc, to: Pc): int {
    (if pc == to then 1 else 0) - (if pc == from then 1 else 0)
  }

  lemma {:induction false} MoveCounts(pcs: seq<Pc>, t: nat, to: Pc)
    requires t < |pcs|
    ensures forall pc :: Count(pcs[t := to], pc) == Count(pcs, pc) + Change(pc, pcs[t], to)
  {
    assert multiset(pcs[t := to]) == multiset(pcs) - multiset{pcs[t]} + multiset{to};
    assert multiset(pcs)[pcs[t]] > 0;
  }

  lemma {:induction false} CountIn(pcs: seq<Pc>, pc: Pc)
    ensures Count(pcs, pc) > 0 <==> pc in pcs
  {
  }

  lemma {:induction false} NotifyKeeps(p: Pool, t: nat, chosen: nat)
    requires Inv(p) && Enabled(p, DoNotify(t, chosen))
    ensures Inv(Notify(p, t, chosen))
  {
    NotifyCounts(p, t, chosen);
    CountIn(p.pcs, Asleep);
  }

  lemma {:induction false} NotifyCounts(p: Pool, t: nat, chosen: nat)
    requires Enabled(p, DoNotify(t, chosen))
    ensures var q := Notify(p, t, chosen);
      && Count(q.pcs, Added) == Count(p.pcs, Added) && Count(q.pcs, Past) == Count(p.pcs, Past)
      && Count(q.pcs, Raised) == Count(p.pcs, Raised) - 1
      && Count(q.pcs, Woken) == Count(p.pcs, Woken) + (if Asleep in p.pcs then 1 else 0)
      && Count(q.pcs, Asleep) == Count(p.pcs, Asleep) - (if Asleep in p.pcs then 1 else 0)
  {
    MoveCounts(p.pcs, t, Outside);
    if Asleep in p.pcs {
      MoveCounts(p.pcs[t := Outside], chosen, Woken);
    }
  }

  lemma {:induction false} TestKeeps(p: Pool, t: nat)
    requires Inv(p) && t < |p.pcs| && (p.pcs[t] == Outside || p.pcs[t] == Woken)
    ensures Inv(Test(p, t))
  {
    MoveCounts(p.pcs, t, if p.value <= 0 then Asleep else Past);
  }

  lemma {:induction false} AddKeeps(p: Pool, t: nat, item: nat)
    requires Inv(p) && Enabled(p, DoAdd(t, item))
    ensures Inv(Add(p, t, item))
  {
    MoveCounts(p.pcs, t, Added);
  }

  lemma {:induction false} RaiseKeeps(p: Pool, t: nat)
    requires Inv(p) && Enabled(p, DoRaise(t))
    ensures Inv(Raise(p, t))
  {
    MoveCounts(p.pcs, t, Raised);
  }

  lemma {:induction false} WakeKeeps(p: Pool, t: nat)
    requires Inv(p) && Enabled(p, DoWake(t))
    ensures Inv(Move(p, t, Woken))
  {
    MoveCounts(p.pcs, t, Woken);
  }

  lemma {:induction false} TakeKeeps(p: Pool, t: nat)
    requires Inv(p) && Enabled(p, DoTake(t))
    ensures Inv(Take(p, t)) && p.queue != []
  {
    MoveCounts(p.pcs, t, Outside);
    CountIn(p.pcs, Past);
    assert p.queue == [p.queue[0]] + p.queue[1..];
  }

  lemma {:induction false} StepKeeps(p: Pool, ev: Event)
    requires Inv(p) && Enabled(p, ev)
    ensures Inv(Step(p, ev))
  {
    match ev {
      case DoAdd(t, item) => AddKeeps(p, t, item);
      case DoRaise(t) => RaiseKeeps(p, t);
      case DoNotify(t, chosen) => NotifyKeeps(p, t, chosen);
      case DoEnter(t) => TestKeeps(p, t);
      case DoWake(t) => WakeKeeps(p, t);
      case DoRecheck(t) => TestKeeps(p, t);
      case DoTake(t) => TakeKeeps(p, t);
    }
  }

  lemma {:induction false} ReachesKeeps(p: Pool, evs: seq<Event>, q: Pool)
    requires Inv(p) && Reaches(p, evs, q)
    ensures Inv(q)
    decreases |evs|
  {
    if evs != [] {
      StepKeeps(p, evs[0]);
      ReachesKeeps(Step(p, evs[0]), evs[1..], q);
    }
  }

  // ---------- main results ----------

  /** In every interleaving, tokens are conserved, no wake-up is lost and each request is taken once. */
  lemma {:induction false} EveryInterleaving(threads: nat, evs: seq<Event>, q: Pool)
    requires Reaches(Initial(threads), evs, q)
    ensures Tokens(q) && NoLostWakeUp(q) && OnceEach(q)
  {
    ReachesKeeps(Initial(threads), evs, q);
  }

  /** A worker past Wait always finds a request. */
  lemma {:induction false} NeverFindsEmpty(threads: nat, evs: seq<Event>, q: Pool, t: nat)
    requires Reaches(Initial(threads), evs, q) && t < |q.pcs| && q.pcs[t] == Past
    ensures q.queue != []
  {
    EveryInterleaving(threads, evs, q);
    TakeKeeps(q, t);
  }

  // ---------- progress ----------

  /** The steps a thread takes on its own inside Signal, Wait and next. */
  predicate Internal(ev: Event) {
    ev.DoRaise? || ev.DoNotify? || ev.DoRecheck? || ev.DoTake?
  }

  function Weight(p: Pool): nat {
    4 * Count(p.pcs, Added) + 3 * Count(p.pcs, Raised) + 2 * Count(p.pcs, Woken) + Count(p.pcs, Past)
  }

  lemma {:induction false} InternalLowers(p: Pool, ev: Event)
    requires Enabled(p, ev) && Internal(ev)
    ensures Weight(Step(p, ev)) < Weight(p)
  {
    match ev {
      case DoRaise(t) => Lowers(p, t, Raised, Raise(p, t));
      case DoNotify(t, chosen) => NotifyCounts(p, t, chosen);
      case DoRecheck(t) => Lowers(p, t, if p.value <= 0 then Asleep else Past, Test(p, t));
      case DoTake(t) => Lowers(p, t, Outside, Take(p, t));
    }
  }

  function Share(pc: Pc): nat {
    match pc
    case Added => 4 case Raised => 3 case Woken => 2 case Past => 1 case _ => 0
  }

  lemma {:induction false} Lowers(p: Pool, t: nat, to: Pc, q: Pool)
    requires t < |p.pcs| && q.pcs == p.pcs[t := to]
    ensures Weight(q) == Weight(p) - Share(p.pcs[t]) + Share(to)
  {
    MoveCounts(p.pcs, t, to);
    var from := p.pcs[t];
    assert Count(q.pcs, Added) == Count(p.pcs, Added) + Change(Added, from, to);
    assert Count(q.pcs, Raised) == Count(p.pcs, Raised) + Change(Raised, from, to);
    assert Count(q.pcs, Woken) == Count(p.pcs, Woken) + Change(Woken, from, to);
    assert Count(q.pcs, Past) == Count(p.pcs, Past) + Change(Past, from, to);
  }

  /** While a thread is inside, some internal step is enabled: nothing but an empty semaphore blocks anybody. */
  lemma {:induction false} InternalEnabled(p: Pool)
    requires Weight(p) > 0
    ensures exists ev: Event :: Internal(ev) && Enabled(p, ev)
  {
    var pc := if Added in p.pcs then Added else if Raised in p.pcs then Raised else if Woken in p.pcs then Woken else Past;
    CountIn(p.pcs, Added);
    CountIn(p.pcs, Raised);
    CountIn(p.pcs, Woken);
    CountIn(p.pcs, Past);
    var t: nat :| t < |p.pcs| && p.pcs[t] == pc;
    var chosen: nat := |p.pcs|;
    if Asleep in p.pcs {
      chosen :| chosen < |p.pcs| && p.pcs[chosen] == Asleep;
    }
    var ev := match pc
      case Added => DoRaise(t)
      case Raised => DoNotify(t, chosen)
      case Woken => DoRecheck(t)
      case _ => DoTake(t);
    assert Internal(ev) && Enabled(p, ev);
  }

  /**
   Left alone, from every reachable pool the threads inside finish: every row of internal
   steps has at most Weight steps, and when no internal step is left, either no worker
   sleeps or no request is left.
   */
  lemma {:induction false} Settles(p: Pool, evs: seq<Event>, q: Pool)
    requires Inv(p) && Reaches(p, evs, q) && forall ev :: ev in evs ==> Internal(ev)
    ensures |evs| + Weight(q) <= Weight(p) && q.added == p.added
    ensures (forall ev: Event :: !(Internal(ev) && Enabled(q, ev))) ==>
      Weight(q) == 0 && (Asleep in q.pcs ==> q.queue == [] && q.taken == q.added)
    decreases |evs|
  {
    if evs == [] {
      if Weight(q) > 0 {
        InternalEnabled(q);
      } else {
        CountIn(q.pcs, Asleep);
      }
    } else {
      StepKeeps(p, evs[0]);
      InternalLowers(p, evs[0]);
      assert forall ev :: ev in evs[1..] ==> ev in evs;
      Settles(Step(p, evs[0]), evs[1..], q);
    }
  }

  /** Every settled pool, however it was reached: a sleeping worker means that every request has been taken. */
  lemma {:induction false} SettledIsServed(threads: nat, evs: seq<Event>, q: Pool)
    requires Reaches(Initial(threads), evs, q) && Weight(q) == 0
    ensures Asleep in q.pcs ==> q.queue == [] && q.taken == q.added
    ensures q.queue != [] ==> forall t :: 0 <= t < |q.pcs| ==> q.pcs[t] == Outside
  {
    EveryInterleaving(threads, evs, q);
    CountIn(q.pcs, Asleep);
    CountIn(q.pcs, Added);
    CountIn(q.pcs, Raised);
    CountIn(q.pcs, Woken);
    CountIn(q.pcs, Past);
  }
}
