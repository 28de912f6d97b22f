/**
 Two threads drain one receive queue: the session sweep with the single-session
 filter, a channel update with the map filter.  The network thread appends meanwhile.
 */
module Drain {
  import opened Opcodes

  datatype Packet = Packet(op: Opcode, tag: nat)

  datatype Flags = Flags(open: bool, authenticated: bool, inQueue: bool, inChannel: bool)

  /** A packet that left the queue, with the filter and the flags of that moment. */
  datatype Entry = Entry(packet: Packet, single: bool, at: Flags, handled: bool)

  datatype Inbox = Inbox(flags: Flags, queue: seq<Packet>, consumed: seq<Entry>)

  /**
   What the drain depends on: the processing column of the opcode table, what a handler
   does to the flags (also when it throws), and what the two timers do to them.
   */
  datatype World = World(processing: Opcode -> Processing, effect: (Flags, Packet) -> Flags, timers: Flags -> Flags)

  /** MapSessionFilter and SingleSessionFilter. */
  predicate Accepts(w: World, single: bool, op: Opcode, inChannel: bool) {
    match w.processing(op)
    case InPlace => true
    case ThreadUnsafe => single
    case ThreadSafe => inChannel != single
  }

  /** The status switch: may a packet reach its handler now? */
  predicate Handles(flags: Flags, op: Opcode) {
    match ServerRequirement(op)
    case Logging => !flags.inQueue
    case Logged => flags.authenticated
    case Never => false
  }

  /** The types that an unauthenticated session may send: login, key refresh, queue position and users list. */
  predicate ForAnyone(op: Opcode) {
    || op == CmsgLogin || op == SmsgLogin || op == CmsgRefreshKey || op == SmsgRefreshKey
    || op == SmsgQueuePosition || op == CmsgUsersChannelList || op == SmsgUsersChannelList
  }

  /** The rule for each message type, without the table. */
  predicate MayPass(flags: Flags, op: Opcode) {
    if ForAnyone(op) then !flags.inQueue else op != MsgNullAction && flags.authenticated
  }

  predicate CanTake(w: World, b: Inbox, single: bool) {
    b.flags.open && b.queue != [] && Accepts(w, single, b.queue[0].op, b.flags.inChannel)
  }

  /** One turn of the loop. */
  function Take(w: World, b: Inbox, single: bool): Inbox
    requires CanTake(w, b, single)
  {
    var p := b.queue[0];
    var handled := Handles(b.flags, p.op);
    Inbox(if handled then w.effect(b.flags, p) else b.flags, b.queue[1..], b.consumed + [Entry(p, single, b.flags, handled)])
  }

  function Drained(w: World, b: Inbox, single: bool): Inbox
    decreases |b.queue|
  {
    if CanTake(w, b, single) then Drained(w, Take(w, b, single), single) else b
  }

  function Timed(w: World, b: Inbox): Inbox {
    if b.flags.open then b.(flags := w.timers(b.flags)) else b
  }

  /** Session::Update when nothing arrives meanwhile. */
  function Updated(w: World, b: Inbox, single: bool): Inbox {
    Drained(w, if single then Timed(w, b) else b, single)
  }

  // ---------- every interleaving ----------

  datatype Event = Arrive(p: Packet) | Timers | Turn(single: bool)

  function Step(w: World, b: Inbox, ev: Event): Inbox {
    match ev
    case Arrive(p) => b.(queue := b.queue + [p])
    case Timers => Timed(w, b)
    case Turn(single) => if CanTake(w, b, single) then Take(w, b, single) else b
  }

  function Run(w: World, b: Inbox, evs: seq<Event>): Inbox {
    if evs == [] then b else Step(w, Run(w, b, evs[..|evs| - 1]), evs[|evs| - 1])
  }

  function Arrivals(evs: seq<Event>): seq<Packet> {
    if evs == [] then [] else
    Arrivals(evs[..|evs| - 1]) + if evs[|evs| - 1].Arrive? then [evs[|evs| - 1].p] else []
  }

  function Packets(consumed: seq<Entry>): seq<Packet> {
    seq(|consumed|, i requires 0 <= i < |consumed| => consumed[i].packet)
  }

  /** An entry obeys the filter it was taken with and the status column of its opcode. */
  ghost predicate Lawful(w: World, e: Entry) {
    && e.at.open && Accepts(w, e.single, e.packet.op, e.at.inChannel)
    && (e.handled <==> Handles(e.at, e.packet.op))
  }

  ghost predicate AllLawful(w: World, consumed: seq<Entry>) {
    forall i :: 0 <= i < |consumed| ==> Lawful(w, consumed[i])
  }

  lemma {:induction false} TakeConserves(w: World, b: Inbox, single: bool)
    requires CanTake(w, b, single)
    ensures Packets(Take(w, b, single).consumed) + Take(w, b, single).queue == Packets(b.consumed) + b.queue
    ensures AllLawful(w, b.consumed) ==> AllLawful(w, Take(w, b, single).consumed)
  {
    var next := Take(w, b, single);
    assert Packets(next.consumed) == Packets(b.consumed) + [b.queue[0]];
    assert b.queue == [b.queue[0]] + b.queue[1..];
  }

  /** However the two updates and the arrivals interleave, nothing is lost, duplicated or reordered. */
  lemma {:induction false} EveryInterleaving(w: World, flags: Flags, evs: seq<Event>)
    ensures var b := Run(w, Inbox(flags, [], []), evs);
      Packets(b.consumed) + b.queue == Arrivals(evs) && AllLawful(w, b.consumed)
  {
    var b0 := Inbox(flags, [], []);
    if evs == [] {
      assert Packets(b0.consumed) == [];
    } else {
      var front, ev := evs[..|evs| - 1], evs[|evs| - 1];
      EveryInterleaving(w, flags, front);
      var b := Run(w, b0, front);
      if ev.Arrive? {
        assert Packets(b.consumed) + (b.queue + [ev.p]) == Packets(b.consumed) + b.queue + [ev.p];
      } else if ev.Turn? && CanTake(w, b, ev.single) {
        TakeConserves(w, b, ev.single);
      }
    }
  }

  /**
   The channel thread never gets a thread-unsafe packet, and gets a thread-safe one exactly
   when the session is in a channel.  The handler ran exactly for the types that anyone may send
   when the session was not waiting, and for the others, never the null action, when it was authenticated.
   */
  lemma {:induction false} WhoConsumes(w: World, flags: Flags, evs: seq<Event>, i: nat)
    requires i < |Run(w, Inbox(flags, [], []), evs).consumed|
    ensures var e := Run(w, Inbox(flags, [], []), evs).consumed[i];
      && (w.processing(e.packet.op) == ThreadUnsafe ==> e.single)
      && (w.processing(e.packet.op) == ThreadSafe ==> (e.single <==> !e.at.inChannel))
      && (e.handled <==> MayPass(e.at, e.packet.op))
  {
    EveryInterleaving(w, flags, evs);
    assert Lawful(w, Run(w, Inbox(flags, [], []), evs).consumed[i]);
  }

  // ---------- whole updates ----------

  lemma {:induction false} DrainedConserves(w: World, b: Inbox, single: bool)
    ensures Packets(Drained(w, b, single).consumed) + Drained(w, b, single).queue == Packets(b.consumed) + b.queue
    ensures AllLawful(w, b.consumed) ==> AllLawful(w, Drained(w, b, single).consumed)
    ensures |Drained(w, b, single).queue| <= |b.queue|
    ensures !CanTake(w, Drained(w, b, single), single)
    decreases |b.queue|
  {
    if CanTake(w, b, single) {
      TakeConserves(w, b, single);
      DrainedConserves(w, Take(w, b, single), single);
    }
  }

  /** The flags once these packets have been dealt with in order: only the handlers that may run change them. */
  function FlagsAfter(w: World, flags: Flags, ps: seq<Packet>): Flags
    decreases |ps|
  {
    if ps == [] then flags
    else FlagsAfter(w, if MayPass(flags, ps[0].op) then w.effect(flags, ps[0]) else flags, ps[1..])
  }

  /** An update takes a first part of the queue, and its handlers' effects are all that happens to the session. */
  lemma {:induction false} EffectsInOrder(w: World, b: Inbox, single: bool)
    ensures var after := Drained(w, b, single);
      && |after.queue| <= |b.queue|
      && var n := |b.queue| - |after.queue|;
      after.queue == b.queue[n..] && after.flags == FlagsAfter(w, b.flags, b.queue[..n])
    decreases |b.queue|
  {
    if CanTake(w, b, single) {
      var next := Take(w, b, single);
      EffectsInOrder(w, next, single);
      var n := |b.queue| - |Drained(w, b, single).queue|;
      assert b.queue[..n][1..] == next.queue[..n - 1];
      assert FlagsAfter(w, b.flags, b.queue[..n]) == FlagsAfter(w, next.flags, b.queue[..n][1..]);
    } else {
      assert b.queue[|b.queue| - |b.queue|..] == b.queue;
    }
  }

  /** An update is a row of loop turns with no arrival in between. */
  lemma {:induction false} UpdateIsARun(w: World, b: Inbox, single: bool) returns (evs: seq<Event>)
    ensures Updated(w, b, single) == Run(w, b, evs) && Arrivals(evs) == []
  {
    var b1 := if single then Timed(w, b) else b;
    var first := if single then [Timers] else [];
    assert [Timers][..0] == [];
    assert Run(w, b, [Timers]) == Step(w, Run(w, b, []), Timers) == Timed(w, b);
    var turns := DrainIsTurns(w, b1, single);
    RunConcat(w, b, first, turns);
    ArrivalsConcat(first, turns);
    evs := first + turns;
  }

  lemma {:induction false} DrainIsTurns(w: World, b: Inbox, single: bool) returns (evs: seq<Event>)
    ensures Drained(w, b, single) == Run(w, b, evs) && Arrivals(evs) == []
    decreases |b.queue|
  {
    if CanTake(w, b, single) {
      var next := Take(w, b, single);
      var rest := DrainIsTurns(w, next, single);
      var turn := [Turn(single)];
      assert turn[..0] == [];
      assert Run(w, b, turn) == Step(w, Run(w, b, []), Turn(single)) == next;
      RunConcat(w, b, turn, rest);
      ArrivalsConcat(turn, rest);
      evs := turn + rest;
    } else {
      evs := [];
    }
  }

  lemma {:induction false} RunConcat(w: World, b: Inbox, a: seq<Event>, c: seq<Event>)
    ensures Run(w, b, a + c) == Run(w, Run(w, b, a), c)
  {
    if c == [] {
      assert a + c == a;
    } else {
      var front, ev := c[..|c| - 1], c[|c| - 1];
      RunConcat(w, b, a, front);
      assert (a + c)[..|a + c| - 1] == a + front;
    }
  }

  lemma {:induction false} ArrivalsConcat(a: seq<Event>, c: seq<Event>)
    ensures Arrivals(a + c) == Arrivals(a) + Arrivals(c)
  {
    if c == [] {
      assert a + c == a;
    } else {
      var front, ev := c[..|c| - 1], c[|c| - 1];
      ArrivalsConcat(a, front);
      assert (a + c)[..|a + c| - 1] == a + front;
    }
  }

  /** Arrivals and whole updates. */
  datatype Job = Incoming(p: Packet) | Update(single: bool)

  function Jobs(w: World, b: Inbox, jobs: seq<Job>): Inbox {
    if jobs == [] then b else
    var front, job := Jobs(w, b, jobs[..|jobs| - 1]), jobs[|jobs| - 1];
    if job.Incoming? then front.(queue := front.queue + [job.p]) else Updated(w, front, job.single)
  }

  function IncomingOf(jobs: seq<Job>): seq<Packet> {
    if jobs == [] then [] else
    IncomingOf(jobs[..|jobs| - 1]) + if jobs[|jobs| - 1].Incoming? then [jobs[|jobs| - 1].p] else []
  }

  lemma {:induction false} JobsAreARun(w: World, b: Inbox, jobs: seq<Job>) returns (evs: seq<Event>)
    ensures Jobs(w, b, jobs) == Run(w, b, evs) && Arrivals(evs) == IncomingOf(jobs)
  {
    if jobs == [] {
      evs := [];
    } else {
      var job := jobs[|jobs| - 1];
      var front := JobsAreARun(w, b, jobs[..|jobs| - 1]);
      if job.Incoming? {
        evs := front + [Arrive(job.p)];
        assert evs[..|evs| - 1] == front;
      } else {
        var turns := UpdateIsARun(w, Run(w, b, front), job.single);
        RunConcat(w, b, front, turns);
        ArrivalsConcat(front, turns);
        evs := front + turns;
      }
    }
  }

  /** For any alternation of arrivals and whole updates, consumed packets followed by the queue are the arrivals in order. */
  lemma {:induction false} EveryAlternation(w: World, flags: Flags, jobs: seq<Job>)
    ensures var b := Jobs(w, Inbox(flags, [], []), jobs);
      Packets(b.consumed) + b.queue == IncomingOf(jobs) && AllLawful(w, b.consumed)
  {
    var evs := JobsAreARun(w, Inbox(flags, [], []), jobs);
    EveryInterleaving(w, flags, evs);
  }

  /** At least one filter accepts the head; both do exactly when it may be processed in place. */
  lemma {:induction false} SomeFilterAccepts(w: World, op: Opcode, inChannel: bool)
    ensures Accepts(w, true, op, inChannel) || Accepts(w, false, op, inChannel)
    ensures Accepts(w, true, op, inChannel) && Accepts(w, false, op, inChannel) <==> w.processing(op) == InPlace
  {
  }

  /** n rounds of a single-session update and then a map update. */
  function Rounds(w: World, b: Inbox, n: nat): Inbox
    decreases n
  {
    if n == 0 then b else Rounds(w, Updated(w, Updated(w, b, true), false), n - 1)
  }

  /** A round shortens the queue of a session that stays open. */
  lemma {:induction false} RoundShortens(w: World, b: Inbox)
    requires b.queue != []
    ensures var after := Updated(w, Updated(w, b, true), false);
      |after.queue| < |b.queue| || !after.flags.open
  {
    var b1 := Timed(w, b);
    var mid := Drained(w, b1, true);
    DrainedConserves(w, b1, true);
    DrainedConserves(w, mid, false);
    if mid.queue == b.queue && mid.flags.open {
      SomeFilterAccepts(w, mid.queue[0].op, mid.flags.inChannel);
      assert CanTake(w, mid, false);
      DrainedConserves(w, Take(w, mid, false), false);
    }
    ClosedStays(w, mid, false);
    if !CanTake(w, b1, true) {
      assert mid == b1;
    } else {
      DrainedConserves(w, Take(w, b1, true), true);
    }
  }

  lemma {:induction false} ClosedStays(w: World, b: Inbox, single: bool)
    ensures !b.flags.open ==> Drained(w, b, single) == b && Updated(w, b, single) == b
  {
  }

  /** For any opcode table, alternating updates empty the queue of a session that stays open. */
  lemma {:induction false} AlternationEmpties(w: World, b: Inbox, n: nat)
    requires n >= |b.queue|
    ensures Rounds(w, b, n).queue == [] || !Rounds(w, b, n).flags.open
    decreases n
  {
    if n > 0 {
      var after := Updated(w, Updated(w, b, true), false);
      if b.queue != [] {
        RoundShortens(w, b);
      } else {
        DrainedConserves(w, Timed(w, b), true);
        DrainedConserves(w, Updated(w, b, true), false);
      }
      if after.flags.open {
        AlternationEmpties(w, after, n - 1);
      } else {
        RoundsClosed(w, after, n - 1);
      }
    }
  }

  lemma {:induction false} RoundsClosed(w: World, b: Inbox, n: nat)
    requires !b.flags.open
    ensures Rounds(w, b, n) == b
    decreases n
  {
    ClosedStays(w, b, true);
    ClosedStays(w, b, false);
    if n > 0 {
      RoundsClosed(w, b, n - 1);
    }
  }

  // ---------- this server's table ----------

  ghost predicate ServerTable(w: World) {
    forall op :: w.processing(op) == ServerProcessing(op)
  }

  /** One single-session update empties the queue unless the session closes. */
  lemma {:induction false} SingleTakesAll(w: World, b: Inbox)
    requires ServerTable(w)
    ensures Updated(w, b, true).queue == [] || !Updated(w, b, true).flags.open
  {
    DrainedConserves(w, Timed(w, b), true);
    var after := Updated(w, b, true);
    if after.queue != [] {
      assert w.processing(after.queue[0].op) == ServerProcessing(after.queue[0].op);
    }
  }

  /** Join, leave and login packets. */
  predicate Unsafe(p: Packet) {
    p.op == CmsgJoinChannel || p.op == CmsgLeaveChannel || p.op == CmsgLogin
  }

  /** The index of the first packet that the channel thread must leave alone. */
  function FirstUnsafe(queue: seq<Packet>): nat {
    if queue == [] || Unsafe(queue[0]) then 0 else 1 + FirstUnsafe(queue[1..])
  }

  /** A map update stops exactly at the first join, leave or login packet, unless the session closes. */
  lemma {:induction false} MapStopsAtUnsafe(w: World, b: Inbox)
    requires ServerTable(w) && Updated(w, b, false).flags.open
    ensures FirstUnsafe(b.queue) <= |b.queue|
    ensures Updated(w, b, false).queue == b.queue[FirstUnsafe(b.queue)..]
    decreases |b.queue|
  {
    if b.queue != [] {
      var op := b.queue[0].op;
      assert w.processing(op) == ServerProcessing(op);
      if !b.flags.open {
        ClosedStays(w, b, false);
      } else if !Unsafe(b.queue[0]) {
        MapStopsAtUnsafe(w, Take(w, b, false));
        assert b.queue[1..][FirstUnsafe(b.queue[1..])..] == b.queue[FirstUnsafe(b.queue)..];
      }
    }
  }

  /**
   A session in the waiting queue that is not authenticated swallows everything it is
   sent: each packet is consumed, none reaches a handler, and its flags do not change.
   */
  lemma {:induction false} WaitingSessionInert(w: World, b: Inbox, single: bool)
    requires b.flags.inQueue && !b.flags.authenticated
    ensures var after := Drained(w, b, single);
      && after.flags == b.flags
      && b.consumed <= after.consumed
      && (forall i :: |b.consumed| <= i < |after.consumed| ==> !after.consumed[i].handled)
    decreases |b.queue|
  {
    if CanTake(w, b, single) {
      var op := b.queue[0].op;
      assert !Handles(b.flags, op);
      WaitingSessionInert(w, Take(w, b, single), single);
    }
  }
}
