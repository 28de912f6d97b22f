/** Session::Update with its loop over the locked receive queue. */
module DrainObjects {
  import opened Wrappers
  import opened LockQueues
  import opened Opcodes
  import opened Drain

  class Session {
    const world: World
    const recvQueue: LockQueue<Packet>
    var flags: Flags
    ghost var consumed: seq<Entry>

    ghost function View(): Inbox
      reads this, recvQueue
    {
      Inbox(flags, recvQueue.storage, consumed)
    }

    constructor (w: World, f: Flags)
      ensures View() == Inbox(f, [], []) && world == w && fresh(recvQueue)
    {
      world, flags, consumed := w, f, [];
      recvQueue := new LockQueue();
    }

    /** The network thread, between any two turns of the loop. */
    method Receive(p: Packet)
      modifies recvQueue
      ensures View() == Step(world, old(View()), Arrive(p))
    {
      recvQueue.Add(p);
    }

    /** The status switch on the packet just taken. */
    method Dispatch(p: Packet) returns (handled: bool)
      modifies this`flags
      ensures handled == Handles(old(flags), p.op) == MayPass(old(flags), p.op)
      ensures flags == if handled then world.effect(old(flags), p) else old(flags)
    {
      handled := false;
      match ServerRequirement(p.op) {
        case Logging =>
          if !flags.inQueue {
            flags := world.effect(flags, p);
            handled := true;
          }
        case Logged =>
          if flags.authenticated {
            flags := world.effect(flags, p);
            handled := true;
          }
        case Never =>
      }
    }

    /**
     Update: false tells the sweep to remove the session.  incoming[i] is what the network
     thread has appended by the time of turn i.
     */
    method Update(single: bool, incoming: seq<seq<Packet>>) returns (alive: bool, ghost evs: seq<Event>, ghost turns: nat)
      modifies this, recvQueue
      ensures View() == Run(world, old(View()), evs) && (alive <==> flags.open)
      ensures turns <= |incoming| && Arrivals(evs) == Flat(incoming[..turns])
      ensures Orderly(evs, single, single && old(flags).open)
      ensures !CanTake(world, View(), single)
      ensures incoming == [] ==> View() == Updated(world, old(View()), single)
    {
      ghost var first := View();
      ghost var timed := single && flags.open;
      evs := RunTimers(single);
      turns := 0;
      var more := true;
      var turn := 0;
      while more
        invariant View() == Run(world, first, evs) && turn <= |incoming| && turns == turn
        invariant Arrivals(evs) == Flat(incoming[..turn])
        invariant Orderly(evs, single, timed)
        invariant !more ==> !CanTake(world, View(), single)
        invariant incoming == [] ==> Drained(world, View(), single) == Updated(world, first, single)
        decreases more, |incoming| - turn, |recvQueue.storage|
      {
        if turn < |incoming| {
          evs := ReceiveAll(incoming[turn], first, evs);
          FlatSnoc(incoming, turn);
          turn, turns := turn + 1, turn + 1;
        }
        ghost var before := View();
        var took := TakeTurn(single);
        OrderlySnoc(evs, Turn(single), single, timed);
        evs := evs + [Turn(single)];
        more := took;
      }
      alive := flags.open;
    }

    /** The login and key timers, only in the session sweep. */
    method RunTimers(single: bool) returns (ghost evs: seq<Event>)
      modifies this`flags
      ensures View() == Run(world, old(View()), evs) && Arrivals(evs) == []
      ensures View() == if single then Timed(world, old(View())) else old(View())
      ensures Orderly(evs, single, single && old(flags).open)
    {
      evs := [];
      if flags.open && single {
        ghost var before := View();
        flags := world.timers(flags);
        evs := [Timers];
        assert [Timers][..0] == [];
        assert Run(world, before, evs) == Step(world, Run(world, before, []), Timers);
      }
    }

    /** One test of the loop condition, with the filter, and its body if it holds. */
    method TakeTurn(single: bool) returns (took: bool)
      modifies this, recvQueue
      ensures took == CanTake(world, old(View()), single)
      ensures View() == Step(world, old(View()), Turn(single))
    {
      ghost var before := View();
      if !flags.open || recvQueue.storage == [] {
        return false;
      }
      var inChannel := flags.inChannel;
      var packet := recvQueue.NextIf((p: Packet) => Accepts(world, single, p.op, inChannel));
      if packet.None? {
        return false;
      }
      ghost var at := flags;
      var handled := Dispatch(packet.value);
      consumed := consumed + [Entry(packet.value, single, at, handled)];
      assert recvQueue.storage == before.queue[1..];
      took := true;
    }

    /** The network thread between two turns. */
    method ReceiveAll(ps: seq<Packet>, ghost first: Inbox, ghost evs: seq<Event>) returns (ghost more: seq<Event>)
      requires View() == Run(world, first, evs)
      modifies recvQueue
      ensures View() == Run(world, first, more) && flags == old(flags)
      ensures Arrivals(more) == Arrivals(evs) + ps
      ensures forall single, timed :: Orderly(evs, single, timed) ==> Orderly(more, single, timed)
    {
      more := evs;
      for i := 0 to |ps|
        invariant View() == Run(world, first, more) && flags == old(flags)
        invariant Arrivals(more) == Arrivals(evs) + ps[..i]
        invariant forall single, timed :: Orderly(evs, single, timed) ==> Orderly(more, single, timed)
      {
        Receive(ps[i]);
        more := more + [Arrive(ps[i])];
        assert ps[..i + 1] == ps[..i] + [ps[i]];
      }
      assert ps[..|ps|] == ps;
    }
  }

  /** The timers run first if they run at all; everything else is an arrival or a turn of this update. */
  ghost predicate Orderly(evs: seq<Event>, single: bool, timed: bool) {
    && (timed <==> evs != [] && evs[0] == Timers)
    && forall i :: 0 <= i < |evs| ==> evs[i].Arrive? || evs[i] == Turn(single) || (timed && i == 0)
  }

  lemma {:induction false} OrderlySnoc(evs: seq<Event>, ev: Event, single: bool, timed: bool)
    requires Orderly(evs, single, timed) && (ev.Arrive? || ev == Turn(single))
    ensures Orderly(evs + [ev], single, timed)
  {
  }

  function Flat(incoming: seq<seq<Packet>>): seq<Packet> {
    if incoming == [] then [] else Flat(incoming[..|incoming| - 1]) + incoming[|incoming| - 1]
  }

  lemma {:induction false} FlatSnoc(incoming: seq<seq<Packet>>, i: nat)
    requires i < |incoming|
    ensures Flat(incoming[..i + 1]) == Flat(incoming[..i]) + incoming[i]
  {
    assert incoming[..i + 1][..i] == incoming[..i];
  }
}
