/**
 The assumptions on the environment, each with its exact condition: from a reachable
 session, sending during a refresh, or starting another one, is harmless in every
 continuation if and only if no refresh stands in its way; starting a login is so if and
 only if nothing was queued before it.
 */
module SessionKeyGuards {
  import opened Wrappers
  import opened Octets
  import opened KeyXor
  import opened Opcodes
  import opened Sessions
  import opened SessionKeys
  import opened SessionKeyTheorems

  /** However the session goes on within the assumptions, every packet is opened. */
  ghost predicate Safe(sys: Sys) {
    forall evs: seq<Event> :: AllAllowed(sys, evs) ==> Run(sys, evs).Running?
  }

  lemma {:induction false} InvIsSafe(sys: Sys)
    requires Inv(sys)
    ensures Safe(sys)
  {
    forall evs: seq<Event> | AllAllowed(sys, evs)
      ensures Run(sys, evs).Running?
    {
      InvRun(sys, evs);
    }
  }

  lemma {:induction false} UnsafeNow(sys: Sys, ev: Event)
    requires Allowed(sys, ev) && Step(sys, ev).Fault?
    ensures !Safe(sys)
  {
    assert AllAllowed(sys, [ev]) && Run(sys, [ev]).Fault?;
  }

  lemma {:induction false} UnsafeNext(sys: Sys, ev: Event, next: Sys)
    requires Allowed(sys, ev) && Step(sys, ev) == Running(next) && !Safe(next)
    ensures !Safe(sys)
  {
    var evs: seq<Event> :| AllAllowed(next, evs) && !Run(next, evs).Running?;
    assert ([ev] + evs)[1..] == evs;
    assert AllAllowed(sys, [ev] + evs) && !Run(sys, [ev] + evs).Running?;
  }

  // ---------- a packet sent during the pause ----------

  /** One more packet of the client's at the end of its wire. */
  function Sent(sys: Sys, p: Packet): Sys {
    sys.(cli := sys.cli.(b := sys.cli.b.(idSend := sys.cli.b.idSend + 1)),
         c2s := sys.c2s + [AesBox(sys.cli.b.key, Frame(p.op, Some(sys.cli.b.idSend), p.payload))])
  }

  lemma {:induction false} HandleRides(sys: Sys, p: Packet, inp: Inputs)
    ensures StepServerHandle(Sent(sys, p), inp) == Sent(StepServerHandle(sys, inp), p)
  {
  }

  /** The server gets to the answer that is ahead of p, switches, and then meets p. */
  lemma {:induction false} PauseUnsafe(sys: Sys, p: Packet)
    requires Steady(sys) && sys.silent && ClientChatOp(p.op)
    requires Room(sys.srv.b) && Room(Sent(sys, p).cli.b)
    ensures !Safe(Sent(sys, p))
    decreases 2 * |sys.c2s| + |sys.srv.recvQ|
  {
    if Switching(sys) {
      SwitchUnsafe(sys, p);
    } else if sys.c2s != [] {
      PauseReceives(sys, p);
      var next := StepServerReceive(sys).sys;
      PauseUnsafe(next, p);
      UnsafeNext(Sent(sys, p), ServerReceive, Sent(next, p));
    } else {
      PauseHandles(sys, p);
      var next := StepServerHandle(sys, NoReply);
      PauseUnsafe(next, p);
      UnsafeNext(Sent(sys, p), ServerHandle(NoReply), Sent(next, p));
    }
  }

  lemma {:induction false} PauseReceives(sys: Sys, p: Packet)
    requires Steady(sys) && sys.silent && !Switching(sys) && sys.c2s != [] && Room(sys.srv.b)
    ensures var out := StepServerReceive(sys);
      && out.Running? && StepServerReceive(Sent(sys, p)) == Running(Sent(out.sys, p))
      && Steady(out.sys) && out.sys.silent && Room(out.sys.srv.b) && out.sys.cli == sys.cli
      && 2 * |out.sys.c2s| + |out.sys.srv.recvQ| < 2 * |sys.c2s| + |sys.srv.recvQ|
  {
    SteadyServerReceive(sys);
    ServerWillOpenHead(sys);
  }

  lemma {:induction false} PauseHandles(sys: Sys, p: Packet)
    requires Steady(sys) && sys.silent && !Switching(sys) && sys.c2s == [] && Room(sys.srv.b)
    ensures sys.srv.recvQ != []
    ensures var next := StepServerHandle(sys, NoReply);
      && Allowed(Sent(sys, p), ServerHandle(NoReply)) && Step(Sent(sys, p), ServerHandle(NoReply)) == Running(Sent(next, p))
      && Steady(next) && next.silent && Room(next.srv.b) && next.cli == sys.cli && next.c2s == []
      && next.srv.recvQ == sys.srv.recvQ[1..]
  {
    assert Pending(sys) == sys.srv.recvQ;
    SteadyHandle(sys, NoReply);
    HandleRides(sys, p, NoReply);
    if ClientChatOp(sys.srv.recvQ[0].op) {
      ChatHandled(sys.srv.(recvQ := sys.srv.recvQ[1..]), sys.srv.recvQ[0], NoReply);
    } else {
      AnswerIsAlone(sys);
      AnswerHandled(sys, NoReply, sys.srv.recvQ[0].payload);
    }
  }

  /**
   The server has switched.  Either p does not open under the new key, or, if that is the
   old key again, p takes the receive counter along and the client starts again from zero.
   */
  lemma {:induction false} SwitchUnsafe(sys: Sys, p: Packet)
    requires Steady(sys) && Switching(sys) && ClientChatOp(p.op) && Room(Sent(sys, p).cli.b)
    ensures !Safe(Sent(sys, p))
  {
    var sent := Sent(sys, p);
    var w := AesBox(sys.cli.b.key, Frame(p.op, Some(sys.cli.b.idSend), p.payload));
    assert sent.c2s == [w];
    if sys.cli.b.key != sys.srv.b.key {
      UnsafeNow(sent, ServerReceive);
    } else {
      var next := sent.(srv := sys.srv.(b := sys.srv.b.(idRecv := sys.cli.b.idSend), recvQ := sys.srv.recvQ + [p]), c2s := []);
      assert [w][1..] == [];
      assert Step(sent, ServerReceive) == Running(next);
      assert ClientRx(next) == ClientRx(sys);
      CounterAhead(next, p);
      UnsafeNext(sent, ServerReceive, next);
    }
  }

  /** Once the client has read the empty packet, its first packet is behind the server's counter. */
  lemma {:induction false} CounterAhead(sys: Sys, p: Packet)
    requires sys.cli.b.status == Authenticated && sys.cli.b.enc == EncAes256 && !sys.cli.b.closed && Room(sys.cli.b)
    requires sys.srv.b.enc == EncAes256 && !sys.srv.b.closed && sys.srv.b.idRecv > 0
    requires sys.silent && sys.c2s == [] && ClientChatOp(p.op)
    requires FeedAll(ClientRx(sys), sys.s2c).Some? && FeedAll(ClientRx(sys), sys.s2c).value.tmp.None?
    ensures !Safe(sys)
    decreases |sys.s2c|
  {
    var ev := ClientReceive(Zeros, Zeros);
    assert sys.s2c != [] && ClientCanOpen(sys);
    if sys.s2c[0].frame.op == SmsgRefreshKey {
      ClientSwitches(sys, Zeros, Zeros);
      var next := Step(sys, ev).sys;
      FirstIsReplay(next, p);
      UnsafeNext(sys, ev, next);
    } else {
      ClientReads(sys, Zeros, Zeros);
      var next := Step(sys, ev).sys;
      assert Feed(ClientRx(sys), sys.s2c[0]) == Some(ClientRx(next));
      CounterAhead(next, p);
      UnsafeNext(sys, ev, next);
    }
  }

  lemma {:induction false} FirstIsReplay(sys: Sys, p: Packet)
    requires sys.cli.b.status == Authenticated && sys.cli.b.enc == EncAes256 && !sys.cli.b.closed
    requires sys.cli.b.idSend == 0 && !sys.silent && sys.c2s == [] && ClientChatOp(p.op)
    requires sys.srv.b.enc == EncAes256 && !sys.srv.b.closed && sys.srv.b.idRecv > 0
    ensures !Safe(sys)
  {
    var last := Sent(sys, p);
    assert last.c2s == [AesBox(sys.cli.b.key, Frame(p.op, Some(0), p.payload))];
    UnsafeNow(last, ServerReceive);
    UnsafeNext(sys, ClientChat(p), last);
  }

  /**
   The client's silence: in every reachable session with room in the counters, a packet
   that the client sends is harmless in every continuation if and only if the client is
   not between its answer and the empty refresh packet.
   */
  lemma {:induction false} SilenceIsNeeded(user: Bytes, evs: seq<Event>, p: Packet)
    requires ValidUser(user) && AllAllowed(Initial(user), evs) && ClientChatOp(p.op)
    requires Run(Initial(user), evs).Running?
    requires var sys := Run(Initial(user), evs).sys;
      sys.cli.b.status == Authenticated && Room(sys.srv.b) && sys.cli.b.idSend + 2 < COUNTER_RANGE
    ensures var sys := Run(Initial(user), evs).sys;
      && Step(sys, ClientChat(p)).Running?
      && (Safe(Step(sys, ClientChat(p)).sys) <==> !sys.silent)
  {
    assert Connecting(Initial(user));
    InvRun(Initial(user), evs);
    SilenceAt(Run(Initial(user), evs).sys, p);
  }

  lemma {:induction false} SilenceAt(sys: Sys, p: Packet)
    requires Inv(sys) && ClientChatOp(p.op)
    requires sys.cli.b.status == Authenticated && Room(sys.srv.b) && sys.cli.b.idSend + 2 < COUNTER_RANGE
    ensures Step(sys, ClientChat(p)).Running? && (Safe(Step(sys, ClientChat(p)).sys) <==> !sys.silent)
  {
    if sys.silent {
      SilentIsSteady(sys);
      ClientSends(sys, p);
      PauseUnsafe(sys, p);
    } else {
      InvStep(sys, ClientChat(p));
      InvIsSafe(Step(sys, ClientChat(p)).sys);
    }
  }

  /** During the login the client is not silent. */
  lemma {:induction false} SilentIsSteady(sys: Sys)
    requires Inv(sys) && sys.silent
    ensures Steady(sys)
  {
  }

  lemma {:induction false} ClientSends(sys: Sys, p: Packet)
    requires sys.cli.b.enc == EncAes256 && !sys.cli.b.closed && Room(sys.cli.b)
    ensures Step(sys, ClientChat(p)) == Running(Sent(sys, p))
  {
  }

  // ---------- a refresh started before the last one is over ----------

  /** A second offer at the end of the server's wire; its half replaces the first. */
  function Overlapped(sys: Sys, half: Bytes): Sys {
    sys.(srv := sys.srv.(b := sys.srv.b.(keyTmp := half, changeKeys := 0, idSend := sys.srv.b.idSend + 1)),
         s2c := sys.s2c + [OfferBox(sys, half)], outstanding := true)
  }

  lemma {:induction false} ClientRides(sys: Sys, half: Bytes, next: Sys)
    requires sys.s2c != [] && !sys.cli.b.closed && sys.outstanding
    requires StepClientReceive(sys, Zeros, Zeros) == Running(next)
    ensures StepClientReceive(Overlapped(sys, half), Zeros, Zeros) == Running(Overlapped(next, half))
  {
    var w := OfferBox(sys, half);
    assert (sys.s2c + [w])[1..] == sys.s2c[1..] + [w];
  }

  lemma {:induction false} ReceiveRidesOffer(sys: Sys, half: Bytes, next: Sys)
    requires sys.c2s != [] && !sys.srv.b.closed && StepServerReceive(sys) == Running(next)
    ensures StepServerReceive(Overlapped(sys, half)) == Running(Overlapped(next, half))
  {
  }

  lemma {:induction false} ChatRides(sys: Sys, half: Bytes)
    requires sys.srv.recvQ != [] && ClientChatOp(sys.srv.recvQ[0].op) && !sys.srv.b.closed && sys.outstanding
    ensures StepServerHandle(Overlapped(sys, half), NoReply) == Overlapped(StepServerHandle(sys, NoReply), half)
  {
  }

  /** Room for the answers still to come, the one to the second offer among them. */
  ghost predicate RoomForTwo(sys: Sys)
    requires FeedAll(ClientRx(sys), sys.s2c).Some?
  {
    && sys.srv.b.idSend + 2 < COUNTER_RANGE
    && sys.cli.b.idSend + (if FeedAll(ClientRx(sys), sys.s2c).value.asked.Some? then 3 else 2) < COUNTER_RANGE
  }

  /** The first exchange goes on under the second offer until its answer is all that is left. */
  lemma {:induction false} OverlapUnsafe(sys: Sys, half: Bytes)
    requires Steady(sys) && sys.outstanding && |half| == KEY_SIZE && RoomForTwo(sys)
    ensures !Safe(Overlapped(sys, half))
    decreases Weight(sys)
  {
    if sys.s2c != [] {
      OverlapRead(sys);
      var next := StepClientReceive(sys, Zeros, Zeros).sys;
      ClientRides(sys, half, next);
      OverlapUnsafe(next, half);
      UnsafeNext(Overlapped(sys, half), ClientReceive(Zeros, Zeros), Overlapped(next, half));
    } else if sys.c2s != [] {
      DeliverToServer(sys);
      ServerWillOpenHead(sys);
      var next := StepServerReceive(sys).sys;
      ReceiveRidesOffer(sys, half, next);
      assert ClientRx(next) == ClientRx(sys);
      OverlapUnsafe(next, half);
      UnsafeNext(Overlapped(sys, half), ServerReceive, Overlapped(next, half));
    } else {
      assert Pending(sys) == sys.srv.recvQ;
      if ClientChatOp(sys.srv.recvQ[0].op) {
        OverlapChat(sys, half);
        OverlapUnsafe(StepServerHandle(sys, NoReply), half);
        UnsafeNext(Overlapped(sys, half), ServerHandle(NoReply), Overlapped(StepServerHandle(sys, NoReply), half));
      } else {
        AnswerIsAlone(sys);
        ReadyUnsafe(sys, half);
      }
    }
  }

  lemma {:induction false} OverlapRead(sys: Sys)
    requires Steady(sys) && sys.outstanding && RoomForTwo(sys) && sys.s2c != []
    ensures var out := StepClientReceive(sys, Zeros, Zeros);
      && out.Running? && Steady(out.sys) && out.sys.outstanding && RoomForTwo(out.sys) && Weight(out.sys) < Weight(sys)
  {
    DeliverToClient(sys, Zeros, Zeros);
    var f := sys.s2c[0].frame;
    var next := StepClientReceive(sys, Zeros, Zeros).sys;
    if f.op == SmsgRefreshKey && f.payload != [] {
      ClientAnswers(sys, Zeros, Zeros);
      var rx1 := Feed(ClientRx(sys), sys.s2c[0]).value;
      FeedKeepsKey(rx1, next.s2c);
      FeedAfterAnswer(rx1, next.s2c, next.cli.b.keyTmp);
      assert ClientRx(next) == rx1.(tmp := Some(next.cli.b.keyTmp), asked := None);
    } else {
      if f.op == SmsgRefreshKey {
        ClientSwitches(sys, Zeros, Zeros);
      } else {
        ClientReads(sys, Zeros, Zeros);
      }
      assert Feed(ClientRx(sys), sys.s2c[0]) == Some(ClientRx(next));
    }
  }

  lemma {:induction false} OverlapChat(sys: Sys, half: Bytes)
    requires Steady(sys) && sys.outstanding && RoomForTwo(sys)
    requires sys.srv.recvQ != [] && ClientChatOp(sys.srv.recvQ[0].op)
    ensures var next := StepServerHandle(sys, NoReply);
      && Steady(next) && next.outstanding && RoomForTwo(next) && Weight(next) < Weight(sys)
      && Step(Overlapped(sys, half), ServerHandle(NoReply)) == Running(Overlapped(next, half))
      && Allowed(Overlapped(sys, half), ServerHandle(NoReply))
  {
    HandleOne(sys, NoReply);
    ChatRides(sys, half);
    ChatHandled(sys.srv.(recvQ := sys.srv.recvQ[1..]), sys.srv.recvQ[0], NoReply);
    assert sys.s2c + [] == sys.s2c;
    assert ClientRx(StepServerHandle(sys, NoReply)) == ClientRx(sys);
  }

  /** A half that differs from c. */
  function Other(c: Bytes): (d: Bytes)
    ensures |d| == KEY_SIZE && d != c
  {
    var ones: Bytes := seq(32, i => 1);
    assert ones[0] == 1 && Zeros[0] == 0;
    if c == Zeros then ones else Zeros
  }

  /**
   The server combines the first answer with its second half; the client combines its
   second answer with it and switches to that, so the server's next packet does not open.
   */
  lemma {:induction false} ReadyUnsafe(sys: Sys, half: Bytes)
    requires Steady(sys) && sys.outstanding && RoomForTwo(sys) && |half| == KEY_SIZE
    requires sys.s2c == [] && sys.c2s == [] && sys.silent && sys.srv.b.changeKeys == 0
    requires |sys.srv.recvQ| == 1 && sys.srv.recvQ[0].op == CmsgRefreshKey && |sys.srv.recvQ[0].payload| == KEY_SIZE
    ensures !Safe(Overlapped(sys, half))
  {
    var c1 := sys.srv.recvQ[0].payload;
    FirstHandled(sys, half, c1);
    SecondUnsafe(HandledFirst(sys, half, c1), half, c1);
    UnsafeNext(Overlapped(sys, half), ServerHandle(NoReply), HandledFirst(sys, half, c1));
  }

  /** The server is on its new key, the second offer and the empty packet are on their way. */
  ghost predicate TwoOnWire(t1: Sys, half: Bytes) {
    && |t1.s2c| == 2 && ClientCanOpen(t1) && t1.cli.b.idSend + 2 < COUNTER_RANGE
    && t1.s2c[0].frame.op == SmsgRefreshKey && t1.s2c[0].frame.payload == half
    && t1.s2c[1].AesBox? && t1.s2c[1].key == t1.s2c[0].key
    && t1.s2c[1].frame.op == SmsgRefreshKey && t1.s2c[1].frame.payload == []
    && t1.s2c[1].frame.seqNo.Some? && t1.s2c[0].frame.seqNo.value <= t1.s2c[1].frame.seqNo.value
    && t1.srv.b.status == Authenticated && t1.srv.b.enc == EncAes256 && t1.srv.b.nextEnc == EncUnspec
    && !t1.srv.b.closed && t1.srv.b.changeKeys != 1 && Room(t1.srv.b)
  }

  lemma {:induction false} SecondUnsafe(t1: Sys, half: Bytes, c1: Bytes)
    requires |half| == |c1| == KEY_SIZE && TwoOnWire(t1, half) && t1.srv.b.key == CyclicXor(half, c1)
    ensures !Safe(t1)
  {
    var c2 := Other(c1);
    var t2 := Answering(t1, c2);
    ClientAnswers(t1, c2, Zeros);
    XorCommutes(c2, half);
    XorInjective2(half, c1, c2);
    SwitchedApart(t2);
    UnsafeNext(t1, ClientReceive(c2, Zeros), t2);
  }

  /** The empty packet takes the client to a key that is not the server's. */
  lemma {:induction false} SwitchedApart(t2: Sys)
    requires ClientCanOpen(t2) && Room(t2.cli.b) && |t2.s2c| == 1
    requires t2.s2c[0].frame.op == SmsgRefreshKey && t2.s2c[0].frame.payload == []
    requires t2.srv.b.status == Authenticated && t2.srv.b.enc == EncAes256 && t2.srv.b.nextEnc == EncUnspec
    requires !t2.srv.b.closed && t2.srv.b.changeKeys != 1 && Room(t2.srv.b)
    requires t2.cli.b.keyTmp != t2.srv.b.key
    ensures !Safe(t2)
  {
    ClientSwitches(t2, Zeros, Zeros);
    var t3 := StepClientReceive(t2, Zeros, Zeros).sys;
    DifferentKeys(t3);
    UnsafeNext(t2, ClientReceive(Zeros, Zeros), t3);
  }

  function HandledFirst(sys: Sys, half: Bytes, c1: Bytes): Sys
    requires |half| == |c1| == KEY_SIZE
  {
    var t0, key := Overlapped(sys, half), CyclicXor(half, c1);
    t0.(srv := t0.srv.(recvQ := [], b := t0.srv.b.(keyTmp := key, key := key, changeKeys := 2, idSend := 0, idRecv := 0)),
        s2c := [OfferBox(sys, half), OfferBox(t0, [])], outstanding := false)
  }

  lemma {:induction false} FirstHandled(sys: Sys, half: Bytes, c1: Bytes)
    requires Steady(sys) && RoomForTwo(sys) && |half| == |c1| == KEY_SIZE
    requires sys.s2c == [] && sys.srv.recvQ == [Packet(CmsgRefreshKey, c1)]
    ensures var t0, t1 := Overlapped(sys, half), HandledFirst(sys, half, c1);
      && Allowed(t0, ServerHandle(NoReply)) && Step(t0, ServerHandle(NoReply)) == Running(t1)
      && TwoOnWire(t1, half) && t1.srv.b.key == CyclicXor(half, c1)
  {
    var t0 := Overlapped(sys, half);
    AnswerHandled(t0, NoReply, c1);
    assert t0.s2c + [OfferBox(t0, [])] == [OfferBox(sys, half), OfferBox(t0, [])];
    assert FeedAll(ClientRx(sys), sys.s2c) == Some(ClientRx(sys));
  }

  lemma {:induction false} XorInjective2(half: Bytes, c1: Bytes, c2: Bytes)
    requires |half| == |c1| == |c2| == KEY_SIZE && c1 != c2
    ensures CyclicXor(half, c1) != CyclicXor(half, c2)
  {
    XorCommutes(half, c1);
    XorCommutes(half, c2);
    XorInjective(c1, c2, half);
  }

  /** With different keys and nothing in flight, the server's next packet is garbled. */
  lemma {:induction false} DifferentKeys(sys: Sys)
    requires sys.srv.b.status == Authenticated && sys.srv.b.enc == EncAes256 && sys.srv.b.nextEnc == EncUnspec
    requires !sys.srv.b.closed && sys.srv.b.changeKeys != 1 && Room(sys.srv.b)
    requires sys.cli.b.enc == EncAes256 && !sys.cli.b.closed && Room(sys.cli.b)
    requires sys.s2c == [] && sys.cli.b.key != sys.srv.b.key
    ensures !Safe(sys)
  {
    var p := Packet(SmsgMessage, []);
    var t1 := Step(sys, ServerChat(p)).sys;
    Flushes(t1);
    var t2 := Step(t1, Flush).sys;
    assert t2.s2c[0].AesBox? && t2.s2c[0].key == sys.srv.b.key;
    UnsafeNow(t2, ClientReceive(Zeros, Zeros));
    UnsafeNext(t1, Flush, t2);
    UnsafeNext(sys, ServerChat(p), t1);
  }

  /**
   The single refresh: in every reachable session with room in the counters, starting a
   refresh is harmless in every continuation if and only if none is outstanding.
   */
  lemma {:induction false} SingleRefreshIff(user: Bytes, evs: seq<Event>, half: Bytes)
    requires ValidUser(user) && AllAllowed(Initial(user), evs) && |half| == KEY_SIZE
    requires Run(Initial(user), evs).Running?
    requires var sys := Run(Initial(user), evs).sys;
      && sys.srv.b.status == Authenticated
      && sys.srv.b.idSend + 2 < COUNTER_RANGE && sys.cli.b.idSend + 3 < COUNTER_RANGE
    ensures var sys := Run(Initial(user), evs).sys;
      && Step(sys, StartRefresh(half)).Running?
      && (Safe(Step(sys, StartRefresh(half)).sys) <==> !sys.outstanding)
  {
    assert Connecting(Initial(user));
    InvRun(Initial(user), evs);
    RefreshAt(Run(Initial(user), evs).sys, half);
  }

  lemma {:induction false} OverlapAt(sys: Sys, half: Bytes)
    requires Steady(sys) && sys.outstanding && |half| == KEY_SIZE
    requires sys.srv.b.idSend + 2 < COUNTER_RANGE && sys.cli.b.idSend + 3 < COUNTER_RANGE
    ensures Step(sys, StartRefresh(half)).Running? && !Safe(Step(sys, StartRefresh(half)).sys)
  {
    SecondOffer(sys, half);
    OverlapUnsafe(sys, half);
  }

  lemma {:induction false} SecondOffer(sys: Sys, half: Bytes)
    requires Steady(sys) && sys.outstanding && Room(sys.srv.b)
    ensures Step(sys, StartRefresh(half)) == Running(Overlapped(sys, half))
  {
    Offer(sys, half);
  }

  /** During the login nothing is outstanding. */
  lemma {:induction false} OutstandingIsSteady(sys: Sys)
    requires Inv(sys) && sys.outstanding
    ensures Steady(sys)
  {
  }

  lemma {:induction false} RefreshAt(sys: Sys, half: Bytes)
    requires Inv(sys) && |half| == KEY_SIZE && sys.srv.b.status == Authenticated
    requires sys.srv.b.idSend + 2 < COUNTER_RANGE && sys.cli.b.idSend + 3 < COUNTER_RANGE
    ensures Step(sys, StartRefresh(half)).Running? && (Safe(Step(sys, StartRefresh(half)).sys) <==> !sys.outstanding)
  {
    if sys.outstanding {
      OutstandingIsSteady(sys);
      OverlapAt(sys, half);
    } else {
      InvStep(sys, StartRefresh(half));
      InvIsSafe(Step(sys, StartRefresh(half)).sys);
    }
  }

  // ---------- a login behind a queue that is not empty ----------

  /** A fresh connection with packets queued by the server before the login starts. */
  function Waiting(user: Bytes, queued: seq<Packet>): Sys {
    Initial(user).(srv := Initial(user).srv.(sendQ := queued))
  }

  /** The server changes mode after the older packet, and the nonce goes out sealed. */
  lemma {:induction false} NonceSealed(user: Bytes, queued: seq<Packet>, inp: Inputs)
    requires queued != [] && AllServerChat(queued) && |inp.random| == NONCE_SIZE
    ensures !Safe(Step(Waiting(user, queued), StartLogin(inp)).sys)
  {
    var s1 := Step(Waiting(user, queued), StartLogin(inp)).sys;
    var s2 := Step(s1, Flush).sys;
    var s3 := Step(s2, Flush).sys;
    TwoFlushed(user, queued, inp);
    SealedUnsafe(s3);
    UnsafeNext(s2, Flush, s3);
    UnsafeNext(s1, Flush, s2);
  }

  lemma {:induction false} SealedUnsafe(sys: Sys)
    requires SealedBehind(sys)
    ensures !Safe(sys)
  {
    OlderRead(sys);
    var next := Step(sys, ClientReceive(Zeros, Zeros)).sys;
    UnsafeNow(next, ClientReceive(Zeros, Zeros));
    UnsafeNext(sys, ClientReceive(Zeros, Zeros), next);
  }

  ghost predicate SealedBehind(sys: Sys) {
    && |sys.s2c| == 2 && sys.s2c[0].Clear? && ServerChatOp(sys.s2c[0].frame.op) && sys.s2c[1].HybBox?
    && sys.cli.b == InitialBase()
  }

  lemma {:induction false} TwoFlushed(user: Bytes, queued: seq<Packet>, inp: Inputs)
    requires queued != [] && AllServerChat(queued)
    ensures var out1 := Step(Waiting(user, queued), StartLogin(inp));
      && out1.Running? && Room(out1.sys.srv.b) && Step(out1.sys, Flush).Running?
      && var s2 := Step(out1.sys, Flush).sys;
      && Room(s2.srv.b) && Step(s2, Flush).Running? && SealedBehind(Step(s2, Flush).sys)
  {
    var q := queued + [Packet(SmsgLogin, inp.random)];
    var s1 := Step(Waiting(user, queued), StartLogin(inp)).sys;
    assert s1.srv.sendQ == q && q[0] == queued[0] && |q| >= 2;
    var s2 := Step(s1, Flush).sys;
    assert s2.s2c == [Clear(Frame(q[0].op, None, q[0].payload))] && s2.srv.b.enc == EncHyb && s2.srv.sendQ == q[1..];
  }

  lemma {:induction false} OlderRead(sys: Sys)
    requires SealedBehind(sys)
    ensures var out := Step(sys, ClientReceive(Zeros, Zeros));
      && out.Running? && Room(out.sys.cli.b) && Step(out.sys, ClientReceive(Zeros, Zeros)).Fault?
  {
    assert sys.s2c[1..][0] == sys.s2c[1];
  }

  /** Starting a login is harmless in every continuation if and only if nothing was queued before it. */
  lemma {:induction false} LoginNeedsEmptyQueue(user: Bytes, queued: seq<Packet>, inp: Inputs)
    requires ValidUser(user) && AllServerChat(queued) && |inp.random| == NONCE_SIZE
    ensures var out := Step(Waiting(user, queued), StartLogin(inp));
      out.Running? && (Safe(out.sys) <==> queued == [])
  {
    if queued == [] {
      assert Waiting(user, queued) == Initial(user) && Connecting(Initial(user));
      InvStep(Initial(user), StartLogin(inp));
      InvIsSafe(Step(Initial(user), StartLogin(inp)).sys);
    } else {
      NonceSealed(user, queued, inp);
    }
  }
}
