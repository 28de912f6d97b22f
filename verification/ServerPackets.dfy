/**
 From the server to the client, without the assumption that the client is silent.  The
 server may now meet packets it cannot open, or whose counter is behind; it drops them,
 or closes.  Still the client opens everything it receives.
 */
module ServerPackets {
  import opened Wrappers
  import opened Octets
  import opened KeyXor
  import opened Opcodes
  import opened Sessions
  import opened SessionKeys

  /** closes tells what the server does with a packet it cannot open. */
  datatype LooseEvent = Loose(ev: Event, closes: bool)

  function Lose(sys: Sys, closes: bool): Sys
    requires sys.c2s != []
  {
    sys.(c2s := sys.c2s[1..], srv := sys.srv.(b := sys.srv.b.(closed := sys.srv.b.closed || closes)))
  }

  /** Fault is left to the client. */
  function LooseStep(sys: Sys, e: LooseEvent): Outcome {
    if e.ev.ServerReceive? && Step(sys, e.ev).Fault? && sys.c2s != [] then Running(Lose(sys, e.closes)) else Step(sys, e.ev)
  }

  function LooseRun(sys: Sys, evs: seq<LooseEvent>): Outcome
    decreases |evs|
  {
    if evs == [] then Running(sys) else
    match LooseStep(sys, evs[0])
    case Fault => Fault
    case Running(next) => LooseRun(next, evs[1..])
  }

  /** As in SessionKeys, but an authenticated client may send at any time. */
  predicate LooselyAllowed(sys: Sys, ev: Event) {
    match ev
    case ClientChat(p) => sys.cli.b.status == Authenticated && ClientChatOp(p.op) && Room(sys.cli.b)
    case _ => Allowed(sys, ev)
  }

  predicate AllLooselyAllowed(sys: Sys, evs: seq<LooseEvent>)
    decreases |evs|
  {
    evs == [] ||
    (LooselyAllowed(sys, evs[0].ev) &&
     (LooseStep(sys, evs[0]).Running? ==> AllLooselyAllowed(LooseStep(sys, evs[0]).sys, evs[1..])))
  }

  // ---------- the invariant ----------

  /** An answer on its way completes the key that the client keeps for later. */
  ghost predicate Fits(sys: Sys, awaits: bool, p: Packet) {
    || ClientChatOp(p.op)
    || (p.op == CmsgRefreshKey && awaits && |p.payload| == KEY_SIZE == |sys.srv.b.keyTmp|
        && CyclicXor(sys.srv.b.keyTmp, p.payload) == sys.cli.b.keyTmp)
  }

  /** Everything the server may still handle is chat, but for at most one answer. */
  ghost predicate AnswersFit(sys: Sys, awaits: bool, ps: seq<Packet>) {
    && (forall i :: 0 <= i < |ps| ==> Fits(sys, awaits, ps[i]))
    && (forall i, j :: 0 <= i < j < |ps| ==> ClientChatOp(ps[i].op) || ClientChatOp(ps[j].op))
  }

  /** rx is what the client will be once the wire is empty. */
  ghost predicate ServerInStep(sys: Sys, rx: Rx) {
    && sys.srv.b.enc == EncAes256 && sys.srv.b.nextEnc == EncUnspec && sys.srv.b.changeKeys != 1
    && sys.srv.b.idSend < COUNTER_RANGE && AllServerChat(sys.srv.sendQ)
    && rx.key == sys.srv.b.key && rx.last <= sys.srv.b.idSend
    && sys.outstanding == (rx.tmp.Some? || rx.asked.Some?)
    && (sys.outstanding ==> sys.srv.b.changeKeys == 0)
    && (rx.asked.Some? ==> rx.asked.value == sys.srv.b.keyTmp && |sys.srv.b.keyTmp| == KEY_SIZE)
    && AnswersFit(sys, rx.tmp.Some?, Pending(sys))
  }

  ghost predicate InStep(sys: Sys) {
    && sys.srv.b.status == Authenticated && sys.cli.b.status == Authenticated
    && sys.cli.b.enc == EncAes256 && !sys.cli.b.closed
    && FeedAll(ClientRx(sys), sys.s2c).Some?
    && (!sys.srv.b.closed ==> ServerInStep(sys, FeedAll(ClientRx(sys), sys.s2c).value))
  }

  ghost function Ahead(sys: Sys): Rx
    requires FeedAll(ClientRx(sys), sys.s2c).Some?
  {
    FeedAll(ClientRx(sys), sys.s2c).value
  }

  lemma {:induction false} SteadyIsOpen(sys: Sys)
    requires Steady(sys)
    ensures InStep(sys)
  {
    if Ahead(sys).tmp.Some? {
      PendingFits(sys, Pending(sys));
    } else {
      AllChat(sys, Pending(sys));
    }
  }

  lemma {:induction false} PendingFits(sys: Sys, ps: seq<Packet>)
    requires ps == Pending(sys) && AnswerPending(sys)
    ensures AnswersFit(sys, true, ps)
  {
    assert forall i :: 0 <= i < |ps| - 1 ==> ps[..|ps| - 1][i] == ps[i];
  }

  // ---------- the server's steps ----------

  lemma {:induction false} FitWithout(sys: Sys, a: seq<Packet>, x: Packet, b: seq<Packet>, awaits: bool)
    requires AnswersFit(sys, awaits, a + [x] + b)
    ensures AnswersFit(sys, awaits, a + b)
  {
    var all, less := a + [x] + b, a + b;
    assert forall i :: 0 <= i < |less| ==> less[i] == all[if i < |a| then i else i + 1];
  }

  lemma {:induction false} OpenReceives(sys: Sys, closes: bool)
    requires InStep(sys)
    ensures var out := LooseStep(sys, Loose(ServerReceive, closes)); out.Running? && InStep(out.sys)
  {
    if sys.c2s != [] && !sys.srv.b.closed {
      var p := Packet(sys.c2s[0].frame.op, sys.c2s[0].frame.payload);
      assert Plain(sys.c2s) == [p] + Plain(sys.c2s[1..]);
      assert Pending(sys) == sys.srv.recvQ + [p] + Plain(sys.c2s[1..]);
      if Step(sys, ServerReceive).Fault? {
        OpenLoses(sys, Lose(sys, closes), p);
      } else {
        OpenTakes(sys, StepServerReceive(sys).sys, p);
      }
    }
  }

  lemma {:induction false} OpenLoses(sys: Sys, next: Sys, p: Packet)
    requires InStep(sys) && sys.c2s != [] && !sys.srv.b.closed
    requires Pending(sys) == sys.srv.recvQ + [p] + Plain(sys.c2s[1..])
    requires next == sys.(c2s := sys.c2s[1..], srv := sys.srv.(b := sys.srv.b.(closed := next.srv.b.closed)))
    ensures InStep(next)
  {
    assert ClientRx(next) == ClientRx(sys);
    FitWithout(sys, sys.srv.recvQ, p, Plain(sys.c2s[1..]), Ahead(sys).tmp.Some?);
    FitSame(sys, next, Ahead(sys).tmp.Some?, Pending(next));
  }

  /** Fitting depends on the two kept keys only. */
  lemma {:induction false} FitSame(sys: Sys, next: Sys, awaits: bool, ps: seq<Packet>)
    requires AnswersFit(sys, awaits, ps)
    requires next.srv.b.keyTmp == sys.srv.b.keyTmp && next.cli.b.keyTmp == sys.cli.b.keyTmp
    ensures AnswersFit(next, awaits, ps)
  {
    assert forall i :: 0 <= i < |ps| && Fits(sys, awaits, ps[i]) ==> Fits(next, awaits, ps[i]);
  }

  lemma {:induction false} OpenTakes(sys: Sys, next: Sys, p: Packet)
    requires InStep(sys) && sys.c2s != [] && !sys.srv.b.closed
    requires Pending(sys) == sys.srv.recvQ + [p] + Plain(sys.c2s[1..])
    requires p == Packet(sys.c2s[0].frame.op, sys.c2s[0].frame.payload)
    requires StepServerReceive(sys) == Running(next)
    ensures InStep(next)
  {
    TakenShape(sys, next, p);
    assert ClientRx(next) == ClientRx(sys);
    assert Pending(next) == Pending(sys);
    FitSame(sys, next, Ahead(sys).tmp.Some?, Pending(next));
  }

  lemma {:induction false} TakenShape(sys: Sys, next: Sys, p: Packet)
    requires sys.c2s != [] && !sys.srv.b.closed && StepServerReceive(sys) == Running(next)
    requires p == Packet(sys.c2s[0].frame.op, sys.c2s[0].frame.payload)
    ensures next == sys.(srv := sys.srv.(b := sys.srv.b.(idRecv := next.srv.b.idRecv), recvQ := sys.srv.recvQ + [p]),
      c2s := sys.c2s[1..])
  {
  }

  /** Only chat was handled: the queues moved. */
  lemma {:induction false} OpenChatHandled(sys: Sys, next: Sys)
    requires InStep(sys) && !sys.srv.b.closed && sys.srv.recvQ != []
    requires next == sys.(srv := sys.srv.(recvQ := sys.srv.recvQ[1..], sendQ := next.srv.sendQ))
    requires AllServerChat(next.srv.sendQ)
    ensures InStep(next)
  {
    assert ClientRx(next) == ClientRx(sys);
    assert Pending(next) == Pending(sys)[1..];
  }

  lemma {:induction false} OpenHandles(sys: Sys, inp: Inputs)
    requires InStep(sys) && Allowed(sys, ServerHandle(inp))
    ensures InStep(StepServerHandle(sys, inp))
  {
    if sys.srv.recvQ != [] && !sys.srv.b.closed {
      var p := sys.srv.recvQ[0];
      assert Pending(sys)[0] == p;
      if ClientChatOp(p.op) {
        ChatHandled(sys.srv.(recvQ := sys.srv.recvQ[1..]), p, inp);
        assert sys.s2c + [] == sys.s2c;
        OpenChatHandled(sys, StepServerHandle(sys, inp));
      } else {
        assert Fits(sys, Ahead(sys).tmp.Some?, p);
        AnswerCompletes(sys, inp, p.payload);
        OpenSwitches(sys, StepServerHandle(sys, inp), p.payload);
      }
    }
  }

  lemma {:induction false} AnswerCompletes(sys: Sys, inp: Inputs, half: Bytes)
    requires sys.srv.b.enc == EncAes256 && !sys.srv.b.closed && sys.srv.b.changeKeys == 0
    requires |half| == KEY_SIZE == |sys.srv.b.keyTmp|
    requires sys.srv.recvQ != [] && sys.srv.recvQ[0] == Packet(CmsgRefreshKey, half)
    ensures StepServerHandle(sys, inp) == Switched(sys, half)
  {
  }

  /** The server after it has handled the client's half. */
  function Switched(sys: Sys, half: Bytes): Sys
    requires |half| == KEY_SIZE == |sys.srv.b.keyTmp| && sys.srv.recvQ != []
  {
    var s, key := sys.srv, CyclicXor(sys.srv.b.keyTmp, half);
    sys.(
      srv := s.(recvQ := s.recvQ[1..], b := s.b.(keyTmp := key, key := key, changeKeys := 2, idSend := 0, idRecv := 0)),
      s2c := sys.s2c + [AesBox(s.b.key, Frame(SmsgRefreshKey, Some(s.b.idSend), []))],
      outstanding := false)
  }

  lemma {:induction false} OpenSwitches(sys: Sys, next: Sys, half: Bytes)
    requires InStep(sys) && !sys.srv.b.closed && sys.srv.recvQ != []
    requires sys.srv.recvQ[0] == Packet(CmsgRefreshKey, half) && Fits(sys, Ahead(sys).tmp.Some?, sys.srv.recvQ[0])
    requires next == Switched(sys, half)
    ensures InStep(next)
  {
    SwitchFed(sys, next, half);
    assert Pending(next) == Pending(sys)[1..];
    RestIsChat(sys, Ahead(sys).tmp.Some?, Pending(sys));
    AllChat(next, Pending(next));
  }

  /** The client will have switched to the server's new key when it has read the empty packet. */
  lemma {:induction false} SwitchFed(sys: Sys, next: Sys, half: Bytes)
    requires InStep(sys) && !sys.srv.b.closed && sys.srv.recvQ != [] && Ahead(sys).tmp.Some?
    requires |half| == KEY_SIZE == |sys.srv.b.keyTmp| && next == Switched(sys, half)
    ensures FeedAll(ClientRx(next), next.s2c) == Some(Rx(sys.cli.b.keyTmp, 0, None, None))
  {
    FeedSnoc(ClientRx(sys), sys.s2c, AesBox(sys.srv.b.key, Frame(SmsgRefreshKey, Some(sys.srv.b.idSend), [])));
    FeedSilent(ClientRx(sys), sys.s2c);
    assert ClientRx(next) == ClientRx(sys);
  }

  lemma {:induction false} RestIsChat(sys: Sys, awaits: bool, ps: seq<Packet>)
    requires AnswersFit(sys, awaits, ps) && ps != [] && !ClientChatOp(ps[0].op)
    ensures AllClientChat(ps[1..])
  {
  }

  /** Without an answer awaited, everything on its way is chat. */
  lemma {:induction false} AllChat(sys: Sys, ps: seq<Packet>)
    ensures AnswersFit(sys, false, ps) <==> AllClientChat(ps)
  {
  }

  lemma {:induction false} OpenFlushes(sys: Sys)
    requires InStep(sys) && Room(sys.srv.b) && sys.srv.sendQ != [] && !sys.srv.b.closed
    ensures Step(sys, Flush).Running? && InStep(Step(sys, Flush).sys)
  {
    Flushes(sys);
    var p, rx := sys.srv.sendQ[0], Ahead(sys);
    var next := Step(sys, Flush).sys;
    assert ServerChatOp(p.op);
    FeedSnoc(ClientRx(sys), sys.s2c, AesBox(sys.srv.b.key, Frame(p.op, Some(sys.srv.b.idSend), p.payload)));
    assert ClientRx(next) == ClientRx(sys);
    assert FeedAll(ClientRx(next), next.s2c) == Some(rx.(last := sys.srv.b.idSend));
    assert Pending(next) == Pending(sys);
    FitSame(sys, next, rx.tmp.Some?, Pending(next));
  }

  lemma {:induction false} OpenOffers(sys: Sys, half: Bytes)
    requires InStep(sys) && Allowed(sys, StartRefresh(half)) && !sys.srv.b.closed
    ensures Step(sys, StartRefresh(half)).Running? && InStep(Step(sys, StartRefresh(half)).sys)
  {
    Offer(sys, half);
    var rx := Ahead(sys);
    var next := Step(sys, StartRefresh(half)).sys;
    FeedSnoc(ClientRx(sys), sys.s2c, OfferBox(sys, half));
    assert ClientRx(next) == ClientRx(sys);
    assert FeedAll(ClientRx(next), next.s2c) == Some(rx.(last := sys.srv.b.idSend, asked := Some(half)));
    assert Pending(next) == Pending(sys);
    AllChat(sys, Pending(sys));
    AllChat(next, Pending(next));
  }

  /** A closed server sends nothing and handles nothing. */
  lemma {:induction false} ClosedServer(sys: Sys, ev: Event)
    requires InStep(sys) && sys.srv.b.closed && !ev.ClientReceive? && !ev.ClientChat?
    ensures Step(sys, ev).Running?
    ensures var next := Step(sys, ev).sys;
      && next.cli == sys.cli && next.s2c == sys.s2c && next.silent == sys.silent
      && next.srv.b.closed && next.srv.b.status == Authenticated
  {
    assert sys.s2c + [] == sys.s2c;
  }

  lemma {:induction false} OpenServerStep(sys: Sys, e: LooseEvent)
    requires InStep(sys) && Allowed(sys, e.ev) && !e.ev.ClientReceive? && !e.ev.ClientChat?
    ensures LooseStep(sys, e).Running? && InStep(LooseStep(sys, e).sys)
  {
    if sys.srv.b.closed {
      ClosedServer(sys, e.ev);
      assert ClientRx(Step(sys, e.ev).sys) == ClientRx(sys);
    } else {
      match e.ev {
        case StartLogin(inp) =>
        case Flush => if sys.srv.sendQ != [] { OpenFlushes(sys); }
        case ServerReceive => OpenReceives(sys, e.closes);
        case ServerHandle(inp) => OpenHandles(sys, inp);
        case ServerChat(p) => OpenQueues(sys, p);
        case StartRefresh(half) => OpenOffers(sys, half);
      }
    }
  }

  lemma {:induction false} OpenQueues(sys: Sys, p: Packet)
    requires InStep(sys) && !sys.srv.b.closed && ServerChatOp(p.op)
    ensures Step(sys, ServerChat(p)).Running? && InStep(Step(sys, ServerChat(p)).sys)
  {
    var next := Step(sys, ServerChat(p)).sys;
    assert ClientRx(next) == ClientRx(sys) && Pending(next) == Pending(sys);
    FitSame(sys, next, Ahead(sys).tmp.Some?, Pending(next));
  }

  // ---------- the client's steps ----------

  lemma {:induction false} HeadOpens(sys: Sys)
    requires InStep(sys) && sys.s2c != []
    ensures ClientCanOpen(sys) && Feed(ClientRx(sys), sys.s2c[0]).Some?
  {
  }

  /** The client's state has moved along the wire; nothing that the server relies on has changed. */
  lemma {:induction false} OpenMoves(sys: Sys, next: Sys)
    requires InStep(sys) && next.srv == sys.srv && next.c2s == sys.c2s && next.outstanding == sys.outstanding
    requires next.cli.b.status == Authenticated && next.cli.b.enc == EncAes256 && !next.cli.b.closed
    requires next.cli.b.keyTmp == sys.cli.b.keyTmp
    requires FeedAll(ClientRx(next), next.s2c) == FeedAll(ClientRx(sys), sys.s2c)
    ensures InStep(next)
  {
    assert Pending(next) == Pending(sys);
    if !sys.srv.b.closed {
      FitSame(sys, next, Ahead(sys).tmp.Some?, Pending(next));
    }
  }

  lemma {:induction false} OpenClientReads(sys: Sys, half: Bytes, nonce: Bytes)
    requires InStep(sys) && sys.s2c != [] && sys.s2c[0].frame.op != SmsgRefreshKey
    ensures Step(sys, ClientReceive(half, nonce)).Running? && InStep(Step(sys, ClientReceive(half, nonce)).sys)
  {
    HeadOpens(sys);
    ClientReads(sys, half, nonce);
    var next := Step(sys, ClientReceive(half, nonce)).sys;
    assert Feed(ClientRx(sys), sys.s2c[0]) == Some(ClientRx(next));
    OpenMoves(sys, next);
  }

  lemma {:induction false} OpenClientSwitches(sys: Sys, half: Bytes, nonce: Bytes)
    requires InStep(sys) && sys.s2c != [] && sys.s2c[0].frame.op == SmsgRefreshKey && sys.s2c[0].frame.payload == []
    ensures Step(sys, ClientReceive(half, nonce)).Running? && InStep(Step(sys, ClientReceive(half, nonce)).sys)
  {
    HeadOpens(sys);
    ClientSwitches(sys, half, nonce);
    var next := Step(sys, ClientReceive(half, nonce)).sys;
    assert Feed(ClientRx(sys), sys.s2c[0]) == Some(ClientRx(next));
    OpenMoves(sys, next);
  }

  lemma {:induction false} OpenClientAnswers(sys: Sys, half: Bytes, nonce: Bytes)
    requires InStep(sys) && sys.s2c != [] && Allowed(sys, ClientReceive(half, nonce))
    requires sys.s2c[0].frame.op == SmsgRefreshKey && sys.s2c[0].frame.payload != []
    ensures Step(sys, ClientReceive(half, nonce)).Running? && InStep(Step(sys, ClientReceive(half, nonce)).sys)
  {
    HeadOpens(sys);
    ClientAnswers(sys, half, nonce);
    OpenAnswered(sys, half, Answering(sys, half));
  }

  lemma {:induction false} OpenAnswered(sys: Sys, half: Bytes, next: Sys)
    requires InStep(sys) && ClientCanOpen(sys) && Feed(ClientRx(sys), sys.s2c[0]).Some?
    requires sys.s2c[0].frame.op == SmsgRefreshKey && |half| == |sys.s2c[0].frame.payload| == KEY_SIZE
    requires next == Answering(sys, half)
    ensures InStep(next)
  {
    var f := sys.s2c[0].frame;
    var rx1 := Feed(ClientRx(sys), sys.s2c[0]).value;
    var tmp := CyclicXor(half, f.payload);
    FeedKeepsKey(rx1, next.s2c);
    FeedAfterAnswer(rx1, next.s2c, tmp);
    assert ClientRx(next) == rx1.(tmp := Some(tmp), asked := None);
    if !sys.srv.b.closed {
      var p := Packet(CmsgRefreshKey, half);
      assert Ahead(sys).tmp.None? && Ahead(sys).asked == Some(f.payload);
      assert sys.srv.b.keyTmp == f.payload;
      XorCommutes(f.payload, half);
      assert Plain(next.c2s) == Plain(sys.c2s) + [p];
      assert Pending(next) == Pending(sys) + [p];
      AllChat(sys, Pending(sys));
      assert Fits(next, true, p);
      assert AnswersFit(next, true, Pending(next));
    }
  }

  lemma {:induction false} OpenClientChats(sys: Sys, p: Packet)
    requires InStep(sys) && LooselyAllowed(sys, ClientChat(p))
    ensures Step(sys, ClientChat(p)).Running? && InStep(Step(sys, ClientChat(p)).sys)
  {
    var next := Step(sys, ClientChat(p)).sys;
    assert ClientRx(next) == ClientRx(sys);
    assert Plain(next.c2s) == Plain(sys.c2s) + [p];
    assert Pending(next) == Pending(sys) + [p];
    if !sys.srv.b.closed {
      FitSame(sys, next, Ahead(sys).tmp.Some?, Pending(sys));
    }
  }

  lemma {:induction false} OpenClientReceives(sys: Sys, half: Bytes, nonce: Bytes)
    requires InStep(sys) && Allowed(sys, ClientReceive(half, nonce))
    ensures Step(sys, ClientReceive(half, nonce)).Running? && InStep(Step(sys, ClientReceive(half, nonce)).sys)
  {
    if sys.s2c != [] {
      var f := sys.s2c[0].frame;
      if f.op != SmsgRefreshKey {
        OpenClientReads(sys, half, nonce);
      } else if f.payload == [] {
        OpenClientSwitches(sys, half, nonce);
      } else {
        OpenClientAnswers(sys, half, nonce);
      }
    }
  }

  // ---------- every run ----------

  ghost predicate LooseInv(sys: Sys) {
    ValidUser(sys.cli.user) && (LoggingIn(sys) || InStep(sys))
  }

  lemma {:induction false} LooseStepKeeps(sys: Sys, e: LooseEvent)
    requires LooseInv(sys) && LooselyAllowed(sys, e.ev)
    ensures LooseStep(sys, e).Running? && LooseInv(LooseStep(sys, e).sys)
  {
    UserStays(sys, e.ev);
    if InStep(sys) {
      if e.ev.ClientReceive? {
        OpenClientReceives(sys, e.ev.half, e.ev.nonce);
      } else if e.ev.ClientChat? {
        OpenClientChats(sys, e.ev.p);
      } else {
        OpenServerStep(sys, e);
      }
    } else {
      assert Inv(sys) && !sys.silent;
      InvStep(sys, e.ev);
      if Steady(Step(sys, e.ev).sys) {
        SteadyIsOpen(Step(sys, e.ev).sys);
      }
    }
  }

  lemma {:induction false} LooseRunKeeps(sys: Sys, evs: seq<LooseEvent>)
    requires LooseInv(sys) && AllLooselyAllowed(sys, evs)
    ensures LooseRun(sys, evs).Running?
    decreases |evs|
  {
    if evs != [] {
      LooseStepKeeps(sys, evs[0]);
      LooseRunKeeps(LooseStep(sys, evs[0]).sys, evs[1..]);
    }
  }

  /**
   Every packet from the server is opened by the client with the key and mode it was
   sealed with and passes the counter test, whenever the client chooses to send.
   */
  lemma {:induction false} EveryServerPacketOpens(user: Bytes, evs: seq<LooseEvent>)
    requires ValidUser(user) && AllLooselyAllowed(Initial(user), evs)
    ensures LooseRun(Initial(user), evs).Running?
  {
    assert Connecting(Initial(user));
    LooseRunKeeps(Initial(user), evs);
  }
}
