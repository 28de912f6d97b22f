/**
 A client and a server joined by two first-in-first-out wires, in every
 interleaving of login, chat and key refreshes.
 */
module SessionKeys {
  import opened Common
  import opened Wrappers
  import opened Octets
  import opened KeyXor
  import opened Opcodes
  import opened Sessions

  /**
   outstanding and silent are bookkeeping for the assumptions on the environment:
   a refresh the server has not had an answer to, and the client's pause between
   its answer and the empty SMSG_REFRESH_KEY.
   */
  datatype Sys = Sys(srv: Server, cli: Client, s2c: seq<Wire>, c2s: seq<Wire>, outstanding: bool, silent: bool)

  datatype Event =
    | StartLogin(inp: Inputs)
    | Flush
    | ServerReceive
    | ServerHandle(inp: Inputs)
    | ServerChat(p: Packet)
    | StartRefresh(half: Bytes)
    | ClientReceive(half: Bytes, nonce: Bytes)
    | ClientChat(p: Packet)

  /** Fault: a receiver could not open a packet or its counter test failed. */
  datatype Outcome = Running(sys: Sys) | Fault

  function Initial(user: Bytes): Sys {
    Sys(Server(InitialBase(), [], [], [], []), Client(InitialBase(), user), [], [], false, false)
  }

  function ServerStep(sys: Sys, e: ServerEffect): Sys {
    sys.(srv := e.s, s2c := sys.s2c + e.sent)
  }

  function ClientStep(sys: Sys, e: ClientEffect): Sys {
    sys.(cli := e.c, c2s := sys.c2s + e.sent)
  }

  function Step(sys: Sys, ev: Event): Outcome {
    match ev
    case StartLogin(inp) =>
      if sys.srv.b.status != Connected then Running(sys)
      else Running(ServerStep(sys, ServerLogin(sys.srv, [], inp)))
    case Flush =>
      if sys.srv.sendQ == [] then Running(sys)
      else Running(ServerStep(sys, ServerSend(sys.srv.(sendQ := sys.srv.sendQ[1..]), sys.srv.sendQ[0])))
    case ServerReceive => StepServerReceive(sys)
    case ServerHandle(inp) => Running(StepServerHandle(sys, inp))
    case ServerChat(p) => Running(sys.(srv := ServerQueue(sys.srv, [p])))
    case StartRefresh(half) =>
      var e := ServerGenerateKey(sys.srv, half);
      Running(ServerStep(sys, e).(outstanding := sys.outstanding || e.sent != []))
    case ClientReceive(half, nonce) => StepClientReceive(sys, half, nonce)
    case ClientChat(p) => Running(ClientStep(sys, ClientSend(sys.cli, p)))
  }

  function StepServerReceive(sys: Sys): Outcome {
    if sys.c2s == [] || sys.srv.b.closed then Running(sys) else
    match Open(sys.srv.b, TheServer, sys.c2s[0])
    case Opened(p, b) => Running(sys.(srv := sys.srv.(b := b, recvQ := sys.srv.recvQ + [p]), c2s := sys.c2s[1..]))
    case _ => Fault
  }

  function StepServerHandle(sys: Sys, inp: Inputs): Sys {
    if sys.srv.recvQ == [] || sys.srv.b.closed then sys else
    var p := sys.srv.recvQ[0];
    var e := ServerDispatch(sys.srv.(recvQ := sys.srv.recvQ[1..]), p, inp);
    ServerStep(sys, e).(outstanding := sys.outstanding && !(p.op == CmsgRefreshKey && e.sent != []))
  }

  function StepClientReceive(sys: Sys, half: Bytes, nonce: Bytes): Outcome {
    if sys.s2c == [] || sys.cli.b.closed then Running(sys) else
    match Open(sys.cli.b, TheUser(sys.cli.user), sys.s2c[0])
    case Opened(p, b) =>
      var e := ClientDispatch(sys.cli.(b := b), p, half, nonce);
      Running(ClientStep(sys.(s2c := sys.s2c[1..]), e).(
        silent := if p.op == SmsgRefreshKey then (|p.payload| == KEY_SIZE || (sys.silent && p.payload != [])) else sys.silent))
    case _ => Fault
  }

  function Run(sys: Sys, evs: seq<Event>): Outcome
    decreases |evs|
  {
    if evs == [] then Running(sys) else
    match Step(sys, evs[0])
    case Fault => Fault
    case Running(next) => Run(next, evs[1..])
  }

  // ---------- what the environment must respect ----------

  predicate ServerChatOp(op: Opcode) { op != SmsgLogin && op != SmsgRefreshKey }

  predicate ClientChatOp(op: Opcode) {
    op != CmsgLogin && op != CmsgRefreshKey && op != SmsgLogin && op != SmsgRefreshKey
  }

  predicate AllServerChat(ps: seq<Packet>) { forall i :: 0 <= i < |ps| ==> ServerChatOp(ps[i].op) }

  predicate AllClientChat(ps: seq<Packet>) { forall i :: 0 <= i < |ps| ==> ClientChatOp(ps[i].op) }

  /** Fewer than 2^32 packets have been sent under the current key. */
  predicate Room(b: Base) { b.idSend + 1 < COUNTER_RANGE }

  predicate ValidUser(user: Bytes) { 0 !in user && |user| <= MAX_USER_LEN }

  predicate Allowed(sys: Sys, ev: Event) {
    match ev
    case StartLogin(inp) => |inp.random| == NONCE_SIZE && sys.srv.sendQ == []
    case Flush => Room(sys.srv.b)
    case ServerReceive => true
    case ServerHandle(inp) =>
      |inp.random| == KEY_SIZE && inp.known && !inp.taken && AllServerChat(inp.replies) && Room(sys.srv.b)
    case ServerChat(p) => sys.srv.b.status == Authenticated && ServerChatOp(p.op)
    case StartRefresh(half) => |half| == KEY_SIZE && !sys.outstanding && Room(sys.srv.b)
    case ClientReceive(half, nonce) => |half| == KEY_SIZE && |nonce| == NONCE_SIZE && Room(sys.cli.b)
    case ClientChat(p) =>
      sys.cli.b.status == Authenticated && !sys.silent && ClientChatOp(p.op) && Room(sys.cli.b)
  }

  predicate AllAllowed(sys: Sys, evs: seq<Event>)
    decreases |evs|
  {
    evs == [] ||
    (Allowed(sys, evs[0]) && (Step(sys, evs[0]).Running? ==> AllAllowed(Step(sys, evs[0]).sys, evs[1..])))
  }

  // ---------- running a receiver over the packets in flight ----------

  /**
   A receiver: its key, the last counter it accepted, the key it will switch to at
   an empty SMSG_REFRESH_KEY, and the half it has been offered since.
   */
  datatype Rx = Rx(key: Bytes, last: nat, tmp: Option<Bytes>, asked: Option<Bytes>)

  function Feed(rx: Rx, w: Wire): Option<Rx> {
    match w
    case AesBox(k, f) =>
      if k != rx.key || f.seqNo.None? || f.seqNo.value < rx.last then None
      else if f.op == SmsgLogin then None
      else if f.op == SmsgRefreshKey then
        if f.payload == [] then
          if rx.tmp.Some? then Some(Rx(rx.tmp.value, 0, None, rx.asked)) else None
        else if |f.payload| == KEY_SIZE && rx.tmp.None? && rx.asked.None? then
          Some(rx.(last := f.seqNo.value, asked := Some(f.payload)))
        else None
      else Some(rx.(last := f.seqNo.value))
    case _ => None
  }

  function FeedAll(rx: Rx, q: seq<Wire>): Option<Rx>
    decreases |q|
  {
    if q == [] then Some(rx) else
    match Feed(rx, q[0])
    case None => None
    case Some(next) => FeedAll(next, q[1..])
  }

  lemma {:induction false} FeedSnoc(rx: Rx, q: seq<Wire>, w: Wire)
    requires FeedAll(rx, q).Some?
    ensures FeedAll(rx, q + [w]) == Feed(FeedAll(rx, q).value, w)
    decreases |q|
  {
    if q == [] {
      var next := Feed(rx, w);
      assert ([w])[1..] == [];
    } else {
      assert (q + [w])[1..] == q[1..] + [w];
      FeedSnoc(Feed(rx, q[0]).value, q[1..], w);
    }
  }

  /** With no switch to expect, the key stays and so does an offered half. */
  lemma {:induction false} FeedKeepsKey(rx: Rx, q: seq<Wire>)
    requires rx.tmp.None? && FeedAll(rx, q).Some?
    ensures FeedAll(rx, q).value.key == rx.key && FeedAll(rx, q).value.tmp.None?
    ensures rx.asked.Some? ==> FeedAll(rx, q).value.asked == rx.asked
    decreases |q|
  {
    if q != [] {
      FeedKeepsKey(Feed(rx, q[0]).value, q[1..]);
    }
  }

  /** Answering the offered half leaves the rest of the queue acceptable. */
  lemma {:induction false} FeedAfterAnswer(rx: Rx, q: seq<Wire>, tmp: Bytes)
    requires rx.tmp.None? && rx.asked.Some? && FeedAll(rx, q).Some?
    ensures FeedAll(rx.(tmp := Some(tmp), asked := None), q)
         == Some(FeedAll(rx, q).value.(tmp := Some(tmp), asked := None))
    decreases |q|
  {
    if q != [] {
      FeedAfterAnswer(Feed(rx, q[0]).value, q[1..], tmp);
    }
  }

  // ---------- the invariant ----------

  function Plain(q: seq<Wire>): (ps: seq<Packet>)
    ensures |ps| == |q|
  {
    seq(|q|, i requires 0 <= i < |q| => Packet(q[i].frame.op, q[i].frame.payload))
  }

  /** What the client has sent and the server has not handled. */
  function Pending(sys: Sys): seq<Packet> {
    sys.srv.recvQ + Plain(sys.c2s)
  }

  function ClientRx(sys: Sys): Rx {
    Rx(sys.cli.b.key, sys.cli.b.idRecv, if sys.silent then Some(sys.cli.b.keyTmp) else None, None)
  }

  function ServerRx(sys: Sys): Rx {
    Rx(sys.srv.b.key, sys.srv.b.idRecv, None, None)
  }

  ghost predicate Connecting(sys: Sys) {
    && sys.srv == Server(InitialBase(), [], [], [], [])
    && sys.cli == Client(InitialBase(), sys.cli.user)
    && sys.s2c == [] && sys.c2s == []
  }

  ghost predicate NonceQueued(sys: Sys) {
    && |sys.srv.b.myNonce| == NONCE_SIZE
    && sys.srv == Server(InitialBase().(status := LoginStep1, nextEnc := EncHyb, myNonce := sys.srv.b.myNonce), [], [],
                         [Packet(SmsgLogin, sys.srv.b.myNonce)], [])
    && sys.cli == Client(InitialBase(), sys.cli.user)
    && sys.s2c == [] && sys.c2s == []
  }

  ghost predicate AwaitsRequest(s: Server) {
    && |s.b.myNonce| == NONCE_SIZE
    && s == Server(InitialBase().(status := LoginStep1, enc := EncHyb, myNonce := s.b.myNonce), [], [], [], s.recvQ)
  }

  ghost predicate NonceSent(sys: Sys) {
    && AwaitsRequest(sys.srv) && sys.srv.recvQ == []
    && sys.cli == Client(InitialBase(), sys.cli.user)
    && sys.s2c == [Clear(Frame(SmsgLogin, None, sys.srv.b.myNonce))] && sys.c2s == []
  }

  ghost predicate AwaitsAnswer(c: Client) {
    && c.b.status == LoginStep1 && c.b.enc == EncHyb && !c.b.closed
    && |c.b.key| == KEY_SIZE && |c.b.myNonce| == NONCE_SIZE
    && c.b.idSend == 0
  }

  ghost predicate Requested(sys: Sys) {
    var request := LoginRequest(sys.cli.user, sys.cli.b.key, sys.srv.b.myNonce, sys.cli.b.myNonce);
    && AwaitsRequest(sys.srv) && AwaitsAnswer(sys.cli) && sys.s2c == []
    && ((sys.srv.recvQ == [] && sys.c2s == [HybBox(TheServer, TheUser(sys.cli.user), Frame(CmsgLogin, None, request))])
        || (sys.srv.recvQ == [Packet(CmsgLogin, request)] && sys.c2s == []))
  }

  /** The server has accepted the request and sent its half and the test value. */
  ghost predicate Tests(s: Server, nonce: Bytes) {
    && s.b.status == LoginStep2 && s.b.enc == EncAes256 && s.b.nextEnc == EncUnspec && !s.b.closed
    && |s.b.key| == KEY_SIZE && s.b.changeKeys == 0
    && |nonce| == NONCE_SIZE && s.b.testData == Dec32(FromLittleEndian(nonce[..4]))
    && s.sendQ == [] && s.b.idSend == 1
  }

  function TestBox(s: Server): Wire {
    AesBox(s.b.key, Frame(SmsgLogin, Some(0), LittleEndian(s.b.testData, 4)))
  }

  ghost predicate Accepted(sys: Sys) {
    && Tests(sys.srv, sys.cli.b.myNonce) && AwaitsAnswer(sys.cli) && sys.srv.b.idRecv == 0
    && sys.srv.recvQ == [] && sys.c2s == []
    && exists half: Bytes ::
         && |half| == KEY_SIZE && sys.srv.b.key == CyclicXor(sys.cli.b.key, half)
         && sys.s2c == [AnswerBox(sys.cli, half), TestBox(sys.srv)]
  }

  function AnswerBox(c: Client, half: Bytes): Wire {
    HybBox(TheUser(c.user), TheServer, Frame(SmsgLogin, None, Acceptance(c.b.myNonce, half)))
  }

  ghost predicate Testing(sys: Sys) {
    && Tests(sys.srv, sys.cli.b.myNonce) && sys.srv.b.idRecv == 0
    && sys.srv.recvQ == [] && sys.c2s == [] && sys.s2c == [TestBox(sys.srv)]
    && sys.cli.b.status == LoginStep2 && sys.cli.b.enc == EncAes256 && !sys.cli.b.closed
    && sys.cli.b.key == sys.srv.b.key && sys.cli.b.idRecv == 0 && sys.cli.b.idSend == 0
    && sys.cli.b.testData == FromLittleEndian(sys.cli.b.myNonce[..4])
  }

  /** Everything the client has sent will be opened by the server, which ends in step with it. */
  ghost predicate ServerWillOpen(sys: Sys) {
    var rx := FeedAll(ServerRx(sys), sys.c2s);
    rx.Some? && rx.value.key == sys.cli.b.key && rx.value.last <= sys.cli.b.idSend && rx.value.asked.None?
  }

  /** The client has proved the key; its answer is the first thing the server will handle. */
  ghost predicate Replied(sys: Sys) {
    && Tests(sys.srv, sys.cli.b.myNonce)
    && sys.cli.b.status == Authenticated && sys.cli.b.enc == EncAes256 && !sys.cli.b.closed
    && sys.cli.b.key == sys.srv.b.key && sys.cli.b.idRecv == 0 && sys.cli.b.idSend < COUNTER_RANGE
    && sys.s2c == [] && ServerWillOpen(sys)
    && Pending(sys) != []
    && Pending(sys)[0] == Packet(CmsgLogin, LittleEndian(Dec32(sys.srv.b.testData), 4))
    && AllClientChat(Pending(sys)[1..])
  }

  /** Both ends are authenticated; any number of refreshes may have happened. */
  ghost predicate Steady(sys: Sys) {
    && sys.srv.b.status == Authenticated && sys.cli.b.status == Authenticated
    && sys.srv.b.enc == EncAes256 && sys.cli.b.enc == EncAes256
    && sys.srv.b.nextEnc == EncUnspec && !sys.srv.b.closed && !sys.cli.b.closed
    && sys.srv.b.changeKeys != 1
    && sys.srv.b.idSend < COUNTER_RANGE && sys.cli.b.idSend < COUNTER_RANGE
    && AllServerChat(sys.srv.sendQ) && (sys.silent ==> sys.cli.b.idSend > 0)
    && FeedAll(ClientRx(sys), sys.s2c).Some?
    && var rx := FeedAll(ClientRx(sys), sys.s2c).value;
    && rx.key == sys.srv.b.key && rx.last <= sys.srv.b.idSend
    && sys.outstanding == (rx.tmp.Some? || rx.asked.Some?)
    && (sys.outstanding ==> sys.srv.b.changeKeys == 0)
    && (rx.asked.Some? ==> rx.asked.value == sys.srv.b.keyTmp && |sys.srv.b.keyTmp| == KEY_SIZE)
    && (if Switching(sys) then sys.c2s == [] && sys.srv.b.idRecv == 0 else ServerWillOpen(sys))
    && (if rx.tmp.Some? then AnswerPending(sys) else AllClientChat(Pending(sys)))
  }

  /** The server has switched and the packet that tells the client is still in flight. */
  ghost predicate Switching(sys: Sys)
    requires FeedAll(ClientRx(sys), sys.s2c).Some?
  {
    sys.silent && FeedAll(ClientRx(sys), sys.s2c).value.tmp.None?
  }

  /** The client's half is the last thing the server has to handle and completes the client's next key. */
  ghost predicate AnswerPending(sys: Sys) {
    var ps := Pending(sys);
    && ps != [] && AllClientChat(ps[..|ps| - 1])
    && ps[|ps| - 1].op == CmsgRefreshKey
    && |ps[|ps| - 1].payload| == KEY_SIZE == |sys.srv.b.keyTmp|
    && CyclicXor(sys.srv.b.keyTmp, ps[|ps| - 1].payload) == sys.cli.b.keyTmp
  }

  ghost predicate LoggingIn(sys: Sys) {
    && !sys.outstanding && !sys.silent
    && (Connecting(sys) || NonceQueued(sys) || NonceSent(sys) || Requested(sys)
        || Accepted(sys) || Testing(sys) || Replied(sys))
  }

  ghost predicate Inv(sys: Sys) {
    ValidUser(sys.cli.user) && (LoggingIn(sys) || Steady(sys))
  }

  // ---------- every allowed step opens what it receives and keeps the invariant ----------

  lemma {:induction false} ConnectingStep(sys: Sys, ev: Event)
    requires Inv(sys) && LoggingIn(sys) && Connecting(sys) && Allowed(sys, ev)
    ensures Step(sys, ev).Running? && Inv(Step(sys, ev).sys)
  {
  }

  lemma {:induction false} NonceQueuedStep(sys: Sys, ev: Event)
    requires Inv(sys) && LoggingIn(sys) && NonceQueued(sys) && Allowed(sys, ev)
    ensures Step(sys, ev).Running? && Inv(Step(sys, ev).sys)
  {
  }

  lemma {:induction false} NonceSentStep(sys: Sys, ev: Event)
    requires Inv(sys) && LoggingIn(sys) && NonceSent(sys) && Allowed(sys, ev)
    ensures Step(sys, ev).Running? && Inv(Step(sys, ev).sys)
  {
    if ev.ClientReceive? {
      var next := Step(sys, ev).sys;
      var ns := sys.srv.b.myNonce;
      assert ns[..32] == ns;
      assert next.s2c == [];
      assert next.c2s == [HybBox(TheServer, TheUser(sys.cli.user),
                          Frame(CmsgLogin, None, LoginRequest(sys.cli.user, ev.half, ns, ev.nonce)))];
      assert Requested(next);
    }
  }

  lemma {:induction false} RequestFields(user: Bytes, half: Bytes, echoed: Bytes, nonce: Bytes)
    requires 0 !in user && |half| == |echoed| == |nonce| == 32
    ensures var r := LoginRequest(user, half, echoed, nonce);
      && Text(r) == user && |AfterText(r)| == 96
      && AfterText(r)[..32] == half && AfterText(r)[32..64] == echoed && AfterText(r)[64..96] == nonce
  {
    TextRoundTrip(user, half + echoed + nonce);
  }

  lemma {:induction false} AnswerFields(nonce: Bytes, half: Bytes)
    requires |nonce| == |half| == 32
    ensures var r := Acceptance(nonce, half);
      Text(r) == ACC && |AfterText(r)| == 64 && AfterText(r)[..32] == nonce && AfterText(r)[32..64] == half
  {
    TextRoundTrip(ACC, nonce + half);
    assert Acceptance(nonce, half) == ACC + [0] + (nonce + half);
  }

  lemma {:induction false} AcceptedAtOnce(s: Server, user: Bytes, half: Bytes, nonce: Bytes, random: Bytes)
    requires s.b.enc == EncHyb && s.b.nextEnc == EncUnspec && !s.b.closed && s.b.changeKeys == 0 && s.sendQ == []
    requires |half| == |nonce| == |random| == 32
    ensures var e := ServerAccepts(s, user, half, nonce, random);
      && Tests(e.s, nonce) && e.s.b.idRecv == 0 && e.s.recvQ == s.recvQ && e.s.b.key == CyclicXor(random, half)
      && e.s.tempUser == s.tempUser && e.s.peer == user
      && e.sent == [HybBox(TheUser(user), TheServer, Frame(SmsgLogin, None, Acceptance(nonce, random))), TestBox(e.s)]
  {
  }

  /** The server's side of the agreement: the request is accepted and the halves are combined. */
  lemma {:induction false} RequestAccepted(s: Server, user: Bytes, half: Bytes, nonce: Bytes, inp: Inputs)
    requires AwaitsRequest(s) && ValidUser(user) && |half| == |nonce| == |inp.random| == 32 && inp.known
    ensures var e := ServerLogin(s, LoginRequest(user, half, s.b.myNonce, nonce), inp);
      && Tests(e.s, nonce) && e.s.b.idRecv == 0 && e.s.recvQ == s.recvQ && e.s.b.key == CyclicXor(inp.random, half)
      && e.s.tempUser == user && e.s.peer == user
      && e.sent == [HybBox(TheUser(user), TheServer, Frame(SmsgLogin, None, Acceptance(nonce, inp.random))), TestBox(e.s)]
  {
    RequestFields(user, half, s.b.myNonce, nonce);
    AcceptedAtOnce(s.(b := s.b.(otherNonce := nonce), tempUser := user), user, half, nonce, inp.random);
  }

  lemma {:induction false} RequestHandled(sys: Sys, inp: Inputs)
    requires Inv(sys) && LoggingIn(sys) && Requested(sys) && sys.srv.recvQ != []
    requires Allowed(sys, ServerHandle(inp))
    ensures Inv(StepServerHandle(sys, inp))
  {
    var c := sys.cli;
    var s := sys.srv.(recvQ := []);
    var next := StepServerHandle(sys, inp);
    RequestAccepted(s, c.user, c.b.key, c.b.myNonce, inp);
    XorCommutes(inp.random, c.b.key);
    assert sys.srv.recvQ[1..] == [];
    var e := ServerDispatch(s, sys.srv.recvQ[0], inp);
    assert e == ServerLogin(s, LoginRequest(c.user, c.b.key, s.b.myNonce, c.b.myNonce), inp);
    assert next.s2c == e.sent == [AnswerBox(c, inp.random), TestBox(next.srv)];
    assert next.srv == e.s && next.cli == c;
    assert Accepted(next);
  }

  lemma {:induction false} RequestRead(sys: Sys, request: Bytes)
    requires sys.srv.b.enc == EncHyb && !sys.srv.b.closed && sys.srv.recvQ == []
    requires sys.c2s == [HybBox(TheServer, TheUser(Text(request)), Frame(CmsgLogin, None, request))]
    ensures StepServerReceive(sys) == Running(sys.(srv := sys.srv.(recvQ := [Packet(CmsgLogin, request)]), c2s := []))
  {
    assert sys.c2s[1..] == [];
  }

  lemma {:induction false} RequestReceived(sys: Sys)
    requires Inv(sys) && LoggingIn(sys) && Requested(sys)
    ensures Step(sys, ServerReceive).Running? && Inv(Step(sys, ServerReceive).sys)
  {
    if sys.c2s != [] {
      var cb := sys.cli.b;
      RequestFields(sys.cli.user, cb.key, sys.srv.b.myNonce, cb.myNonce);
      RequestRead(sys, LoginRequest(sys.cli.user, cb.key, sys.srv.b.myNonce, cb.myNonce));
      assert Requested(Step(sys, ServerReceive).sys);
    }
  }

  lemma {:induction false} RequestedStep(sys: Sys, ev: Event)
    requires Inv(sys) && LoggingIn(sys) && Requested(sys) && Allowed(sys, ev)
    ensures Step(sys, ev).Running? && Inv(Step(sys, ev).sys)
  {
    if ev.ServerReceive? {
      RequestReceived(sys);
    } else if ev.ServerHandle? && sys.srv.recvQ != [] {
      RequestHandled(sys, ev.inp);
    } else {
      assert Step(sys, ev) == Running(sys);
    }
  }

  /** While the client owes nothing and neither end is authenticated, only a packet to the client moves anything. */
  lemma {:induction false} OnlyClientMoves(sys: Sys, ev: Event)
    requires sys.srv.b.status == LoginStep2 && sys.cli.b.status != Authenticated
    requires sys.srv.sendQ == [] && sys.srv.recvQ == [] && sys.c2s == []
    requires Allowed(sys, ev) && !ev.ClientReceive?
    ensures Step(sys, ev) == Running(sys)
  {
    assert sys.s2c + [] == sys.s2c;
  }

  /** The client's side of the agreement: it recognises its nonce and combines the same halves. */
  lemma {:induction false} AnswerAccepted(c: Client, half: Bytes)
    requires AwaitsAnswer(c) && |half| == KEY_SIZE
    ensures var next := ClientLoginAnswer(c, Acceptance(c.b.myNonce, half));
      next == c.(b := ResetPacketNum(c.b.(status := LoginStep2, enc := EncAes256, key := CyclicXor(c.b.key, half),
                                          testData := FromLittleEndian(c.b.myNonce[..4]))))
  {
    AnswerFields(c.b.myNonce, half);
  }

  lemma {:induction false} AnswerOpened(sys: Sys, half: Bytes, random: Bytes, nonce: Bytes)
    requires AwaitsAnswer(sys.cli) && |half| == KEY_SIZE && sys.s2c == [AnswerBox(sys.cli, half), TestBox(sys.srv)]
    ensures StepClientReceive(sys, random, nonce) == Running(sys.(
      cli := ClientLoginAnswer(sys.cli, Acceptance(sys.cli.b.myNonce, half)), s2c := [TestBox(sys.srv)]))
  {
    var answer := Acceptance(sys.cli.b.myNonce, half);
    assert Open(sys.cli.b, TheUser(sys.cli.user), sys.s2c[0]) == Opened(Packet(SmsgLogin, answer), sys.cli.b);
    assert sys.s2c[1..] == [TestBox(sys.srv)];
    assert sys.c2s + [] == sys.c2s;
  }

  lemma {:induction false} AnswerReceived(sys: Sys, random: Bytes, nonce: Bytes)
    requires ValidUser(sys.cli.user) && !sys.outstanding && !sys.silent && Accepted(sys)
    ensures StepClientReceive(sys, random, nonce).Running? && Inv(StepClientReceive(sys, random, nonce).sys)
  {
    AnswerRead(sys, random, nonce);
    TestingIsInv(StepClientReceive(sys, random, nonce).sys);
  }

  lemma {:induction false} AnswerRead(sys: Sys, random: Bytes, nonce: Bytes)
    requires Accepted(sys)
    ensures StepClientReceive(sys, random, nonce).Running?
    ensures var next := StepClientReceive(sys, random, nonce).sys;
      Testing(next) && next.cli.user == sys.cli.user && next.outstanding == sys.outstanding && next.silent == sys.silent
  {
    var half: Bytes :| |half| == KEY_SIZE && sys.srv.b.key == CyclicXor(sys.cli.b.key, half)
                    && sys.s2c == [AnswerBox(sys.cli, half), TestBox(sys.srv)];
    AnswerOpened(sys, half, random, nonce);
    AnswerTested(sys, half);
  }

  lemma {:induction false} TestingIsInv(sys: Sys)
    requires ValidUser(sys.cli.user) && !sys.outstanding && !sys.silent && Testing(sys)
    ensures Inv(sys)
  {
  }

  /** The client has combined the key, and the test value is what it will read next. */
  lemma {:induction false} AnswerTested(sys: Sys, half: Bytes)
    requires Accepted(sys) && |half| == KEY_SIZE && sys.srv.b.key == CyclicXor(sys.cli.b.key, half)
    ensures Testing(sys.(cli := ClientLoginAnswer(sys.cli, Acceptance(sys.cli.b.myNonce, half)), s2c := [TestBox(sys.srv)]))
    ensures ClientLoginAnswer(sys.cli, Acceptance(sys.cli.b.myNonce, half)).user == sys.cli.user
  {
    AnswerAccepted(sys.cli, half);
  }

  lemma {:induction false} AcceptedStep(sys: Sys, ev: Event)
    requires Inv(sys) && LoggingIn(sys) && Accepted(sys) && Allowed(sys, ev)
    ensures Step(sys, ev).Running? && Inv(Step(sys, ev).sys)
  {
    if ev.ClientReceive? {
      AnswerReceived(sys, ev.half, ev.nonce);
    } else {
      OnlyClientMoves(sys, ev);
    }
  }

  lemma {:induction false} TestValue(v: nat)
    requires v < COUNTER_RANGE
    ensures |LittleEndian(v, 4)| == 4 && LittleEndian(v, 4)[..4] == LittleEndian(v, 4)
    ensures FromLittleEndian(LittleEndian(v, 4)) == v
  {
    assert Pow256(4) == COUNTER_RANGE;
    LittleEndianInverse(v, 4);
  }

  /** The client's part of M4: it checks N-1 and answers N-2 under the new key. */
  lemma {:induction false} ClientProves(sys: Sys, v: nat, half: Bytes, nonce: Bytes)
    requires sys.cli.b.status == LoginStep2 && sys.cli.b.enc == EncAes256 && !sys.cli.b.closed
    requires sys.cli.b.idRecv == 0 && sys.cli.b.idSend == 0 && v == Dec32(sys.cli.b.testData)
    requires sys.s2c == [AesBox(sys.cli.b.key, Frame(SmsgLogin, Some(0), LittleEndian(v, 4)))] && sys.c2s == []
    ensures var out := StepClientReceive(sys, half, nonce);
      && out.Running? && out.sys.cli.b.status == Authenticated && out.sys.cli.b.key == sys.cli.b.key
      && out.sys.cli.b.enc == EncAes256 && out.sys.cli.b.idSend == 1 && out.sys.cli.b.idRecv == 0 && !out.sys.cli.b.closed
      && out.sys.cli.user == sys.cli.user && out.sys.cli.b.myNonce == sys.cli.b.myNonce
      && out.sys == sys.(cli := out.sys.cli, s2c := [],
          c2s := [AesBox(sys.cli.b.key, Frame(CmsgLogin, Some(0), LittleEndian(Dec32(v), 4)))])
  {
    TestValue(v);
    assert sys.s2c[1..] == [];
  }

  lemma {:induction false} TestingStep(sys: Sys, ev: Event)
    requires Inv(sys) && LoggingIn(sys) && Testing(sys) && Allowed(sys, ev)
    ensures Step(sys, ev).Running? && Inv(Step(sys, ev).sys)
  {
    if ev.ClientReceive? {
      ClientProves(sys, sys.srv.b.testData, ev.half, ev.nonce);
      var next := Step(sys, ev).sys;
      var answer := LittleEndian(Dec32(sys.srv.b.testData), 4);
      assert next.c2s[1..] == [];
      assert Pending(next) == [Packet(CmsgLogin, answer)];
      assert FeedAll(ServerRx(next), next.c2s) == Feed(ServerRx(next), next.c2s[0]);
      assert Replied(next);
    } else {
      OnlyClientMoves(sys, ev);
    }
  }

  // ---------- the client's packets, before and after the server has authenticated it ----------

  /** Sending one more packet the server can open. */
  lemma {:induction false} ServerWillOpenSnoc(sys: Sys, next: Sys, p: Packet)
    requires ServerWillOpen(sys) && Room(sys.cli.b) && sys.cli.b.enc == EncAes256 && !sys.cli.b.closed
    requires p.op != SmsgLogin && p.op != SmsgRefreshKey
    requires next.srv.b == sys.srv.b && next.srv.recvQ == sys.srv.recvQ
    requires next.c2s == sys.c2s + [AesBox(sys.cli.b.key, Frame(p.op, Some(sys.cli.b.idSend), p.payload))]
    requires next.cli.b.key == sys.cli.b.key && next.cli.b.idSend == sys.cli.b.idSend + 1
    ensures ServerWillOpen(next) && Pending(next) == Pending(sys) + [p]
  {
    var w := AesBox(sys.cli.b.key, Frame(p.op, Some(sys.cli.b.idSend), p.payload));
    FeedSnoc(ServerRx(sys), sys.c2s, w);
    assert ServerRx(next) == ServerRx(sys);
    assert Plain(next.c2s) == Plain(sys.c2s) + [p];
  }

  /** The head of the wire opens; what the server has to handle is unchanged. */
  lemma {:induction false} ServerWillOpenHead(sys: Sys)
    requires ServerWillOpen(sys) && sys.srv.b.enc == EncAes256 && !sys.srv.b.closed && sys.c2s != []
    ensures var out := StepServerReceive(sys);
      && out.Running?
      && ServerWillOpen(out.sys) && Pending(out.sys) == Pending(sys)
      && out.sys == sys.(srv := sys.srv.(b := out.sys.srv.b, recvQ := out.sys.srv.recvQ), c2s := sys.c2s[1..])
      && out.sys.srv.b == sys.srv.b.(idRecv := out.sys.srv.b.idRecv)
  {
    var w := sys.c2s[0];
    assert Feed(ServerRx(sys), w).Some?;
    FeedKeepsKey(ServerRx(sys), [w]);
    var next := StepServerReceive(sys).sys;
    FeedTmpNone(ServerRx(sys), sys.c2s);
    assert Plain(sys.c2s) == [Packet(w.frame.op, w.frame.payload)] + Plain(next.c2s);
  }

  /** A receiver that ends with no half offered was offered none. */
  lemma {:induction false} FeedTmpNone(rx: Rx, q: seq<Wire>)
    requires rx.tmp.None? && rx.asked.None? && FeedAll(rx, q).Some? && FeedAll(rx, q).value.asked.None?
    ensures q != [] ==> Feed(rx, q[0]).value == rx.(last := q[0].frame.seqNo.value)
  {
    if q != [] {
      FeedKeepsKey(Feed(rx, q[0]).value, q[1..]);
    }
  }

  lemma {:induction false} RepliedHandle(sys: Sys, inp: Inputs)
    requires Inv(sys) && LoggingIn(sys) && Replied(sys) && sys.srv.recvQ != []
    requires Allowed(sys, ServerHandle(inp))
    ensures Inv(StepServerHandle(sys, inp))
  {
    var next := StepServerHandle(sys, inp);
    TestValue(Dec32(sys.srv.b.testData));
    assert sys.srv.recvQ[0] == Pending(sys)[0];
    assert next == sys.(srv := next.srv);
    assert next.srv == sys.srv.(b := sys.srv.b.(status := Authenticated), sendQ := inp.replies, recvQ := sys.srv.recvQ[1..]);
    assert ServerRx(next) == ServerRx(sys);
    assert Pending(next) == Pending(sys)[1..];
    assert FeedAll(ClientRx(next), next.s2c) == Some(ClientRx(next));
    assert Steady(next);
  }

  lemma {:induction false} RepliedClientChat(sys: Sys, p: Packet)
    requires Inv(sys) && LoggingIn(sys) && Replied(sys) && Allowed(sys, ClientChat(p))
    ensures Step(sys, ClientChat(p)).Running? && Inv(Step(sys, ClientChat(p)).sys)
  {
    var next := Step(sys, ClientChat(p)).sys;
    ServerWillOpenSnoc(sys, next, p);
    assert Pending(next)[1..] == Pending(sys)[1..] + [p];
    assert Replied(next);
  }

  lemma {:induction false} RepliedServerReceive(sys: Sys)
    requires Inv(sys) && LoggingIn(sys) && Replied(sys) && sys.c2s != []
    ensures Step(sys, ServerReceive).Running? && Inv(Step(sys, ServerReceive).sys)
  {
    ServerWillOpenHead(sys);
    assert Replied(Step(sys, ServerReceive).sys);
  }

  lemma {:induction false} RepliedStep(sys: Sys, ev: Event)
    requires Inv(sys) && LoggingIn(sys) && Replied(sys) && Allowed(sys, ev)
    ensures Step(sys, ev).Running? && Inv(Step(sys, ev).sys)
  {
    match ev {
      case ServerReceive =>
        if sys.c2s != [] {
          RepliedServerReceive(sys);
        }
      case ServerHandle(inp) =>
        if sys.srv.recvQ != [] {
          RepliedHandle(sys, inp);
        }
      case ClientChat(p) =>
        RepliedClientChat(sys, p);
      case StartRefresh(half) =>
        assert Step(sys, ev) == Running(sys) by {
          assert sys.s2c + [] == sys.s2c;
        }
      case _ =>
    }
  }

  // ---------- the authenticated session ----------

  /** The server sends one more packet under its current key; only the counter moves. */
  lemma {:induction false} ClientWillOpenSnoc(sys: Sys, p: Packet)
    requires Steady(sys) && Room(sys.srv.b) && p.op != SmsgLogin
    ensures var rx := FeedAll(ClientRx(sys), sys.s2c).value;
            var w := AesBox(sys.srv.b.key, Frame(p.op, Some(sys.srv.b.idSend), p.payload));
            FeedAll(ClientRx(sys), sys.s2c + [w]) == Feed(rx, w)
  {
    FeedSnoc(ClientRx(sys), sys.s2c, AesBox(sys.srv.b.key, Frame(p.op, Some(sys.srv.b.idSend), p.payload)));
  }

  lemma {:induction false} SteadyFlush(sys: Sys)
    requires Steady(sys) && Room(sys.srv.b) && sys.srv.sendQ != []
    ensures Step(sys, Flush).Running? && Steady(Step(sys, Flush).sys)
  {
    Flushes(sys);
    SteadyFlushed(sys, Step(sys, Flush).sys);
  }

  /** The head of the send queue leaves under the server's key. */
  lemma {:induction false} Flushes(sys: Sys)
    requires sys.srv.b.status == Authenticated && sys.srv.b.enc == EncAes256 && sys.srv.b.nextEnc == EncUnspec
    requires !sys.srv.b.closed && sys.srv.b.changeKeys != 1 && Room(sys.srv.b) && sys.srv.sendQ != []
    ensures Step(sys, Flush) == Running(sys.(
      srv := sys.srv.(b := sys.srv.b.(idSend := sys.srv.b.idSend + 1), sendQ := sys.srv.sendQ[1..]),
      s2c := sys.s2c + [AesBox(sys.srv.b.key, Frame(sys.srv.sendQ[0].op, Some(sys.srv.b.idSend), sys.srv.sendQ[0].payload))]))
  {
  }

  lemma {:induction false} SteadyFlushed(sys: Sys, next: Sys)
    requires Steady(sys) && Room(sys.srv.b) && sys.srv.sendQ != []
    requires next == sys.(
      srv := sys.srv.(b := sys.srv.b.(idSend := sys.srv.b.idSend + 1), sendQ := sys.srv.sendQ[1..]),
      s2c := sys.s2c + [AesBox(sys.srv.b.key, Frame(sys.srv.sendQ[0].op, Some(sys.srv.b.idSend), sys.srv.sendQ[0].payload))])
    ensures Steady(next)
  {
    var rx := FeedAll(ClientRx(sys), sys.s2c).value;
    assert ServerChatOp(sys.srv.sendQ[0].op);
    ClientWillOpenSnoc(sys, sys.srv.sendQ[0]);
    assert ClientRx(next) == ClientRx(sys) && ServerRx(next) == ServerRx(sys);
    assert FeedAll(ClientRx(next), next.s2c) == Some(rx.(last := sys.srv.b.idSend));
    assert Pending(next) == Pending(sys);
    SteadySent(sys, next, rx);
  }

  /** Only the server's counter has moved, and with it what the client will have accepted last. */
  lemma {:induction false} SteadySent(sys: Sys, next: Sys, rx: Rx)
    requires Steady(sys) && FeedAll(ClientRx(sys), sys.s2c) == Some(rx) && Room(sys.srv.b)
    requires next == sys.(srv := sys.srv.(b := sys.srv.b.(idSend := sys.srv.b.idSend + 1), sendQ := next.srv.sendQ), s2c := next.s2c)
    requires FeedAll(ClientRx(next), next.s2c) == Some(rx.(last := sys.srv.b.idSend))
    requires AllServerChat(next.srv.sendQ) && Pending(next) == Pending(sys)
    ensures Steady(next)
  {
    assert ServerRx(next) == ServerRx(sys);
    assert Switching(next) == Switching(sys);
    assert Steady(next);
  }

  function OfferBox(sys: Sys, half: Bytes): Wire {
    AesBox(sys.srv.b.key, Frame(SmsgRefreshKey, Some(sys.srv.b.idSend), half))
  }

  lemma {:induction false} Offer(sys: Sys, half: Bytes)
    requires sys.srv.b.status == Authenticated && sys.srv.b.enc == EncAes256 && sys.srv.b.nextEnc == EncUnspec
    requires !sys.srv.b.closed && sys.srv.b.changeKeys != 1 && Room(sys.srv.b)
    ensures Step(sys, StartRefresh(half)) == Running(sys.(
      srv := sys.srv.(b := sys.srv.b.(keyTmp := half, changeKeys := 0, idSend := sys.srv.b.idSend + 1)),
      s2c := sys.s2c + [OfferBox(sys, half)], outstanding := true))
  {
  }

  lemma {:induction false} SteadyStartRefresh(sys: Sys, half: Bytes)
    requires Steady(sys) && Allowed(sys, StartRefresh(half))
    ensures Step(sys, StartRefresh(half)).Running? && Steady(Step(sys, StartRefresh(half)).sys)
  {
    Offer(sys, half);
    var next := Step(sys, StartRefresh(half)).sys;
    ClientWillOpenSnoc(sys, Packet(SmsgRefreshKey, half));
    assert ClientRx(next) == ClientRx(sys) && ServerRx(next) == ServerRx(sys);
    assert Pending(next) == Pending(sys);
    assert Steady(next);
  }

  lemma {:induction false} SteadyServerReceive(sys: Sys)
    requires Steady(sys) && sys.c2s != []
    ensures Step(sys, ServerReceive).Running? && Steady(Step(sys, ServerReceive).sys)
  {
    ServerWillOpenHead(sys);
    SteadyOpened(sys, StepServerReceive(sys).sys);
  }

  /** A packet has moved from the wire to the server's queue. */
  lemma {:induction false} SteadyOpened(sys: Sys, next: Sys)
    requires Steady(sys) && ServerWillOpen(sys) && sys.c2s != []
    requires next == sys.(srv := sys.srv.(b := next.srv.b, recvQ := next.srv.recvQ), c2s := next.c2s)
    requires next.srv.b == sys.srv.b.(idRecv := next.srv.b.idRecv)
    requires ServerWillOpen(next) && Pending(next) == Pending(sys)
    ensures Steady(next)
  {
    assert ClientRx(next) == ClientRx(sys);
    NotSwitching(sys, next);
    SameAnswer(sys, next);
  }

  lemma {:induction false} SameAnswer(sys: Sys, next: Sys)
    requires Pending(next) == Pending(sys) && next.cli == sys.cli && next.srv.b.keyTmp == sys.srv.b.keyTmp
    ensures AnswerPending(next) == AnswerPending(sys) && AllClientChat(Pending(next)) == AllClientChat(Pending(sys))
  {
  }

  lemma {:induction false} NotSwitching(sys: Sys, next: Sys)
    requires Steady(sys) && sys.c2s != []
    requires ClientRx(next) == ClientRx(sys) && next.s2c == sys.s2c && next.silent == sys.silent
    ensures FeedAll(ClientRx(next), next.s2c).Some? && !Switching(sys) && !Switching(next)
  {
  }

  lemma {:induction false} AnswerHandled(sys: Sys, inp: Inputs, half: Bytes)
    requires sys.srv.b.enc == EncAes256 && !sys.srv.b.closed && sys.srv.b.changeKeys == 0
    requires |half| == KEY_SIZE == |sys.srv.b.keyTmp|
    requires sys.srv.recvQ == [Packet(CmsgRefreshKey, half)]
    ensures var s := sys.srv;
            var next := CyclicXor(s.b.keyTmp, half);
      StepServerHandle(sys, inp) == sys.(
        srv := s.(recvQ := [], b := s.b.(keyTmp := next, key := next, changeKeys := 2, idSend := 0, idRecv := 0)),
        s2c := sys.s2c + [AesBox(s.b.key, Frame(SmsgRefreshKey, Some(s.b.idSend), []))],
        outstanding := false)
  {
    var s := sys.srv.(recvQ := []);
    assert sys.srv.recvQ[1..] == [];
    assert ServerDispatch(s, sys.srv.recvQ[0], inp) == ServerRefresh(s, half);
  }

  /** The answer completes the server's next key; the empty packet leaves and the server switches. */
  lemma {:induction false} SteadyHandleAnswer(sys: Sys, inp: Inputs)
    requires Steady(sys) && Allowed(sys, ServerHandle(inp))
    requires sys.srv.recvQ != [] && FeedAll(ClientRx(sys), sys.s2c).value.tmp.Some?
    requires sys.srv.recvQ[0].op == CmsgRefreshKey
    ensures Steady(StepServerHandle(sys, inp))
  {
    AnswerIsAlone(sys);
    AnswerHandled(sys, inp, sys.srv.recvQ[0].payload);
    ClientWillOpenSnoc(sys, Packet(SmsgRefreshKey, []));
    FeedSilent(ClientRx(sys), sys.s2c);
  }

  /** When the client's half is the next thing to handle, it is the only thing. */
  lemma {:induction false} AnswerIsAlone(sys: Sys)
    requires Steady(sys) && sys.srv.recvQ != [] && !ClientChatOp(sys.srv.recvQ[0].op)
    ensures FeedAll(ClientRx(sys), sys.s2c).value.tmp.Some? && sys.silent
    ensures sys.srv.recvQ == [Packet(CmsgRefreshKey, sys.srv.recvQ[0].payload)] && sys.c2s == []
    ensures |sys.srv.recvQ[0].payload| == KEY_SIZE == |sys.srv.b.keyTmp| && sys.srv.b.changeKeys == 0
    ensures CyclicXor(sys.srv.b.keyTmp, sys.srv.recvQ[0].payload) == sys.cli.b.keyTmp
  {
    var ps := Pending(sys);
    assert ps[0] == sys.srv.recvQ[0];
    assert |ps| == 1;
    if !sys.silent {
      FeedKeepsKey(ClientRx(sys), sys.s2c);
    }
  }

  /** A receiver that still expects its switch at the end has kept it, and was offered nothing. */
  lemma {:induction false} FeedSilent(rx: Rx, q: seq<Wire>)
    requires FeedAll(rx, q).Some? && FeedAll(rx, q).value.tmp.Some?
    ensures rx.tmp == FeedAll(rx, q).value.tmp && rx.asked == FeedAll(rx, q).value.asked
    ensures rx.key == FeedAll(rx, q).value.key
    decreases |q|
  {
    if q != [] {
      var next := Feed(rx, q[0]).value;
      FeedSilent(next, q[1..]);
      if rx.tmp.None? {
        FeedKeepsKey(rx, q);
      }
    }
  }

  lemma {:induction false} ChatHandled(s: Server, p: Packet, inp: Inputs)
    requires ClientChatOp(p.op)
    ensures var e := ServerDispatch(s, p, inp);
      e.sent == [] && e.s == s.(sendQ := e.s.sendQ) && (e.s.sendQ == s.sendQ || e.s.sendQ == s.sendQ + inp.replies)
  {
  }

  /** Taking a chat packet off the queue, with or without replies, keeps the session in step. */
  lemma {:induction false} SteadyTailPending(sys: Sys, next: Sys)
    requires Steady(sys) && sys.srv.recvQ != [] && ClientChatOp(sys.srv.recvQ[0].op)
    requires next == sys.(srv := sys.srv.(recvQ := sys.srv.recvQ[1..], sendQ := next.srv.sendQ))
    requires AllServerChat(next.srv.sendQ)
    ensures Steady(next)
  {
    assert ClientRx(next) == ClientRx(sys) && ServerRx(next) == ServerRx(sys);
    var ps := Pending(sys);
    assert ps[0] == sys.srv.recvQ[0];
    assert Pending(next) == ps[1..];
    assert Switching(next) == Switching(sys) && ServerWillOpen(next) == ServerWillOpen(sys);
    if FeedAll(ClientRx(sys), sys.s2c).value.tmp.Some? {
      AnswerBehind(sys, next);
    }
    assert Steady(next);
  }

  lemma {:induction false} AnswerBehind(sys: Sys, next: Sys)
    requires AnswerPending(sys) && Pending(sys) != [] && ClientChatOp(Pending(sys)[0].op)
    requires Pending(next) == Pending(sys)[1..]
    requires next.srv.b.keyTmp == sys.srv.b.keyTmp && next.cli.b.keyTmp == sys.cli.b.keyTmp
    ensures AnswerPending(next)
  {
    var ps := Pending(sys);
    assert |ps| > 1;
    assert Pending(next)[..|ps| - 2] == ps[1..|ps| - 1];
    var chat := ps[..|ps| - 1];
    assert ps[1..|ps| - 1] == chat[1..];
  }

  lemma {:induction false} SteadyHandleChat(sys: Sys, inp: Inputs)
    requires Steady(sys) && Allowed(sys, ServerHandle(inp))
    requires sys.srv.recvQ != [] && ClientChatOp(sys.srv.recvQ[0].op)
    ensures Steady(StepServerHandle(sys, inp))
  {
    var s := sys.srv.(recvQ := sys.srv.recvQ[1..]);
    ChatHandled(s, sys.srv.recvQ[0], inp);
    assert sys.s2c + [] == sys.s2c;
    SteadyTailPending(sys, StepServerHandle(sys, inp));
  }

  lemma {:induction false} SteadyHandle(sys: Sys, inp: Inputs)
    requires Steady(sys) && Allowed(sys, ServerHandle(inp)) && sys.srv.recvQ != []
    ensures Steady(StepServerHandle(sys, inp))
  {
    assert Pending(sys)[0] == sys.srv.recvQ[0];
    if ClientChatOp(sys.srv.recvQ[0].op) {
      SteadyHandleChat(sys, inp);
    } else {
      SteadyHandleAnswer(sys, inp);
    }
  }

  lemma {:induction false} SteadyServerChat(sys: Sys, p: Packet)
    requires Steady(sys) && Allowed(sys, ServerChat(p))
    ensures Step(sys, ServerChat(p)).Running? && Steady(Step(sys, ServerChat(p)).sys)
  {
    SteadyMoreToSend(sys, sys.(srv := sys.srv.(sendQ := sys.srv.sendQ + [p])));
  }

  lemma {:induction false} SteadyMoreToSend(sys: Sys, next: Sys)
    requires Steady(sys) && next == sys.(srv := sys.srv.(sendQ := next.srv.sendQ)) && AllServerChat(next.srv.sendQ)
    ensures Steady(next)
  {
    assert ClientRx(next) == ClientRx(sys);
    SteadySame(sys, next);
  }

  /** The client's receive counter and the server's send queue are all that differs. */
  lemma {:induction false} SteadySame(sys: Sys, next: Sys)
    requires Steady(sys) && AllServerChat(next.srv.sendQ)
    requires FeedAll(ClientRx(next), next.s2c) == FeedAll(ClientRx(sys), sys.s2c)
    requires next.srv == sys.srv.(sendQ := next.srv.sendQ) && next.c2s == sys.c2s
    requires next.cli == sys.cli.(b := sys.cli.b.(idRecv := next.cli.b.idRecv))
    requires next.outstanding == sys.outstanding && next.silent == sys.silent
    ensures Steady(next)
  {
    SameBacklog(sys, next);
    assert Switching(next) == Switching(sys);
  }

  lemma {:induction false} SameBacklog(sys: Sys, next: Sys)
    requires next.srv.b == sys.srv.b && next.srv.recvQ == sys.srv.recvQ && next.c2s == sys.c2s
    requires next.cli.b.key == sys.cli.b.key && next.cli.b.keyTmp == sys.cli.b.keyTmp && next.cli.b.idSend == sys.cli.b.idSend
    ensures Pending(next) == Pending(sys) && ServerRx(next) == ServerRx(sys)
    ensures ServerWillOpen(next) <==> ServerWillOpen(sys)
    ensures AnswerPending(next) <==> AnswerPending(sys)
  {
  }

  lemma {:induction false} SteadyClientChat(sys: Sys, p: Packet)
    requires Steady(sys) && Allowed(sys, ClientChat(p))
    ensures Step(sys, ClientChat(p)).Running? && Steady(Step(sys, ClientChat(p)).sys)
  {
    var next := Step(sys, ClientChat(p)).sys;
    assert ClientRx(next) == ClientRx(sys);
    FeedKeepsKey(ClientRx(sys), sys.s2c);
    ServerWillOpenSnoc(sys, next, p);
    SteadyOneMore(sys, next, p);
  }

  lemma {:induction false} SteadyOneMore(sys: Sys, next: Sys, p: Packet)
    requires Steady(sys) && !sys.silent && ClientChatOp(p.op) && ServerWillOpen(next)
    requires next == sys.(cli := next.cli, c2s := next.c2s) && Room(sys.cli.b)
    requires next.cli == sys.cli.(b := sys.cli.b.(idSend := sys.cli.b.idSend + 1))
    requires Pending(next) == Pending(sys) + [p] && FeedAll(ClientRx(sys), sys.s2c).value.tmp.None?
    ensures Steady(next)
  {
    assert ClientRx(next) == ClientRx(sys);
    assert !Switching(next);
    assert AllClientChat(Pending(next));
  }

  // ---------- the client handles a packet ----------

  lemma {:induction false} SteadyClientReceive(sys: Sys, half: Bytes, nonce: Bytes)
    requires Steady(sys) && sys.s2c != [] && Allowed(sys, ClientReceive(half, nonce))
    ensures Step(sys, ClientReceive(half, nonce)).Running? && Steady(Step(sys, ClientReceive(half, nonce)).sys)
  {
    var f := sys.s2c[0].frame;
    if f.op == SmsgRefreshKey && f.payload == [] {
      SteadyClientSwitch(sys, half, nonce);
    } else if f.op == SmsgRefreshKey {
      SteadyClientAnswer(sys, half, nonce);
    } else {
      SteadyClientReads(sys, half, nonce);
    }
  }

  /** The next packet to the client is sealed with its key and passes its counter test. */
  predicate ClientCanOpen(sys: Sys) {
    && sys.s2c != [] && sys.s2c[0].AesBox? && sys.s2c[0].key == sys.cli.b.key
    && sys.s2c[0].frame.seqNo.Some? && sys.cli.b.idRecv <= sys.s2c[0].frame.seqNo.value
    && sys.cli.b.enc == EncAes256 && !sys.cli.b.closed
  }

  lemma {:induction false} ClientReads(sys: Sys, half: Bytes, nonce: Bytes)
    requires ClientCanOpen(sys) && sys.s2c[0].frame.op != SmsgRefreshKey && sys.s2c[0].frame.op != SmsgLogin
    ensures Step(sys, ClientReceive(half, nonce)) == Running(sys.(
      cli := sys.cli.(b := sys.cli.b.(idRecv := sys.s2c[0].frame.seqNo.value)), s2c := sys.s2c[1..]))
  {
    assert sys.c2s + [] == sys.c2s;
  }

  lemma {:induction false} ClientSwitches(sys: Sys, half: Bytes, nonce: Bytes)
    requires ClientCanOpen(sys)
    requires sys.s2c[0].frame.op == SmsgRefreshKey && sys.s2c[0].frame.payload == []
    ensures Step(sys, ClientReceive(half, nonce)) == Running(sys.(
      cli := sys.cli.(b := sys.cli.b.(key := sys.cli.b.keyTmp, idSend := 0, idRecv := 0)),
      s2c := sys.s2c[1..], silent := false))
  {
    assert sys.c2s + [] == sys.c2s;
  }

  lemma {:induction false} SteadyClientReads(sys: Sys, half: Bytes, nonce: Bytes)
    requires Steady(sys) && sys.s2c != []
    requires sys.s2c[0].frame.op != SmsgRefreshKey
    ensures Step(sys, ClientReceive(half, nonce)).Running? && Steady(Step(sys, ClientReceive(half, nonce)).sys)
  {
    ClientReads(sys, half, nonce);
    var next := Step(sys, ClientReceive(half, nonce)).sys;
    assert Feed(ClientRx(sys), sys.s2c[0]) == Some(ClientRx(next));
    SteadySame(sys, next);
  }

  lemma {:induction false} SteadyClientSwitch(sys: Sys, half: Bytes, nonce: Bytes)
    requires Steady(sys) && sys.s2c != []
    requires sys.s2c[0].frame.op == SmsgRefreshKey && sys.s2c[0].frame.payload == []
    ensures Step(sys, ClientReceive(half, nonce)).Running? && Steady(Step(sys, ClientReceive(half, nonce)).sys)
  {
    ClientSwitches(sys, half, nonce);
    var next := Step(sys, ClientReceive(half, nonce)).sys;
    assert Feed(ClientRx(sys), sys.s2c[0]) == Some(ClientRx(next));
    FeedKeepsKey(ClientRx(next), next.s2c);
    assert Switching(sys);
    assert FeedAll(ServerRx(next), next.c2s) == Some(ServerRx(next));
    assert Pending(next) == Pending(sys);
    assert Steady(next);
  }

  lemma {:induction false} SteadyClientAnswer(sys: Sys, half: Bytes, nonce: Bytes)
    requires Steady(sys) && sys.s2c != [] && Allowed(sys, ClientReceive(half, nonce))
    requires sys.s2c[0].frame.op == SmsgRefreshKey && sys.s2c[0].frame.payload != []
    ensures Step(sys, ClientReceive(half, nonce)).Running? && Steady(Step(sys, ClientReceive(half, nonce)).sys)
  {
    ClientAnswers(sys, half, nonce);
    SteadyAnswered(sys, half, Step(sys, ClientReceive(half, nonce)).sys);
  }

  lemma {:induction false} SteadyAnswered(sys: Sys, half: Bytes, next: Sys)
    requires Steady(sys) && ClientCanOpen(sys) && Room(sys.cli.b) && |half| == KEY_SIZE
    requires Feed(ClientRx(sys), sys.s2c[0]).Some? && sys.s2c[0].frame.op == SmsgRefreshKey
    requires |sys.s2c[0].frame.payload| == KEY_SIZE
    requires next == Answering(sys, half)
    ensures Steady(next)
  {
    var f := sys.s2c[0].frame;
    var rx1 := Feed(ClientRx(sys), sys.s2c[0]).value;
    var tmp := CyclicXor(half, f.payload);
    FeedKeepsKey(rx1, next.s2c);
    FeedAfterAnswer(rx1, next.s2c, tmp);
    assert ClientRx(next) == rx1.(tmp := Some(tmp), asked := None);
    assert sys.srv.b.keyTmp == f.payload;
    XorCommutes(f.payload, half);
    ServerWillOpenSnoc(sys, next, Packet(CmsgRefreshKey, half));
    assert Pending(next)[..|Pending(sys)|] == Pending(sys);
    assert AnswerPending(next);
    assert Steady(next);
  }

  function Answering(sys: Sys, half: Bytes): Sys
    requires ClientCanOpen(sys) && |half| == |sys.s2c[0].frame.payload| == KEY_SIZE
  {
    var f, cb := sys.s2c[0].frame, sys.cli.b;
    sys.(
      cli := sys.cli.(b := cb.(idRecv := f.seqNo.value, idSend := cb.idSend + 1, keyTmp := CyclicXor(half, f.payload))),
      s2c := sys.s2c[1..],
      c2s := sys.c2s + [AesBox(cb.key, Frame(CmsgRefreshKey, Some(cb.idSend), half))],
      silent := true)
  }

  /** The client's half leaves under the old key; the combined key waits. */
  lemma {:induction false} ClientAnswers(sys: Sys, half: Bytes, nonce: Bytes)
    requires ClientCanOpen(sys) && Allowed(sys, ClientReceive(half, nonce))
    requires sys.s2c[0].frame.op == SmsgRefreshKey && |sys.s2c[0].frame.payload| == KEY_SIZE
    ensures Step(sys, ClientReceive(half, nonce)) == Running(Answering(sys, half))
  {
  }

  // ---------- the theorems ----------

  lemma {:induction false} SteadyStep(sys: Sys, ev: Event)
    requires Steady(sys) && Allowed(sys, ev)
    ensures Step(sys, ev).Running? && Steady(Step(sys, ev).sys)
  {
    match ev {
      case StartLogin(inp) =>
      case Flush => if sys.srv.sendQ != [] { SteadyFlush(sys); }
      case ServerReceive => if sys.c2s != [] { SteadyServerReceive(sys); }
      case ServerHandle(inp) => if sys.srv.recvQ != [] { SteadyHandle(sys, inp); }
      case ServerChat(p) => SteadyServerChat(sys, p);
      case StartRefresh(half) => SteadyStartRefresh(sys, half);
      case ClientReceive(half, nonce) => if sys.s2c != [] { SteadyClientReceive(sys, half, nonce); }
      case ClientChat(p) => SteadyClientChat(sys, p);
    }
  }

  lemma {:induction false} HandlersKeepUser(c: Client, p: Packet, half: Bytes, nonce: Bytes)
    ensures ClientDispatch(c, p, half, nonce).c.user == c.user
  {
  }

  lemma {:induction false} UserStays(sys: Sys, ev: Event)
    ensures Step(sys, ev).Running? ==> Step(sys, ev).sys.cli.user == sys.cli.user
  {
    if ev.ClientReceive? && sys.s2c != [] {
      var o := Open(sys.cli.b, TheUser(sys.cli.user), sys.s2c[0]);
      if o.Opened? {
        HandlersKeepUser(sys.cli.(b := o.b), o.p, ev.half, ev.nonce);
      }
    }
  }

  lemma {:induction false} InvStep(sys: Sys, ev: Event)
    requires Inv(sys) && Allowed(sys, ev)
    ensures Step(sys, ev).Running? && Inv(Step(sys, ev).sys)
  {
    if Steady(sys) {
      SteadyStep(sys, ev);
      UserStays(sys, ev);
    } else if Connecting(sys) {
      ConnectingStep(sys, ev);
    } else if NonceQueued(sys) {
      NonceQueuedStep(sys, ev);
    } else if NonceSent(sys) {
      NonceSentStep(sys, ev);
    } else if Requested(sys) {
      RequestedStep(sys, ev);
    } else if Accepted(sys) {
      AcceptedStep(sys, ev);
    } else if Testing(sys) {
      TestingStep(sys, ev);
    } else {
      RepliedStep(sys, ev);
    }
  }

  lemma {:induction false} InvRun(sys: Sys, evs: seq<Event>)
    requires Inv(sys) && AllAllowed(sys, evs)
    ensures Run(sys, evs).Running? && Inv(Run(sys, evs).sys)
    decreases |evs|
  {
    if evs != [] {
      InvStep(sys, evs[0]);
      InvRun(Step(sys, evs[0]).sys, evs[1..]);
    }
  }

  /**
   In every interleaving the environment's rules allow, every packet is opened with
   the key and mode it was sealed with and passes the counter test.
   */
  lemma {:induction false} EveryPacketOpens(user: Bytes, evs: seq<Event>)
    requires ValidUser(user) && AllAllowed(Initial(user), evs)
    ensures Run(Initial(user), evs).Running?
  {
    assert Connecting(Initial(user));
    InvRun(Initial(user), evs);
  }
}
