/**
 What each handler of the two ends does with any packet it may be given, and the name that
 the server holds in every run.
 */
module LoginOutcomes {
  import opened Common
  import opened Wrappers
  import opened Octets
  import opened KeyXor
  import opened Opcodes
  import opened Sessions
  import opened SessionKeys

  // ---------- the login ----------

  /** A server that waits for the request in hybrid mode. */
  predicate AwaitsLogin(s: Server) {
    s.b.status == LoginStep1 && s.b.enc == EncHyb && s.b.nextEnc == EncUnspec && !s.b.closed
  }

  predicate Valid(s: Server, user: Bytes, echoed: Bytes, inp: Inputs) {
    |user| <= 16 && inp.known && echoed == s.b.myNonce
  }

  /**
   A request with all its parts, whatever follows them: the name is kept if it is short.  The
   session goes on exactly if the name is short and known and the nonce is the server's own,
   and is rejected and closed otherwise.
   */
  lemma {:induction false} RequestIff(s: Server, user: Bytes, half: Bytes, echoed: Bytes, nonce: Bytes, behind: Bytes, inp: Inputs)
    requires AwaitsLogin(s) && 0 !in user && |half| == |echoed| == |nonce| == 32
    ensures var t := ServerLogin(s, user + [0] + (half + echoed + nonce + behind), inp).s;
      && t.tempUser == (if |user| <= 16 then user else s.tempUser)
      && t.b.otherNonce == nonce
      && t.b.status == (if Valid(s, user, echoed, inp) then LoginStep2 else Rejected)
      && t.b.closed == !Valid(s, user, echoed, inp)
      && t.peer == (if Valid(s, user, echoed, inp) then user else s.peer)
  {
    RequestParsed(s, user, half, echoed, nonce, behind, inp);
    var s1 := Noted(s, user, nonce);
    AcceptIs(s1, user, half, nonce, inp.random);
    RejectIs(s1);
  }

  lemma {:induction false} RequestParts(user: Bytes, half: Bytes, echoed: Bytes, nonce: Bytes, behind: Bytes)
    requires 0 !in user && |half| == |echoed| == |nonce| == 32
    ensures var r := user + [0] + (half + echoed + nonce + behind);
      && Text(r) == user && |AfterText(r)| >= 96
      && AfterText(r)[..32] == half && AfterText(r)[32..64] == echoed && AfterText(r)[64..96] == nonce
  {
    TextRoundTrip(user, half + echoed + nonce + behind);
  }

  /** What a request changes before it is judged. */
  function Noted(s: Server, user: Bytes, nonce: Bytes): Server {
    s.(b := s.b.(otherNonce := nonce), tempUser := if |user| <= 16 then user else s.tempUser)
  }

  lemma {:induction false} RequestParsed(s: Server, user: Bytes, half: Bytes, echoed: Bytes, nonce: Bytes, behind: Bytes, inp: Inputs)
    requires s.b.status == LoginStep1 && 0 !in user && |half| == |echoed| == |nonce| == 32
    ensures ServerLogin(s, user + [0] + (half + echoed + nonce + behind), inp) ==
      if Valid(s, user, echoed, inp) then ServerAccepts(Noted(s, user, nonce), user, half, nonce, inp.random)
      else ServerRejects(Noted(s, user, nonce))
  {
    RequestParts(user, half, echoed, nonce, behind);
  }

  lemma {:induction false} AcceptIs(s: Server, user: Bytes, half: Bytes, nonce: Bytes, random: Bytes)
    requires s.b.enc == EncHyb && s.b.nextEnc == EncUnspec && !s.b.closed && |nonce| == 32
    ensures var e := ServerAccepts(s, user, half, nonce, random);
      && e.s.tempUser == s.tempUser && e.s.peer == user && e.s.b.otherNonce == s.b.otherNonce
      && e.s.b.status == LoginStep2 && !e.s.b.closed
      && |e.sent| == 2
      && e.sent[0].frame == Frame(SmsgLogin, None, [0x61, 0x63, 0x63, 0] + nonce + random)
      && e.sent[1].AesBox? && e.sent[1].key == CyclicXorOrSame(random, half)
      && e.sent[1].frame == Frame(SmsgLogin, Some(0), LittleEndian(Dec32(FromLittleEndian(nonce[..4])), 4))
  {
    AnswerSent(s, user, nonce, random);
    var s1 := ServerAnswers(s, user, nonce, random).s;
    TestSent(s1.(b := CombineKeys(s1.b, half, nonce)));
  }

  lemma {:induction false} AnswerSent(s: Server, user: Bytes, nonce: Bytes, random: Bytes)
    requires s.b.enc == EncHyb && s.b.nextEnc == EncUnspec && !s.b.closed
    ensures ServerAnswers(s, user, nonce, random) == ServerEffect(
      s.(b := s.b.(status := LoginStep2, key := random), peer := user),
      [HybBox(TheUser(user), TheServer, Frame(SmsgLogin, None, [0x61, 0x63, 0x63, 0] + nonce + random))])
  {
    assert ACC + [0] == [0x61, 0x63, 0x63, 0];
  }

  lemma {:induction false} TestSent(s: Server)
    requires s.b.enc == EncAes256 && s.b.nextEnc == EncUnspec && !s.b.closed && s.b.idSend == 0
    ensures ServerSend(s, Packet(SmsgLogin, LittleEndian(s.b.testData, 4))) == ServerEffect(
      s.(b := s.b.(idSend := 1)), [AesBox(s.b.key, Frame(SmsgLogin, Some(0), LittleEndian(s.b.testData, 4)))])
  {
  }

  lemma {:induction false} RejectIs(s: Server)
    requires s.b.enc == EncHyb && !s.b.closed
    ensures var e := ServerRejects(s);
      && e.s.tempUser == s.tempUser && e.s.peer == s.peer && e.s.b.otherNonce == s.b.otherNonce
      && e.s.b.status == Rejected && e.s.b.closed
      && |e.sent| == 1 && e.sent[0].frame == Frame(SmsgLogin, None, [0x72, 0x65, 0x6A, 0])
  {
  }

  /** The packets that answer a request: two of an accepted one, "rej" otherwise. */
  lemma {:induction false} RequestAnswers(s: Server, user: Bytes, half: Bytes, echoed: Bytes, nonce: Bytes, behind: Bytes, inp: Inputs)
    requires AwaitsLogin(s) && 0 !in user && |half| == |echoed| == |nonce| == 32
    ensures var sent := ServerLogin(s, user + [0] + (half + echoed + nonce + behind), inp).sent;
      if Valid(s, user, echoed, inp) then
        && |sent| == 2
        && sent[0].frame == Frame(SmsgLogin, None, [0x61, 0x63, 0x63, 0] + nonce + inp.random)
        && sent[1].AesBox? && sent[1].key == CyclicXorOrSame(inp.random, half)
        && sent[1].frame == Frame(SmsgLogin, Some(0), LittleEndian(Dec32(FromLittleEndian(nonce[..4])), 4))
      else
        |sent| == 1 && sent[0].frame == Frame(SmsgLogin, None, [0x72, 0x65, 0x6A, 0])
  {
    RequestParsed(s, user, half, echoed, nonce, behind, inp);
    AcceptIs(Noted(s, user, nonce), user, half, nonce, inp.random);
    RejectIs(Noted(s, user, nonce));
  }

  /** A request that ends before its last part, and a proof of less than four octets, change nothing. */
  lemma {:induction false} ShortIgnored(s: Server, payload: Bytes, inp: Inputs)
    requires s.b.status == LoginStep1 ==> |AfterText(payload)| < 96
    requires s.b.status == LoginStep2 ==> |payload| < 4
    requires s.b.status != Connected
    ensures ServerLogin(s, payload, inp) == ServerEffect(s, [])
  {
  }

  /** The last step: with the right number and a free name the session is in, with its first packets; otherwise it is out. */
  lemma {:induction false} ProofIff(s: Server, n: nat, proof: Bytes, inp: Inputs)
    requires s.b.status == LoginStep2 && !s.b.closed && n < 0x1_0000_0000 && |proof| >= 4
    requires s.b.testData == (n + 0xFFFF_FFFF) % 0x1_0000_0000
    ensures var e := ServerLogin(s, proof, inp);
      var right := FromLittleEndian(proof[..4]) == (n + 0xFFFF_FFFE) % 0x1_0000_0000 && !inp.taken;
      && e.sent == []
      && e.s == s.(b := s.b.(status := if right then Authenticated else Rejected, closed := !right),
                   sendQ := if right then s.sendQ + inp.replies else s.sendQ)
  {
    assert Dec32(s.b.testData) == (n + 0xFFFF_FFFE) % 0x1_0000_0000;
  }

  /** The client's request holds its name, its half, the server's nonce and its own. */
  lemma {:induction false} RequestHolds(c: Client, payload: Bytes, half: Bytes, nonce: Bytes)
    requires c.b.status == Connected && !c.b.closed && |payload| >= 32
    ensures var e := ClientLogin(c, payload, half, nonce);
      && |e.sent| == 1
      && e.sent[0].frame == Frame(CmsgLogin, None, c.user + [0] + (half + payload[..32] + nonce))
      && e.sent[0] == HybBox(TheServer, TheUser(c.user), e.sent[0].frame)
      && e.c.b.status == LoginStep1 && e.c.b.key == half && e.c.b.myNonce == nonce && e.c.b.otherNonce == payload[..32]
  {
  }

  /** "acc" is believed exactly with the client's own nonce; anything else closes the session. */
  lemma {:induction false} AnswerIff(c: Client, word: Bytes, nonce: Bytes, half: Bytes, behind: Bytes)
    requires c.b.status == LoginStep1 && 0 !in word && |nonce| == |half| == 32 && |c.b.myNonce| == 32
    ensures var e := ClientLogin(c, word + [0] + (nonce + half + behind), [], []);
      && e.sent == []
      && (e.c.b.status == LoginStep2 <==> word == [0x61, 0x63, 0x63] && nonce == c.b.myNonce)
      && (e.c.b.status == LoginStep2 ==>
            e.c.b.enc == EncAes256 && e.c.b.key == CyclicXorOrSame(c.b.key, half) && e.c.b.idSend == e.c.b.idRecv == 0)
      && (e.c.b.status != LoginStep2 ==> e.c.b.status == Rejected && e.c.b.key == c.b.key)
      && (e.c.b.closed <==> c.b.closed || word != [0x61, 0x63, 0x63])
  {
    TextRoundTrip(word, nonce + half + behind);
  }

  // ---------- the refresh ----------

  /** A new half is offered under the current key unless a switch is due, and replaces one offered before. */
  lemma {:induction false} OfferIff(s: Server, half: Bytes)
    ensures var e := ServerGenerateKey(s, half);
      if s.b.status == Authenticated && s.b.changeKeys != 1 then
        && e.s.b.keyTmp == half && e.s.b.changeKeys == 0 && e.s.b.key == s.b.key
        && (if s.b.closed then e.sent == []
            else |e.sent| == 1 && e.sent[0].frame.op == SmsgRefreshKey && e.sent[0].frame.payload == half)
      else e == ServerEffect(s, [])
  {
  }

  /**
   The answer to an offer: the server tells the client with an empty packet under the old key, and
   then holds the combined one.  It ignores an answer that it has not asked for, and an empty one.
   */
  lemma {:induction false} AnswerCombined(s: Server, payload: Bytes)
    requires s.b.enc == EncAes256 && s.b.nextEnc == EncUnspec && !s.b.closed && s.b.keyTmp != []
    ensures var e := ServerRefresh(s, payload);
      if s.b.changeKeys == 0 && payload != [] then
        && e.sent == [AesBox(s.b.key, Frame(SmsgRefreshKey, Some(s.b.idSend), []))]
        && e.s.b.key == e.s.b.keyTmp == CyclicXor(s.b.keyTmp, payload) && e.s.b.enc == EncAes256
        && e.s.b.idSend == e.s.b.idRecv == 0 && e.s.b.changeKeys == 2
      else e == ServerEffect(s, [])
  {
  }

  /** The client switches on an empty packet, answers one of 32 octets, and ignores every other. */
  lemma {:induction false} OfferTaken(c: Client, payload: Bytes, half: Bytes)
    requires !c.b.closed && |half| == 32
    ensures var e := ClientRefresh(c, payload, half);
      if payload == [] then
        e.sent == [] && e.c.b.key == c.b.keyTmp && e.c.b.enc == EncAes256 && e.c.b.idSend == e.c.b.idRecv == 0
      else if |payload| == 32 then
        && |e.sent| == 1 && e.sent[0].frame.op == CmsgRefreshKey && e.sent[0].frame.payload == half
        && e.c.b.keyTmp == CyclicXor(half, payload) && e.c.b.key == c.b.key
      else e == ClientEffect(c, [])
  {
  }

  // ---------- chat ----------

  /** The types that only an authenticated session may send, the null action excepted. */
  predicate ForMembers(op: Opcode) {
    && op != MsgNullAction && op != CmsgLogin && op != SmsgLogin && op != CmsgRefreshKey && op != SmsgRefreshKey
    && op != SmsgQueuePosition && op != CmsgUsersChannelList && op != SmsgUsersChannelList
  }

  /** The replies to a packet are queued exactly when an authenticated, open session may have sent it. */
  lemma {:induction false} ChatReplies(s: Server, p: Packet, inp: Inputs)
    requires p.op != CmsgLogin && p.op != CmsgRefreshKey
    ensures ServerDispatch(s, p, inp) ==
      ServerEffect(if ForMembers(p.op) && s.b.status == Authenticated && !s.b.closed
                   then s.(sendQ := s.sendQ + inp.replies) else s, [])
  {
  }

  // ---------- the name in every run ----------

  /** From the request on, the server holds the client's name, and files it under that name. */
  ghost predicate Named(sys: Sys) {
    sys.srv.b.status == LoginStep2 || sys.srv.b.status == Authenticated ==>
      sys.srv.tempUser == sys.cli.user && sys.srv.peer == sys.cli.user
  }

  /** Who the server thinks the other is, and whether the request has been accepted. */
  ghost predicate SamePeer(s: Server, t: Server) {
    && t.tempUser == s.tempUser && t.peer == s.peer
    && (t.b.status == LoginStep2 || t.b.status == Authenticated ==> s.b.status == LoginStep2 || s.b.status == Authenticated)
  }

  lemma {:induction false} HandlersKeepName(s: Server, p: Packet, inp: Inputs)
    requires p.op == CmsgLogin ==> s.b.status != LoginStep1
    ensures SamePeer(s, ServerDispatch(s, p, inp).s)
  {
  }

  lemma {:induction false} SendsKeepName(s: Server, p: Packet)
    ensures var t := ServerSend(s, p).s;
      t.tempUser == s.tempUser && t.peer == s.peer && t.b.status == s.b.status
  {
  }

  lemma {:induction false} NamedHandle(sys: Sys, inp: Inputs)
    requires Inv(sys) && Named(sys) && Allowed(sys, ServerHandle(inp))
    ensures Named(StepServerHandle(sys, inp))
  {
    if sys.srv.recvQ != [] && !sys.srv.b.closed {
      var s := sys.srv.(recvQ := sys.srv.recvQ[1..]);
      var p := sys.srv.recvQ[0];
      if p.op == CmsgLogin && s.b.status == LoginStep1 {
        NamedRequest(sys, inp);
      } else {
        HandlersKeepName(s, p, inp);
      }
    }
  }

  lemma {:induction false} NamedRequest(sys: Sys, inp: Inputs)
    requires Inv(sys) && Allowed(sys, ServerHandle(inp))
    requires sys.srv.recvQ != [] && sys.srv.recvQ[0].op == CmsgLogin && sys.srv.b.status == LoginStep1
    ensures Named(StepServerHandle(sys, inp))
  {
    RequestAwaited(sys);
    var c := sys.cli;
    var s := sys.srv.(recvQ := []);
    RequestAccepted(s, c.user, c.b.key, c.b.myNonce, inp);
    Handled(sys, Packet(CmsgLogin, LoginRequest(c.user, c.b.key, s.b.myNonce, c.b.myNonce)), inp);
  }

  lemma {:induction false} RequestAwaited(sys: Sys)
    requires Inv(sys) && sys.srv.recvQ != [] && sys.srv.b.status == LoginStep1
    ensures Requested(sys) && ValidUser(sys.cli.user)
  {
  }

  lemma {:induction false} Handled(sys: Sys, p: Packet, inp: Inputs)
    requires sys.srv.recvQ == [p] && !sys.srv.b.closed && p.op == CmsgLogin
    ensures var next := StepServerHandle(sys, inp);
      next.srv == ServerLogin(sys.srv.(recvQ := []), p.payload, inp).s && next.cli == sys.cli
  {
    assert sys.srv.recvQ[1..] == [];
  }

  lemma {:induction false} NamedStep(sys: Sys, ev: Event)
    requires Inv(sys) && Named(sys) && Allowed(sys, ev) && Step(sys, ev).Running?
    ensures Named(Step(sys, ev).sys)
  {
    if ev.ServerHandle? {
      NamedHandle(sys, ev.inp);
    } else {
      UserStays(sys, ev);
      OthersKeepName(sys, ev);
    }
  }

  lemma {:induction false} OthersKeepName(sys: Sys, ev: Event)
    requires !ev.ServerHandle? && Step(sys, ev).Running?
    ensures SamePeer(sys.srv, Step(sys, ev).sys.srv)
  {
    match ev {
      case StartLogin(inp) =>
        if sys.srv.b.status == Connected { HandlersKeepName(sys.srv, Packet(CmsgLogin, []), inp); }
      case Flush => if sys.srv.sendQ != [] { SendsKeepName(sys.srv.(sendQ := sys.srv.sendQ[1..]), sys.srv.sendQ[0]); }
      case StartRefresh(half) => OfferKeepsName(sys.srv, half);
      case ClientReceive(half, nonce) => ReceiveKeepsServer(sys, half, nonce);
      case _ =>
    }
  }

  lemma {:induction false} OfferKeepsName(s: Server, half: Bytes)
    ensures SamePeer(s, ServerGenerateKey(s, half).s)
  {
    SendsKeepName(s.(b := s.b.(keyTmp := half, changeKeys := 0)), Packet(SmsgRefreshKey, half));
  }

  lemma {:induction false} ReceiveKeepsServer(sys: Sys, half: Bytes, nonce: Bytes)
    requires StepClientReceive(sys, half, nonce).Running?
    ensures StepClientReceive(sys, half, nonce).sys.srv == sys.srv
  {
  }

  lemma {:induction false} NamedRun(sys: Sys, evs: seq<Event>)
    requires Inv(sys) && Named(sys) && AllAllowed(sys, evs)
    ensures Run(sys, evs).Running? && Named(Run(sys, evs).sys)
    ensures Run(sys, evs).sys.cli.user == sys.cli.user
    decreases |evs|
  {
    if evs != [] {
      InvStep(sys, evs[0]);
      NamedStep(sys, evs[0]);
      UserStays(sys, evs[0]);
      NamedRun(Step(sys, evs[0]).sys, evs[1..]);
    }
  }

  /** In every run, a server that has accepted the request holds the name that the client sent. */
  lemma {:induction false} NameHeld(user: Bytes, evs: seq<Event>)
    requires ValidUser(user) && AllAllowed(Initial(user), evs)
    ensures Run(Initial(user), evs).Running?
    ensures var s := Run(Initial(user), evs).sys.srv;
      s.b.status == LoginStep2 || s.b.status == Authenticated ==> s.tempUser == user && s.peer == user
  {
    assert Connecting(Initial(user));
    NamedRun(Initial(user), evs);
  }
}
