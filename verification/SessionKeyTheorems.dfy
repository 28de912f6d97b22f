/**
 What the invariant of SessionKeys gives: agreement on the key, progress, and the
 exact conditions under which the assumptions on the environment are needed.
 */
module SessionKeyTheorems {
  import opened Common
  import opened Wrappers
  import opened Octets
  import opened KeyXor
  import opened Opcodes
  import opened Sessions
  import opened SessionKeys

  /** Nothing is on the wires and the server has handled what it received. */
  predicate Quiet(sys: Sys) {
    sys.s2c == [] && sys.c2s == [] && sys.srv.recvQ == []
  }

  predicate BothAuthenticated(sys: Sys) {
    sys.srv.b.status == Authenticated && sys.cli.b.status == Authenticated
  }

  /** Whatever the run was, when everything has arrived the two ends hold one key and no exchange is open. */
  lemma {:induction false} QuietMeansSameKey(user: Bytes, evs: seq<Event>)
    requires ValidUser(user) && AllAllowed(Initial(user), evs)
    requires Run(Initial(user), evs).Running?
    requires var sys := Run(Initial(user), evs).sys; BothAuthenticated(sys) && Quiet(sys)
    ensures var sys := Run(Initial(user), evs).sys;
      && sys.srv.b.key == sys.cli.b.key && !sys.silent && !sys.outstanding
      && sys.cli.b.idRecv <= sys.srv.b.idSend && sys.srv.b.idRecv <= sys.cli.b.idSend
  {
    assert Connecting(Initial(user));
    InvRun(Initial(user), evs);
    QuietSteady(Run(Initial(user), evs).sys);
  }

  lemma {:induction false} QuietSteady(sys: Sys)
    requires Steady(sys) && Quiet(sys)
    ensures sys.srv.b.key == sys.cli.b.key && !sys.silent && !sys.outstanding
    ensures sys.cli.b.idRecv <= sys.srv.b.idSend && sys.srv.b.idRecv <= sys.cli.b.idSend
  {
    assert FeedAll(ClientRx(sys), sys.s2c) == Some(ClientRx(sys));
    assert Pending(sys) == [];
  }

  // ---------- progress ----------

  /** A packet to the client weighs what it can still set in motion. */
  function ClientWeight(q: seq<Wire>): nat {
    if q == [] then 0 else
    (if q[0].frame.op == SmsgRefreshKey && q[0].frame.payload != [] then 4 else 1) + ClientWeight(q[1..])
  }

  function ServerWeight(ps: seq<Packet>): nat {
    if ps == [] then 0 else (if ps[0].op == CmsgRefreshKey then 2 else 1) + ServerWeight(ps[1..])
  }

  function Weight(sys: Sys): nat {
    ClientWeight(sys.s2c) + ServerWeight(Pending(sys)) + |sys.c2s|
  }

  lemma {:induction false} ClientWeightSnoc(q: seq<Wire>, w: Wire)
    ensures ClientWeight(q + [w]) == ClientWeight(q) + ClientWeight([w])
  {
    if q == [] {
      assert [] + [w] == [w];
    } else {
      assert (q + [w])[1..] == q[1..] + [w];
      ClientWeightSnoc(q[1..], w);
    }
  }

  lemma {:induction false} ServerWeightSnoc(q: seq<Packet>, p: Packet)
    ensures ServerWeight(q + [p]) == ServerWeight(q) + ServerWeight([p])
  {
    if q == [] {
      assert [] + [p] == [p];
    } else {
      assert (q + [p])[1..] == q[1..] + [p];
      ServerWeightSnoc(q[1..], p);
    }
  }

  /** The counters leave room for the answers that are still to come. */
  predicate Slack(sys: Sys) {
    var rx := FeedAll(ClientRx(sys), sys.s2c);
    && Room(sys.srv.b) && Room(sys.cli.b)
    && (rx.Some? && rx.value.asked.Some? ==> sys.cli.b.idSend + 2 < COUNTER_RANGE)
  }

  const Zeros: Bytes := seq(32, i => 0)

  const NoReply: Inputs := Inputs(Zeros, true, false, [])

  /** The answer a client owes weighs less than the offer it takes off the wire. */
  lemma {:induction false} WeightOfAnswer(sys: Sys, next: Sys, half: Bytes)
    requires sys.s2c != [] && sys.s2c[0].frame.op == SmsgRefreshKey && sys.s2c[0].frame.payload != []
    requires next.s2c == sys.s2c[1..] && next.srv == sys.srv
    requires exists w: Wire :: w.frame == Frame(CmsgRefreshKey, w.frame.seqNo, half) && next.c2s == sys.c2s + [w]
    ensures Weight(next) < Weight(sys)
  {
    assert Pending(next) == Pending(sys) + [Packet(CmsgRefreshKey, half)];
    ServerWeightSnoc(Pending(sys), Packet(CmsgRefreshKey, half));
  }

  lemma {:induction false} SlackAfterAnswer(sys: Sys, half: Bytes, nonce: Bytes, next: Sys)
    requires Steady(sys) && Slack(sys) && ClientCanOpen(sys) && |half| == KEY_SIZE && |nonce| == NONCE_SIZE
    requires sys.s2c[0].frame.op == SmsgRefreshKey && |sys.s2c[0].frame.payload| == KEY_SIZE
    requires Step(sys, ClientReceive(half, nonce)) == Running(next)
    ensures Slack(next) && Weight(next) < Weight(sys)
  {
    ClientAnswers(sys, half, nonce);
    var rx1 := Feed(ClientRx(sys), sys.s2c[0]).value;
    FeedKeepsKey(rx1, next.s2c);
    FeedAfterAnswer(rx1, next.s2c, next.cli.b.keyTmp);
    assert ClientRx(next) == rx1.(tmp := Some(next.cli.b.keyTmp), asked := None);
    WeightOfAnswer(sys, next, half);
  }

  lemma {:induction false} DeliverToClient(sys: Sys, half: Bytes, nonce: Bytes)
    requires Steady(sys) && Slack(sys) && sys.s2c != [] && |half| == KEY_SIZE && |nonce| == NONCE_SIZE
    ensures var ev := ClientReceive(half, nonce);
      && Allowed(sys, ev) && Step(sys, ev).Running?
      && var next := Step(sys, ev).sys;
      Steady(next) && Slack(next) && Weight(next) < Weight(sys)
  {
    SteadyClientReceive(sys, half, nonce);
    var f := sys.s2c[0].frame;
    var next := Step(sys, ClientReceive(half, nonce)).sys;
    if f.op == SmsgRefreshKey && f.payload != [] {
      SlackAfterAnswer(sys, half, nonce, next);
    } else {
      if f.op == SmsgRefreshKey {
        ClientSwitches(sys, half, nonce);
      } else {
        ClientReads(sys, half, nonce);
      }
      assert Pending(next) == Pending(sys);
      assert Feed(ClientRx(sys), sys.s2c[0]) == Some(ClientRx(next));
    }
  }

  lemma {:induction false} DeliverToServer(sys: Sys)
    requires Steady(sys) && Slack(sys) && sys.c2s != []
    ensures var ev := ServerReceive;
      && Allowed(sys, ev) && Step(sys, ev).Running?
      && var next := Step(sys, ev).sys;
      Steady(next) && Slack(next) && Weight(next) < Weight(sys)
  {
    SteadyServerReceive(sys);
    ServerWillOpenHead(sys);
    assert ClientRx(Step(sys, ServerReceive).sys) == ClientRx(sys);
  }

  lemma {:induction false} WeightOfSwitch(sys: Sys, half: Bytes, inp: Inputs)
    requires Steady(sys) && Slack(sys) && sys.srv.recvQ == [Packet(CmsgRefreshKey, half)] && |half| == KEY_SIZE
    requires sys.c2s == [] && sys.srv.b.changeKeys == 0 && |sys.srv.b.keyTmp| == KEY_SIZE
    requires FeedAll(ClientRx(sys), sys.s2c).value.tmp.Some?
    ensures var next := StepServerHandle(sys, inp);
      Slack(next) && Weight(next) < Weight(sys)
  {
    var next := StepServerHandle(sys, inp);
    AnswerHandled(sys, inp, half);
    ClientWeightSnoc(sys.s2c, next.s2c[|sys.s2c|]);
    ClientWillOpenSnoc(sys, Packet(SmsgRefreshKey, []));
    FeedSilent(ClientRx(sys), sys.s2c);
    assert ClientRx(next) == ClientRx(sys);
    assert Pending(next) == [];
    assert Pending(sys) == sys.srv.recvQ;
  }

  lemma {:induction false} WeightOfChat(sys: Sys, inp: Inputs)
    requires Steady(sys) && Slack(sys) && sys.srv.recvQ != [] && ClientChatOp(sys.srv.recvQ[0].op) && AllServerChat(inp.replies)
    ensures var next := StepServerHandle(sys, inp);
      Slack(next) && Weight(next) < Weight(sys)
  {
    var next := StepServerHandle(sys, inp);
    ChatHandled(sys.srv.(recvQ := sys.srv.recvQ[1..]), sys.srv.recvQ[0], inp);
    assert next.s2c == sys.s2c + [] == sys.s2c;
    assert ClientRx(next) == ClientRx(sys);
    assert Pending(sys)[0] == sys.srv.recvQ[0];
    assert Pending(next) == Pending(sys)[1..];
  }

  lemma {:induction false} HandleOne(sys: Sys, inp: Inputs)
    requires Steady(sys) && Slack(sys) && sys.srv.recvQ != [] && Allowed(sys, ServerHandle(inp))
    ensures Step(sys, ServerHandle(inp)).Running?
    ensures var next := StepServerHandle(sys, inp);
      Steady(next) && Slack(next) && Weight(next) < Weight(sys)
  {
    SteadyHandle(sys, inp);
    if ClientChatOp(sys.srv.recvQ[0].op) {
      WeightOfChat(sys, inp);
    } else {
      AnswerIsAlone(sys);
      WeightOfSwitch(sys, sys.srv.recvQ[0].payload, inp);
    }
  }

  /** A step that moves something already in flight; a server that handles a packet may queue new ones. */
  predicate Delivers(sys: Sys, ev: Event) {
    match ev
    case ClientReceive(half, nonce) => sys.s2c != []
    case ServerReceive => sys.c2s != []
    case ServerHandle(inp) => sys.srv.recvQ != []
    case _ => false
  }

  /** Every delivery brings the two ends nearer to quiet. */
  lemma {:induction false} DeliveryLowers(sys: Sys, ev: Event)
    requires Steady(sys) && Slack(sys) && Delivers(sys, ev) && Allowed(sys, ev)
    ensures Step(sys, ev).Running?
    ensures var next := Step(sys, ev).sys;
      Steady(next) && Slack(next) && Weight(next) < Weight(sys)
  {
    match ev {
      case ClientReceive(half, nonce) => DeliverToClient(sys, half, nonce);
      case ServerReceive => DeliverToServer(sys);
      case ServerHandle(inp) => HandleOne(sys, inp);
    }
  }

  ghost predicate AllDeliver(sys: Sys, evs: seq<Event>)
    decreases |evs|
  {
    evs == [] ||
    (Delivers(sys, evs[0]) && Allowed(sys, evs[0]) &&
     (Step(sys, evs[0]).Running? ==> AllDeliver(Step(sys, evs[0]).sys, evs[1..])))
  }

  /**
   Progress: from every reachable authenticated state, every schedule of deliveries ends
   after at most Weight steps, and when nothing is left to deliver both ends hold the
   same key and no exchange is open.
   */
  lemma {:induction false} Settles(sys: Sys, evs: seq<Event>)
    requires Steady(sys) && Slack(sys) && AllDeliver(sys, evs)
    ensures Run(sys, evs).Running? && |evs| <= Weight(sys)
    ensures var last := Run(sys, evs).sys;
      && Steady(last) && Slack(last)
      && ((forall ev: Event :: !(Delivers(last, ev) && Allowed(last, ev))) ==>
            Quiet(last) && last.srv.b.key == last.cli.b.key && !last.silent && !last.outstanding)
    decreases |evs|
  {
    if evs == [] {
      SomeDelivery(sys);
      if Quiet(sys) {
        QuietSteady(sys);
      }
    } else {
      DeliveryLowers(sys, evs[0]);
      Settles(Step(sys, evs[0]).sys, evs[1..]);
    }
  }

  /** Unless both ends are quiet, some delivery is possible. */
  lemma {:induction false} SomeDelivery(sys: Sys)
    requires Slack(sys)
    ensures Quiet(sys) || exists ev: Event :: Delivers(sys, ev) && Allowed(sys, ev)
  {
    if sys.s2c != [] {
      assert Delivers(sys, ClientReceive(Zeros, Zeros)) && Allowed(sys, ClientReceive(Zeros, Zeros));
    } else if sys.c2s != [] {
      assert Delivers(sys, ServerReceive) && Allowed(sys, ServerReceive);
    } else if sys.srv.recvQ != [] {
      assert Delivers(sys, ServerHandle(NoReply)) && Allowed(sys, ServerHandle(NoReply));
    }
  }

  // ---------- the login ----------

  lemma {:induction false} RunAppend(sys: Sys, a: seq<Event>, b: seq<Event>)
    requires Run(sys, a).Running?
    ensures Run(sys, a + b) == Run(Run(sys, a).sys, b)
    decreases |a|
  {
    if a == [] {
      assert [] + b == b;
    } else {
      assert (a + b)[1..] == a[1..] + b;
      RunAppend(Step(sys, a[0]).sys, a[1..], b);
    }
  }

  /** M1 and M2: the server's nonce goes out, the client's request comes back. */
  function FirstHalf(ns: Bytes, xc: Bytes, nc: Bytes): seq<Event> {
    [StartLogin(Inputs(ns, true, false, [])), Flush, ClientReceive(xc, nc), ServerReceive]
  }

  /** M3 and M4: the answer with the server's half and the two test values. */
  function SecondHalf(xs: Bytes, known: bool, taken: bool): seq<Event> {
    [ServerHandle(Inputs(xs, known, taken, [])), ClientReceive([], []), ClientReceive([], []), ServerReceive,
     ServerHandle(Inputs([], known, taken, []))]
  }

  function AfterRequest(user: Bytes, ns: Bytes, xc: Bytes, nc: Bytes): Sys {
    var srv := Server(InitialBase().(status := LoginStep1, enc := EncHyb, myNonce := ns), [], [], [],
                      [Packet(CmsgLogin, LoginRequest(user, xc, ns, nc))]);
    var cli := Client(InitialBase().(status := LoginStep1, enc := EncHyb, key := xc, otherNonce := ns, myNonce := nc), user);
    Sys(srv, cli, [], [], false, false)
  }

  lemma {:induction false} RunFour(s5: Sys, s6: Sys, s7: Sys, s8: Sys, s9: Sys, evs: seq<Event>)
    requires |evs| == 4
    requires Step(s5, evs[0]) == Running(s6) && Step(s6, evs[1]) == Running(s7)
    requires Step(s7, evs[2]) == Running(s8) && Step(s8, evs[3]) == Running(s9)
    ensures Run(s5, evs) == Running(s9)
  {
    assert Run(s5, evs) == Run(s6, evs[1..]);
    assert Run(s6, evs[1..]) == Run(s7, evs[1..][1..]);
    assert Run(s7, evs[1..][1..]) == Run(s8, evs[1..][1..][1..]);
    assert evs[1..][1..][1..][1..] == [];
    assert Run(s8, evs[1..][1..][1..]) == Run(s9, []);
  }

  lemma {:induction false} RequestArrives(sys: Sys, user: Bytes, ns: Bytes, xc: Bytes, nc: Bytes)
    requires 0 !in user && |ns| == |xc| == |nc| == 32
    requires sys == Sys(Server(InitialBase().(status := LoginStep1, enc := EncHyb, myNonce := ns), [], [], [], []),
                        Client(InitialBase(), user), [Clear(Frame(SmsgLogin, None, ns))], [], false, false)
    ensures var request := LoginRequest(user, xc, ns, nc);
      && var cli := Client(InitialBase().(status := LoginStep1, enc := EncHyb, key := xc, otherNonce := ns, myNonce := nc), user);
      && var next := sys.(cli := cli, s2c := [], c2s := [HybBox(TheServer, TheUser(user), Frame(CmsgLogin, None, request))]);
      && StepClientReceive(sys, xc, nc) == Running(next)
      && StepServerReceive(next) == Running(next.(srv := sys.srv.(recvQ := [Packet(CmsgLogin, request)]), c2s := []))
  {
    RequestFields(user, xc, ns, nc);
    RequestSent(sys, user, ns, xc, nc);
    RequestRead(StepClientReceive(sys, xc, nc).sys, LoginRequest(user, xc, ns, nc));
  }

  lemma {:induction false} RequestSent(sys: Sys, user: Bytes, ns: Bytes, xc: Bytes, nc: Bytes)
    requires |ns| == |xc| == |nc| == 32
    requires sys.cli == Client(InitialBase(), user) && !sys.silent
    requires sys.s2c == [Clear(Frame(SmsgLogin, None, ns))] && sys.c2s == []
    ensures var cli := Client(InitialBase().(status := LoginStep1, enc := EncHyb, key := xc, otherNonce := ns, myNonce := nc), user);
      StepClientReceive(sys, xc, nc) == Running(sys.(cli := cli, s2c := [],
        c2s := [HybBox(TheServer, TheUser(user), Frame(CmsgLogin, None, LoginRequest(user, xc, ns, nc)))]))
  {
    assert ns[..32] == ns;
    assert sys.s2c[1..] == [];
  }

  lemma {:induction false} FirstHalfRuns(user: Bytes, ns: Bytes, xc: Bytes, nc: Bytes)
    requires 0 !in user && |ns| == |xc| == |nc| == 32
    ensures Run(Initial(user), FirstHalf(ns, xc, nc)) == Running(AfterRequest(user, ns, xc, nc))
  {
    var s1 := Step(Initial(user), FirstHalf(ns, xc, nc)[0]).sys;
    var s2 := Step(s1, Flush).sys;
    RequestArrives(s2, user, ns, xc, nc);
    var s3 := StepClientReceive(s2, xc, nc).sys;
    RunFour(Initial(user), s1, s2, s3, AfterRequest(user, ns, xc, nc), FirstHalf(ns, xc, nc));
  }

  lemma {:induction false} RequestRefused(s: Server, user: Bytes, half: Bytes, nonce: Bytes, inp: Inputs)
    requires AwaitsRequest(s) && 0 !in user && |half| == |nonce| == 32
    requires |user| > MAX_USER_LEN || !inp.known
    ensures var e := ServerLogin(s, LoginRequest(user, half, s.b.myNonce, nonce), inp);
      e.s.b.status == Rejected && e.s.b.closed
  {
    RequestFields(user, half, s.b.myNonce, nonce);
  }

  /**
   The rejection is addressed to the key file of the empty name, which is brought up to
   date on the accepting path only: whoever is rejected can read it only under that name.
   */
  lemma {:induction false} RejectionReadIff(s: Server, user: Bytes, half: Bytes, echoed: Bytes, nonce: Bytes, inp: Inputs, c: Client)
    requires AwaitsRequest(s) && 0 !in user && |half| == |echoed| == |nonce| == 32
    requires !(|user| <= MAX_USER_LEN && inp.known && echoed == s.b.myNonce)
    requires AwaitsAnswer(c) && c.user == user
    ensures var sent := ServerLogin(s, LoginRequest(user, half, echoed, nonce), inp).sent;
      |sent| == 1 && (Open(c.b, TheUser(user), sent[0]).Opened? <==> user == [])
  {
    RequestRejected(s, user, half, echoed, nonce, inp);
    RejectionOpens(c, user);
  }

  lemma {:induction false} RequestRejected(s: Server, user: Bytes, half: Bytes, echoed: Bytes, nonce: Bytes, inp: Inputs)
    requires AwaitsRequest(s) && 0 !in user && |half| == |echoed| == |nonce| == 32
    requires !(|user| <= MAX_USER_LEN && inp.known && echoed == s.b.myNonce)
    ensures ServerLogin(s, LoginRequest(user, half, echoed, nonce), inp).sent == [RejectionBox()]
  {
    RequestFields(user, half, echoed, nonce);
    RejectionSealed(s.(b := s.b.(otherNonce := nonce), tempUser := if |user| <= MAX_USER_LEN then user else s.tempUser));
  }

  function RejectionBox(): Wire {
    HybBox(TheUser([]), TheServer, Frame(SmsgLogin, None, Rejection()))
  }

  lemma {:induction false} RejectionOpens(c: Client, user: Bytes)
    requires c.b.enc == EncHyb
    ensures Open(c.b, TheUser(user), RejectionBox()).Opened? <==> user == []
  {
  }

  lemma {:induction false} RejectionSealed(s: Server)
    requires s.b.enc == EncHyb && s.peer == [] && !s.b.closed
    ensures ServerRejects(s).sent == [RejectionBox()]
  {
  }

  /**
   The test of the new key, in 32-bit arithmetic on the number N in the client's nonce: the
   client authenticates exactly on N-1 and then sends N-2, the server exactly on N-2 and a free name.
   */
  lemma {:induction false} KeyTestIff(s: Server, c: Client, n: nat, d: Bytes, r: Bytes, inp: Inputs)
    requires n < COUNTER_RANGE && |d| >= 4 && |r| >= 4
    requires c.b.status == LoginStep2 && !c.b.closed && c.b.testData == n
    requires s.b.status == LoginStep2 && !s.b.closed && s.b.testData == (n + COUNTER_RANGE - 1) % COUNTER_RANGE
    ensures var e := ClientLogin(c, d, [], []);
      && (e.c.b.status == Authenticated <==> FromLittleEndian(d[..4]) == (n + COUNTER_RANGE - 1) % COUNTER_RANGE)
      && (e.c.b.status == Authenticated ==>
            (|e.sent| == 1 && e.sent[0].frame.op == CmsgLogin && |e.sent[0].frame.payload| == 4
             && FromLittleEndian(e.sent[0].frame.payload) == (n + COUNTER_RANGE - 2) % COUNTER_RANGE))
      && (e.c.b.status != Authenticated ==> e.sent == [] && e.c.b.closed)
    ensures var t := ServerLogin(s, r, inp).s;
      t.b.status == Authenticated <==> FromLittleEndian(r[..4]) == (n + COUNTER_RANGE - 2) % COUNTER_RANGE && !inp.taken
  {
    TestValue((n + COUNTER_RANGE - 2) % COUNTER_RANGE);
    Decrements(n);
  }

  lemma {:induction false} Decrements(n: nat)
    requires n < COUNTER_RANGE
    ensures Dec32(n) == (n + COUNTER_RANGE - 1) % COUNTER_RANGE
    ensures Dec32(Dec32(n)) == (n + COUNTER_RANGE - 2) % COUNTER_RANGE
  {
  }

  lemma {:induction false} RejectedStays(sys: Sys, evs: seq<Event>)
    requires sys.srv.b.status == Rejected && sys.srv.b.closed
    ensures Run(sys, evs).Running? ==> Run(sys, evs).sys.srv.b.status == Rejected
    decreases |evs|
  {
    if evs != [] && Step(sys, evs[0]).Running? {
      RejectedStays(Step(sys, evs[0]).sys, evs[1..]);
    }
  }

  /** The server's part of M4: it opens N-2 and, unless the name is taken, authenticates. */
  lemma {:induction false} ServerFinishes(sys: Sys, nonce: Bytes, inp: Inputs)
    requires Tests(sys.srv, nonce)
    requires sys.srv.b.idRecv == 0 && sys.srv.recvQ == []
    requires sys.c2s == [AesBox(sys.srv.b.key, Frame(CmsgLogin, Some(0), LittleEndian(Dec32(sys.srv.b.testData), 4)))]
    ensures StepServerReceive(sys).Running?
    ensures var last := StepServerHandle(StepServerReceive(sys).sys, inp);
      && last.srv.b.key == sys.srv.b.key && last.cli == sys.cli
      && last.srv.b.status == (if inp.taken then Rejected else Authenticated) && last.srv.tempUser == sys.srv.tempUser
  {
    TestValue(Dec32(sys.srv.b.testData));
  }

  /**
   The handshake: for all nonces and key halves and every zero-free user name, the
   honest run ends with both ends authenticated on the key Xc xor Xs if and only if
   the name is at most 16 octets long, known, and not in use; the server then holds that name.
   */
  lemma {:induction false} HandshakeOutcome(user: Bytes, ns: Bytes, xc: Bytes, nc: Bytes, xs: Bytes, known: bool, taken: bool)
    requires 0 !in user && |ns| == |xc| == |nc| == |xs| == 32
    ensures var out := Run(Initial(user), FirstHalf(ns, xc, nc) + SecondHalf(xs, known, taken));
      && ((out.Running? && BothAuthenticated(out.sys)) <==> (|user| <= 16 && known && !taken))
      && (out.Running? && BothAuthenticated(out.sys) ==>
            out.sys.srv.b.key == out.sys.cli.b.key == CyclicXor(xc, xs) && out.sys.srv.tempUser == user)
  {
    FirstHalfRuns(user, ns, xc, nc);
    RunAppend(Initial(user), FirstHalf(ns, xc, nc), SecondHalf(xs, known, taken));
    SecondHalfRuns(AfterRequest(user, ns, xc, nc), user, ns, xc, nc, xs, known, taken);
  }

  lemma {:induction false} SecondHalfRuns(s4: Sys, user: Bytes, ns: Bytes, xc: Bytes, nc: Bytes, xs: Bytes, known: bool, taken: bool)
    requires 0 !in user && |ns| == |xc| == |nc| == |xs| == 32
    requires s4 == AfterRequest(user, ns, xc, nc)
    ensures var out := Run(s4, SecondHalf(xs, known, taken));
      && ((out.Running? && BothAuthenticated(out.sys)) <==> (|user| <= 16 && known && !taken))
      && (out.Running? && BothAuthenticated(out.sys) ==>
            out.sys.srv.b.key == out.sys.cli.b.key == CyclicXor(xc, xs) && out.sys.srv.tempUser == user)
  {
    var evs := SecondHalf(xs, known, taken);
    var s := s4.srv.(recvQ := []);
    var inp := Inputs(xs, known, taken, []);
    var e := ServerLogin(s, LoginRequest(user, xc, ns, nc), inp);
    var s5 := s4.(srv := e.s, s2c := e.sent);
    RequestDispatched(s4, LoginRequest(user, xc, ns, nc), inp);
    assert Step(s4, evs[0]) == Running(s5);
    if |user| <= MAX_USER_LEN && known {
      RequestAccepted(s, user, xc, nc, inp);
      XorCommutes(xs, xc);
      AcceptedRuns(s5, xs, CyclicXor(xc, xs), known, taken);
    } else {
      RequestRefused(s, user, xc, nc, inp);
      RejectedStays(s5, evs[1..]);
    }
    FirstStep(s4, evs, s5);
  }

  lemma {:induction false} FirstStep(sys: Sys, evs: seq<Event>, next: Sys)
    requires evs != [] && Step(sys, evs[0]) == Running(next)
    ensures Run(sys, evs) == Run(next, evs[1..])
  {
  }

  lemma {:induction false} RequestDispatched(sys: Sys, request: Bytes, inp: Inputs)
    requires sys.srv.recvQ == [Packet(CmsgLogin, request)] && !sys.srv.b.closed && sys.s2c == [] && !sys.outstanding
    ensures var e := ServerLogin(sys.srv.(recvQ := []), request, inp);
      Step(sys, ServerHandle(inp)) == Running(sys.(srv := e.s, s2c := e.sent))
  {
    var s := sys.srv.(recvQ := []);
    assert sys.srv.recvQ[1..] == [];
    var e := ServerLogin(s, request, inp);
    assert ServerDispatch(s, sys.srv.recvQ[0], inp) == e;
    assert [] + e.sent == e.sent;
  }

  lemma {:induction false} AcceptedRuns(s5: Sys, half: Bytes, key: Bytes, known: bool, taken: bool)
    requires AwaitsAnswer(s5.cli) && |half| == KEY_SIZE && key == CyclicXor(s5.cli.b.key, half)
    requires Tests(s5.srv, s5.cli.b.myNonce) && s5.srv.b.key == key && s5.srv.b.idRecv == 0 && s5.srv.recvQ == []
    requires s5.s2c == [AnswerBox(s5.cli, half), TestBox(s5.srv)] && s5.c2s == []
    ensures var out := Run(s5, SecondHalf(half, known, taken)[1..]);
      && out.Running? && (BothAuthenticated(out.sys) <==> !taken)
      && out.sys.srv.b.key == out.sys.cli.b.key == key && out.sys.srv.tempUser == s5.srv.tempUser
  {
    AnswerAccepted(s5.cli, half);
    AnswerTaken(s5, half);
    var c := ClientLoginAnswer(s5.cli, Acceptance(s5.cli.b.myNonce, half));
    var s6 := s5.(cli := c, s2c := [TestBox(s5.srv)]);
    KeyTestRuns(s5, s6, s5.cli.b.myNonce, known, taken);
  }

  lemma {:induction false} AnswerTaken(s5: Sys, half: Bytes)
    requires AwaitsAnswer(s5.cli) && |half| == KEY_SIZE
    requires s5.s2c == [AnswerBox(s5.cli, half), TestBox(s5.srv)]
    ensures Step(s5, ClientReceive([], [])) == Running(
      s5.(cli := ClientLoginAnswer(s5.cli, Acceptance(s5.cli.b.myNonce, half)), s2c := [TestBox(s5.srv)]))
  {
    AnswerOpened(s5, half, [], []);
    assert s5.s2c[1..] == [TestBox(s5.srv)];
  }

  lemma {:induction false} KeyTestRuns(s5: Sys, s6: Sys, nonce: Bytes, known: bool, taken: bool)
    requires Step(s5, ClientReceive([], [])) == Running(s6)
    requires s6.cli.b.status == LoginStep2 && s6.cli.b.enc == EncAes256 && !s6.cli.b.closed
    requires s6.cli.b.idRecv == 0 && s6.cli.b.idSend == 0 && s6.srv.b.testData == Dec32(s6.cli.b.testData)
    requires s6.cli.b.key == s6.srv.b.key && Tests(s6.srv, nonce)
    requires s6.srv.b.idRecv == 0 && s6.srv.recvQ == [] && s6.s2c == [TestBox(s6.srv)] && s6.c2s == []
    ensures var out := Run(s5, [ClientReceive([], []), ClientReceive([], []), ServerReceive,
                                ServerHandle(Inputs([], known, taken, []))]);
      && out.Running? && (BothAuthenticated(out.sys) <==> !taken)
      && out.sys.srv.b.key == out.sys.cli.b.key == s6.srv.b.key && out.sys.srv.tempUser == s6.srv.tempUser
  {
    var inp := Inputs([], known, taken, []);
    ClientProves(s6, s6.srv.b.testData, [], []);
    var s7 := StepClientReceive(s6, [], []).sys;
    ServerFinishes(s7, nonce, inp);
    KeyTestSteps(s5, s6, s7, StepServerReceive(s7).sys, inp);
  }

  lemma {:induction false} KeyTestSteps(s5: Sys, s6: Sys, s7: Sys, s8: Sys, inp: Inputs)
    requires Step(s5, ClientReceive([], [])) == Running(s6) && StepClientReceive(s6, [], []) == Running(s7)
    requires StepServerReceive(s7) == Running(s8)
    ensures Run(s5, [ClientReceive([], []), ClientReceive([], []), ServerReceive, ServerHandle(inp)])
      == Running(StepServerHandle(s8, inp))
  {
    RunFour(s5, s6, s7, s8, StepServerHandle(s8, inp),
            [ClientReceive([], []), ClientReceive([], []), ServerReceive, ServerHandle(inp)]);
  }

  // ---------- the refresh, and what its assumptions are for ----------

  /** An authenticated session at rest: one key, no exchange open, room in the counters. */
  predicate AtRest(sys: Sys) {
    && Quiet(sys) && BothAuthenticated(sys)
    && sys.srv.b.enc == EncAes256 && sys.cli.b.enc == EncAes256 && sys.srv.b.key == sys.cli.b.key
    && sys.srv.b.nextEnc == EncUnspec && !sys.srv.b.closed && !sys.cli.b.closed
    && sys.srv.b.changeKeys != 1 && !sys.silent && !sys.outstanding
    && sys.cli.b.idRecv <= sys.srv.b.idSend && sys.srv.b.idRecv <= sys.cli.b.idSend
    && sys.srv.b.idSend + 3 < COUNTER_RANGE && sys.cli.b.idSend + 2 < COUNTER_RANGE
  }

  /** From a session at rest, an offer k1 that is answered with c1 and handled by a server whose half is then k. */
  lemma {:induction false} Answered(sys: Sys, half: Bytes, answer: Bytes, inp: Inputs)
    requires |half| == |answer| == KEY_SIZE == |sys.srv.b.keyTmp|
    requires ClientCanOpen(sys) && Room(sys.cli.b) && sys.c2s == [] && sys.srv.recvQ == []
    requires sys.s2c[0].frame.op == SmsgRefreshKey && sys.s2c[0].frame.payload == half
    requires sys.srv.b.enc == EncAes256 && !sys.srv.b.closed && sys.srv.b.changeKeys == 0
    requires sys.srv.b.key == sys.cli.b.key && sys.srv.b.idRecv <= sys.cli.b.idSend
    ensures var t1 := StepClientReceive(sys, answer, Zeros);
      && t1.Running? && var t2 := StepServerReceive(t1.sys);
      && t2.Running? && var t3 := StepServerHandle(t2.sys, inp);
      && var key := CyclicXor(sys.srv.b.keyTmp, answer);
      && t3 == sys.(
          cli := sys.cli.(b := sys.cli.b.(idRecv := sys.s2c[0].frame.seqNo.value, idSend := sys.cli.b.idSend + 1,
                                          keyTmp := CyclicXor(answer, half))),
          srv := sys.srv.(b := sys.srv.b.(keyTmp := key, key := key, changeKeys := 2, idSend := 0, idRecv := 0)),
          s2c := sys.s2c[1..] + [OfferBox(sys, [])], silent := true, outstanding := false)
  {
    ClientAnswers(sys, answer, Zeros);
    var t1 := StepClientReceive(sys, answer, Zeros).sys;
    assert t1.c2s == [AesBox(sys.cli.b.key, Frame(CmsgRefreshKey, Some(sys.cli.b.idSend), answer))];
    var t2 := sys.(
      cli := t1.cli, srv := sys.srv.(b := sys.srv.b.(idRecv := sys.cli.b.idSend), recvQ := [Packet(CmsgRefreshKey, answer)]),
      s2c := t1.s2c, c2s := [], silent := true);
    assert StepServerReceive(t1) == Running(t2);
    AnswerHandled(t2, inp, answer);
  }

  /** Each refresh of a session at rest ends with both ends on the combination of the two new halves. */
  lemma {:induction false} RefreshAgrees(sys: Sys, half: Bytes, answer: Bytes, inp: Inputs)
    requires AtRest(sys) && |half| == |answer| == KEY_SIZE
    ensures var t0 := Step(sys, StartRefresh(half)).sys;
      && StepClientReceive(t0, answer, Zeros).Running?
      && var t1 := StepClientReceive(t0, answer, Zeros).sys;
      && StepServerReceive(t1).Running?
      && var t3 := StepServerHandle(StepServerReceive(t1).sys, inp);
      && StepClientReceive(t3, Zeros, Zeros).Running?
      && var last := StepClientReceive(t3, Zeros, Zeros).sys;
      && AtRest(last) && last.srv.b.key == CyclicXor(half, answer)
      && last.srv.b.idSend == last.srv.b.idRecv == last.cli.b.idSend == last.cli.b.idRecv == 0
  {
    Offer(sys, half);
    var t0 := Step(sys, StartRefresh(half)).sys;
    Answered(t0, half, answer, inp);
    var t3 := StepServerHandle(StepServerReceive(StepClientReceive(t0, answer, Zeros).sys).sys, inp);
    assert t3.s2c == [OfferBox(t0, [])];
    ClientSwitches(t3, Zeros, Zeros);
    XorCommutes(half, answer);
    assert t3.s2c[1..] == [];
  }

  /**
   One overlapping schedule, for illustration; SessionKeyGuards.SingleRefreshIff has the exact condition.
   A second refresh started before the answer to the first: the server combines the
   first answer with the second half, the client the second answer.  The two ends
   end on the same key if and only if the client happened to draw the same half twice.
   */
  lemma {:induction false} OverlappingRefreshes(sys: Sys, k1: Bytes, k2: Bytes, c1: Bytes, c2: Bytes, inp: Inputs)
    requires AtRest(sys) && |k1| == |k2| == |c1| == |c2| == KEY_SIZE
    ensures var t1 := Step(Step(sys, StartRefresh(k1)).sys, StartRefresh(k2)).sys;
      && StepClientReceive(t1, c1, Zeros).Running?
      && var t2 := StepClientReceive(t1, c1, Zeros).sys;
      && StepServerReceive(t2).Running?
      && var t4 := StepServerHandle(StepServerReceive(t2).sys, inp);
      && StepClientReceive(t4, c2, Zeros).Running?
      && var t5 := StepClientReceive(t4, c2, Zeros).sys;
      && StepClientReceive(t5, Zeros, Zeros).Running?
      && var last := StepClientReceive(t5, Zeros, Zeros).sys;
      && last.s2c == [] && (last.srv.b.key == last.cli.b.key <==> c1 == c2)
  {
    Offer(sys, k1);
    var t0 := Step(sys, StartRefresh(k1)).sys;
    Offer(t0, k2);
    var t1 := Step(t0, StartRefresh(k2)).sys;
    assert t1.s2c == [OfferBox(sys, k1), OfferBox(t0, k2)];
    Answered(t1, k1, c1, inp);
    var t4 := StepServerHandle(StepServerReceive(StepClientReceive(t1, c1, Zeros).sys).sys, inp);
    assert t4.s2c == [OfferBox(t0, k2), OfferBox(t1, [])];
    AnsweredTwice(t4, k2, c1, c2);
  }

  lemma {:induction false} AnsweredTwice(t4: Sys, k2: Bytes, c1: Bytes, c2: Bytes)
    requires |k2| == |c1| == |c2| == KEY_SIZE && ClientCanOpen(t4) && t4.cli.b.idSend + 1 < COUNTER_RANGE
    requires |t4.s2c| == 2 && t4.s2c[0].frame.op == SmsgRefreshKey && t4.s2c[0].frame.payload == k2
    requires t4.s2c[1].AesBox? && t4.s2c[1].key == t4.s2c[0].key
    requires t4.s2c[1].frame.op == SmsgRefreshKey && t4.s2c[1].frame.payload == []
    requires t4.s2c[1].frame.seqNo.Some? && t4.s2c[0].frame.seqNo.value <= t4.s2c[1].frame.seqNo.value
    requires t4.srv.b.key == CyclicXor(k2, c1)
    ensures StepClientReceive(t4, c2, Zeros).Running?
    ensures var t5 := StepClientReceive(t4, c2, Zeros).sys;
      && StepClientReceive(t5, Zeros, Zeros).Running?
      && var last := StepClientReceive(t5, Zeros, Zeros).sys;
      && last.s2c == [] && (last.srv.b.key == last.cli.b.key <==> c1 == c2)
  {
    ClientAnswers(t4, c2, Zeros);
    var t5 := StepClientReceive(t4, c2, Zeros).sys;
    assert t5.s2c == [t4.s2c[1]];
    ClientSwitches(t5, Zeros, Zeros);
    XorCommutes(k2, c1);
    XorInjective(c1, c2, k2);
  }
}
