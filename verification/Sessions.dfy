/**
 One end of a connection: its cryptographic state, sealing and opening of
 packets, and the handlers that move keys, modes and counters.

 Ciphertexts are symbolic.  A box opens only with the key and mode it was sealed
 with; nothing else is assumed of the ciphers.
 */
module Sessions {
  import opened Common
  import opened Wrappers
  import opened Octets
  import opened KeyXor
  import opened Opcodes

  const KEY_SIZE: nat := 32
  const NONCE_SIZE: nat := 32
  const COUNTER_RANGE: nat := 0x1_0000_0000

  // "acc" and "rej" with their terminators
  const ACC: Bytes := [0x61, 0x63, 0x63]
  const REJ: Bytes := [0x72, 0x65, 0x6A]

  datatype Status = Rejected | Disconnected | Connected | LoginStep1 | LoginStep2 | Authenticated

  datatype Encryption = EncUnspec | EncNone | EncAes256 | EncHyb

  datatype Packet = Packet(op: Opcode, payload: Bytes)

  /** The holder of an RSA key pair; the server keeps one public key file per user name. */
  datatype Party = TheServer | TheUser(name: Bytes)

  datatype Frame = Frame(op: Opcode, seqNo: Option<nat>, payload: Bytes)

  datatype Wire =
    | Clear(frame: Frame)
    | AesBox(key: Bytes, frame: Frame)
    | HybBox(sealedFor: Party, signedBy: Party, frame: Frame)

  /** The fields of SessionBase. */
  datatype Base = Base(
    status: Status, enc: Encryption, nextEnc: Encryption,
    key: Bytes, keyTmp: Bytes, changeKeys: nat,
    idSend: nat, idRecv: nat,
    myNonce: Bytes, otherNonce: Bytes, testData: nat, closed: bool)

  /** The server's end; peer is the name in the file name of the other's public key. */
  datatype Server = Server(b: Base, tempUser: Bytes, peer: Bytes, sendQ: seq<Packet>, recvQ: seq<Packet>)

  datatype Client = Client(b: Base, user: Bytes)

  function InitialBase(): Base {
    Base(Connected, EncNone, EncUnspec, [], [], 0, 0, 0, [], [], 0, false)
  }

  // ---------- sealing and opening ----------

  function Seal(b: Base, me: Party, other: Party, p: Packet): (Wire, Base) {
    match b.enc
    case EncAes256 =>
      (AesBox(b.key, Frame(p.op, Some(b.idSend), p.payload)), b.(idSend := (b.idSend + 1) % COUNTER_RANGE))
    case EncHyb => (HybBox(other, me, Frame(p.op, None, p.payload)), b)
    case _ => (Clear(Frame(p.op, None, p.payload)), b)
  }

  function ResetPacketNum(b: Base): Base {
    b.(idSend := 0, idRecv := 0)
  }

  /** The switch the server makes just after a packet has left. */
  function AfterServerSend(b: Base, op: Opcode): Base {
    if op == SmsgRefreshKey && b.changeKeys == 1 then
      ResetPacketNum(b.(key := b.keyTmp, enc := EncAes256, changeKeys := 2))
    else if b.nextEnc == EncHyb then
      b.(enc := EncHyb, nextEnc := EncUnspec)
    else
      b
  }

  /** Garbled: sealed with another key or mode.  Replayed: the counter test fails. */
  datatype Opened = Opened(p: Packet, b: Base) | Garbled | Replayed

  /** The server takes the signer's name from the first text of the payload. */
  function ExpectedSigner(me: Party, f: Frame): Party {
    if me == TheServer then TheUser(Text(f.payload)) else TheServer
  }

  function Open(b: Base, me: Party, w: Wire): Opened {
    match w
    case Clear(f) =>
      if b.enc == EncNone then Opened(Packet(f.op, f.payload), b) else Garbled
    case HybBox(to, signer, f) =>
      if b.enc == EncHyb && to == me && signer == ExpectedSigner(me, f)
      then Opened(Packet(f.op, f.payload), b) else Garbled
    case AesBox(k, f) =>
      if b.enc != EncAes256 || k != b.key || f.seqNo.None? then Garbled
      else if f.seqNo.value < b.idRecv then Replayed
      else Opened(Packet(f.op, f.payload), b.(idRecv := f.seqNo.value))
  }

  // ---------- the server ----------

  /** A handler's new state and the packets it put on the wire. */
  datatype ServerEffect = ServerEffect(s: Server, sent: seq<Wire>)

  function ServerSend(s: Server, p: Packet): ServerEffect {
    if s.b.closed then ServerEffect(s, []) else
    var (w, b) := Seal(s.b, TheServer, TheUser(s.peer), p);
    ServerEffect(s.(b := AfterServerSend(b, p.op)), [w])
  }

  function ServerQueue(s: Server, ps: seq<Packet>): Server {
    if s.b.closed then s else s.(sendQ := s.sendQ + ps)
  }

  /** What a handler takes from outside: random octets, the user table, the other sessions. */
  datatype Inputs = Inputs(random: Bytes, known: bool, taken: bool, replies: seq<Packet>)

  function ServerLogin(s: Server, payload: Bytes, inp: Inputs): ServerEffect {
    match s.b.status
    case Connected =>
      var s1 := s.(b := s.b.(status := LoginStep1, nextEnc := EncHyb, myNonce := inp.random));
      ServerEffect(ServerQueue(s1, [Packet(SmsgLogin, inp.random)]), [])
    case LoginStep1 => ServerLoginRequest(s, payload, inp)
    case LoginStep2 =>
      if |payload| < 4 then ServerEffect(s, [])
      else if FromLittleEndian(payload[..4]) != Dec32(s.b.testData) || inp.taken then
        ServerEffect(s.(b := s.b.(status := Rejected, closed := true)), [])
      else
        ServerEffect(ServerQueue(s.(b := s.b.(status := Authenticated)), inp.replies), [])
    case _ => ServerEffect(s, [])
  }

  function ServerLoginRequest(s: Server, payload: Bytes, inp: Inputs): ServerEffect {
    var user, rest := Text(payload), AfterText(payload);
    if |rest| < KEY_SIZE + 2 * NONCE_SIZE then ServerEffect(s, []) else
    var half, echoed, nonce := rest[..32], rest[32..64], rest[64..96];
    var s1 := s.(b := s.b.(otherNonce := nonce), tempUser := if |user| <= MAX_USER_LEN then user else s.tempUser);
    if |user| <= MAX_USER_LEN && inp.known && echoed == s.b.myNonce then
      ServerAccepts(s1, user, half, nonce, inp.random)
    else
      ServerRejects(s1)
  }

  /** Answer under the old mode, switch to the combined key, send the test value under it. */
  function ServerAccepts(s: Server, user: Bytes, half: Bytes, nonce: Bytes, random: Bytes): ServerEffect
    requires |nonce| == NONCE_SIZE
  {
    var acc := ServerAnswers(s, user, nonce, random);
    var s2 := acc.s.(b := CombineKeys(acc.s.b, half, nonce));
    var test := ServerSend(s2, Packet(SmsgLogin, LittleEndian(s2.b.testData, 4)));
    ServerEffect(test.s, acc.sent + test.sent)
  }

  function Acceptance(nonce: Bytes, half: Bytes): Bytes {
    ACC + [0] + nonce + half
  }

  function ServerAnswers(s: Server, user: Bytes, nonce: Bytes, random: Bytes): ServerEffect {
    ServerSend(s.(b := s.b.(status := LoginStep2, key := random), peer := user),
               Packet(SmsgLogin, Acceptance(nonce, random)))
  }

  function CombineKeys(b: Base, half: Bytes, nonce: Bytes): Base
    requires |nonce| == NONCE_SIZE
  {
    ResetPacketNum(b.(key := CyclicXorOrSame(b.key, half), enc := EncAes256,
                      testData := Dec32(FromLittleEndian(nonce[..4]))))
  }

  function Rejection(): Bytes {
    REJ + [0]
  }

  function ServerRejects(s: Server): ServerEffect {
    var rej := ServerSend(s.(b := s.b.(status := Rejected)), Packet(SmsgLogin, Rejection()));
    ServerEffect(rej.s.(b := rej.s.b.(closed := true)), rej.sent)
  }

  /** Xor, where an empty second half throws and leaves the first as it was. */
  function CyclicXorOrSame(data: Bytes, key: Bytes): (r: Bytes)
    ensures |r| == |data|
  {
    if key == [] then data else CyclicXor(data, key)
  }

  /** The timer has passed: offer a new half. */
  function ServerGenerateKey(s: Server, half: Bytes): ServerEffect {
    if s.b.status != Authenticated || s.b.changeKeys == 1 then ServerEffect(s, []) else
    ServerSend(s.(b := s.b.(keyTmp := half, changeKeys := 0)), Packet(SmsgRefreshKey, half))
  }

  function ServerRefresh(s: Server, payload: Bytes): ServerEffect {
    if s.b.changeKeys != 0 || (payload == [] && s.b.keyTmp != []) then ServerEffect(s, []) else
    var tmp := CyclicXorOrSame(s.b.keyTmp, payload);
    ServerSend(s.(b := s.b.(keyTmp := tmp, changeKeys := 1)), Packet(SmsgRefreshKey, []))
  }

  function ServerDispatch(s: Server, p: Packet, inp: Inputs): ServerEffect {
    match p.op
    case CmsgLogin => ServerLogin(s, p.payload, inp)
    case CmsgRefreshKey => ServerRefresh(s, p.payload)
    case op =>
      if ServerRequirement(op) == Logged && s.b.status == Authenticated
      then ServerEffect(ServerQueue(s, inp.replies), []) else ServerEffect(s, [])
  }

  // ---------- the client ----------

  datatype ClientEffect = ClientEffect(c: Client, sent: seq<Wire>)

  function ClientSend(c: Client, p: Packet): ClientEffect {
    if c.b.closed then ClientEffect(c, []) else
    var (w, b) := Seal(c.b, TheUser(c.user), TheServer, p);
    ClientEffect(c.(b := b), [w])
  }

  function LoginRequest(user: Bytes, half: Bytes, echoed: Bytes, nonce: Bytes): Bytes {
    user + [0] + (half + echoed + nonce)
  }

  /** half and nonce are the client's random octets. */
  function ClientLogin(c: Client, payload: Bytes, half: Bytes, nonce: Bytes): ClientEffect {
    match c.b.status
    case Connected =>
      var c1 := c.(b := c.b.(status := LoginStep1, enc := EncHyb, key := half));
      if |payload| < NONCE_SIZE then ClientEffect(c1, []) else
      var c2 := c1.(b := c1.b.(otherNonce := payload[..32], myNonce := nonce));
      ClientSend(c2, Packet(CmsgLogin, LoginRequest(c.user, half, payload[..32], nonce)))
    case LoginStep1 => ClientEffect(ClientLoginAnswer(c, payload), [])
    case LoginStep2 =>
      if |payload| < 4 then ClientEffect(c, []) else
      var v := FromLittleEndian(payload[..4]);
      if v != Dec32(c.b.testData) then ClientEffect(c.(b := c.b.(closed := true)), []) else
      var r := ClientSend(c, Packet(CmsgLogin, LittleEndian(Dec32(v), 4)));
      ClientEffect(r.c.(b := r.c.b.(status := Authenticated)), r.sent)
    case _ => ClientEffect(c, [])
  }

  function ClientLoginAnswer(c: Client, payload: Bytes): Client {
    var answer, rest := Text(payload), AfterText(payload);
    if answer != ACC then
      LoadTest(c.(b := c.b.(status := Rejected, closed := true)))
    else if |rest| < NONCE_SIZE then c
    else if rest[..32] != c.b.myNonce then
      LoadTest(c.(b := c.b.(status := Rejected)))
    else if |rest| < NONCE_SIZE + KEY_SIZE then
      c.(b := c.b.(status := LoginStep2))
    else
      LoadTest(c.(b := ResetPacketNum(c.b.(status := LoginStep2, enc := EncAes256,
                                           key := CyclicXorOrSame(c.b.key, rest[32..64])))))
  }

  /** The test value is the first four octets of the client's own nonce. */
  function LoadTest(c: Client): Client {
    if |c.b.myNonce| < 4 then c else c.(b := c.b.(testData := FromLittleEndian(c.b.myNonce[..4])))
  }

  function ClientRefresh(c: Client, payload: Bytes, half: Bytes): ClientEffect {
    if |payload| == 0 then
      ClientEffect(c.(b := ResetPacketNum(c.b.(key := c.b.keyTmp, enc := EncAes256))), [])
    else if |payload| == KEY_SIZE then
      var r := ClientSend(c, Packet(CmsgRefreshKey, half));
      ClientEffect(r.c.(b := r.c.b.(keyTmp := CyclicXorOrSame(half, payload))), r.sent)
    else
      ClientEffect(c, [])
  }

  function ClientDispatch(c: Client, p: Packet, half: Bytes, nonce: Bytes): ClientEffect {
    match p.op
    case SmsgLogin => ClientLogin(c, p.payload, half, nonce)
    case SmsgRefreshKey => ClientRefresh(c, p.payload, half)
    case _ => ClientEffect(c, [])
  }
}
