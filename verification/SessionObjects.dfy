/**
 The two session objects, whose methods assign their fields one by one.  Each
 method is proved equal to the corresponding function of Sessions, so everything
 proved there about runs holds of these objects.
 */
module SessionObjects {
  import opened Common
  import opened Wrappers
  import opened Octets
  import opened KeyXor
  import opened Opcodes
  import opened Sessions

  /** Combine two halves through the in-place Xor; an empty second half throws. */
  method Combine(data: Bytes, key: Bytes) returns (r: Bytes, thrown: bool)
    ensures thrown <==> data != [] && key == []
    ensures r == CyclicXorOrSame(data, key)
  {
    var buffer := new Octet[|data|](i requires 0 <= i < |data| => data[i]);
    assert buffer[..] == data;
    thrown := Xor(buffer, key);
    r := buffer[..];
  }

  class ServerSession {
    var status: Status
    var enc: Encryption
    var nextEnc: Encryption
    var key: Bytes
    var keyTmp: Bytes
    var changeKeys: nat
    var idSend: nat
    var idRecv: nat
    var myNonce: Bytes
    var otherNonce: Bytes
    var testData: nat
    var closed: bool
    var tempUser: Bytes
    var peer: Bytes
    var sendQueue: seq<Packet>
    var recvQueue: seq<Packet>
    var socket: seq<Wire>

    ghost function BaseView(): Base
      reads this
    {
      Base(status, enc, nextEnc, key, keyTmp, changeKeys, idSend, idRecv, myNonce, otherNonce, testData, closed)
    }

    ghost function View(): Server
      reads this
    {
      Server(BaseView(), tempUser, peer, sendQueue, recvQueue)
    }

    constructor ()
      ensures View() == Server(InitialBase(), [], [], [], []) && socket == []
    {
      status, enc, nextEnc := Connected, EncNone, EncUnspec;
      key, keyTmp, changeKeys := [], [], 0;
      idSend, idRecv := 0, 0;
      myNonce, otherNonce, testData, closed := [], [], 0, false;
      tempUser, peer, sendQueue, recvQueue, socket := [], [], [], [], [];
    }

    method SetEncryption(k: Bytes, e: Encryption)
      modifies this`key, this`enc
      ensures key == k && enc == e
    {
      key, enc := k, e;
    }

    method ResetNumbers()
      modifies this`idSend, this`idRecv
      ensures idSend == 0 && idRecv == 0
    {
      idSend, idRecv := 0, 0;
    }

    /** SendPacket: the packet waits for a network thread. */
    method QueueToSend(ps: seq<Packet>)
      modifies this`sendQueue
      ensures View() == ServerQueue(old(View()), ps)
    {
      if closed {
        return;
      }
      sendQueue := sendQueue + ps;
    }

    method SealToSocket(p: Packet)
      modifies this`idSend, this`socket
      ensures var (w, b) := Seal(old(BaseView()), TheServer, TheUser(peer), p);
        BaseView() == b && socket == old(socket) + [w]
    {
      match enc {
        case EncAes256 =>
          socket := socket + [AesBox(key, Frame(p.op, Some(idSend), p.payload))];
          idSend := (idSend + 1) % COUNTER_RANGE;
        case EncHyb =>
          socket := socket + [HybBox(TheUser(peer), TheServer, Frame(p.op, None, p.payload))];
        case _ =>
          socket := socket + [Clear(Frame(p.op, None, p.payload))];
      }
    }

    method SwitchAfterSend(op: Opcode)
      modifies this`key, this`enc, this`changeKeys, this`idSend, this`idRecv, this`nextEnc
      ensures BaseView() == AfterServerSend(old(BaseView()), op)
    {
      if op == SmsgRefreshKey && changeKeys == 1 {
        SetEncryption(keyTmp, EncAes256);
        changeKeys := 2;
        ResetNumbers();
      } else if nextEnc == EncHyb {
        enc := nextEnc;
        nextEnc := EncUnspec;
      }
    }

    method SendPacketToSocket(p: Packet)
      modifies this`key, this`enc, this`changeKeys, this`idSend, this`idRecv, this`nextEnc, this`socket
      ensures var e := ServerSend(old(View()), p);
        View() == e.s && socket == old(socket) + e.sent
    {
      if closed {
        return;
      }
      SealToSocket(p);
      SwitchAfterSend(p.op);
    }

    /** A network thread takes the oldest waiting packet. */
    method SendNext()
      modifies this
      ensures old(sendQueue) == [] ==> View() == old(View()) && socket == old(socket)
      ensures old(sendQueue) != [] ==>
                var e := ServerSend(old(View()).(sendQ := old(sendQueue)[1..]), old(sendQueue)[0]);
                View() == e.s && socket == old(socket) + e.sent
    {
      if sendQueue != [] {
        var p := sendQueue[0];
        sendQueue := sendQueue[1..];
        SendPacketToSocket(p);
      }
    }

    /** RecvPacketFromSocket and QueuePacket; the result says whether the packet was accepted. */
    method ReceiveFromSocket(w: Wire) returns (accepted: bool)
      requires !closed
      modifies this
      ensures var o := Open(old(View()).b, TheServer, w);
        && accepted == o.Opened?
        && View() == if o.Opened? then old(View()).(b := o.b, recvQ := old(recvQueue) + [o.p]) else old(View())
      ensures socket == old(socket)
    {
      var f := w.frame;
      match w {
        case Clear(_) =>
          accepted := enc == EncNone;
        case HybBox(to, signer, _) =>
          accepted := enc == EncHyb && to == TheServer && signer == TheUser(Text(f.payload));
        case AesBox(k, _) =>
          accepted := enc == EncAes256 && k == key && f.seqNo.Some? && f.seqNo.value >= idRecv;
          if accepted {
            idRecv := f.seqNo.value;
          }
      }
      if accepted {
        recvQueue := recvQueue + [Packet(f.op, f.payload)];
      }
    }

    method StartLogin(nonce: Bytes)
      requires status == Connected
      modifies this
      ensures var s1 := old(View()).(b := old(BaseView()).(status := LoginStep1, nextEnc := EncHyb, myNonce := nonce));
        View() == ServerQueue(s1, [Packet(SmsgLogin, nonce)]) && socket == old(socket)
    {
      status := LoginStep1;
      nextEnc := EncHyb;
      myNonce := nonce;
      QueueToSend([Packet(SmsgLogin, nonce)]);
    }

    method FinishLogin(payload: Bytes, inp: Inputs)
      requires status == LoginStep2
      modifies this
      ensures View() == ServerLogin(old(View()), payload, inp).s && socket == old(socket)
    {
      if |payload| < 4 {
        return;
      }
      if FromLittleEndian(payload[..4]) != Dec32(testData) {
        closed := true;
        status := Rejected;
      } else if !inp.taken {
        status := Authenticated;
        QueueToSend(inp.replies);
      } else {
        closed := true;
        status := Rejected;
      }
    }

    method HandleLogin(payload: Bytes, inp: Inputs)
      modifies this
      ensures var e := ServerLogin(old(View()), payload, inp);
        View() == e.s && socket == old(socket) + e.sent
    {
      match status {
        case Connected => StartLogin(inp.random);
        case LoginStep1 => HandleLoginRequest(payload, inp);
        case LoginStep2 => FinishLogin(payload, inp);
        case _ =>
      }
    }

    method HandleLoginRequest(payload: Bytes, inp: Inputs)
      requires status == LoginStep1
      modifies this
      ensures var e := ServerLoginRequest(old(View()), payload, inp);
        View() == e.s && socket == old(socket) + e.sent
    {
      var user, rest := Text(payload), AfterText(payload);
      if |rest| < KEY_SIZE + 2 * NONCE_SIZE {
        return;
      }
      var half, echoed, nonce := rest[..32], rest[32..64], rest[64..96];
      otherNonce := nonce;
      var valid := |user| <= MAX_USER_LEN;
      if valid {
        tempUser := user;
        valid := inp.known && echoed == myNonce;
      }
      assert View() == old(View()).(b := old(BaseView()).(otherNonce := nonce),
                                    tempUser := if |user| <= MAX_USER_LEN then user else old(tempUser));
      if valid {
        AcceptRequest(user, half, nonce, inp.random);
      } else {
        RejectRequest();
      }
    }

    method RejectRequest()
      modifies this
      ensures var e := ServerRejects(old(View()));
        View() == e.s && socket == old(socket) + e.sent
    {
      status := Rejected;
      SendPacketToSocket(Packet(SmsgLogin, Rejection()));
      closed := true;
    }

    method SwitchToCombined(half: Bytes, nonce: Bytes)
      requires |nonce| == NONCE_SIZE
      modifies this`key, this`enc, this`idSend, this`idRecv, this`testData
      ensures BaseView() == CombineKeys(old(BaseView()), half, nonce)
    {
      var combined, thrown := Combine(key, half);
      SetEncryption(combined, EncAes256);
      ResetNumbers();
      testData := Dec32(FromLittleEndian(nonce[..4]));
    }

    method AcceptRequest(user: Bytes, half: Bytes, nonce: Bytes, random: Bytes)
      requires |nonce| == NONCE_SIZE
      modifies this
      ensures var e := ServerAccepts(old(View()), user, half, nonce, random);
        View() == e.s && socket == old(socket) + e.sent
    {
      AnswerRequest(user, nonce, random);
      SwitchToCombined(half, nonce);
      SendPacketToSocket(Packet(SmsgLogin, LittleEndian(testData, 4)));
    }

    method AnswerRequest(user: Bytes, nonce: Bytes, random: Bytes)
      modifies this
      ensures var e := ServerAnswers(old(View()), user, nonce, random);
        View() == e.s && socket == old(socket) + e.sent
    {
      status := LoginStep2;
      peer := user;
      key := random;
      assert View() == old(View()).(b := old(View()).b.(status := LoginStep2, key := random), peer := user);
      SendPacketToSocket(Packet(SmsgLogin, Acceptance(nonce, random)));
    }

    method GenerateNewKey(half: Bytes)
      modifies this
      ensures var e := ServerGenerateKey(old(View()), half);
        View() == e.s && socket == old(socket) + e.sent
    {
      if status != Authenticated || changeKeys == 1 {
        return;
      }
      keyTmp := half;
      changeKeys := 0;
      SendPacketToSocket(Packet(SmsgRefreshKey, half));
    }

    method HandleRefreshKey(payload: Bytes)
      modifies this
      ensures var e := ServerRefresh(old(View()), payload);
        View() == e.s && socket == old(socket) + e.sent
    {
      if changeKeys != 0 {
        return;
      }
      var combined, thrown := Combine(keyTmp, payload);
      if thrown {
        return;
      }
      keyTmp := combined;
      changeKeys := 1;
      SendPacketToSocket(Packet(SmsgRefreshKey, []));
    }
  }

  class ClientSession {
    const user: Bytes
    var status: Status
    var enc: Encryption
    var key: Bytes
    var keyTmp: Bytes
    var idSend: nat
    var idRecv: nat
    var myNonce: Bytes
    var otherNonce: Bytes
    var testData: nat
    var closed: bool
    var socket: seq<Wire>

    ghost function View(): Client
      reads this
    {
      Client(Base(status, enc, EncUnspec, key, keyTmp, 0, idSend, idRecv, myNonce, otherNonce, testData, closed), user)
    }

    constructor (name: Bytes)
      ensures View() == Client(InitialBase(), name) && socket == []
    {
      user := name;
      status, enc, key, keyTmp := Connected, EncNone, [], [];
      idSend, idRecv := 0, 0;
      myNonce, otherNonce, testData, closed, socket := [], [], 0, false, [];
    }

    method SendPacketToSocket(p: Packet)
      modifies this`idSend, this`socket
      ensures var e := ClientSend(old(View()), p);
        View() == e.c && socket == old(socket) + e.sent
    {
      if closed {
        return;
      }
      match enc {
        case EncAes256 =>
          socket := socket + [AesBox(key, Frame(p.op, Some(idSend), p.payload))];
          idSend := (idSend + 1) % COUNTER_RANGE;
        case EncHyb =>
          socket := socket + [HybBox(TheServer, TheUser(user), Frame(p.op, None, p.payload))];
        case _ =>
          socket := socket + [Clear(Frame(p.op, None, p.payload))];
      }
    }

    method HandleRefreshKey(payload: Bytes, half: Bytes)
      modifies this
      ensures var e := ClientRefresh(old(View()), payload, half);
        View() == e.c && socket == old(socket) + e.sent
    {
      if |payload| == 0 {
        key, enc := keyTmp, EncAes256;
        idSend, idRecv := 0, 0;
      } else if |payload| == KEY_SIZE {
        SendPacketToSocket(Packet(CmsgRefreshKey, half));
        var combined, thrown := Combine(half, payload);
        keyTmp := combined;
      }
    }

    method HandleLogin(payload: Bytes, half: Bytes, nonce: Bytes)
      modifies this
      ensures var e := ClientLogin(old(View()), payload, half, nonce);
        View() == e.c && socket == old(socket) + e.sent
    {
      match status {
        case Connected =>
          status := LoginStep1;
          enc := EncHyb;
          key := half;
          if |payload| < NONCE_SIZE {
            return;
          }
          otherNonce := payload[..32];
          myNonce := nonce;
          SendPacketToSocket(Packet(CmsgLogin, LoginRequest(user, half, otherNonce, nonce)));
        case LoginStep1 =>
          HandleLoginAnswer(payload);
        case LoginStep2 =>
          if |payload| < 4 {
            return;
          }
          var v := FromLittleEndian(payload[..4]);
          if v != Dec32(testData) {
            closed := true;
            return;
          }
          SendPacketToSocket(Packet(CmsgLogin, LittleEndian(Dec32(v), 4)));
          status := Authenticated;
        case _ =>
      }
    }

    method HandleLoginAnswer(payload: Bytes)
      requires status == LoginStep1
      modifies this
      ensures View() == ClientLoginAnswer(old(View()), payload) && socket == old(socket)
    {
      var answer, rest := Text(payload), AfterText(payload);
      if answer == ACC {
        if |rest| < NONCE_SIZE {
          return;
        }
        if rest[..32] == myNonce {
          status := LoginStep2;
          if |rest| < NONCE_SIZE + KEY_SIZE {
            return;
          }
          var combined, thrown := Combine(key, rest[32..64]);
          key, enc := combined, EncAes256;
          idSend, idRecv := 0, 0;
        } else {
          status := Rejected;
        }
      } else {
        status := Rejected;
        closed := true;
      }
      if |myNonce| >= 4 {
        testData := FromLittleEndian(myNonce[..4]);
      }
    }
  }
}
