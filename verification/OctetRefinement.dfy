/**
 The symbolic packets of Sessions and the octets of Frames and Hybrid are one protocol:
 what a session makes of a packet is what it makes of the octets that stand for it.
 */
module OctetRefinement {
  import opened Wrappers
  import opened Octets
  import opened Opcodes
  import Sessions
  import opened Wires
  import opened Frames
  import Hybrid

  /** The name under which a key pair is filed; no user name holds a zero octet. */
  function Owner(p: Sessions.Party): Bytes {
    match p
    case TheServer => [0]
    case TheUser(name) => name
  }

  predicate ValidParty(p: Sessions.Party) {
    p.TheUser? ==> 0 !in p.name
  }

  function ContentOf(f: Sessions.Frame): Content {
    Content(Code(f.op), f.payload)
  }

  function MessageOf(f: Sessions.Frame, time: nat, swap: bool): Bytes {
    Incapsulated(ContentOf(f), time, f.seqNo, swap)
  }

  /** The octets behind the length; secret is the random key of a hybrid envelope. */
  function BodyOf(w: Sessions.Wire, time: nat, secret: Bytes, swap: bool): Wired {
    match w
    case Clear(f) => Raws(MessageOf(f, time, swap))
    case AesBox(key, f) => AesSeal(key, Raws(MessageOf(f, time, swap)))
    case HybBox(reader, signer, f) => Hybrid.Envelope(Raws(MessageOf(f, time, swap)), Owner(signer), Owner(reader), secret)
  }

  function OctetsOf(w: Sessions.Wire, time: nat, secret: Bytes, swap: bool): Wired {
    var body := BodyOf(w, time, secret, swap);
    Raws(LittleEndian(|body| % Two16, 2)) + body
  }

  /** A counter under AES only, and a payload that no mode makes too long. */
  predicate ValidWire(w: Sessions.Wire) {
    && |w.frame.payload| <= 63943
    && (match w
        case Clear(f) => f.seqNo.None?
        case AesBox(key, f) => AesKey(key) && f.seqNo.Some? && f.seqNo.value < Two32
        case HybBox(reader, signer, f) => f.seqNo.None? && ValidParty(reader) && ValidParty(signer))
  }

  /** What the receiver makes of a body in its current mode. */
  function OpenedBody(b: Sessions.Base, me: Sessions.Party, body: Wired, now: nat, swap: bool): Outcome {
    match b.enc
    case EncAes256 => Opened(Symmetric(b.key), body, b.idRecv, now, swap)
    case EncHyb =>
      var d := if me == Sessions.TheServer then Hybrid.ServerOpens(body, Owner(me))
               else Hybrid.ClientOpens(body, Owner(me), Owner(Sessions.TheServer));
      if d.Plaintext? then Decapsulated(d.packet, false, b.idRecv, now, swap) else Unreadable
    case _ => Opened(Open, body, b.idRecv, now, swap)
  }

  /** One packet from the front of the stream, in any mode. */
  function ReceiveIn(b: Sessions.Base, me: Sessions.Party, stream: Wired, now: nat, swap: bool): Received {
    if |stream| < 2 || !AllRaw(stream[..2]) then Incomplete
    else
      var len := FromLittleEndian(Plain(stream[..2]));
      if len > MaxFrame then Received(TooLong, stream[2..])
      else if |stream| < 2 + len then Incomplete
      else if len == 0 then Received(Delivered(Content(0, []), b.idRecv), stream[2..])
      else Received(OpenedBody(b, me, stream[2..2 + len], now, swap), stream[2 + len..])
  }

  /** The octet-level verdict says the same as the symbolic one. */
  ghost predicate Agrees(o: Sessions.Opened, outcome: Outcome) {
    match o
    case Opened(p, b) => outcome == Delivered(Content(Code(p.op), p.payload), b.idRecv)
    case Replayed => outcome == Outcome.Replayed
    case Garbled => outcome == Unreadable
  }

  // ---------- sizes ----------

  lemma {:induction false} BodySize(w: Sessions.Wire, time: nat, secret: Bytes, swap: bool)
    requires ValidWire(w)
    ensures 0 < |BodyOf(w, time, secret, swap)| <= MaxFrame
  {
    match w {
      case Clear(f) =>
      case AesBox(key, f) => FrameBounds(|f.payload|);
      case HybBox(reader, signer, f) =>
        Hybrid.EnvelopeBound(ContentOf(f), time, Owner(signer), Owner(reader), secret, swap);
    }
  }

  // ---------- each packet under each mode ----------

  lemma {:induction false} InClear(b: Sessions.Base, me: Sessions.Party, w: Sessions.Wire, time: nat, secret: Bytes, now: nat, swap: bool)
    requires b.enc == Sessions.EncNone && ValidWire(w) && time < Two32 && Fresh(time, now)
    ensures Agrees(Sessions.Open(b, me, w), OpenedBody(b, me, BodyOf(w, time, secret, swap), now, swap))
  {
    var body := BodyOf(w, time, secret, swap);
    match w {
      case Clear(f) =>
        DecapsulateBack(ContentOf(f), time, None, [], b.idRecv, now, swap);
        assert body + [] == body;
      case AesBox(key, f) =>
        assert !body[..8][0].Raw?;
      case HybBox(reader, signer, f) =>
        assert !body[..8][0].Raw?;
    }
  }

  lemma {:induction false} UnderAes(b: Sessions.Base, me: Sessions.Party, w: Sessions.Wire, time: nat, secret: Bytes, now: nat, swap: bool)
    requires b.enc == Sessions.EncAes256 && ValidWire(w) && time < Two32 && Fresh(time, now)
    ensures Agrees(Sessions.Open(b, me, w), OpenedBody(b, me, BodyOf(w, time, secret, swap), now, swap))
  {
    var body := BodyOf(w, time, secret, swap);
    match w {
      case Clear(f) =>
        assert body[0].Raw?;
      case AesBox(key, f) =>
        var message := Raws(MessageOf(f, time, swap));
        assert body[0] == Aes(key, message, 0);
        if key == b.key {
          DecapsulateBack(ContentOf(f), time, f.seqNo, [], b.idRecv, now, swap);
          assert message + [] == message;
        } else {
          assert AesSeal(b.key, message)[0] == Aes(b.key, message, 0);
        }
      case HybBox(reader, signer, f) =>
        assert body[0].Rsa?;
    }
  }

  lemma {:induction false} InHybrid(b: Sessions.Base, me: Sessions.Party, w: Sessions.Wire, time: nat, secret: Bytes, now: nat, swap: bool)
    requires b.enc == Sessions.EncHyb && ValidWire(w) && ValidParty(me) && time < Two32 && Fresh(time, now) && AesKey(secret)
    ensures Agrees(Sessions.Open(b, me, w), OpenedBody(b, me, BodyOf(w, time, secret, swap), now, swap))
  {
    var body := BodyOf(w, time, secret, swap);
    if w.HybBox? {
      if w.sealedFor == me {
        SignedFor(b, me, w, time, secret, now, swap);
      } else {
        NotFor(Raws(MessageOf(w.frame, time, swap)), Owner(w.signedBy), Owner(w.sealedFor), secret, Owner(me));
      }
    } else {
      NoEnvelope(body, Owner(me));
    }
  }

  lemma {:induction false} NoEnvelope(body: Wired, me: Bytes)
    requires body != [] && !body[0].Rsa?
    ensures !Hybrid.SplitOpened(body, me).Split?
  {
    if |body| > RsaBlock {
      assert body[..RsaBlock][0] == body[0];
    }
  }

  lemma {:induction false} NotFor(message: Wired, signer: Bytes, reader: Bytes, secret: Bytes, me: Bytes)
    requires reader != me
    ensures !Hybrid.SplitOpened(Hybrid.Envelope(message, signer, reader, secret), me).Split?
  {
    var w := Hybrid.Envelope(message, signer, reader, secret);
    assert w[..RsaBlock] == RsaSeal(reader, secret);
    assert w[..RsaBlock][0] == Rsa(reader, secret, 0);
    assert RsaSeal(me, secret)[0] == Rsa(me, secret, 0);
  }

  /** Sealed for the receiver: what counts is who signed. */
  lemma {:induction false} SignedFor(b: Sessions.Base, me: Sessions.Party, w: Sessions.Wire, time: nat, secret: Bytes, now: nat, swap: bool)
    requires b.enc == Sessions.EncHyb && ValidWire(w) && w.HybBox? && w.sealedFor == me
    requires time < Two32 && Fresh(time, now) && AesKey(secret)
    ensures Agrees(Sessions.Open(b, me, w), OpenedBody(b, me, BodyOf(w, time, secret, swap), now, swap))
  {
    var f := w.frame;
    var message := Raws(MessageOf(f, time, swap));
    var signature := Signature(Owner(w.signedBy), message);
    Hybrid.SplitBack(message, Owner(w.signedBy), Owner(me), secret);
    DecapsulateBack(ContentOf(f), time, None, signature, b.idRecv, now, swap);
    var expected := Sessions.ExpectedSigner(me, f);
    SignerNamed(f, time, swap);
    TextStops(f.payload);
    SignatureInjective(Owner(w.signedBy), message, Owner(expected), message);
  }

  lemma {:induction false} SignerNamed(f: Sessions.Frame, time: nat, swap: bool)
    requires f.seqNo.None?
    ensures var message := Raws(MessageOf(f, time, swap));
      |message| >= 8 && Hybrid.NamedSigner(message) == Some(Text(f.payload))
  {
    var m := MessageOf(f, time, swap);
    PlainRaws(m);
    assert m[8..] == f.payload;
  }

  // ---------- main result ----------

  /**
   In every mode, whatever follows on the stream: the octets of a packet give the same
   verdict as the packet, the same content and counter, and leave the rest of the stream.
   */
  lemma {:induction false} OctetsRefine(b: Sessions.Base, me: Sessions.Party, w: Sessions.Wire, rest: Wired, time: nat, secret: Bytes, now: nat, swap: bool)
    requires ValidWire(w) && ValidParty(me) && b.enc != Sessions.EncUnspec
    requires time < Two32 && Fresh(time, now) && AesKey(secret)
    ensures var r := ReceiveIn(b, me, OctetsOf(w, time, secret, swap) + rest, now, swap);
      r.Received? && r.rest == rest && Agrees(Sessions.Open(b, me, w), r.outcome)
  {
    var body := BodyOf(w, time, secret, swap);
    BodySize(w, time, secret, swap);
    BodyReceived(b, me, body, rest, now, swap);
    match b.enc {
      case EncAes256 => UnderAes(b, me, w, time, secret, now, swap);
      case EncHyb => InHybrid(b, me, w, time, secret, now, swap);
      case _ => InClear(b, me, w, time, secret, now, swap);
    }
  }

  lemma {:induction false} BodyReceived(b: Sessions.Base, me: Sessions.Party, body: Wired, rest: Wired, now: nat, swap: bool)
    requires 0 < |body| <= MaxFrame
    ensures ReceiveIn(b, me, Raws(LittleEndian(|body| % Two16, 2)) + body + rest, now, swap)
      == Received(OpenedBody(b, me, body, now, swap), rest)
  {
    FrameSplits(body, rest);
  }

  /** And what a session seals is such a packet, with the counter that the frame carries. */
  lemma {:induction false} SealedIsValid(b: Sessions.Base, me: Sessions.Party, other: Sessions.Party, p: Sessions.Packet, time: nat, secret: Bytes, swap: bool)
    requires ValidParty(me) && ValidParty(other) && |p.payload| <= 63943
    requires b.enc == Sessions.EncAes256 ==> AesKey(b.key) && b.idSend < Two32
    ensures var w := Sessions.Seal(b, me, other, p).0;
      && ValidWire(w)
      && (b.enc == Sessions.EncAes256 ==>
            OctetsOf(w, time, secret, swap) == Frame(Symmetric(b.key), Content(Code(p.op), p.payload), time, b.idSend, swap))
      && (b.enc == Sessions.EncNone ==>
            OctetsOf(w, time, secret, swap) == Frame(Open, Content(Code(p.op), p.payload), time, b.idSend, swap))
  {
  }
}
