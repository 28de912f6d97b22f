/**
 The frame around a packet: the inner header, sealing, the outer 16-bit length, and the
 receiver's checks of length, age and counter.
 */
module Frames {
  import opened Wrappers
  import opened Octets
  import opened Wires

  const MaxFrame: nat := 65000
  const BufferSize: nat := 65535
  const MaxAge: nat := 172800
  const Two16: nat := 0x1_0000
  const Two32: nat := 0x1_0000_0000

  datatype Content = Content(op: nat, payload: Bytes)

  /** counter is there only under a symmetric key. */
  function Header(op: nat, size: nat, time: nat, counter: Option<nat>, swap: bool): (h: Bytes)
    ensures |h| == HeaderLength(counter.Some?)
  {
    Store(op, 2, swap) + Store(size, 2, swap) + Store(time, 4, swap) +
    if counter.Some? then Store(counter.value, 4, swap) else []
  }

  function HeaderLength(symmetric: bool): nat {
    if symmetric then 12 else 8
  }

  /** Incapsulate: the size is cast to 16 bits. */
  function Incapsulated(c: Content, time: nat, counter: Option<nat>, swap: bool): Bytes {
    Header(c.op, |c.payload| % Two16, time, counter, swap) + c.payload
  }

  datatype Outcome =
    | Delivered(content: Content, counter: nat)
    | Nothing       // no header at all
    | BadPosition   // the position exception, which closes the session
    | TooOld | Replayed
    | TooLong       // more than 65000 octets announced, which closes the session
    | Unreadable    // octets that do not open under the key

  /** Decapsulate: size first, then age, then the counter.  What lies behind the payload is not looked at. */
  function Decapsulated(w: Wired, symmetric: bool, last: nat, now: nat, swap: bool): Outcome {
    var n := HeaderLength(symmetric);
    if w == [] then Nothing
    else if |w| < n then BadPosition
    else if !AllRaw(w[..n]) then Unreadable
    else
      var b := Plain(w[..n]);
      var op, size, time := Load(b[..2], swap), Load(b[2..4], swap), Load(b[4..8], swap);
      var counter := if symmetric then Load(b[8..12], swap) else 0;
      if size > |w| - n then BadPosition
      else if !AllRaw(w[n..n + size]) then Unreadable
      else if (time + MaxAge) % Two32 < now then TooOld
      else if symmetric && counter < last then Replayed
      else Delivered(Content(op, Plain(w[n..n + size])), if symmetric then counter else last)
  }

  /** How a session seals: not at all, or with its AES key. */
  datatype Sealing = Open | Symmetric(key: Bytes)

  function Sealed(s: Sealing, message: Bytes): Wired {
    match s
    case Open => Raws(message)
    case Symmetric(key) => AesSeal(key, Raws(message))
  }

  function Unsealed(s: Sealing, w: Wired): Option<Wired> {
    match s
    case Open => Some(w)
    case Symmetric(key) => AesOpen(key, w)
  }

  function CounterOf(s: Sealing, counter: nat): Option<nat> {
    if s.Symmetric? then Some(counter) else None
  }

  /** The 16-bit length is copied as it lies in memory, without conversion. */
  function Frame(s: Sealing, c: Content, time: nat, counter: nat, swap: bool): Wired {
    var body := Sealed(s, Incapsulated(c, time, CounterOf(s, counter), swap));
    Raws(LittleEndian(|body| % Two16, 2)) + body
  }

  datatype Received = Received(outcome: Outcome, rest: Wired) | Incomplete

  function Opened(s: Sealing, body: Wired, last: nat, now: nat, swap: bool): Outcome {
    var message := Unsealed(s, body);
    if message.None? then Unreadable else Decapsulated(message.value, s.Symmetric?, last, now, swap)
  }

  /** One packet from the front of the stream; a frame of length zero gives an empty packet with opcode zero. */
  function Receive(s: Sealing, stream: Wired, last: nat, now: nat, swap: bool): Received {
    if |stream| < 2 || !AllRaw(stream[..2]) then Incomplete
    else
      var len := FromLittleEndian(Plain(stream[..2]));
      if len > MaxFrame then Received(TooLong, stream[2..])
      else if |stream| < 2 + len then Incomplete
      else if len == 0 then Received(Delivered(Content(0, []), last), stream[2..])
      else
        Received(Opened(s, stream[2..2 + len], last, now, swap), stream[2 + len..])
  }

  // ---------- sizes ----------

  /** The octets behind the length under AES. */
  function AesFrame(n: nat): nat {
    AesLength(HeaderLength(true) + n)
  }

  /** The three ranges of a payload's size. */
  lemma {:induction false} FrameBounds(n: nat)
    ensures AesFrame(n) <= MaxFrame <==> n <= 64963
    ensures 2 + AesFrame(n) <= BufferSize <==> n <= 65491
    ensures AesFrame(n) < Two16 <==> n <= 65491
  {
    var q, r := (12 + n) / 16, (12 + n) % 16;
    assert 12 + n == 16 * q + r;
    assert AesFrame(n) == 32 + 16 * q;
  }

  // ---------- the header ----------

  ghost predicate ValidHeader(op: nat, size: nat, time: nat, counter: Option<nat>) {
    op < Two16 && size < Two16 && time < Two32 && (counter.Some? ==> counter.value < Two32)
  }

  lemma {:induction false} HeaderFields(op: nat, size: nat, time: nat, counter: Option<nat>, swap: bool)
    requires ValidHeader(op, size, time, counter)
    ensures var b := Header(op, size, time, counter, swap);
      && Load(b[..2], swap) == op && Load(b[2..4], swap) == size && Load(b[4..8], swap) == time
      && (counter.Some? ==> Load(b[8..12], swap) == counter.value)
  {
    HeaderSlices(op, size, time, counter, swap);
    LoadStore(op, 2, swap);
    LoadStore(size, 2, swap);
    LoadStore(time, 4, swap);
    if counter.Some? {
      LoadStore(counter.value, 4, swap);
    }
  }

  lemma {:induction false} HeaderSlices(op: nat, size: nat, time: nat, counter: Option<nat>, swap: bool)
    ensures var b := Header(op, size, time, counter, swap);
      && b[..2] == Store(op, 2, swap) && b[2..4] == Store(size, 2, swap) && b[4..8] == Store(time, 4, swap)
      && (counter.Some? ==> b[8..12] == Store(counter.value, 4, swap))
  {
  }

  ghost predicate Fresh(time: nat, now: nat) {
    (time + MaxAge) % Two32 >= now
  }

  /**
   Without truncation, decapsulating gives the content back exactly if it is fresh and its
   counter is not behind, whatever lies behind the payload.
   */
  lemma {:induction false} DecapsulateBack(c: Content, time: nat, counter: Option<nat>, tail: Wired, last: nat, now: nat, swap: bool)
    requires ValidHeader(c.op, |c.payload|, time, counter)
    ensures Decapsulated(Raws(Incapsulated(c, time, counter, swap)) + tail, counter.Some?, last, now, swap) ==
      if !Fresh(time, now) then TooOld
      else if counter.Some? && counter.value < last then Replayed
      else Delivered(c, if counter.Some? then counter.value else last)
  {
    var h := Header(c.op, |c.payload|, time, counter, swap);
    var w := Raws(Incapsulated(c, time, counter, swap)) + tail;
    assert |c.payload| % Two16 == |c.payload|;
    Parts(h, c.payload, tail);
    HeaderFields(c.op, |c.payload|, time, counter, swap);
    assert w == Raws(h + c.payload) + tail;
  }

  /**
   A packet that is not behind is delivered at every moment up to two days after its stamp, and too
   old at every later one; a stamp in the last two days before 2^32 is compared after wrapping.
   */
  lemma {:induction false} AgeLimit(c: Content, time: nat, counter: Option<nat>, tail: Wired, last: nat, now: nat, swap: bool)
    requires c.op < 65536 && |c.payload| < 65536 && time < 0x1_0000_0000 && (counter.Some? ==> counter.value < 0x1_0000_0000)
    ensures var outcome := Decapsulated(Raws(Incapsulated(c, time, counter, swap)) + tail, counter.Some?, last, now, swap);
      var limit := if time + 172800 < 0x1_0000_0000 then time + 172800 else time + 172800 - 0x1_0000_0000;
      && (outcome == TooOld <==> now > limit)
      && (now <= limit && (counter.None? || counter.value >= last) ==>
            outcome == Delivered(c, if counter.Some? then counter.value else last))
  {
    DecapsulateBack(c, time, counter, tail, last, now, swap);
  }

  /** Cut short anywhere, a packet is not delivered: the position exception, or nothing at all. */
  lemma {:induction false} CutPacket(c: Content, time: nat, counter: Option<nat>, n: nat, last: nat, now: nat, swap: bool)
    requires c.op < 65536 && |c.payload| < 65536 && time < 0x1_0000_0000 && (counter.Some? ==> counter.value < 0x1_0000_0000)
    requires n < |Incapsulated(c, time, counter, swap)|
    ensures Decapsulated(Raws(Incapsulated(c, time, counter, swap))[..n], counter.Some?, last, now, swap)
      == if n == 0 then Nothing else BadPosition
  {
    var h := Header(c.op, |c.payload|, time, counter, swap);
    var w := Raws(h + c.payload);
    assert |c.payload| % Two16 == |c.payload|;
    if n >= |h| {
      Parts(h, c.payload, []);
      assert w + [] == w && w[..n][..|h|] == w[..|h|];
      HeaderFields(c.op, |c.payload|, time, counter, swap);
      CutPayload(w[..n], h, |c.payload|, counter.Some?, last, now, swap);
    }
  }

  lemma {:induction false} CutPayload(w: Wired, h: Bytes, size: nat, symmetric: bool, last: nat, now: nat, swap: bool)
    requires |h| == HeaderLength(symmetric) <= |w| < |h| + size
    requires AllRaw(w[..|h|]) && Plain(w[..|h|]) == h && Load(h[2..4], swap) == size
    ensures Decapsulated(w, symmetric, last, now, swap) == BadPosition
  {
  }

  lemma {:induction false} Parts(h: Bytes, p: Bytes, tail: Wired)
    ensures var w := Raws(h + p) + tail;
      && |w| >= |h| + |p| && AllRaw(w[..|h|]) && Plain(w[..|h|]) == h
      && AllRaw(w[|h|..|h| + |p|]) && Plain(w[|h|..|h| + |p|]) == p
  {
    PlainRaws(h);
    PlainRaws(p);
    var w := Raws(h + p) + tail;
    assert w[..|h|] == Raws(h);
    assert w[|h|..|h| + |p|] == Raws(p);
  }

  // ---------- main results ----------

  /** The frame cut into its length and its body. */
  lemma {:induction false} FrameSplits(body: Wired, rest: Wired)
    ensures var stream := Raws(LittleEndian(|body| % Two16, 2)) + body + rest;
      && |stream| >= 2 && AllRaw(stream[..2])
      && FromLittleEndian(Plain(stream[..2])) == |body| % Two16
      && (|body| < Two16 ==> stream[2..2 + |body|] == body && stream[2 + |body|..] == rest)
  {
    var head := LittleEndian(|body| % Two16, 2);
    var stream := Raws(head) + body + rest;
    assert stream[..2] == Raws(head);
    PlainRaws(head);
    LittleEndianInverse(|body| % Two16, 2);
  }

  lemma {:induction false} ReceiveBody(s: Sealing, body: Wired, rest: Wired, last: nat, now: nat, swap: bool)
    requires 0 < |body| < Two16
    ensures var r := Receive(s, Raws(LittleEndian(|body| % Two16, 2)) + body + rest, last, now, swap);
      if |body| <= MaxFrame then r == Received(Opened(s, body, last, now, swap), rest)
      else r.Received? && r.outcome == TooLong
  {
    FrameSplits(body, rest);
    ReceiveStream(s, Raws(LittleEndian(|body| % Two16, 2)) + body + rest, body, rest, last, now, swap);
  }

  lemma {:induction false} ReceiveStream(s: Sealing, stream: Wired, body: Wired, rest: Wired, last: nat, now: nat, swap: bool)
    requires 0 < |body| && |stream| == 2 + |body| + |rest|
    requires AllRaw(stream[..2]) && FromLittleEndian(Plain(stream[..2])) == |body|
    requires stream[2..2 + |body|] == body && stream[2 + |body|..] == rest
    ensures var r := Receive(s, stream, last, now, swap);
      if |body| <= MaxFrame then r == Received(Opened(s, body, last, now, swap), rest)
      else r.Received? && r.outcome == TooLong
  {
  }

  /** As long as octets of a frame are missing, nothing is taken off the stream. */
  lemma {:induction false} CutFrame(s: Sealing, body: Wired, n: nat, last: nat, now: nat, swap: bool)
    requires 0 < |body| <= 65000 && n < 2 + |body|
    ensures Receive(s, (Raws(LittleEndian(|body| % Two16, 2)) + body)[..n], last, now, swap) == Incomplete
  {
    FrameSplits(body, []);
    var stream := Raws(LittleEndian(|body| % Two16, 2)) + body;
    assert stream + [] == stream;
    if n >= 2 {
      assert stream[..n][..2] == stream[..2];
    }
  }

  /**
   Every payload of at most 64963 octets reaches the other side unchanged, with whatever
   follows it left on the stream; a longer one, up to 65491 octets, is always refused.
   */
  lemma {:induction false} FrameDelivered(key: Bytes, c: Content, time: nat, counter: nat, rest: Wired, last: nat, now: nat, swap: bool)
    requires AesKey(key) && c.op < Two16 && time < Two32 && counter < Two32
    requires |c.payload| <= 65491 && Fresh(time, now) && counter >= last
    ensures var r := Receive(Symmetric(key), Frame(Symmetric(key), c, time, counter, swap) + rest, last, now, swap);
      if |c.payload| <= 64963 then r == Received(Delivered(c, counter), rest)
      else r.Received? && r.outcome == TooLong
  {
    var message := Incapsulated(c, time, Some(counter), swap);
    var body := AesSeal(key, Raws(message));
    FrameBounds(|c.payload|);
    assert |body| == AesFrame(|c.payload|);
    ReceiveBody(Symmetric(key), body, rest, last, now, swap);
    DecapsulateBack(c, time, Some(counter), [], last, now, swap);
    assert Raws(message) + [] == Raws(message);
  }

  /** In clear the header is shorter and nothing is padded, so up to 64992 octets pass. */
  lemma {:induction false} ClearFrameDelivered(c: Content, time: nat, rest: Wired, last: nat, now: nat, swap: bool)
    requires c.op < Two16 && time < Two32 && |c.payload| <= 65527 && Fresh(time, now)
    ensures var r := Receive(Open, Frame(Open, c, time, 0, swap) + rest, last, now, swap);
      if |c.payload| <= 64992 then r == Received(Delivered(c, last), rest)
      else r.Received? && r.outcome == TooLong
  {
    var message := Incapsulated(c, time, None, swap);
    ReceiveBody(Open, Raws(message), rest, last, now, swap);
    DecapsulateBack(c, time, None, [], last, now, swap);
    assert Raws(message) + [] == Raws(message);
  }

  // ---------- many packets under one key ----------

  type Sender = (Content, nat) -> Wired
  type Receiver = (Wired, nat) -> Received

  /** The octets of packets sent one after the other, each with the next 32-bit counter. */
  function Stream(send: Sender, cs: seq<Content>, counter: nat): Wired {
    if cs == [] then [] else send(cs[0], counter % Two32) + Stream(send, cs[1..], counter + 1)
  }

  /** What a receiver delivers; it goes on after a packet that it ignores, and stops when it closes. */
  function Deliveries(recv: Receiver, stream: Wired, last: nat, limit: nat): seq<Content>
    decreases limit
  {
    if limit == 0 then [] else
    match recv(stream, last)
    case Incomplete => []
    case Received(Delivered(c, counter), rest) => [c] + Deliveries(recv, rest, counter, limit - 1)
    case Received(outcome, rest) =>
      if outcome.TooLong? || outcome.BadPosition? then [] else Deliveries(recv, rest, last, limit - 1)
  }

  ghost predicate Sendable(c: Content) {
    c.op < Two16 && |c.payload| <= 64963
  }

  ghost predicate AllSendable(cs: seq<Content>) {
    forall i :: 0 <= i < |cs| ==> Sendable(cs[i])
  }

  /** A link that delivers a packet whose counter is not behind and refuses the others. */
  ghost predicate Link(send: Sender, recv: Receiver) {
    forall c, counter: nat, last: nat, rest: Wired :: Sendable(c) && counter < Two32 ==>
      recv(send(c, counter) + rest, last) == Received(if counter < last then Replayed else Delivered(c, counter), rest)
  }

  function SendWith(key: Bytes, time: nat, swap: bool): Sender {
    (c: Content, counter: nat) => Frame(Symmetric(key), c, time, counter, swap)
  }

  function ReceiveWith(key: Bytes, now: nat, swap: bool): Receiver {
    (stream: Wired, last: nat) => Receive(Symmetric(key), stream, last, now, swap)
  }

  /** An AES key makes such a link as long as packets are fresh. */
  lemma {:induction false} KeyLinks(key: Bytes, time: nat, now: nat, swap: bool)
    requires AesKey(key) && time < Two32 && Fresh(time, now)
    ensures Link(SendWith(key, time, swap), ReceiveWith(key, now, swap))
  {
    var send, recv := SendWith(key, time, swap), ReceiveWith(key, now, swap);
    forall c, counter: nat, last: nat, rest: Wired | Sendable(c) && counter < Two32
      ensures recv(send(c, counter) + rest, last) == Received(if counter < last then Replayed else Delivered(c, counter), rest)
    {
      FrameArrives(key, c, time, counter, rest, last, now, swap);
    }
  }

  lemma {:induction false} FrameArrives(key: Bytes, c: Content, time: nat, counter: nat, rest: Wired, last: nat, now: nat, swap: bool)
    requires AesKey(key) && Sendable(c) && time < Two32 && Fresh(time, now) && counter < Two32
    ensures Receive(Symmetric(key), Frame(Symmetric(key), c, time, counter, swap) + rest, last, now, swap)
      == Received(if counter < last then Replayed else Delivered(c, counter), rest)
  {
    var message := Incapsulated(c, time, Some(counter), swap);
    var body := AesSeal(key, Raws(message));
    FrameBounds(|c.payload|);
    ReceiveBody(Symmetric(key), body, rest, last, now, swap);
    DecapsulateBack(c, time, Some(counter), [], last, now, swap);
    assert Raws(message) + [] == Raws(message);
  }

  /** Whether the packet with this number, counted without wrap-around, arrives. */
  predicate Passes(n: nat) {
    n < Two32 || n % Two32 == Two32 - 1
  }

  function Selected(cs: seq<Content>, counter: nat): (r: seq<Content>)
    ensures |r| <= |cs|
  {
    if cs == [] then [] else (if Passes(counter) then [cs[0]] else []) + Selected(cs[1..], counter + 1)
  }

  /**
   Frames delimit themselves: of packets sent back to back exactly those arrive, in order,
   whose number is below 2^32, and after that one in 2^32, whose counter is the highest.
   */
  lemma {:induction false} WhichArrive(send: Sender, recv: Receiver, cs: seq<Content>, counter: nat, last: nat)
    requires Link(send, recv) && AllSendable(cs)
    requires if counter < Two32 then last <= counter else last == Two32 - 1
    ensures Deliveries(recv, Stream(send, cs, counter), last, |cs|) == Selected(cs, counter)
    decreases |cs|
  {
    if cs != [] {
      var rest := Stream(send, cs[1..], counter + 1);
      var low := counter % Two32;
      assert Sendable(cs[0]);
      DeliverOne(send, recv, cs[0], low, rest, last, |cs|);
      LowCounter(counter, last);
      WhichArrive(send, recv, cs[1..], counter + 1, if Passes(counter) then low else last);
    }
  }

  lemma {:induction false} DeliverOne(send: Sender, recv: Receiver, c: Content, low: nat, rest: Wired, last: nat, limit: nat)
    requires Link(send, recv) && Sendable(c) && low < Two32 && limit > 0
    ensures Deliveries(recv, send(c, low) + rest, last, limit) ==
      if low < last then Deliveries(recv, rest, last, limit - 1) else [c] + Deliveries(recv, rest, low, limit - 1)
  {
    assert recv(send(c, low) + rest, last) == Received(if low < last then Replayed else Delivered(c, low), rest);
  }

  lemma {:induction false} LowCounter(counter: nat, last: nat)
    requires if counter < Two32 then last <= counter else last == Two32 - 1
    ensures counter % Two32 < last <==> !Passes(counter)
    ensures var next := if Passes(counter) then counter % Two32 else last;
      if counter + 1 < Two32 then next <= counter + 1 else next == Two32 - 1
  {
  }

  lemma {:induction false} SelectedAll(cs: seq<Content>, counter: nat)
    requires counter <= Two32
    ensures Selected(cs, counter) == cs <==> counter + |cs| <= Two32
    decreases |cs|
  {
    if cs != [] {
      if counter < Two32 {
        SelectedAll(cs[1..], counter + 1);
        assert cs == [cs[0]] + cs[1..];
      } else {
        assert !Passes(counter);
        assert |Selected(cs, counter)| < |cs|;
      }
    }
  }

  /** Packets sent under one key, counting from zero, all arrive exactly when they are no more than 2^32. */
  lemma {:induction false} AllArriveIff(key: Bytes, cs: seq<Content>, time: nat, now: nat, swap: bool)
    requires AesKey(key) && AllSendable(cs) && time < Two32 && Fresh(time, now)
    ensures Deliveries(ReceiveWith(key, now, swap), Stream(SendWith(key, time, swap), cs, 0), 0, |cs|) == cs <==> |cs| <= 0x1_0000_0000
  {
    KeyLinks(key, time, now, swap);
    WhichArrive(SendWith(key, time, swap), ReceiveWith(key, now, swap), cs, 0, 0);
    SelectedAll(cs, 0);
  }
}
