/** Which octet of a packet lies where on the wire. */
module WireLayout {
  import opened Wrappers
  import opened Octets
  import opened Wires
  import opened Frames
  import opened Hybrid

  /** Where each octet of a message comes from. */
  lemma {:induction false} MessageLayout(c: Content, time: nat, counter: Option<nat>, swap: bool, k: nat)
    requires k < |Incapsulated(c, time, counter, swap)| && |c.payload| < 65536
    ensures Incapsulated(c, time, counter, swap)[k] ==
      if k < 2 then OctetAt(c.op, 2, k, swap)
      else if k < 4 then OctetAt(|c.payload|, 2, k - 2, swap)
      else if k < 8 then OctetAt(time, 4, k - 4, swap)
      else if counter.None? then c.payload[k - 8]
      else if k < 12 then OctetAt(counter.value, 4, k - 8, swap)
      else c.payload[k - 12]
  {
    var size := |c.payload|;
    assert size % Two16 == size;
    if k < HeaderLength(counter.Some?) {
      HeaderLayout(c.op, size, time, counter, swap, k);
    }
  }

  lemma {:induction false} HeaderLayout(op: nat, size: nat, time: nat, counter: Option<nat>, swap: bool, k: nat)
    requires k < HeaderLength(counter.Some?)
    ensures Header(op, size, time, counter, swap)[k] ==
      if k < 2 then OctetAt(op, 2, k, swap)
      else if k < 4 then OctetAt(size, 2, k - 2, swap)
      else if k < 8 then OctetAt(time, 4, k - 4, swap)
      else OctetAt(counter.value, 4, k - 8, swap)
  {
    var b := Header(op, size, time, counter, swap);
    HeaderSlices(op, size, time, counter, swap);
    if k < 2 {
      assert b[k] == b[..2][k];
      StoreAt(op, 2, k, swap);
    } else if k < 4 {
      assert b[k] == b[2..4][k - 2];
      StoreAt(size, 2, k - 2, swap);
    } else if k < 8 {
      assert b[k] == b[4..8][k - 4];
      StoreAt(time, 4, k - 4, swap);
    } else {
      assert b[k] == b[8..12][k - 8];
      StoreAt(counter.value, 4, k - 8, swap);
    }
  }

  /** A frame is the length of what follows, lowest octet first under either byte order, and then the sealed message. */
  lemma {:induction false} FrameLayout(s: Sealing, c: Content, time: nat, counter: nat, swap: bool)
    ensures var f := Frame(s, c, time, counter, swap);
      var n := if s.Symmetric? then 32 + 16 * ((|c.payload| + 12) / 16) else |c.payload| + 8;
      && |f| == 2 + n && f[0] == Raw(n % 256) && f[1] == Raw(n / 256 % 256)
      && f[2..] == Sealed(s, Incapsulated(c, time, if s.Symmetric? then Some(counter) else None, swap))
  {
    var n := |Frame(s, c, time, counter, swap)| - 2;
    LittleEndianAt(n % Two16, 2, 0);
    LittleEndianAt(n % Two16, 2, 1);
    LowOctets(n);
  }

  lemma {:induction false} LowOctets(n: nat)
    ensures n % Two16 / Pow256(0) % 256 == n % 256 && n % Two16 / Pow256(1) % 256 == n / 256 % 256
  {
    var q, r := n / Two16, n % Two16;
    assert n == 256 * (256 * q) + r;
    assert n / 256 == 256 * q + r / 256;
    assert Pow256(1) == 256;
  }

  /** An envelope starts with the RSA block, and the sealed rest ends in the signature. */
  lemma {:induction false} EnvelopeLayout(message: Wired, signer: Bytes, reader: Bytes, secret: Bytes, i: nat)
    requires i < |Envelope(message, signer, reader, secret)|
    ensures Envelope(message, signer, reader, secret)[i] ==
      if i < 512 then Rsa(reader, secret, i) else Aes(secret, message + Signature(signer, message), i - 512)
  {
  }

  /** On the server: an envelope for somebody else fails, one around less than a header throws, and so does a cut one. */
  lemma {:induction false} EnvelopeRefused(message: Wired, signer: Bytes, reader: Bytes, secret: Bytes, me: Bytes, n: nat)
    requires AesKey(secret)
    ensures var w := Envelope(message, signer, reader, secret);
      && (reader != me ==> ServerOpens(w, me) == ClientOpens(w, me, signer) == Failed)
      && (reader == me && |message| < 8 ==> ServerOpens(w, me) == Thrown)
      && (n <= 512 ==> ServerOpens(w[..n], me) == ClientOpens(w[..n], me, signer) == Thrown)
  {
    var w := Envelope(message, signer, reader, secret);
    assert w[..RsaBlock] == RsaSeal(reader, secret);
    assert w[..RsaBlock][0] == Rsa(reader, secret, 0);
    if reader != me {
      assert RsaSeal(me, secret)[0] == Rsa(me, secret, 0);
    } else if message != [] {
      SplitBack(message, signer, reader, secret);
    } else {
      assert w[RsaBlock..] == AesSeal(secret, message + Signature(signer, message));
    }
  }
}
