/**
 The hybrid envelope: the message and its signature under a fresh AES key, that key
 under RSA, and the split that the receiver makes with a block size of 512.
 */
module Hybrid {
  import opened Wrappers
  import opened Octets
  import opened Wires
  import opened Frames

  /** Encrypt in hybrid mode: sign, append, seal the fresh key, seal the rest with it. */
  function Envelope(message: Wired, signer: Bytes, reader: Bytes, secret: Bytes): Wired {
    RsaSeal(reader, secret) + AesSeal(secret, message + Signature(signer, message))
  }

  datatype Split = Split(message: Wired, signature: Wired) | NotOpened | TooShort

  /** Decrypt up to the verification; an empty or missing part throws. */
  function SplitOpened(w: Wired, me: Bytes): Split {
    if |w| <= RsaBlock then TooShort
    else
      var key := RsaOpen(me, w[..RsaBlock]);
      if key.None? then NotOpened
      else
        var plain := AesOpen(key.value, w[RsaBlock..]);
        if plain.None? then NotOpened
        else if |plain.value| <= RsaBlock then TooShort
        else
          var n := |plain.value| - RsaBlock;
          Split(plain.value[..n], plain.value[n..])
  }

  /** On the server the signer's key is chosen by the string behind the eight header octets. */
  function NamedSigner(message: Wired): Option<Bytes> {
    if |message| < 8 || !AllRaw(message) then None else Some(Text(Plain(message)[8..]))
  }

  /** RsaVerify under the owner's public key. */
  predicate Verifies(owner: Bytes, message: Wired, signature: Wired) {
    signature == Signature(owner, message)
  }

  /** What Decrypt leaves in the packet, with the signature still behind the message; an error code; or an exception. */
  datatype Decrypted = Plaintext(packet: Wired) | Failed | Thrown

  function Verified(owner: Bytes, message: Wired, signature: Wired): Decrypted {
    if Verifies(owner, message, signature) then Plaintext(message + signature) else Failed
  }

  function ServerOpens(w: Wired, me: Bytes): Decrypted {
    match SplitOpened(w, me)
    case TooShort => Thrown
    case NotOpened => Failed
    case Split(message, signature) =>
      if |message| < 8 then Thrown
      else if NamedSigner(message).None? then Failed
      else Verified(NamedSigner(message).value, message, signature)
  }

  /** And on the client, which knows whose key to use. */
  function ClientOpens(w: Wired, me: Bytes, server: Bytes): Decrypted {
    match SplitOpened(w, me)
    case TooShort => Thrown
    case NotOpened => Failed
    case Split(message, signature) => Verified(server, message, signature)
  }

  /** The receiver finds the message and the signature that the sender joined. */
  lemma {:induction false} SplitBack(message: Wired, signer: Bytes, reader: Bytes, secret: Bytes)
    requires AesKey(secret) && message != []
    ensures SplitOpened(Envelope(message, signer, reader, secret), reader) == Split(message, Signature(signer, message))
  {
    var signature := Signature(signer, message);
    var plain := message + signature;
    var w := Envelope(message, signer, reader, secret);
    assert w[..RsaBlock] == RsaSeal(reader, secret) && w[RsaBlock..] == AesSeal(secret, plain);
    assert w[..RsaBlock][0] == Rsa(reader, secret, 0);
    var n := |plain| - RsaBlock;
    assert plain[..n] == message && plain[n..] == signature;
  }

  /** The client opens what the server signed, and nothing that anybody else signed. */
  lemma {:induction false} ClientOpensIff(message: Wired, signer: Bytes, reader: Bytes, secret: Bytes, server: Bytes)
    requires AesKey(secret) && message != []
    ensures ClientOpens(Envelope(message, signer, reader, secret), reader, server) ==
      if signer == server then Plaintext(message + Signature(server, message)) else Failed
  {
    SplitBack(message, signer, reader, secret);
    SignatureInjective(signer, message, server, message);
  }

  // ---------- the login packet ----------

  /** The client's answer to the server's nonce starts with the name and its terminator. */
  function LoginPayload(name: Bytes, behind: Bytes): Bytes {
    name + [0] + behind
  }

  function LoginMessage(op: nat, name: Bytes, behind: Bytes, time: nat, swap: bool): Bytes {
    Incapsulated(Content(op, LoginPayload(name, behind)), time, None, swap)
  }

  /** What the server finds behind the header is the name, for names without a zero octet. */
  lemma {:induction false} NameFound(op: nat, name: Bytes, behind: Bytes, time: nat, swap: bool)
    requires 0 !in name
    ensures NamedSigner(Raws(LoginMessage(op, name, behind, time, swap))) == Some(name)
  {
    var m := LoginMessage(op, name, behind, time, swap);
    PlainRaws(m);
    assert m[8..] == name + [0] + behind;
    TextRoundTrip(name, behind);
  }

  /** The server accepts the login packet exactly when the key that signed it is filed under the name in it. */
  lemma {:induction false} LoginOpensIff(op: nat, name: Bytes, behind: Bytes, time: nat, signer: Bytes, server: Bytes, secret: Bytes, swap: bool)
    requires 0 !in name && AesKey(secret)
    ensures var message := Raws(LoginMessage(op, name, behind, time, swap));
      ServerOpens(Envelope(message, signer, server, secret), server) ==
        if signer == name then Plaintext(message + Signature(name, message)) else Failed
  {
    var message := Raws(LoginMessage(op, name, behind, time, swap));
    SplitBack(message, signer, server, secret);
    NameFound(op, name, behind, time, swap);
    SignatureInjective(signer, message, name, message);
  }

  /** From the client's handler to the server's: the same opcode and payload come out. */
  lemma {:induction false} LoginDelivered(op: nat, name: Bytes, behind: Bytes, time: nat, server: Bytes, secret: Bytes, counter: nat, now: nat, swap: bool)
    requires 0 !in name && AesKey(secret) && Fresh(time, now)
    requires ValidHeader(op, |LoginPayload(name, behind)|, time, None)
    ensures var message := Raws(LoginMessage(op, name, behind, time, swap));
      var found := ServerOpens(Envelope(message, name, server, secret), server);
      && found.Plaintext?
      && Decapsulated(found.packet, false, counter, now, swap) == Delivered(Content(op, LoginPayload(name, behind)), counter)
  {
    var message := Raws(LoginMessage(op, name, behind, time, swap));
    LoginOpensIff(op, name, behind, time, name, server, secret, swap);
    DecapsulateBack(Content(op, LoginPayload(name, behind)), time, None, Signature(name, message), counter, now, swap);
  }

  /** The length of an envelope around a payload of n octets, and the longest that the receiver lets in. */
  lemma {:induction false} EnvelopeBound(c: Content, time: nat, signer: Bytes, reader: Bytes, secret: Bytes, swap: bool)
    ensures var w := Envelope(Raws(Incapsulated(c, time, None, swap)), signer, reader, secret);
      && |w| == 528 + 16 * ((|c.payload| + 520) / 16 + 1)
      && (|w| <= MaxFrame <==> |c.payload| <= 63943)
  {
    var n := |c.payload| + 520;
    assert n == 16 * (n / 16) + n % 16;
  }
}
