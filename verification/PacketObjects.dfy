/**
 The packet as an object: Incapsulate, Decapsulate and the hybrid Encrypt and Decrypt
 rewrite its own storage, advance its read position and update the counters.
 */
module PacketObjects {
  import opened Wrappers
  import opened Octets
  import opened Wires
  import opened Frames
  import opened Hybrid

  /** The octets of the header that are there. */
  function HeaderPart(w: Wired, check: bool): (n: nat)
    ensures n <= |w|
  {
    if |w| < HeaderLength(check) then |w| else HeaderLength(check)
  }

  datatype Fields = Fields(op: nat, size: nat, timer: nat, counter: nat)

  function FieldsOf(b: Bytes, check: bool, swap: bool): Fields
    requires |b| == HeaderLength(check)
  {
    Fields(Load(b[..2], swap), Load(b[2..4], swap), Load(b[4..8], swap), if check then Load(b[8..12], swap) else 0)
  }

  lemma {:induction false} RawPart(w: Wired, n: nat, i: nat, j: nat)
    requires n <= |w| && AllRaw(w[..n])
    ensures i <= j <= n ==> AllRaw(w[i..j])
  {
    if i <= j <= n {
      assert forall k :: 0 <= k < j - i ==> w[i..j][k] == w[..n][i + k];
    }
  }

  /** Reading the header field by field is reading it from its octets. */
  lemma {:induction false} HeaderReads(w: Wired, check: bool)
    requires |w| >= HeaderLength(check) && AllRaw(w[..HeaderLength(check)])
    ensures AllRaw(w[0..2]) && AllRaw(w[2..4]) && AllRaw(w[4..8]) && (check ==> AllRaw(w[8..12]))
    ensures var b := Plain(w[..HeaderLength(check)]);
      && b[..2] == Plain(w[0..2]) && b[2..4] == Plain(w[2..4]) && b[4..8] == Plain(w[4..8])
      && (check ==> b[8..12] == Plain(w[8..12]))
  {
    var h := w[..HeaderLength(check)];
    assert forall i :: 0 <= i < HeaderLength(check) ==> w[i] == h[i];
  }

  class Packet {
    const swap: bool
    var opcode: nat
    var storage: Wired
    var rpos: nat

    constructor (op: nat, bigEndian: bool)
      ensures opcode == op && storage == [] && rpos == 0 && swap == bigEndian
    {
      opcode, storage, rpos, swap := op, [], 0, bigEndian;
    }

    method Append(w: Wired)
      modifies this`storage
      ensures storage == old(storage) + w
    {
      storage := storage + w;
    }

    /** The counter is passed by reference; it comes back one higher, in 32 bits, when it was written. */
    method Incapsulate(op: nat, payload: Bytes, counter: nat, check: bool, time: nat) returns (next: nat)
      requires storage == []
      modifies this`storage
      ensures storage == Raws(Incapsulated(Content(op, payload), time, if check then Some(counter) else None, swap))
      ensures next == if check then (counter + 1) % Two32 else counter
    {
      ghost var size := Store(|payload| % Two16, 2, swap);
      Append(Raws(Store(op, 2, swap)));
      Append(Raws(Store(|payload| % Two16, 2, swap)));
      Append(Raws(Store(time, 4, swap)));
      next := counter;
      if check {
        Append(Raws(Store(counter, 4, swap)));
        next := (counter + 1) % Two32;
      }
      ghost var head := Header(op, |payload| % Two16, time, if check then Some(counter) else None, swap);
      assert storage == Raws(head);
      if payload != [] {
        Append(Raws(payload));
      } else {
        assert Raws(head) + [] == Raws(head);
      }
    }

    /** Reads an integer of n octets. */
    method ReadUnsigned(n: nat) returns (v: Option<nat>)
      requires rpos <= |storage| && (rpos + n <= |storage| ==> AllRaw(storage[rpos..rpos + n]))
      modifies this`rpos
      ensures old(rpos) + n > |storage| ==> v == None && rpos == old(rpos)
      ensures old(rpos) + n <= |storage| ==>
        rpos == old(rpos) + n && v == Some(Load(Plain(storage[old(rpos)..old(rpos) + n]), swap))
    {
      if rpos + n > |storage| {
        return None;
      }
      v := Some(Load(Plain(storage[rpos..rpos + n]), swap));
      rpos := rpos + n;
    }

    /** The fields of the header one after the other; an exception when one is missing. */
    method ReadHeader(check: bool) returns (h: Option<Fields>)
      requires rpos == 0 && AllRaw(storage[..HeaderPart(storage, check)])
      modifies this`rpos
      ensures h.None? <==> |storage| < HeaderLength(check)
      ensures h.Some? ==> rpos == HeaderLength(check) && h.value == FieldsOf(Plain(storage[..HeaderLength(check)]), check, swap)
    {
      ghost var n := HeaderPart(storage, check);
      RawPart(storage, n, 0, 2);
      RawPart(storage, n, 2, 4);
      RawPart(storage, n, 4, 8);
      RawPart(storage, n, 8, 12);
      h := None;
      var op := ReadUnsigned(2);
      if op.None? { return; }
      var size := ReadUnsigned(2);
      if size.None? { return; }
      var timer := ReadUnsigned(4);
      if timer.None? { return; }
      var counter := Some(0);
      if check {
        counter := ReadUnsigned(4);
        if counter.None? { return; }
      }
      HeaderReads(storage, check);
      h := Some(Fields(op.value, size.value, timer.value, counter.value));
    }

    /** last is the highest counter accepted so far, replaced when the packet is accepted. */
    method Decapsulate(last: nat, check: bool, now: nat) returns (outcome: Outcome, highest: nat)
      requires rpos == 0 && AllRaw(storage[..HeaderPart(storage, check)])
      modifies this`rpos
      ensures outcome == Decapsulated(storage, check, last, now, swap)
      ensures highest == if outcome.Delivered? then outcome.counter else last
    {
      highest := last;
      if storage == [] {
        return Nothing, last;
      }
      var header := ReadHeader(check);
      if header.None? { return BadPosition, last; }
      var Fields(op, size, timer, counter) := header.value;
      if rpos + size > |storage| { return BadPosition, last; }
      if !AllRaw(storage[rpos..rpos + size]) { return Unreadable, last; }
      var payload := Plain(storage[rpos..rpos + size]);
      rpos := rpos + size;
      if (timer + MaxAge) % Two32 < now { return TooOld, last; }
      if check {
        if counter < last { return Replayed, last; }
        highest := counter;
      }
      outcome := Delivered(Content(op, payload), highest);
    }

    /** Encrypt in hybrid mode; secret is the random key. */
    method EncryptHybrid(signer: Bytes, reader: Bytes, secret: Bytes)
      modifies this`storage, this`rpos
      ensures storage == Envelope(old(storage), signer, reader, secret) && rpos == 0
    {
      var sign := Signature(signer, storage);
      Append(sign);
      var ciphertext := RsaSeal(reader, secret);
      ciphertext := ciphertext + AesSeal(secret, storage);
      storage, rpos := [], 0;
      Append(ciphertext);
    }

    /** Decrypt in hybrid mode on the server; on success the storage is the message with its signature. */
    method DecryptHybrid(me: Bytes) returns (result: Decrypted)
      requires rpos == 0
      modifies this`storage, this`rpos
      ensures result == ServerOpens(old(storage), me)
      ensures storage == if result.Plaintext? then result.packet else old(storage)
    {
      if |storage| < RsaBlock {
        return Thrown;
      }
      var rsaBlock := storage[rpos..rpos + RsaBlock];
      rpos := rpos + RsaBlock;
      var aesBlock := storage[rpos..];
      if aesBlock == [] {
        return Thrown;
      }
      assert rsaBlock == storage[..RsaBlock];
      var key := RsaOpen(me, rsaBlock);
      if key.None? {
        return Failed;
      }
      var plaintext := AesOpen(key.value, aesBlock);
      if plaintext.None? {
        return Failed;
      }
      if |plaintext.value| <= RsaBlock {
        return Thrown;
      }
      var n := |plaintext.value| - RsaBlock;
      var message, sign := plaintext.value[..n], plaintext.value[n..];
      if |message| < 8 {
        return Thrown;
      }
      if !AllRaw(message) {
        return Failed;
      }
      var user := Text(Plain(message)[8..]);
      if sign != Signature(user, message) {
        return Failed;
      }
      storage, rpos := plaintext.value, 0;
      assert plaintext.value == message + sign;
      result := Plaintext(storage);
    }
  }
}
