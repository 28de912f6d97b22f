/**
 What travels on a socket.  A sealed or signed octet names its key and what was sealed;
 only lengths and identities of ciphertexts matter here.
 */
module Wires {
  import opened Wrappers
  import opened Octets

  /** An owner is the name under which a key pair is filed. */
  datatype Wire =
    | Raw(octet: Octet)
    | Aes(key: Bytes, plain: seq<Wire>, at: nat)
    | Rsa(owner: Bytes, secret: Bytes, at: nat)
    | Sig(owner: Bytes, signed: seq<Wire>, at: nat)

  type Wired = seq<Wire>

  function Raws(b: Bytes): (w: Wired)
    ensures |w| == |b|
  {
    seq(|b|, i requires 0 <= i < |b| => Raw(b[i]))
  }

  predicate AllRaw(w: Wired) {
    forall i :: 0 <= i < |w| ==> w[i].Raw?
  }

  function Plain(w: Wired): (b: Bytes)
    requires AllRaw(w)
    ensures |b| == |w|
  {
    seq(|w|, i requires 0 <= i < |w| => w[i].octet)
  }

  lemma {:induction false} PlainRaws(b: Bytes)
    ensures AllRaw(Raws(b)) && Plain(Raws(b)) == b
  {
  }

  // ---------- sealing ----------

  const Block: nat := 16
  const RsaBlock: nat := 512

  /** The initialisation vector and the padded text; section 6.3 of RFC 5652 always adds an octet of padding at least. */
  function AesLength(n: nat): nat {
    Block + Block * (n / Block + 1)
  }

  predicate AesKey(key: Bytes) {
    |key| == 16 || |key| == 32
  }

  function AesSeal(key: Bytes, plain: Wired): (c: Wired)
    ensures |c| == AesLength(|plain|)
  {
    seq(AesLength(|plain|), (i: nat) => Aes(key, plain, i))
  }

  function AesOpen(key: Bytes, c: Wired): Option<Wired> {
    if AesKey(key) && c != [] && c[0].Aes? && c == AesSeal(key, c[0].plain) then Some(c[0].plain) else None
  }

  function RsaSeal(owner: Bytes, secret: Bytes): (c: Wired)
    ensures |c| == RsaBlock
  {
    seq(RsaBlock, (i: nat) => Rsa(owner, secret, i))
  }

  function RsaOpen(owner: Bytes, c: Wired): Option<Bytes> {
    if c != [] && c[0].Rsa? && c == RsaSeal(owner, c[0].secret) then Some(c[0].secret) else None
  }

  function Signature(owner: Bytes, message: Wired): (c: Wired)
    ensures |c| == RsaBlock
  {
    seq(RsaBlock, (i: nat) => Sig(owner, message, i))
  }

  lemma {:induction false} SignatureInjective(a: Bytes, m: Wired, b: Bytes, n: Wired)
    ensures Signature(a, m) == Signature(b, n) <==> a == b && m == n
  {
    if Signature(a, m) == Signature(b, n) {
      assert Signature(a, m)[0] == Sig(a, m, 0);
      assert Signature(b, n)[0] == Sig(b, n, 0);
    }
  }
}
