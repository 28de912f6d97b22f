/**
 The cyclic exclusive or by which both ends combine the halves of a session key.
 */
module KeyXor {
  import opened Octets

  function XorBits(a: nat, b: nat, bits: nat): (r: nat) {
    if bits == 0 then 0 else (a + b) % 2 + 2 * XorBits(a / 2, b / 2, bits - 1)
  }

  lemma {:induction false} XorBitsBound(a: nat, b: nat, bits: nat)
    ensures XorBits(a, b, bits) < Pow2(bits)
  {
    if bits != 0 {
      XorBitsBound(a / 2, b / 2, bits - 1);
    }
  }

  function Pow2(n: nat): (p: nat)
    ensures p > 0
  {
    if n == 0 then 1 else 2 * Pow2(n - 1)
  }

  function XorOctet(a: Octet, b: Octet): Octet {
    XorBitsBound(a, b, 8);
    assert Pow2(8) == 256;
    XorBits(a, b, 8)
  }

  lemma {:induction false} XorBitsCommutes(a: nat, b: nat, bits: nat)
    ensures XorBits(a, b, bits) == XorBits(b, a, bits)
  {
    if bits != 0 {
      XorBitsCommutes(a / 2, b / 2, bits - 1);
    }
  }

  lemma SplitBit(bit: nat, rest: nat, b: nat)
    requires bit < 2
    ensures (bit + 2 * rest) / 2 == rest
    ensures (bit + 2 * rest + b) % 2 == (bit + b) % 2
  {
  }

  lemma BitCancels(a: nat, b: nat)
    ensures ((a + b) % 2 + b) % 2 == a % 2
  {
  }

  lemma {:induction false} XorBitsCancels(a: nat, b: nat, bits: nat)
    requires a < Pow2(bits)
    ensures XorBits(XorBits(a, b, bits), b, bits) == a
  {
    if bits != 0 {
      var rest := XorBits(a / 2, b / 2, bits - 1);
      XorBitsCancels(a / 2, b / 2, bits - 1);
      SplitBit((a + b) % 2, rest, b);
      BitCancels(a, b);
    }
  }

  /** Bit i of x, the lowest being bit 0. */
  function Bit(x: nat, i: nat): (b: nat)
    ensures b < 2
  {
    x / Pow2(i) % 2
  }

  lemma {:induction false} NextBit(x: nat, i: nat)
    ensures Bit(x, 0) == x % 2 && Bit(x, i + 1) == Bit(x / 2, i)
  {
    HalfFirst(x, Pow2(i));
  }

  lemma {:induction false} HalfFirst(x: nat, p: nat)
    requires p > 0
    ensures x / (2 * p) == x / 2 / p
  {
    var q, r := x / 2 / p, x / 2 % p;
    assert x == 2 * (p * q + r) + x % 2;
    assert x == 2 * p * q + (2 * r + x % 2);
    DivUnique(x, 2 * p, q, 2 * r + x % 2);
  }

  lemma {:induction false} DivUnique(n: nat, p: nat, q: nat, r: nat)
    requires r < p && n == p * q + r
    ensures n / p == q
  {
    ModUnique(n, p, q, r);
    assert (n / p - q) * p == 0;
  }

  /** A bit of the result is set exactly when that bit is set in one of the two, and not in both. */
  lemma {:induction false} XorBit(a: nat, b: nat, bits: nat, i: nat)
    requires i < bits
    ensures Bit(XorBits(a, b, bits), i) == 1 <==> Bit(a, i) != Bit(b, i)
  {
    var x := XorBits(a, b, bits);
    XorHalves(a, b, bits);
    if i == 0 {
      NextBit(x, 0);
      NextBit(a, 0);
      NextBit(b, 0);
    } else {
      NextBit(x, i - 1);
      NextBit(a, i - 1);
      NextBit(b, i - 1);
      XorBit(a / 2, b / 2, bits - 1, i - 1);
    }
  }

  lemma {:induction false} XorHalves(a: nat, b: nat, bits: nat)
    requires bits > 0
    ensures XorBits(a, b, bits) / 2 == XorBits(a / 2, b / 2, bits - 1)
    ensures XorBits(a, b, bits) % 2 == 1 <==> a % 2 != b % 2
  {
  }

  /** The key index is a 16-bit counter: it starts again when it reaches the key's length or wraps. */
  function Period(n: nat): (p: nat)
    ensures n > 0 ==> p > 0
  {
    if n < 0x1_0000 then n else 0x1_0000
  }

  /** What Xor(data, key) leaves in data. */
  function CyclicXor(data: Bytes, key: Bytes): (r: Bytes)
    requires data != [] ==> key != []
    ensures |r| == |data|
  {
    seq(|data|, i requires 0 <= i < |data| => XorOctet(data[i], key[i % Period(|key|)]))
  }

  /** r is data with bit after bit inverted where the key, started again at its end or after 65536 octets, has a bit. */
  ghost predicate Inverted(data: Bytes, key: Bytes, r: Bytes) {
    && |r| == |data| && (data != [] ==> key != [])
    && forall i, bit :: 0 <= i < |data| && 0 <= bit < 8 ==>
         (Bit(r[i], bit) == 1 <==> Bit(data[i], bit) != Bit(key[i % if |key| < 65536 then |key| else 65536], bit))
  }

  lemma {:induction false} XorInverts(data: Bytes, key: Bytes)
    requires data != [] ==> key != []
    ensures Inverted(data, key, CyclicXor(data, key))
  {
    forall i, bit | 0 <= i < |data| && 0 <= bit < 8
      ensures Bit(CyclicXor(data, key)[i], bit) == 1 <==> Bit(data[i], bit) != Bit(key[i % Period(|key|)], bit)
    {
      XorBit(data[i], key[i % Period(|key|)], 8, bit);
    }
  }

  /** Two halves of one length give one key, whichever end combines them. */
  lemma XorCommutes(a: Bytes, b: Bytes)
    requires |a| == |b| <= 0x1_0000
    ensures CyclicXor(a, b) == CyclicXor(b, a)
  {
    forall i | 0 <= i < |a|
      ensures CyclicXor(a, b)[i] == CyclicXor(b, a)[i]
    {
      assert Period(|a|) == |a|;
      ModUnique(i, |a|, 0, i);
      XorBitsCommutes(a[i], b[i], 8);
    }
  }

  /** Combining twice with the same half restores the data, whatever the two lengths. */
  lemma XorCancels(data: Bytes, key: Bytes)
    requires data != [] ==> key != []
    ensures CyclicXor(CyclicXor(data, key), key) == data
  {
    forall i | 0 <= i < |data|
      ensures CyclicXor(CyclicXor(data, key), key)[i] == data[i]
    {
      assert Pow2(8) == 256;
      XorBitsCancels(data[i], key[i % Period(|key|)], 8);
    }
  }

  /** A half determines the combined key: different halves give different keys. */
  lemma XorInjective(a: Bytes, b: Bytes, key: Bytes)
    requires |a| == |b|
    requires a != [] ==> key != []
    ensures CyclicXor(a, key) == CyclicXor(b, key) <==> a == b
  {
    XorCancels(a, key);
    XorCancels(b, key);
  }

  /**
   The in-place loop.  Reading the first octet of an empty key throws before
   anything is written.
   */
  method Xor(data: array<Octet>, key: Bytes) returns (thrown: bool)
    modifies data
    ensures thrown <==> data.Length > 0 && key == []
    ensures thrown ==> data[..] == old(data[..])
    ensures !thrown ==> data[..] == CyclicXor(old(data[..]), key)
    ensures !thrown ==> Inverted(old(data[..]), key, data[..])
  {
    var k: nat := 0;
    var i := 0;
    while i < data.Length
      invariant 0 <= i <= data.Length
      invariant i > 0 ==> key != []
      invariant key != [] ==> k == i % Period(|key|)
      invariant forall j :: 0 <= j < i ==> data[j] == XorOctet(old(data[j]), key[j % Period(|key|)])
      invariant forall j :: i <= j < data.Length ==> data[j] == old(data[j])
    {
      if k >= |key| {
        return true;
      }
      data[i] := XorOctet(data[i], key[k]);
      NextIndex(i, Period(|key|));
      k := (k + 1) % 0x1_0000;
      if k >= |key| {
        k := 0;
      }
      i := i + 1;
    }
    assert data[..] == CyclicXor(old(data[..]), key);
    XorInverts(old(data[..]), key);
    thrown := false;
  }

  lemma NextIndex(i: nat, p: nat)
    requires p > 0
    ensures (i + 1) % p == if i % p + 1 == p then 0 else i % p + 1
  {
    var q := i / p;
    assert i == q * p + i % p;
    if i % p + 1 == p {
      assert i + 1 == (q + 1) * p;
      ModUnique(i + 1, p, q + 1, 0);
    } else {
      ModUnique(i + 1, p, q, i % p + 1);
    }
  }

  lemma ModUnique(n: nat, p: nat, q: nat, r: nat)
    requires r < p && n == q * p + r
    ensures n % p == r
  {
    var d := n / p - q;
    assert d * p == r - n % p;
    assert -1 < d < 1 by {
      assert d >= 1 ==> d * p >= p;
      assert d <= -1 ==> d * p <= -1 * p;
    }
  }
}
