/**
 Octets and fixed-width integers as they lie in memory.  Every integer of the
 program is stored with its least significant octet first; a build that defines
 BIG_ENDIAN reverses it before storing and after loading.
 */
module Octets {
  type Octet = x: int | 0 <= x < 256
  type Bytes = seq<Octet>

  function Pow256(w: nat): (p: nat)
    ensures p > 0
  {
    if w == 0 then 1 else 256 * Pow256(w - 1)
  }

  function LittleEndian(v: nat, w: nat): (b: Bytes)
    ensures |b| == w
  {
    if w == 0 then [] else [v % 256] + LittleEndian(v / 256, w - 1)
  }

  function FromLittleEndian(b: Bytes): (v: nat) {
    if b == [] then 0 else b[0] + 256 * FromLittleEndian(b[1..])
  }

  function Reverse(b: Bytes): (r: Bytes)
    ensures |r| == |b|
  {
    if b == [] then [] else Reverse(b[1..]) + [b[0]]
  }

  /** EndianConvert followed by the memory copy of an append. */
  function Store(v: nat, w: nat, swap: bool): (b: Bytes)
    ensures |b| == w
  {
    if swap then Reverse(LittleEndian(v, w)) else LittleEndian(v, w)
  }

  /** The memory copy of a read followed by EndianConvert. */
  function Load(b: Bytes, swap: bool): nat {
    FromLittleEndian(if swap then Reverse(b) else b)
  }

  lemma {:induction false} LittleEndianInverse(v: nat, w: nat)
    requires v < Pow256(w)
    ensures FromLittleEndian(LittleEndian(v, w)) == v
  {
    if w != 0 {
      LittleEndianInverse(v / 256, w - 1);
    }
  }

  lemma {:induction false} ReverseSnoc(b: Bytes, x: Octet)
    ensures Reverse(b + [x]) == [x] + Reverse(b)
  {
    if b != [] {
      assert (b + [x])[1..] == b[1..] + [x];
      ReverseSnoc(b[1..], x);
    }
  }

  lemma {:induction false} ReverseInverse(b: Bytes)
    ensures Reverse(Reverse(b)) == b
  {
    if b != [] {
      ReverseSnoc(Reverse(b[1..]), b[0]);
      ReverseInverse(b[1..]);
    }
  }

  /** Whatever the byte-order setting, a stored integer is loaded back. */
  lemma LoadStore(v: nat, w: nat, swap: bool)
    requires v < Pow256(w)
    ensures Load(Store(v, w, swap), swap) == v
  {
    LittleEndianInverse(v, w);
    ReverseInverse(LittleEndian(v, w));
  }

  lemma {:induction false} ReverseAt(b: Bytes, k: nat)
    requires k < |b|
    ensures Reverse(b)[k] == b[|b| - 1 - k]
  {
    if k < |b| - 1 {
      ReverseAt(b[1..], k);
    }
  }

  lemma {:induction false} LittleEndianAt(v: nat, w: nat, k: nat)
    requires k < w
    ensures LittleEndian(v, w)[k] == v / Pow256(k) % 256
  {
    if k > 0 {
      LittleEndianAt(v / 256, w - 1, k - 1);
      DivTwice(v, Pow256(k - 1));
    }
  }

  lemma {:induction false} DivTwice(v: nat, p: nat)
    requires p > 0
    ensures v / 256 / p == v / (256 * p)
  {
    var q, r := v / 256 / p, v / 256 % p;
    assert v == 256 * (p * q + r) + v % 256;
    var low := 256 * r + v % 256;
    assert v == 256 * p * q + low && 0 <= low < 256 * p;
    QuotientUnique(v, 256 * p, q, low);
  }

  lemma {:induction false} QuotientUnique(n: nat, p: nat, q: nat, r: nat)
    requires r < p && n == p * q + r
    ensures n / p == q
  {
    var d := n / p - q;
    assert d * p == r - n % p;
    assert d >= 1 ==> d * p >= p;
    assert d <= -1 ==> d * p <= -1 * p;
  }

  /** Octet k of an integer of w octets in memory: the lowest first, or last in a build that swaps. */
  function OctetAt(v: nat, w: nat, k: nat, swap: bool): Octet
    requires k < w
  {
    v / Pow256(if swap then w - 1 - k else k) % 256
  }

  lemma {:induction false} StoreAt(v: nat, w: nat, k: nat, swap: bool)
    requires k < w
    ensures Store(v, w, swap)[k] == OctetAt(v, w, k, swap)
  {
    if swap {
      ReverseAt(LittleEndian(v, w), k);
    }
    LittleEndianAt(v, w, if swap then w - 1 - k else k);
  }

  /** Decrement with the wrap-around of a 32-bit unsigned integer. */
  function Dec32(v: nat): (d: nat)
    ensures d < 0x1_0000_0000
  {
    (v - 1) % 0x1_0000_0000
  }

  /** The number of octets a string read takes before a zero octet or the end. */
  function TextLength(b: Bytes): (n: nat)
    ensures n <= |b|
    ensures n < |b| ==> b[n] == 0
  {
    if b == [] || b[0] == 0 then 0 else 1 + TextLength(b[1..])
  }

  function Text(b: Bytes): Bytes {
    b[..TextLength(b)]
  }

  /** What is left behind the text and its terminator. */
  function AfterText(b: Bytes): Bytes {
    if TextLength(b) < |b| then b[TextLength(b) + 1..] else []
  }

  lemma {:induction false} TextLengthOf(t: Bytes, tail: Bytes)
    requires 0 !in t
    requires tail == [] || tail[0] == 0
    ensures TextLength(t + tail) == |t|
  {
    if t != [] {
      assert (t + tail)[1..] == t[1..] + tail;
      TextLengthOf(t[1..], tail);
    } else {
      assert t + tail == tail;
    }
  }

  /** A zero-free string written with its terminator is read back, and the rest stays. */
  lemma TextRoundTrip(t: Bytes, tail: Bytes)
    requires 0 !in t
    ensures Text(t + [0] + tail) == t
    ensures AfterText(t + [0] + tail) == tail
  {
    assert t + [0] + tail == t + ([0] + tail);
    TextLengthOf(t, [0] + tail);
  }

  lemma {:induction false} TextStops(s: Bytes)
    ensures 0 !in Text(s)
  {
    if s != [] && s[0] != 0 {
      TextStops(s[1..]);
      assert Text(s) == [s[0]] + Text(s[1..]);
    }
  }
}
