/** Which octet of a value lies where in the buffer. */
module BufferLayout {
  import opened Octets
  import opened KeyXor
  import opened BufferFormat

  /** Integers: two's complement, the lowest octet first unless the build swaps. */
  lemma {:induction false} IntegerLayout(i: int, w: nat, k: nat, swap: bool)
    requires k < w && -HalfRange(w) <= i < HalfRange(w)
    ensures Encode(Signed(w, i), swap)[k] == OctetAt(if i < 0 then i + Pow256(w) else i, w, k, swap)
    ensures i >= 0 ==> Encode(Unsigned(w, i), swap)[k] == OctetAt(i, w, k, swap)
  {
    assert Pow256(w) == 2 * HalfRange(w);
    if i < 0 {
      ModNegative(i, Pow256(w));
    } else {
      ModSmall(i, Pow256(w));
    }
    StoreAt(i % Pow256(w), w, k, swap);
  }

  /** Bit i of the mark is set exactly when octet i is not zero. */
  lemma {:induction false} MarkBit(octets: Bytes, i: nat)
    requires i < |octets|
    ensures Bit(Mark(octets), i) == 1 <==> octets[i] != 0
  {
    MarkParts(octets);
    NextBit(Mark(octets), if i == 0 then 0 else i - 1);
    if i > 0 {
      MarkBit(octets[1..], i - 1);
    }
  }

  /** The octets that are not zero follow in their order. */
  lemma {:induction false} NonZeroAt(octets: Bytes, i: nat)
    requires i < |octets| && octets[i] != 0
    ensures |NonZero(octets[..i])| < |NonZero(octets)| && NonZero(octets)[|NonZero(octets[..i])|] == octets[i]
  {
    if i > 0 {
      NonZeroAt(octets[1..], i - 1);
      assert octets[..i][1..] == octets[1..][..i - 1];
    }
  }

  /** A packed GUID: the mark of its eight octets, then those that are not zero, lowest first. */
  lemma {:induction false} GuidLayout(g: nat, i: nat)
    requires g < Pow256(8) && i < 8
    ensures var packed, octet := Pack(g), g / Pow256(i) % 256;
      var place := |NonZero(LittleEndian(g, 8)[..i])|;
      && (Bit(packed[0], i) == 1 <==> octet != 0)
      && (octet != 0 ==> 1 + place < |packed| && packed[1 + place] == octet)
  {
    var octets := LittleEndian(g, 8);
    LittleEndianAt(g, 8, i);
    MarkBit(octets, i);
    if octets[i] != 0 {
      NonZeroAt(octets, i);
    }
  }
}
