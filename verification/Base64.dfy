/**
 The streaming Base64 encoder and decoder, and the block-wise definition of section 4
 of RFC 4648.  Text is a row of character codes.
 */
module Base64 {
  import opened Octets
  import opened KeyXor

  // ---------- the alphabet ----------

  const Pad: Octet := 61

  /** The character of a six-bit digit: A-Z, a-z, 0-9, plus, slash. */
  function Letter(d: nat): (c: Octet)
    requires d < 64
    ensures c != Pad && !IsSpace(c)
  {
    if d < 26 then 65 + d
    else if d < 52 then 97 + (d - 26)
    else if d < 62 then 48 + (d - 52)
    else if d == 62 then 43 else 47
  }

  /** The reverse table, 64 for a character outside the alphabet and for any code above 127. */
  function Digit(c: Octet): (d: nat)
    ensures d <= 64
  {
    if 65 <= c <= 90 then c - 65
    else if 97 <= c <= 122 then c - 97 + 26
    else if 48 <= c <= 57 then c - 48 + 52
    else if c == 43 then 62 else if c == 47 then 63 else 64
  }

  predicate IsSpace(c: Octet) {
    c == 32 || 9 <= c <= 13
  }

  predicate Skipped(c: Octet) {
    IsSpace(c) || c == Pad
  }

  lemma {:induction false} DigitOfLetter(d: nat)
    requires d < 64
    ensures Digit(Letter(d)) == d
  {
  }

  // ---------- the block-wise definition ----------

  /** Three octets are four digits; a last block of one or two octets is filled with zero bits and padded. */
  function Encoding(data: Bytes): (text: Bytes)
    ensures |text| == 4 * ((|data| + 2) / 3)
  {
    if data == [] then []
    else if |data| == 1 then [Letter(data[0] / 4), Letter(data[0] % 4 * 16), Pad, Pad]
    else if |data| == 2 then
      [Letter(data[0] / 4), Letter(data[0] % 4 * 16 + data[1] / 16), Letter(data[1] % 16 * 4), Pad]
    else
      [Letter(data[0] / 4), Letter(data[0] % 4 * 16 + data[1] / 16), Letter(data[1] % 16 * 4 + data[2] / 64),
       Letter(data[2] % 64)] + Encoding(data[3..])
  }

  /** The digits that count in a text. */
  function Stripped(text: Bytes): Bytes {
    if text == [] then [] else
    Stripped(text[..|text| - 1]) + if Skipped(text[|text| - 1]) then [] else [text[|text| - 1]]
  }

  predicate Legal(c: Octet) {
    Skipped(c) || Digit(c) < 64
  }

  predicate AllLegal(text: Bytes) {
    forall i :: 0 <= i < |text| ==> Legal(text[i])
  }

  /** Four letters are three octets; what is over at the end gives the octets it fills. */
  function Decoding(letters: Bytes): Bytes
    requires AllLegal(letters)
  {
    if |letters| < 2 then []
    else
      var d0, d1 := Value(letters[0]), Value(letters[1]);
      if |letters| == 2 then [d0 * 4 + d1 / 16] else
      var d2 := Value(letters[2]);
      if |letters| == 3 then [d0 * 4 + d1 / 16, d1 % 16 * 16 + d2 / 4] else
      [d0 * 4 + d1 / 16, d1 % 16 * 16 + d2 / 4, d2 % 4 * 64 + Value(letters[3])] + Decoding(letters[4..])
  }

  function Value(c: Octet): (d: nat)
    ensures d < 64
  {
    Digit(c) % 64
  }

  // ---------- the round trip ----------

  lemma {:induction false} StrippedConcat(a: Bytes, b: Bytes)
    ensures Stripped(a + b) == Stripped(a) + Stripped(b)
  {
    if b == [] {
      assert a + b == a;
    } else {
      var front := b[..|b| - 1];
      StrippedConcat(a, front);
      assert (a + b)[..|a + b| - 1] == a + front;
    }
  }

  lemma {:induction false} StrippedSnoc(a: Bytes, c: Octet)
    ensures Stripped(a + [c]) == Stripped(a) + if Skipped(c) then [] else [c]
  {
    assert (a + [c])[..|a|] == a;
  }

  lemma {:induction false} Stripped4(a: Octet, b: Octet, c: Octet, d: Octet)
    ensures Stripped([a, b, c, d]) ==
      (if Skipped(a) then [] else [a]) + (if Skipped(b) then [] else [b]) +
      (if Skipped(c) then [] else [c]) + (if Skipped(d) then [] else [d])
  {
    StrippedSnoc([], a);
    StrippedSnoc([a], b);
    StrippedSnoc([a, b], c);
    StrippedSnoc([a, b, c], d);
    assert [a, b] + [c] == [a, b, c] && [a, b, c] + [d] == [a, b, c, d] && [a] + [b] == [a, b];
    assert [] + [a] == [a];
  }

  /** A full block has no padding and decodes to its three octets. */
  lemma {:induction false} BlockStripped(a: Octet, b: Octet, c: Octet)
    ensures Stripped(Encoding([a, b, c])) == Encoding([a, b, c]) && AllLegal(Encoding([a, b, c]))
  {
    var block := Encoding([a, b, c]);
    EncodingThree(a, b, c);
    Stripped4(block[0], block[1], block[2], block[3]);
    BlockDecodes(a, b, c);
  }

  lemma {:induction false} BlockThen(a: Octet, b: Octet, c: Octet, rest: Bytes)
    requires AllLegal(rest)
    ensures AllLegal(Encoding([a, b, c]) + rest)
    ensures Decoding(Encoding([a, b, c]) + rest) == [a, b, c] + Decoding(rest)
  {
    EncodingThree(a, b, c);
    BlockDecodes(a, b, c);
    BlockStripped(a, b, c);
    assert (Encoding([a, b, c]) + rest)[4..] == rest;
  }

  /** The letters of the encoding, without the padding. */
  lemma {:induction false} LettersDecode(data: Bytes)
    ensures AllLegal(Stripped(Encoding(data)))
    ensures Decoding(Stripped(Encoding(data))) == data
  {
    if |data| >= 3 {
      LettersDecode(data[3..]);
      LettersThen(data);
    } else if data != [] {
      ShortStripped(data);
      ShortDecodes(data);
    }
  }

  lemma {:induction false} LettersThen(data: Bytes)
    requires |data| >= 3
    requires AllLegal(Stripped(Encoding(data[3..]))) && Decoding(Stripped(Encoding(data[3..]))) == data[3..]
    ensures AllLegal(Stripped(Encoding(data))) && Decoding(Stripped(Encoding(data))) == data
  {
    var rest := Encoding(data[3..]);
    EncodingFirst(data);
    assert data[..3] == [data[0], data[1], data[2]];
    BlockStripped(data[0], data[1], data[2]);
    StrippedConcat(Encoding(data[..3]), rest);
    BlockThen(data[0], data[1], data[2], Stripped(rest));
    assert data[..3] + data[3..] == data;
  }

  lemma {:induction false} ShortStripped(data: Bytes)
    requires 1 <= |data| <= 2
    ensures Stripped(Encoding(data)) == Encoding(data)[..|data| + 1]
  {
    var text := Encoding(data);
    Stripped4(text[0], text[1], text[2], text[3]);
    assert text == [text[0], text[1], text[2], text[3]];
  }

  lemma {:induction false} BlockDecodes(a: Octet, b: Octet, c: Octet)
    ensures var d0, d1, d2, d3 := a / 4, a % 4 * 16 + b / 16, b % 16 * 4 + c / 64, c % 64;
      && Value(Letter(d0)) == d0 && Value(Letter(d1)) == d1 && Value(Letter(d2)) == d2 && Value(Letter(d3)) == d3
      && Legal(Letter(d0)) && Legal(Letter(d1)) && Legal(Letter(d2)) && Legal(Letter(d3))
      && a == d0 * 4 + d1 / 16 && b == d1 % 16 * 16 + d2 / 4 && c == d2 % 4 * 64 + d3
  {
    LetterBack(a / 4);
    LetterBack(a % 4 * 16 + b / 16);
    LetterBack(b % 16 * 4 + c / 64);
    LetterBack(c % 64);
    Regrouped(a, b, c);
  }

  lemma {:induction false} LetterBack(d: nat)
    requires d < 64
    ensures Value(Letter(d)) == d && Legal(Letter(d))
  {
    DigitOfLetter(d);
  }

  /** Three octets cut into four digits and put together again. */
  lemma {:induction false} Regrouped(a: Octet, b: Octet, c: Octet)
    ensures var d0, d1, d2, d3 := a / 4, a % 4 * 16 + b / 16, b % 16 * 4 + c / 64, c % 64;
      a == d0 * 4 + d1 / 16 && b == d1 % 16 * 16 + d2 / 4 && c == d2 % 4 * 64 + d3
  {
    assert (a % 4 * 16 + b / 16) / 16 == a % 4 && (a % 4 * 16 + b / 16) % 16 == b / 16;
    assert (b % 16 * 4 + c / 64) / 4 == b % 16 && (b % 16 * 4 + c / 64) % 4 == c / 64;
  }

  lemma {:induction false} ShortDecodes(data: Bytes)
    requires 1 <= |data| <= 2
    ensures var letters := Encoding(data)[..|data| + 1]; AllLegal(letters) && Decoding(letters) == data
  {
    BlockDecodes(data[0], if |data| == 2 then data[1] else 0, 0);
  }

  /** What the decoder does with a text: nothing when some character is illegal. */
  datatype Decoded = Octets(octets: Bytes) | Illegal

  function DecodeText(text: Bytes): Decoded {
    if AllLegal(text) then
      StrippedLegal(text);
      Octets(Decoding(Stripped(text)))
    else Illegal
  }

  lemma {:induction false} StrippedLegal(text: Bytes)
    requires AllLegal(text)
    ensures AllLegal(Stripped(text))
  {
    if text != [] {
      StrippedLegal(text[..|text| - 1]);
    }
  }

  lemma {:induction false} EncodingLegal(data: Bytes)
    ensures AllLegal(Encoding(data))
  {
    if |data| >= 3 {
      EncodingLegal(data[3..]);
      BlockDecodes(data[0], data[1], data[2]);
    } else if data != [] {
      BlockDecodes(data[0], if |data| == 2 then data[1] else 0, 0);
    }
  }

  /** The encoding, with white space (or padding) put in or taken out anywhere, decodes to the data. */
  lemma {:induction false} RoundTrip(data: Bytes, text: Bytes)
    requires AllLegal(text) && Stripped(text) == Stripped(Encoding(data))
    ensures DecodeText(text) == Octets(data)
  {
    LettersDecode(data);
  }

  lemma {:induction false} PlainRoundTrip(data: Bytes)
    ensures DecodeText(Encoding(data)) == Octets(data)
  {
    EncodingLegal(data);
    RoundTrip(data, Encoding(data));
  }

  // ---------- the streaming encoder ----------

  /** What is written once the octets of data have been consumed and the last digit is not full. */
  function Emitted(data: Bytes): (text: Bytes)
    ensures |text| == |data| + |data| / 3
  {
    if data == [] then []
    else if |data| == 1 then [Letter(data[0] / 4)]
    else if |data| == 2 then [Letter(data[0] / 4), Letter(data[0] % 4 * 16 + data[1] / 16)]
    else Encoding(data[..3]) + Emitted(data[3..])
  }

  /** The digits that one more octet completes, after the octet last. */
  function Completed(last: Octet, n: nat, x: Octet): (text: Bytes) {
    if n % 3 == 0 then [Letter(x / 4)]
    else if n % 3 == 1 then [Letter(last % 4 * 16 + x / 16)]
    else [Letter(last % 16 * 4 + x / 64), Letter(x % 64)]
  }

  function Last(data: Bytes): Octet {
    if data == [] then 0 else data[|data| - 1]
  }

  lemma {:induction false} EmittedSnoc(data: Bytes, x: Octet)
    ensures Emitted(data + [x]) == Emitted(data) + Completed(Last(data), |data|, x)
    decreases |data|
  {
    if |data| >= 3 {
      EmittedSnoc(data[3..], x);
      EmittedSplit(data, x);
      var e, f, c := Encoding(data[..3]), Emitted(data[3..]), Completed(Last(data), |data|, x);
      CompletedLater(data, x);
      assert e + f + c == e + (f + c);
    } else {
      EmittedShort(data, x);
    }
  }

  lemma {:induction false} CompletedLater(data: Bytes, x: Octet)
    requires |data| >= 3
    ensures Completed(Last(data[3..]), |data[3..]|, x) == Completed(Last(data), |data|, x)
  {
    Mod3(|data|);
    if |data| > 3 {
      assert Last(data[3..]) == Last(data);
    }
  }

  lemma {:induction false} Mod3(n: nat)
    requires n >= 3
    ensures (n - 3) % 3 == n % 3
  {
  }

  lemma {:induction false} EmittedSplit(data: Bytes, x: Octet)
    requires |data| >= 3
    ensures Emitted(data) == Encoding(data[..3]) + Emitted(data[3..])
    ensures Emitted(data + [x]) == Encoding(data[..3]) + Emitted(data[3..] + [x])
  {
    EmittedFirst(data);
    EmittedFirst(data + [x]);
    assert (data + [x])[3..] == data[3..] + [x] && (data + [x])[..3] == data[..3];
  }

  lemma {:induction false} EmittedShort(data: Bytes, x: Octet)
    requires |data| < 3
    ensures Emitted(data + [x]) == Emitted(data) + Completed(Last(data), |data|, x)
  {
    if |data| == 2 {
      var three := [data[0], data[1], x];
      assert data + [x] == three && three[..3] == three;
      EmittedFirst(three);
      EncodingThree(data[0], data[1], x);
    }
  }

  lemma {:induction false} EncodingThree(a: Octet, b: Octet, c: Octet)
    ensures Encoding([a, b, c]) ==
      [Letter(a / 4), Letter(a % 4 * 16 + b / 16), Letter(b % 16 * 4 + c / 64), Letter(c % 64)]
  {
  }

  lemma {:induction false} EmittedFirst(data: Bytes)
    requires |data| >= 3
    ensures Emitted(data) == Encoding(data[..3]) + Emitted(data[3..])
  {
  }

  /** The last, partly filled digit. */
  function Remainder(data: Bytes): Bytes {
    if |data| % 3 == 0 then []
    else if |data| % 3 == 1 then [Letter(Last(data) % 4 * 16)]
    else [Letter(Last(data) % 16 * 4)]
  }

  function Pads(n: nat): Bytes {
    if n % 3 == 0 then [] else if n % 3 == 1 then [Pad, Pad] else [Pad]
  }

  lemma {:induction false} EncodingIsEmitted(data: Bytes)
    ensures Encoding(data) == Emitted(data) + Remainder(data) + Pads(|data|)
  {
    if |data| >= 3 {
      EncodingIsEmitted(data[3..]);
      EncodingFirst(data);
      EmittedFirst(data);
      TailLater(data);
      var b, e, r, p := Encoding(data[..3]), Emitted(data[3..]), Remainder(data), Pads(|data|);
      assert b + e + r + p == b + (e + r + p);
    }
  }

  lemma {:induction false} TailLater(data: Bytes)
    requires |data| >= 3
    ensures Remainder(data[3..]) == Remainder(data) && Pads(|data[3..]|) == Pads(|data|)
  {
  }

  lemma {:induction false} EncodingFirst(data: Bytes)
    requires |data| >= 3
    ensures Encoding(data) == Encoding(data[..3]) + Encoding(data[3..])
  {
    assert data[..3][3..] == [] && Encoding([]) == [];
  }

  const Wrap: nat := 0x1_0000_0000

  /** One more octet shifted into the 32-bit accumulator; the shift leaves the low bits free. */
  function ShiftIn(acc: nat, x: Octet): nat {
    acc * 256 % Wrap + x
  }

  lemma {:induction false} Over16(u: nat, v: nat)
    requires v < 16
    ensures (16 * u + v) % 16 == v && (16 * u + v) % 4 == v % 4
  {
    assert 16 * u + v == 4 * (4 * u + v / 4) + v % 4;
  }

  /** The part of the old accumulator that survives the shift. */
  lemma {:induction false} Survives(acc: nat)
    ensures acc * 256 % Wrap == 256 * (acc % 0x100_0000)
    ensures acc % 0x100_0000 % 16 == acc % 16 && acc % 0x100_0000 % 4 == acc % 4
  {
    var q, t := acc / 0x100_0000, acc % 0x100_0000;
    assert acc == 0x100_0000 * q + t;
    Over16(t / 16, t % 16);
    Over16(q * 0x10_0000 + t / 16, t % 16);
  }

  lemma {:induction false} Shifted4(t: nat, x: Octet)
    ensures (256 * t + x) / 4 % 64 == x / 4 && (256 * t + x) % 256 == x && (256 * t + x) % 64 == x % 64
  {
    assert (256 * t + x) / 4 == 64 * t + x / 4;
    Over64(t, x / 4);
    Over64(4 * t + x / 64, x % 64);
    Over256(t, x);
  }

  lemma {:induction false} Shifted16(t: nat, x: Octet)
    ensures (256 * t + x) / 16 % 64 == t % 4 * 16 + x / 16
  {
    var u := t / 4;
    assert (256 * t + x) / 16 == 64 * u + (t % 4 * 16 + x / 16);
  }

  lemma {:induction false} Shifted64(t: nat, x: Octet)
    ensures (256 * t + x) / 64 % 64 == t % 16 * 4 + x / 64
  {
    var u := t / 16;
    assert (256 * t + x) / 64 == 64 * u + (t % 16 * 4 + x / 64);
  }

  /** However the accumulator has wrapped, its low bits are the last two octets. */
  lemma {:induction false} ShiftInBits(acc: nat, x: Octet)
    ensures var r := ShiftIn(acc, x);
      && r < Wrap && r % 256 == x
      && r / 4 % 64 == x / 4
      && r / 16 % 64 == acc % 4 * 16 + x / 16
      && r / 64 % 64 == acc % 16 * 4 + x / 64
      && r % 64 == x % 64
  {
    var t := acc % 0x100_0000;
    Survives(acc);
    Shifted4(t, x);
    Shifted16(t, x);
    Shifted64(t, x);
  }

  /** The string could not be as long as the size type allows, or an assertion fails. */
  datatype Encoded = Text(text: Bytes) | TooLong | AssertFailed

  const MaxLength: nat := 0xFFFF_FFFF_FFFF_FFFF / 4 * 3

  /** (accumulator >> bits) & 0x3f */
  function SixBits(acc: nat, bits: nat): (d: nat)
    ensures d < 64
  {
    acc / Pow2(bits) % 64
  }

  lemma {:induction false} SixBitsAt(acc: nat)
    ensures SixBits(acc, 0) == acc % 64 && SixBits(acc, 2) == acc / 4 % 64
    ensures SixBits(acc, 4) == acc / 16 % 64 && SixBits(acc, 6) == acc / 64 % 64
  {
    assert Pow2(2) == 4 && Pow2(4) == 16;
    assert Pow2(6) == 64;
  }

  lemma {:induction false} DigitAt(acc: nat, n: nat, last: Octet, x: Octet, j: nat)
    requires Holds(acc, n, last, x) && 6 * (j + 1) <= n % 3 * 2 + 8
    ensures j < |Completed(last, n, x)| && Letter(SixBits(acc, n % 3 * 2 + 8 - 6 * (j + 1))) == Completed(last, n, x)[j]
  {
    SixBitsAt(acc);
    assert j == 0 || (j == 1 && n % 3 == 2);
  }

  /** The bits left when every full digit is written. */
  lemma {:induction false} DigitCount(n: nat, last: Octet, x: Octet)
    ensures n % 3 * 2 + 8 == 6 * |Completed(last, n, x)| + (n + 1) % 3 * 2
  {
    var r := n % 3;
    assert (n + 1) % 3 == if r == 2 then 0 else r + 1;
  }

  /** The inner loop: as long as six bits are there, write a digit. */
  method EmitDigits(retval: array<Octet>, from: nat, collected: nat, acc: nat, ghost last: Octet, ghost n: nat, ghost x: Octet)
    returns (outpos: nat, bits: nat)
    requires collected == n % 3 * 2 + 8
    requires Holds(acc, n, last, x)
    requires from + |Completed(last, n, x)| <= retval.Length
    modifies retval
    ensures bits == (n + 1) % 3 * 2 && outpos == from + |Completed(last, n, x)|
    ensures retval[..outpos] == old(retval[..from]) + Completed(last, n, x)
    ensures forall k :: outpos <= k < retval.Length ==> retval[k] == old(retval[k])
  {
    outpos, bits := from, collected;
    ghost var digits := Completed(last, n, x);
    DigitCount(n, last, x);
    while bits >= 6
      invariant from <= outpos <= from + |digits| && bits + 6 * (outpos - from) == collected
      invariant retval[..outpos] == old(retval[..from]) + digits[..outpos - from]
      invariant forall k :: outpos <= k < retval.Length ==> retval[k] == old(retval[k])
    {
      bits := bits - 6;
      DigitAt(acc, n, last, x, outpos - from);
      retval[outpos] := Letter(SixBits(acc, bits));
      outpos := outpos + 1;
      assert retval[..outpos] == retval[..outpos - 1] + [digits[outpos - 1 - from]];
    }
  }

  /** The outer loop over the octets. */
  method EncodeLoop(data: Bytes, retval: array<Octet>) returns (outpos: nat, bits: nat, acc: nat)
    requires retval.Length == |Encoding(data)| && forall k :: 0 <= k < retval.Length ==> retval[k] == Pad
    modifies retval
    ensures outpos == |data| + |data| / 3 && bits == |data| % 3 * 2
    ensures retval[..outpos] == Emitted(data)
    ensures forall k :: outpos <= k < retval.Length ==> retval[k] == Pad
    ensures data != [] ==> acc % 256 == Last(data)
  {
    outpos, bits, acc := 0, 0, 0;
    for i := 0 to |data|
      invariant outpos == i + i / 3 && bits == i % 3 * 2
      invariant retval[..outpos] == Emitted(data[..i])
      invariant forall k :: outpos <= k < retval.Length ==> retval[k] == Pad
      invariant i > 0 ==> acc % 256 == data[i - 1]
    {
      ghost var last := Last(data[..i]);
      assert i > 0 ==> last == data[i - 1];
      EncodeStep(data, i);
      Room(|data|, i, last, data[i]);
      NextBits(acc, i, last, data[i]);
      acc := ShiftIn(acc, data[i]);
      outpos, bits := EmitDigits(retval, outpos, bits + 8, acc, last, i, data[i]);
    }
    assert data[..|data|] == data;
  }

  lemma {:induction false} EncodeStep(data: Bytes, i: nat)
    requires i < |data|
    ensures Emitted(data[..i + 1]) == Emitted(data[..i]) + Completed(Last(data[..i]), i, data[i])
  {
    assert data[..i + 1] == data[..i] + [data[i]];
    EmittedSnoc(data[..i], data[i]);
  }

  /** What EmitDigits needs to know of the accumulator. */
  ghost predicate Holds(acc: nat, n: nat, last: Octet, x: Octet) {
    && acc % 256 == x && acc / 4 % 64 == x / 4 && acc % 64 == x % 64
    && (n % 3 == 1 ==> acc / 16 % 64 == last % 4 * 16 + x / 16)
    && (n % 3 == 2 ==> acc / 64 % 64 == last % 16 * 4 + x / 64)
  }

  lemma {:induction false} NextBits(acc: nat, n: nat, last: Octet, x: Octet)
    requires n > 0 ==> acc % 256 == last
    ensures Holds(ShiftIn(acc, x), n, last, x)
  {
    ShiftInBits(acc, x);
    LowOctet(acc);
  }

  lemma {:induction false} LowOctet(acc: nat)
    ensures acc % 256 % 4 == acc % 4 && acc % 256 % 16 == acc % 16
  {
    var h, l := acc / 256, acc % 256;
    Over16(l / 16, l % 16);
    Over16(16 * h + l / 16, l % 16);
  }

  /** The digit that is not full. */
  method EncodeRest(data: Bytes, retval: array<Octet>, from: nat, bits: nat, acc: nat) returns (outpos: nat)
    requires bits == |data| % 3 * 2 && from + |Remainder(data)| <= retval.Length
    requires data != [] ==> acc % 256 == Last(data)
    modifies retval
    ensures outpos == from + |Remainder(data)|
    ensures retval[..outpos] == old(retval[..from]) + Remainder(data)
    ensures forall k :: outpos <= k < retval.Length ==> retval[k] == old(retval[k])
  {
    outpos := from;
    if bits > 0 {
      Tail16(acc);
      Tail4(acc);
      LowOctet(acc);
      var shifted := if bits == 2 then acc * 16 % Wrap else acc * 4 % Wrap;
      assert Remainder(data) == [Letter(shifted % 64)];
      retval[outpos] := Letter(shifted % 64);
      outpos := outpos + 1;
    }
  }

  /**
   EncodeBase64.  The result is preset with padding; every write is in bounds because the
   array access is.  The subtraction in the first closing assertion wraps on the empty input.
   */
  method EncodeBase64(data: Bytes) returns (r: Encoded)
    ensures r == if |data| > MaxLength then TooLong else if data == [] then AssertFailed else Text(Encoding(data))
  {
    if |data| > MaxLength {
      return TooLong;
    }
    var size := (|data| + 2) / 3 * 4;
    var retval := new Octet[size](_ => Pad);
    var outpos, bits, acc := EncodeLoop(data, retval);
    EncodingIsEmitted(data);
    outpos := EncodeRest(data, retval, outpos, bits, acc);
    AllClosed(data, retval[..], outpos);
    ClosingAsserts(|data|, outpos);
    if !AssertsHold(outpos, size) {
      return AssertFailed;
    }
    r := Text(retval[..]);
  }

  /** The closing assertions, with the subtraction of an unsigned 64-bit size. */
  predicate AssertsHold(outpos: nat, size: nat) {
    outpos >= (size - 2) % 0x1_0000_0000_0000_0000 && outpos <= size
  }

  lemma {:induction false} ClosingAsserts(n: nat, outpos: nat)
    requires n <= MaxLength && var size := (n + 2) / 3 * 4; size - 2 <= outpos <= size
    ensures AssertsHold(outpos, (n + 2) / 3 * 4) <==> n != 0
  {
    var size := (n + 2) / 3 * 4;
    if n > 0 {
      assert 0 <= size - 2 < 0x1_0000_0000_0000_0000;
    }
  }

  lemma {:induction false} AllClosed(data: Bytes, all: Bytes, outpos: nat)
    requires |all| == |Encoding(data)| && outpos <= |all| && all[..outpos] == Emitted(data) + Remainder(data)
    requires forall k :: outpos <= k < |all| ==> all[k] == Pad
    ensures all == Encoding(data) && |all| <= outpos + 2
  {
    Closed(data, all[..outpos], all[outpos..]);
    assert all == all[..outpos] + all[outpos..];
  }

  lemma {:induction false} Closed(data: Bytes, written: Bytes, left: Bytes)
    requires written == Emitted(data) + Remainder(data) && |written| + |left| == |Encoding(data)|
    requires forall k :: 0 <= k < |left| ==> left[k] == Pad
    ensures written + left == Encoding(data) && |left| <= 2
  {
    EncodingIsEmitted(data);
    assert |left| == |Pads(|data|)|;
    assert left == Pads(|data|);
  }

  lemma {:induction false} Over64(u: nat, v: nat)
    requires v < 64
    ensures (64 * u + v) % 64 == v
  {
  }

  lemma {:induction false} Tail16(acc: nat)
    ensures acc * 16 % Wrap % 64 == acc % 4 * 16
  {
    assert acc * 16 == 64 * (acc / 4) + 16 * (acc % 4);
    Over64(acc / 4, 16 * (acc % 4));
  }

  lemma {:induction false} Tail4(acc: nat)
    ensures acc * 4 % Wrap % 64 == acc % 16 * 4
  {
    assert acc * 4 == 64 * (acc / 16) + 4 * (acc % 16);
    Over64(acc / 16, 4 * (acc % 16));
  }

  lemma {:induction false} Room(n: nat, i: nat, last: Octet, x: Octet)
    requires i < n
    ensures var next := i + i / 3 + |Completed(last, i, x)|;
      next == i + 1 + (i + 1) / 3 <= 4 * ((n + 2) / 3)
  {
    var q, r := i / 3, i % 3;
    assert i == 3 * q + r;
  }

  // ---------- the streaming decoder ----------

  /** The octets that one more letter completes, after n letters the last of which had the value last. */
  function Filled(last: nat, n: nat, d: nat): (octets: Bytes)
    requires last < 64 && d < 64
  {
    if n % 4 == 0 then []
    else if n % 4 == 1 then [last * 4 + d / 16]
    else if n % 4 == 2 then [last % 16 * 16 + d / 4]
    else [last % 4 * 64 + d]
  }

  function LastValue(letters: Bytes): (d: nat)
    ensures d < 64
  {
    if letters == [] then 0 else Value(letters[|letters| - 1])
  }

  lemma {:induction false} DecodingSnoc(letters: Bytes, c: Octet)
    requires AllLegal(letters + [c])
    ensures AllLegal(letters)
    ensures Decoding(letters + [c]) == Decoding(letters) + Filled(LastValue(letters), |letters|, Value(c))
    decreases |letters|
  {
    LegalParts(letters, c);
    if |letters| >= 4 {
      LegalParts(letters[4..], c);
      DecodingSnoc(letters[4..], c);
      DecodingLong(letters, c);
    } else {
      DecodingShort(letters, c);
    }
  }

  lemma {:induction false} LegalParts(letters: Bytes, c: Octet)
    ensures AllLegal(letters + [c]) <==> AllLegal(letters) && Legal(c)
    ensures AllLegal(letters) && |letters| >= 4 ==> AllLegal(letters[4..])
  {
    var all := letters + [c];
    assert all[|letters|] == c;
    assert forall i :: 0 <= i < |letters| ==> all[i] == letters[i];
  }

  /** Behind the first block nothing changes but the length. */
  lemma {:induction false} DecodingLong(letters: Bytes, c: Octet)
    requires |letters| >= 4 && AllLegal(letters) && AllLegal(letters + [c])
    requires var rest := letters[4..];
      && AllLegal(rest) && AllLegal(rest + [c])
      && Decoding(rest + [c]) == Decoding(rest) + Filled(LastValue(rest), |rest|, Value(c))
    ensures Decoding(letters + [c]) == Decoding(letters) + Filled(LastValue(letters), |letters|, Value(c))
  {
    assert (letters + [c])[4..] == letters[4..] + [c] && (letters + [c])[..4] == letters[..4];
    DecodingFirst(letters);
    DecodingFirst(letters + [c]);
    FilledLater(letters, c);
    Chain(Block(letters[..4]), Decoding(letters[4..]), Filled(LastValue(letters), |letters|, Value(c)));
  }

  lemma {:induction false} Chain(b: Bytes, d: Bytes, f: Bytes)
    ensures b + (d + f) == (b + d) + f
  {
  }

  lemma {:induction false} FilledLater(letters: Bytes, c: Octet)
    requires |letters| >= 4
    ensures Filled(LastValue(letters[4..]), |letters[4..]|, Value(c)) == Filled(LastValue(letters), |letters|, Value(c))
  {
    Mod4(|letters|);
    if |letters| > 4 {
      assert LastValue(letters[4..]) == LastValue(letters);
    } else {
      assert |letters[4..]| == 0;
    }
  }

  lemma {:induction false} Mod4(n: nat)
    requires n >= 4
    ensures (n - 4) % 4 == n % 4
  {
  }

  function Block(four: Bytes): Bytes
    requires |four| == 4
  {
    var d0, d1, d2, d3 := Value(four[0]), Value(four[1]), Value(four[2]), Value(four[3]);
    [d0 * 4 + d1 / 16, d1 % 16 * 16 + d2 / 4, d2 % 4 * 64 + d3]
  }

  lemma {:induction false} DecodingFirst(letters: Bytes)
    requires |letters| >= 4 && AllLegal(letters)
    ensures AllLegal(letters[4..]) && Decoding(letters) == Block(letters[..4]) + Decoding(letters[4..])
  {
  }

  lemma {:induction false} DecodingShort(letters: Bytes, c: Octet)
    requires |letters| < 4 && AllLegal(letters) && AllLegal(letters + [c])
    ensures Decoding(letters + [c]) == Decoding(letters) + Filled(LastValue(letters), |letters|, Value(c))
  {
    assert Legal((letters + [c])[|letters|]);
    if |letters| == 0 {
      assert letters + [c] == [c];
    } else if |letters| == 1 {
      DecodingOne(letters[0], c);
      assert letters == [letters[0]];
    } else if |letters| == 2 {
      DecodingTwo(letters[0], letters[1], c);
      assert letters == [letters[0], letters[1]];
    } else {
      DecodingThree(letters[0], letters[1], letters[2], c);
      assert letters == [letters[0], letters[1], letters[2]];
    }
  }

  lemma {:induction false} DecodingOne(x: Octet, c: Octet)
    requires Legal(x) && Legal(c)
    ensures Decoding([x] + [c]) == Decoding([x]) + Filled(Value(x), 1, Value(c))
  {
    assert [x] + [c] == [x, c];
    Decoding2(x, c);
  }

  lemma {:induction false} DecodingTwo(x: Octet, y: Octet, c: Octet)
    requires AllLegal([x, y]) && Legal(c)
    ensures Decoding([x, y] + [c]) == Decoding([x, y]) + Filled(Value(y), 2, Value(c))
  {
    assert [x, y] + [c] == [x, y, c];
    Decoding2(x, y);
    Decoding3(x, y, c);
  }

  lemma {:induction false} DecodingThree(x: Octet, y: Octet, z: Octet, c: Octet)
    requires AllLegal([x, y, z]) && Legal(c)
    ensures Decoding([x, y, z] + [c]) == Decoding([x, y, z]) + Filled(Value(z), 3, Value(c))
  {
    assert [x, y, z] + [c] == [x, y, z, c];
    Decoding3(x, y, z);
    Decoding4(x, y, z, c);
  }

  lemma {:induction false} Decoding2(a: Octet, b: Octet)
    requires AllLegal([a, b])
    ensures Decoding([a, b]) == [Value(a) * 4 + Value(b) / 16]
  {
  }

  lemma {:induction false} Decoding3(a: Octet, b: Octet, c: Octet)
    requires AllLegal([a, b, c])
    ensures Decoding([a, b, c]) == [Value(a) * 4 + Value(b) / 16, Value(b) % 16 * 16 + Value(c) / 4]
  {
  }

  lemma {:induction false} Decoding4(a: Octet, b: Octet, c: Octet, d: Octet)
    requires AllLegal([a, b, c, d])
    ensures Decoding([a, b, c, d]) ==
      [Value(a) * 4 + Value(b) / 16, Value(b) % 16 * 16 + Value(c) / 4, Value(c) % 4 * 64 + Value(d)]
  {
    var all := [a, b, c, d];
    assert all[4..] == [];
    assert Decoding(all) == Block(all) + Decoding(all[4..]);
  }

  /** (accumulator << 6) | digit, in 32 bits. */
  function ShiftIn6(acc: nat, d: nat): nat
  {
    acc * 64 % Wrap + d
  }

  lemma {:induction false} ShiftIn6Bits(acc: nat, last: nat, d: nat)
    requires acc % 64 == last && d < 64
    ensures var r := ShiftIn6(acc, d);
      r < Wrap && r % 64 == d && r % 4096 == last * 64 + d
  {
    var t := acc % 0x400_0000;
    Survives6(acc);
    assert ShiftIn6(acc, d) == 4096 * (t / 64) + (last * 64 + d);
    Over64(64 * (t / 64) + last, d);
    Over4096(t / 64, last * 64 + d);
  }

  /** What is left of the accumulator when a digit is shifted in. */
  lemma {:induction false} Survives6(acc: nat)
    ensures acc * 64 % Wrap == 64 * (acc % 0x400_0000)
    ensures acc % 0x400_0000 % 64 == acc % 64
  {
    var q, t := acc / 0x400_0000, acc % 0x400_0000;
    assert acc == 0x400_0000 * q + t;
    WrapOver(q, 64 * t);
    Over64(t / 64, t % 64);
    Over64(q * 0x10_0000 + t / 64, t % 64);
  }

  lemma {:induction false} WrapOver(q: nat, r: nat)
    requires r < Wrap
    ensures (q * Wrap + r) % Wrap == r
  {
  }

  lemma {:induction false} Over4096(u: nat, v: nat)
    requires v < 4096
    ensures (4096 * u + v) % 4096 == v
  {
  }

  /** (accumulator >> bits) & 0xff */
  function EightBits(acc: nat, bits: nat): (x: Octet) {
    acc / Pow2(bits) % 256
  }

  lemma {:induction false} Over256(u: nat, v: nat)
    requires v < 256
    ensures (256 * u + v) % 256 == v
  {
  }

  lemma {:induction false} EightBits0(h: nat, last: nat, d: nat)
    requires last < 64 && d < 64
    ensures EightBits(4096 * h + (last * 64 + d), 0) == last % 4 * 64 + d
  {
    assert 4096 * h + (last * 64 + d) == 256 * (16 * h + last / 4) + (last % 4 * 64 + d);
    Over256(16 * h + last / 4, last % 4 * 64 + d);
  }

  lemma {:induction false} EightBits2(h: nat, last: nat, d: nat)
    requires last < 64 && d < 64
    ensures EightBits(4096 * h + (last * 64 + d), 2) == last % 16 * 16 + d / 4
  {
    assert Pow2(2) == 4;
    assert (4096 * h + (last * 64 + d)) / 4 == 256 * (4 * h + last / 16) + (last % 16 * 16 + d / 4);
    Over256(4 * h + last / 16, last % 16 * 16 + d / 4);
  }

  lemma {:induction false} EightBits4(h: nat, last: nat, d: nat)
    requires last < 64 && d < 64
    ensures EightBits(4096 * h + (last * 64 + d), 4) == last * 4 + d / 16
  {
    assert Pow2(2) == 4 && Pow2(4) == 16;
    assert (4096 * h + (last * 64 + d)) / 16 == 256 * h + (last * 4 + d / 16);
    Over256(h, last * 4 + d / 16);
  }

  lemma {:induction false} EightBitsAt(acc: nat, last: nat, d: nat)
    requires acc % 4096 == last * 64 + d && last < 64 && d < 64
    ensures EightBits(acc, 4) == last * 4 + d / 16
    ensures EightBits(acc, 2) == last % 16 * 16 + d / 4
    ensures EightBits(acc, 0) == last % 4 * 64 + d
  {
    var h := acc / 4096;
    assert acc == 4096 * h + (last * 64 + d);
    EightBits0(h, last, d);
    EightBits2(h, last, d);
    EightBits4(h, last, d);
  }

  /** The bits held back after n letters. */
  function HeldBits(n: nat): nat {
    n * 6 % 8
  }

  lemma {:induction false} HeldNext(n: nat)
    ensures HeldBits(n) == (if n % 4 == 0 then 0 else if n % 4 == 1 then 6 else if n % 4 == 2 then 4 else 2)
  {
    assert n * 6 == 8 * (3 * (n / 4)) + 6 * (n % 4);
  }

  /** The loop's state once letters have been taken. */
  ghost predicate Decoder(letters: Bytes, retval: Bytes, bits: nat, acc: nat) {
    && AllLegal(letters) && retval == Decoding(letters)
    && bits == HeldBits(|letters|) && acc % 64 == LastValue(letters)
  }

  lemma {:induction false} FilledFrom(acc: nat, n: nat, last: nat, d: nat)
    requires acc % 4096 == last * 64 + d && last < 64 && d < 64
    ensures var bits := HeldBits(n) + 6;
      if bits >= 8 then HeldBits(n + 1) == bits - 8 && Filled(last, n, d) == [EightBits(acc, bits - 8)]
      else HeldBits(n + 1) == bits && Filled(last, n, d) == []
  {
    EightBitsAt(acc, last, d);
    HeldNext(n);
    HeldNext(n + 1);
  }

  lemma {:induction false} LetterDecoded(letters: Bytes, c: Octet)
    requires AllLegal(letters) && Digit(c) < 64
    ensures AllLegal(letters + [c]) && LastValue(letters + [c]) == Digit(c)
    ensures Decoding(letters + [c]) == Decoding(letters) + Filled(LastValue(letters), |letters|, Digit(c))
  {
    assert AllLegal(letters + [c]);
    assert Value(c) == Digit(c);
    DecodingSnoc(letters, c);
  }

  method TakeLetter(before: Bytes, held: nat, accumulator: nat, c: Octet, ghost letters: Bytes)
    returns (retval: Bytes, bits: nat, acc: nat)
    requires Decoder(letters, before, held, accumulator) && Digit(c) < 64
    ensures Decoder(letters + [c], retval, bits, acc)
  {
    acc := ShiftIn6(accumulator, Digit(c));
    LetterDecoded(letters, c);
    ShiftIn6Bits(accumulator, LastValue(letters), Digit(c));
    FilledFrom(acc, |letters|, LastValue(letters), Digit(c));
    retval := before;
    bits := held + 6;
    if bits >= 8 {
      bits := bits - 8;
      retval := retval + [EightBits(acc, bits)];
    }
  }

  lemma {:induction false} StrippedNext(text: Bytes, i: nat)
    requires i < |text|
    ensures Stripped(text[..i + 1]) == if Skipped(text[i]) then Stripped(text[..i]) else Stripped(text[..i]) + [text[i]]
    ensures AllLegal(text[..i]) && Legal(text[i]) ==> AllLegal(text[..i + 1])
  {
    assert text[..i + 1] == text[..i] + [text[i]];
    StrippedSnoc(text[..i], text[i]);
  }

  lemma {:induction false} Whole(text: Bytes)
    ensures text[..|text|] == text
  {
  }

  /** DecodeBase64: refuses exactly the texts that hold an illegal character. */
  method DecodeBase64(text: Bytes) returns (r: Decoded)
    ensures r == DecodeText(text)
  {
    var retval: Bytes := [];
    var bits, acc: nat := 0, 0;
    for i := 0 to |text|
      invariant AllLegal(text[..i])
      invariant Decoder(Stripped(text[..i]), retval, bits, acc)
    {
      var c := text[i];
      StrippedNext(text, i);
      if Skipped(c) {
        continue;
      }
      if c > 127 || Digit(c) > 63 {
        assert !Legal(text[i]);
        return Illegal;
      }
      retval, bits, acc := TakeLetter(retval, bits, acc, c, Stripped(text[..i]));
    }
    Whole(text);
    r := Octets(retval);
  }
}
