/**
 What the encoding means: octets and letters are the digits of one number, in base 256 and
 in base 64.
 */
module Base64Numbers {
  import opened Octets
  import opened Base64

  // ---------- characters ----------

  /** The alphabet of section 4 of RFC 4648. */
  lemma {:induction false} LetterIs(d: nat)
    requires d < 64
    ensures Letter(d) as char ==
      if d < 26 then 'A' + d as char
      else if d < 52 then 'a' + (d - 26) as char
      else if d < 62 then '0' + (d - 52) as char
      else if d == 62 then '+' else '/'
  {
  }

  /** White space, with tabs and line ends, and the padding are passed over. */
  lemma {:induction false} SkippedIff(c: Octet)
    ensures Skipped(c) <==> c as char in " =" || 9 <= c <= 13
  {
  }

  /** What is neither passed over nor in the alphabet is refused. */
  lemma {:induction false} LegalIff(c: Octet)
    ensures Legal(c) <==> Skipped(c) || exists d :: 0 <= d < 64 && Letter(d) == c
  {
    if Digit(c) < 64 {
      assert Letter(Digit(c)) == c;
    }
  }

  // ---------- numbers ----------

  function Number(data: Bytes): nat {
    if data == [] then 0 else 256 * Number(data[..|data| - 1]) + data[|data| - 1]
  }

  function Digits(letters: Bytes): nat {
    if letters == [] then 0 else 64 * Digits(letters[..|letters| - 1]) + Value(letters[|letters| - 1])
  }

  /** The weight of the bits that n letters have beyond whole octets. */
  function Beyond(n: nat): nat {
    if n % 4 == 0 then 1 else if n % 4 == 1 then 64 else if n % 4 == 2 then 16 else 4
  }

  lemma {:induction false} NumberSnoc(data: Bytes, x: Octet)
    ensures Number(data + [x]) == 256 * Number(data) + x
  {
    assert (data + [x])[..|data|] == data;
  }

  lemma {:induction false} DigitsSnoc(letters: Bytes, c: Octet)
    ensures Digits(letters + [c]) == 64 * Digits(letters) + Value(c)
  {
    assert (letters + [c])[..|letters|] == letters;
  }

  /** The octets are the whole ones, and the last letter holds the bits beyond them. */
  lemma {:induction false} DecodingSplits(letters: Bytes)
    requires AllLegal(letters)
    ensures |Decoding(letters)| == |letters| * 6 / 8
    ensures Digits(letters) == Number(Decoding(letters)) * Beyond(|letters|) + LastValue(letters) % Beyond(|letters|)
  {
    if letters != [] {
      var front, c := letters[..|letters| - 1], letters[|letters| - 1];
      assert letters == front + [c];
      DecodingSnoc(front, c);
      DecodingSplits(front);
      DigitsSnoc(front, c);
      OneMore(Decoding(front), |front|, LastValue(front), Value(c));
    }
  }

  lemma {:induction false} OneMore(octets: Bytes, n: nat, last: nat, d: nat)
    requires last < 64 && d < 64 && |octets| == n * 6 / 8
    ensures var more := octets + Filled(last, n, d);
      && |more| == (n + 1) * 6 / 8
      && 64 * (Number(octets) * Beyond(n) + last % Beyond(n)) + d == Number(more) * Beyond(n + 1) + d % Beyond(n + 1)
  {
    var filled := Filled(last, n, d);
    NextLength(n);
    if n % 4 == 0 {
      assert octets + filled == octets;
    } else {
      Shifted(n, Number(octets), last, d);
      NumberSnoc(octets, filled[0]);
      assert octets + filled == octets + [filled[0]];
    }
  }

  lemma {:induction false} NextLength(n: nat)
    ensures (n + 1) % 4 == if n % 4 == 3 then 0 else n % 4 + 1
    ensures (n + 1) * 6 / 8 == n * 6 / 8 + if n % 4 == 0 then 0 else 1
  {
    var k, r := n / 4, n % 4;
    assert n == 4 * k + r;
    assert n * 6 == 8 * (3 * k) + 6 * r && (n + 1) * 6 == 8 * (3 * k) + (6 * r + 6);
  }

  /** Six bits more: the octet that they complete, and the bits that are over then. */
  lemma {:induction false} Shifted(n: nat, number: nat, last: nat, d: nat)
    requires last < 64 && d < 64 && n % 4 != 0
    ensures |Filled(last, n, d)| == 1
    ensures 64 * (number * Beyond(n) + last % Beyond(n)) + d
         == (256 * number + Filled(last, n, d)[0]) * Beyond(n + 1) + d % Beyond(n + 1)
  {
    NextLength(n);
  }

  /** Decoding reads the letters as one number in base 64 and drops the bits beyond the last whole octet. */
  lemma {:induction false} DecodingIsNumber(letters: Bytes)
    requires AllLegal(letters)
    ensures |Decoding(letters)| == |letters| * 6 / 8
    ensures Number(Decoding(letters)) == Digits(letters) / Beyond(|letters|)
  {
    DecodingSplits(letters);
  }

  /** The letters before the padding. */
  function Unpadded(data: Bytes): (n: nat)
    ensures n <= |Encoding(data)|
  {
    |data| + (|data| + 2) / 3
  }

  /** The padding is what comes after the letters, and the last letter ends in zero bits. */
  ghost predicate Ends(data: Bytes) {
    var text, n := Encoding(data), Unpadded(data);
    && Stripped(text) == text[..n] && (forall i :: n <= i < |text| ==> text[i] == Pad)
    && LastValue(text[..n]) % Beyond(n) == 0
  }

  lemma {:induction false} PaddingLast(data: Bytes)
    ensures Ends(data)
  {
    if |data| >= 3 {
      PaddingLast(data[3..]);
      BlockFirst(data);
    } else if data != [] {
      ShortStripped(data);
      ShortEnd(data);
    }
  }

  lemma {:induction false} ShortEnd(data: Bytes)
    requires 1 <= |data| <= 2
    ensures LastValue(Encoding(data)[..|data| + 1]) % Beyond(|data| + 1) == 0
  {
    var d := if |data| == 1 then data[0] % 4 * 16 else data[1] % 16 * 4;
    assert Encoding(data)[|data|] == Letter(d);
    DigitOfLetter(d);
  }

  lemma {:induction false} BlockFirst(data: Bytes)
    requires |data| >= 3
    requires Ends(data[3..])
    ensures Ends(data)
  {
    BlockText(data);
    FourMore(|data|);
    EndsBehind(data, Encoding(data[..3]), Encoding(data[3..]), Unpadded(data[3..]));
  }

  lemma {:induction false} BlockText(data: Bytes)
    requires |data| >= 3
    ensures var block, rest := Encoding(data[..3]), Encoding(data[3..]);
      |block| == 4 && Encoding(data) == block + rest && Stripped(Encoding(data)) == block + Stripped(rest)
  {
    EncodingFirst(data);
    assert data[..3] == [data[0], data[1], data[2]];
    BlockStripped(data[0], data[1], data[2]);
    StrippedConcat(Encoding(data[..3]), Encoding(data[3..]));
  }

  lemma {:induction false} EndsBehind(data: Bytes, block: Bytes, rest: Bytes, n: nat)
    requires |block| == 4 && n <= |rest| && Unpadded(data) == 4 + n && Beyond(4 + n) == Beyond(n)
    requires Encoding(data) == block + rest && Stripped(Encoding(data)) == block + rest[..n]
    requires forall i :: n <= i < |rest| ==> rest[i] == Pad
    requires LastValue(rest[..n]) % Beyond(n) == 0
    ensures Ends(data)
  {
    Behind(block, rest, n);
  }

  lemma {:induction false} FourMore(n: nat)
    requires n >= 3
    ensures n + (n + 2) / 3 == 4 + (n - 3) + (n - 3 + 2) / 3
    ensures Beyond(n + (n + 2) / 3) == Beyond(n - 3 + (n - 3 + 2) / 3)
  {
  }

  lemma {:induction false} Behind(block: Bytes, rest: Bytes, n: nat)
    requires |block| == 4 && n <= |rest|
    ensures (block + rest)[..4 + n] == block + rest[..n]
    ensures forall i :: 4 + n <= i < 4 + |rest| ==> (block + rest)[i] == rest[i - 4]
    ensures n > 0 ==> LastValue(block + rest[..n]) == LastValue(rest[..n])
  {
  }

  /** The weight of the zero bits that fill the last letter. */
  function Fill(n: nat): nat {
    if n % 3 == 0 then 1 else if n % 3 == 1 then 16 else 4
  }

  lemma {:induction false} DigitsOf(letters: Bytes, data: Bytes, fill: nat)
    requires AllLegal(letters) && Decoding(letters) == data
    requires Beyond(|letters|) == fill && LastValue(letters) % fill == 0
    ensures Digits(letters) == Number(data) * fill
  {
    DecodingSplits(letters);
  }

  lemma {:induction false} BeyondOf(n: nat)
    ensures Beyond(n + (n + 2) / 3) == Fill(n)
  {
    var k, r := n / 3, n % 3;
    assert n == 3 * k + r;
    assert n + (n + 2) / 3 == 4 * k + (if r == 0 then 0 else r + 1);
  }

  /**
   Encoding writes the octets' number in base 64, after zero bits that fill the last letter,
   and then the padding.
   */
  lemma {:induction false} EncodingIsNumber(data: Bytes)
    ensures var text, n := Encoding(data), Unpadded(data);
      && |text| == 4 * ((|data| + 2) / 3)
      && Digits(text[..n]) == Number(data) * Fill(|data|)
      && (forall i :: n <= i < |text| ==> text[i] == 61)
  {
    PaddingLast(data);
    LettersDecode(data);
    BeyondOf(|data|);
    DigitsOf(Stripped(Encoding(data)), data, Fill(|data|));
  }
}
