/**
 What a byte buffer holds: values, the octets that the append operators write for
 them, and the values that the read operators find in a row of octets.
 */
module BufferFormat {
  import opened Octets
  import opened KeyXor

  /**
   w is the width in octets.  A Block is raw octets of a length known to the reader,
   Many stands for a vector, a list or (with pairs) a map.
   */
  datatype Value =
    | Unsigned(w: nat, u: nat)
    | Signed(w: nat, i: int)
    | Str(text: Bytes)
    | Block(octets: Bytes)
    | Guid(guid: nat)
    | Many(values: seq<Value>)
    | Pair(first: Value, second: Value)

  datatype Kind =
    | KUnsigned(w: nat)
    | KSigned(w: nat)
    | KStr
    | KBlock(len: nat)
    | KGuid
    | KMany(each: Kind)
    | KPair(first: Kind, second: Kind)

  /** Str is zero-free; integers fit their width. */
  ghost predicate HasKind(v: Value, k: Kind)
    decreases v
  {
    match v
    case Unsigned(w, u) => k == KUnsigned(w) && u < Pow256(w)
    case Signed(w, i) => k == KSigned(w) && w > 0 && -HalfRange(w) <= i < HalfRange(w)
    case Str(t) => k == KStr && 0 !in t
    case Block(b) => k == KBlock(|b|)
    case Guid(g) => k == KGuid && g < Pow256(8)
    case Many(vs) => k.KMany? && forall i :: 0 <= i < |vs| ==> HasKind(vs[i], k.each)
    case Pair(a, b) => k.KPair? && HasKind(a, k.first) && HasKind(b, k.second)
  }

  /** Integers fit their width; a string may hold anything. */
  ghost predicate InRange(v: Value)
    decreases v
  {
    match v
    case Unsigned(w, u) => u < Pow256(w)
    case Signed(w, i) => w > 0 && -HalfRange(w) <= i < HalfRange(w)
    case Guid(g) => g < Pow256(8)
    case Many(vs) => forall i :: 0 <= i < |vs| ==> InRange(vs[i])
    case Pair(a, b) => InRange(a) && InRange(b)
    case _ => true
  }

  function HalfRange(w: nat): int
    requires w > 0
  {
    128 * Pow256(w - 1)
  }

  // ---------- packed GUIDs ----------

  /** Bit i says that octet i is not zero. */
  function Mark(b: Bytes): nat {
    if b == [] then 0 else (if b[0] != 0 then 1 else 0) + 2 * Mark(b[1..])
  }

  function NonZero(b: Bytes): (r: Bytes)
    ensures |r| <= |b|
  {
    if b == [] then [] else (if b[0] != 0 then [b[0]] else []) + NonZero(b[1..])
  }

  lemma {:induction false} MarkBound(b: Bytes)
    ensures Mark(b) < Pow2(|b|)
  {
    if b != [] {
      MarkBound(b[1..]);
    }
  }

  function Pack(g: nat): (b: Bytes)
    ensures |b| <= 9
  {
    var octets := LittleEndian(g, 8);
    MarkBound(octets);
    assert Pow2(8) == 256 by { PowersOf2(); }
    [Mark(octets)] + NonZero(octets)
  }

  lemma {:induction false} PowersOf2()
    ensures Pow2(8) == 256
  {
    assert Pow2(4) == 16;
    assert Pow2(5) == 32;
  }

  // ---------- writing ----------

  function Encode(v: Value, swap: bool): Bytes
    decreases v
  {
    match v
    case Unsigned(w, u) => Store(u, w, swap)
    case Signed(w, i) => Store(i % Pow256(w), w, swap)
    case Str(t) => t + [0]
    case Block(b) => b
    case Guid(g) => Pack(g)
    case Many(vs) => Count(vs, swap) + EncodeAll(vs, swap)
    case Pair(a, b) => Encode(a, swap) + Encode(b, swap)
  }

  function EncodeAll(vs: seq<Value>, swap: bool): Bytes
    decreases vs
  {
    if vs == [] then [] else Encode(vs[0], swap) + EncodeAll(vs[1..], swap)
  }

  /** The element count, cast to 32 bits. */
  function Count(vs: seq<Value>, swap: bool): (b: Bytes)
    ensures |b| == 4
  {
    Store(|vs| % 0x1_0000_0000, 4, swap)
  }

  // ---------- reading ----------

  /** rest is what lies behind the read position; Short is the position exception. */
  datatype Found = Got(value: Value, rest: Bytes) | Short(rest: Bytes)

  function Read(s: Bytes, k: Kind, swap: bool): Found
    decreases k, 0
  {
    match k
    case KUnsigned(w) => if w > |s| then Short(s) else Got(Unsigned(w, Load(s[..w], swap)), s[w..])
    case KSigned(w) =>
      if w > |s| then Short(s) else Got(Signed(w, Signum(Load(s[..w], swap), w)), s[w..])
    case KStr => Got(Str(Text(s)), AfterText(s))
    case KBlock(len) => if len > |s| then Short(s) else Got(Block(s[..len]), s[len..])
    case KGuid => if s == [] then Short(s) else ReadGuid(s[0], 8, s[1..])
    case KMany(each) =>
      if 4 > |s| then Short(s) else ReadMany(s[4..], each, Load(s[..4], swap), swap)
    case KPair(first, second) =>
      var a := Read(s, first, swap);
      if a.Short? then a else
      var b := Read(a.rest, second, swap);
      if b.Short? then b else Got(Pair(a.value, b.value), b.rest)
  }

  /** n elements, or the first exception. */
  function ReadMany(s: Bytes, each: Kind, n: nat, swap: bool): (r: Found)
    ensures r.Got? ==> r.value.Many?
    decreases each, 1, n
  {
    if n == 0 then Got(Many([]), s) else
    var head := Read(s, each, swap);
    if head.Short? then head else
    var tail := ReadMany(head.rest, each, n - 1, swap);
    if tail.Short? then tail else Got(Many([head.value] + tail.value.values), tail.rest)
  }

  /** Two's complement. */
  function Signum(u: nat, w: nat): int {
    if w > 0 && u >= HalfRange(w) then u - Pow256(w) else u
  }

  /** The octets of a packed GUID under the lowest n bits of the mark. */
  function ReadGuid(mark: nat, n: nat, s: Bytes): (r: Found)
    ensures r.Got? ==> r.value.Guid?
    decreases n, |s|
  {
    if n == 0 then Got(Guid(0), s) else
    if mark % 2 == 1 && s == [] then Short(s) else
    var octet := if mark % 2 == 1 then s[0] else 0;
    var tail := ReadGuid(mark / 2, n - 1, if mark % 2 == 1 then s[1..] else s);
    if tail.Short? then tail else Got(Guid(octet + 256 * tail.value.guid), tail.rest)
  }

  // ---------- reading back what was written ----------

  /** Every container is short enough for its 32-bit count. */
  ghost predicate Fits(v: Value)
    decreases v
  {
    match v
    case Many(vs) => |vs| < 0x1_0000_0000 && forall i :: 0 <= i < |vs| ==> Fits(vs[i])
    case Pair(a, b) => Fits(a) && Fits(b)
    case _ => true
  }

  lemma {:induction false} GuidBack(octets: Bytes, rest: Bytes)
    ensures ReadGuid(Mark(octets), |octets|, NonZero(octets) + rest) == Got(Guid(FromLittleEndian(octets)), rest)
  {
    if octets == [] {
      assert NonZero(octets) + rest == rest;
    } else {
      var tail := octets[1..];
      GuidBack(tail, rest);
      MarkParts(octets);
      NonZeroHead(octets, rest);
      if octets[0] != 0 {
        GuidStep(Mark(octets), |octets|, NonZero(octets) + rest, octets[0], NonZero(tail) + rest);
      } else {
        assert NonZero(octets) + rest == NonZero(tail) + rest;
        GuidSkip(Mark(octets), |octets|, NonZero(octets) + rest);
      }
    }
  }

  lemma {:induction false} NonZeroHead(octets: Bytes, rest: Bytes)
    requires octets != []
    ensures NonZero(octets) + rest == (if octets[0] != 0 then [octets[0]] else []) + (NonZero(octets[1..]) + rest)
    ensures FromLittleEndian(octets) == octets[0] + 256 * FromLittleEndian(octets[1..])
  {
    var head, tail := if octets[0] != 0 then [octets[0]] else [], NonZero(octets[1..]);
    assert head + tail + rest == head + (tail + rest);
  }

  lemma {:induction false} MarkParts(octets: Bytes)
    requires octets != []
    ensures Mark(octets) / 2 == Mark(octets[1..]) && (Mark(octets) % 2 == 1 <==> octets[0] != 0)
  {
  }

  lemma {:induction false} GuidStep(mark: nat, n: nat, s: Bytes, octet: Octet, behind: Bytes)
    requires n > 0 && mark % 2 == 1 && s == [octet] + behind
    ensures var tail := ReadGuid(mark / 2, n - 1, behind);
      ReadGuid(mark, n, s) == if tail.Short? then tail else Got(Guid(octet + 256 * tail.value.guid), tail.rest)
  {
    assert s[1..] == behind;
  }

  lemma {:induction false} GuidSkip(mark: nat, n: nat, s: Bytes)
    requires n > 0 && mark % 2 == 0
    ensures var tail := ReadGuid(mark / 2, n - 1, s);
      ReadGuid(mark, n, s) == if tail.Short? then tail else Got(Guid(256 * tail.value.guid), tail.rest)
  {
  }

  lemma {:induction false} SignedBack(i: int, w: nat)
    requires w > 0 && -HalfRange(w) <= i < HalfRange(w)
    ensures 0 <= i % Pow256(w) < Pow256(w) && Signum(i % Pow256(w), w) == i
  {
    assert Pow256(w) == 2 * HalfRange(w);
    if i < 0 {
      ModNegative(i, Pow256(w));
    } else {
      ModSmall(i, Pow256(w));
    }
  }

  lemma {:induction false} ModSmall(i: int, m: int)
    requires 0 <= i < m
    ensures i % m == i
  {
  }

  lemma {:induction false} ModNegative(i: int, m: int)
    requires 0 < m && -m <= i < 0
    ensures i % m == i + m
  {
    var q := i / m;
    assert i == q * m + i % m;
  }

  lemma {:induction false} StoreBack(v: nat, w: nat, rest: Bytes, swap: bool)
    requires v < Pow256(w)
    ensures var s := Store(v, w, swap) + rest; w <= |s| && Load(s[..w], swap) == v && s[w..] == rest
  {
    var s := Store(v, w, swap) + rest;
    assert s[..w] == Store(v, w, swap);
    LoadStore(v, w, swap);
  }

  lemma {:induction false} TextBack(t: Bytes, rest: Bytes, swap: bool)
    requires 0 !in t
    ensures Read(t + [0] + rest, KStr, swap) == Got(Str(t), rest)
  {
    TextRoundTrip(t, rest);
  }

  lemma {:induction false} PairBack(a: Value, b: Value, k: Kind, rest: Bytes, swap: bool)
    requires k.KPair?
    requires Read(Encode(a, swap) + (Encode(b, swap) + rest), k.first, swap) == Got(a, Encode(b, swap) + rest)
    requires Read(Encode(b, swap) + rest, k.second, swap) == Got(b, rest)
    ensures Read(Encode(Pair(a, b), swap) + rest, k, swap) == Got(Pair(a, b), rest)
  {
    var s := Encode(a, swap) + (Encode(b, swap) + rest);
    EncodePair(a, b, rest, swap);
  }

  lemma {:induction false} EncodePair(a: Value, b: Value, rest: Bytes, swap: bool)
    ensures Encode(Pair(a, b), swap) + rest == Encode(a, swap) + (Encode(b, swap) + rest)
  {
    var e1, e2 := Encode(a, swap), Encode(b, swap);
    assert e1 + e2 + rest == e1 + (e2 + rest);
  }

  lemma {:induction false} GuidRead(g: nat, rest: Bytes, swap: bool)
    requires g < Pow256(8)
    ensures Read(Pack(g) + rest, KGuid, swap) == Got(Guid(g), rest)
  {
    var octets := LittleEndian(g, 8);
    GuidBack(octets, rest);
    LittleEndianInverse(g, 8);
    assert (Pack(g) + rest)[1..] == NonZero(octets) + rest;
  }

  /** A value, whatever lies behind it, is read back and nothing behind it is touched. */
  lemma {:induction false} ReadBack(v: Value, k: Kind, rest: Bytes, swap: bool)
    requires HasKind(v, k) && Fits(v)
    ensures Read(Encode(v, swap) + rest, k, swap) == Got(v, rest)
    decreases v
  {
    match v {
      case Unsigned(w, u) => StoreBack(u, w, rest, swap);
      case Signed(w, i) =>
        SignedBack(i, w);
        StoreBack(i % Pow256(w), w, rest, swap);
      case Str(t) => TextBack(t, rest, swap);
      case Block(b) =>
      case Guid(g) => GuidRead(g, rest, swap);
      case Many(vs) =>
        ManyBack(vs, k.each, rest, swap);
        CountThen(vs, k.each, rest, swap);
      case Pair(a, b) =>
        ReadBack(b, k.second, rest, swap);
        ReadBack(a, k.first, Encode(b, swap) + rest, swap);
        PairBack(a, b, k, rest, swap);
    }
  }

  lemma {:induction false} CountThen(vs: seq<Value>, each: Kind, rest: Bytes, swap: bool)
    requires |vs| < 0x1_0000_0000
    requires ReadMany(EncodeAll(vs, swap) + rest, each, |vs|, swap) == Got(Many(vs), rest)
    ensures Read(Encode(Many(vs), swap) + rest, KMany(each), swap) == Got(Many(vs), rest)
  {
    var count, all := Count(vs, swap), EncodeAll(vs, swap);
    CountBack(vs, all + rest, swap);
    assert count + all + rest == count + (all + rest);
  }

  lemma {:induction false} CountBack(vs: seq<Value>, rest: Bytes, swap: bool)
    requires |vs| < 0x1_0000_0000
    ensures var s := Count(vs, swap) + rest; 4 <= |s| && Load(s[..4], swap) == |vs| && s[4..] == rest
  {
    StoreBack(|vs|, 4, rest, swap);
    assert |vs| % 0x1_0000_0000 == |vs|;
  }

  ghost predicate AllFit(vs: seq<Value>, each: Kind) {
    forall i :: 0 <= i < |vs| ==> HasKind(vs[i], each) && Fits(vs[i])
  }

  lemma {:induction false} ManyBack(vs: seq<Value>, each: Kind, rest: Bytes, swap: bool)
    requires AllFit(vs, each)
    ensures ReadMany(EncodeAll(vs, swap) + rest, each, |vs|, swap) == Got(Many(vs), rest)
    decreases vs
  {
    if vs == [] {
      assert EncodeAll(vs, swap) + rest == rest;
    } else {
      var middle := EncodeAll(vs[1..], swap) + rest;
      assert AllFit(vs[1..], each);
      ManyBack(vs[1..], each, rest, swap);
      ReadBack(vs[0], each, middle, swap);
      EncodeHead(vs, rest, swap);
      assert [vs[0]] + vs[1..] == vs;
    }
  }

  lemma {:induction false} EncodeHead(vs: seq<Value>, rest: Bytes, swap: bool)
    requires vs != []
    ensures EncodeAll(vs, swap) + rest == Encode(vs[0], swap) + (EncodeAll(vs[1..], swap) + rest)
  {
    var e1, e2 := Encode(vs[0], swap), EncodeAll(vs[1..], swap);
    assert e1 + e2 + rest == e1 + (e2 + rest);
  }

  /** A string survives exactly when it holds no zero octet. */
  lemma {:induction false} TextIff(t: Bytes, rest: Bytes, swap: bool)
    ensures Read(t + [0] + rest, KStr, swap) == Got(Str(t), rest) <==> 0 !in t
  {
    if 0 !in t {
      TextBack(t, rest, swap);
    } else {
      TextStops(t + [0] + rest);
    }
  }

  // ---------- maps ----------

  /** map::insert in reading order: the first pair with a key wins. */
  function InsertAll(pairs: seq<Value>): map<Value, Value> {
    if pairs == [] then map[] else
    var front, item := InsertAll(pairs[..|pairs| - 1]), pairs[|pairs| - 1];
    if !item.Pair? || item.first in front then front else front[item.first := item.second]
  }

  /** The pairs are the entries of m, each once, in the order of the container. */
  ghost predicate Lists(m: map<Value, Value>, pairs: seq<Value>) {
    && (forall i :: 0 <= i < |pairs| ==> pairs[i].Pair? && pairs[i].first in m && m[pairs[i].first] == pairs[i].second)
    && (forall i, j :: 0 <= i < j < |pairs| ==> pairs[i] != pairs[j])
    && (forall k :: k in m ==> Pair(k, m[k]) in pairs)
  }

  lemma {:induction false} InsertAllLists(m: map<Value, Value>, pairs: seq<Value>)
    requires Lists(m, pairs)
    ensures InsertAll(pairs) == m
  {
    if pairs == [] {
      assert forall k :: k !in m;
    } else {
      var front, item := pairs[..|pairs| - 1], pairs[|pairs| - 1];
      var less := map k | k in m && k != item.first :: m[k];
      assert Lists(less, front) by {
        LessListed(m, pairs, less);
      }
      InsertAllLists(less, front);
      assert less[item.first := item.second] == m;
    }
  }

  lemma {:induction false} LessListed(m: map<Value, Value>, pairs: seq<Value>, less: map<Value, Value>)
    requires Lists(m, pairs) && pairs != []
    requires less == map k | k in m && k != pairs[|pairs| - 1].first :: m[k]
    ensures Lists(less, pairs[..|pairs| - 1])
  {
    var front, item := pairs[..|pairs| - 1], pairs[|pairs| - 1];
    forall i | 0 <= i < |front|
      ensures front[i].first in less
    {
      assert front[i] == pairs[i] && pairs[i] != item;
      assert pairs[i] == Pair(pairs[i].first, m[pairs[i].first]) && item == Pair(item.first, m[item.first]);
    }
    forall k | k in less
      ensures Pair(k, less[k]) in front
    {
      var i :| 0 <= i < |pairs| && pairs[i] == Pair(k, m[k]);
      assert i < |front| && front[i] == pairs[i];
    }
  }

  /** A map written pair by pair and read back with insertions is the same map. */
  lemma {:induction false} MapRebuilt(m: map<Value, Value>, pairs: seq<Value>, key: Kind, value: Kind, rest: Bytes, swap: bool)
    requires Lists(m, pairs) && HasKind(Many(pairs), KMany(KPair(key, value))) && Fits(Many(pairs))
    ensures var found := Read(Encode(Many(pairs), swap) + rest, KMany(KPair(key, value)), swap);
      && found.Got? && found.rest == rest && found.value.Many? && InsertAll(found.value.values) == m
  {
    ReadBack(Many(pairs), KMany(KPair(key, value)), rest, swap);
    InsertAllLists(m, pairs);
  }
}
