/**
 The byte buffer as a value: storage, the two positions and what the last operation
 threw, and the main result: whatever is written without an exception is read back.
 */
module Buffers {
  import opened Octets
  import opened BufferFormat

  datatype Status = Fine | SourceException | PositionException | AssertFailed

  datatype Buf = Buf(storage: Bytes, rpos: nat, wpos: nat, status: Status)

  const MaxSize: nat := 10000000

  function Zeros(n: nat): (b: Bytes)
    ensures |b| == n
  {
    seq(n, i => 0)
  }

  /** The copy to the write position, after the storage has grown if it must. */
  function Overwrite(storage: Bytes, pos: nat, src: Bytes): (r: Bytes)
    ensures |r| == if |storage| < pos + |src| then pos + |src| else |storage|
  {
    var grown := if |storage| < pos + |src| then storage + Zeros(pos + |src| - |storage|) else storage;
    grown[..pos] + src + grown[pos + |src|..]
  }

  /** Nothing is appended once an exception is on its way. */
  function Append(b: Buf, src: Bytes): Buf {
    if b.status != Fine then b
    else if src == [] then b.(status := SourceException)
    else if |b.storage| >= MaxSize then b.(status := AssertFailed)
    else b.(storage := Overwrite(b.storage, b.wpos, src), wpos := b.wpos + |src|)
  }

  /** The append operator; a string is appended in two pieces, its terminator last. */
  function Write(b: Buf, v: Value, swap: bool): Buf
    decreases v
  {
    match v
    case Unsigned(w, u) => Append(b, Store(u, w, swap))
    case Signed(w, i) => Append(b, Store(i % Pow256(w), w, swap))
    case Str(t) => Append(if t != [] then Append(b, t) else b, [0])
    case Block(octets) => Append(b, octets)
    case Guid(g) => Append(b, Pack(g))
    case Many(vs) => WriteAll(Append(b, Count(vs, swap)), vs, swap)
    case Pair(first, second) => Write(Write(b, first, swap), second, swap)
  }

  function WriteAll(b: Buf, vs: seq<Value>, swap: bool): Buf
    decreases vs
  {
    if vs == [] then b else WriteAll(Write(b, vs[0], swap), vs[1..], swap)
  }

  function Empty(): Buf {
    Buf([], 0, 0, Fine)
  }

  /** The state in which only appends have been made. */
  predicate AtEnd(b: Buf) {
    b.status == Fine && b.wpos == |b.storage|
  }

  /** b with s behind it. */
  function Extended(b: Buf, s: Bytes): Buf {
    b.(storage := b.storage + s, wpos := b.wpos + |s|)
  }

  lemma {:induction false} AppendAtEnd(b: Buf, src: Bytes)
    requires AtEnd(b) && Append(b, src).status == Fine
    ensures Append(b, src) == Extended(b, src) && src != [] && |b.storage| < MaxSize
  {
    var n := |b.storage|;
    var grown := b.storage + Zeros(|src|);
    assert grown[..n] == b.storage && grown[n + |src|..] == [];
  }

  /** An exception stays. */
  lemma {:induction false} Sticky(b: Buf, v: Value, swap: bool)
    requires b.status != Fine
    ensures Write(b, v, swap) == b
    decreases v
  {
    match v {
      case Many(vs) => StickyAll(b, vs, swap);
      case Pair(first, second) =>
        Sticky(b, first, swap);
        Sticky(b, second, swap);
      case _ =>
    }
  }

  lemma {:induction false} StickyAll(b: Buf, vs: seq<Value>, swap: bool)
    requires b.status != Fine
    ensures WriteAll(b, vs, swap) == b
    decreases vs
  {
    if vs != [] {
      Sticky(b, vs[0], swap);
      StickyAll(b, vs[1..], swap);
    }
  }

  /** What a completed write of v means: v's octets stand behind b, at least one of them, and every count is exact. */
  ghost predicate Wrote(b: Buf, v: Value, swap: bool) {
    && Write(b, v, swap) == Extended(b, Encode(v, swap))
    && Encode(v, swap) != [] && |b.storage| < MaxSize && Fits(v)
  }

  lemma {:induction false} WriteMany(b: Buf, vs: seq<Value>, swap: bool)
    requires AtEnd(b) && Append(b, Count(vs, swap)).status == Fine
    requires var counted := Append(b, Count(vs, swap));
      && WriteAll(counted, vs, swap) == Extended(counted, EncodeAll(vs, swap))
      && (vs != [] ==> |counted.storage| + |vs| <= MaxSize)
      && (forall i :: 0 <= i < |vs| ==> Fits(vs[i]))
    ensures Wrote(b, Many(vs), swap)
  {
    var count := Count(vs, swap);
    AppendAtEnd(b, count);
    assert b.storage + count + EncodeAll(vs, swap) == b.storage + (count + EncodeAll(vs, swap));
  }

  lemma {:induction false} WritePair(b: Buf, first: Value, second: Value, swap: bool)
    requires AtEnd(b) && Wrote(b, first, swap) && Wrote(Write(b, first, swap), second, swap)
    ensures Wrote(b, Pair(first, second), swap)
  {
    var e1, e2 := Encode(first, swap), Encode(second, swap);
    assert b.storage + e1 + e2 == b.storage + (e1 + e2);
  }

  lemma {:induction false} WriteExact(b: Buf, v: Value, swap: bool)
    requires AtEnd(b) && Write(b, v, swap).status == Fine
    ensures Wrote(b, v, swap)
    decreases v
  {
    match v {
      case Unsigned(w, u) => AppendAtEnd(b, Store(u, w, swap));
      case Signed(w, i) => AppendAtEnd(b, Store(i % Pow256(w), w, swap));
      case Str(t) =>
      case Block(octets) => AppendAtEnd(b, octets);
      case Guid(g) => AppendAtEnd(b, Pack(g));
      case Many(vs) =>
        var counted := Append(b, Count(vs, swap));
        if counted.status != Fine {
          StickyAll(counted, vs, swap);
        }
        AppendAtEnd(b, Count(vs, swap));
        WriteAllExact(counted, vs, swap);
        WriteMany(b, vs, swap);
      case Pair(first, second) =>
        if Write(b, first, swap).status != Fine {
          Sticky(Write(b, first, swap), second, swap);
        }
        WriteExact(b, first, swap);
        WriteExact(Write(b, first, swap), second, swap);
        WritePair(b, first, second, swap);
    }
  }

  /** The size limit bounds the number of elements, so no count is cut. */
  lemma {:induction false} WriteAllExact(b: Buf, vs: seq<Value>, swap: bool)
    requires AtEnd(b) && WriteAll(b, vs, swap).status == Fine
    ensures WriteAll(b, vs, swap) == Extended(b, EncodeAll(vs, swap))
    ensures vs != [] ==> |b.storage| + |vs| <= MaxSize
    ensures forall i :: 0 <= i < |vs| ==> Fits(vs[i])
    decreases vs
  {
    if vs == [] {
      assert b.storage + [] == b.storage;
    } else {
      var next := Write(b, vs[0], swap);
      if next.status != Fine {
        StickyAll(next, vs[1..], swap);
      }
      WriteExact(b, vs[0], swap);
      WriteAllExact(next, vs[1..], swap);
      var e1, e2 := Encode(vs[0], swap), EncodeAll(vs[1..], swap);
      assert b.storage + e1 + e2 == b.storage + (e1 + e2);
      assert forall i :: 1 <= i < |vs| ==> vs[i] == vs[1..][i - 1];
    }
  }

  // ---------- main results ----------

  /** Reads one value of each kind in turn. */
  function ReadAll(s: Bytes, kinds: seq<Kind>, swap: bool): (r: Found)
    ensures r.Got? ==> r.value.Many?
    decreases kinds
  {
    if kinds == [] then Got(Many([]), s) else
    var head := Read(s, kinds[0], swap);
    if head.Short? then head else
    var tail := ReadAll(head.rest, kinds[1..], swap);
    if tail.Short? then tail else Got(Many([head.value] + tail.value.values), tail.rest)
  }

  ghost predicate HaveKinds(vs: seq<Value>, kinds: seq<Kind>) {
    |vs| == |kinds| && forall i :: 0 <= i < |vs| ==> HasKind(vs[i], kinds[i])
  }

  lemma {:induction false} AllBack(vs: seq<Value>, kinds: seq<Kind>, swap: bool)
    requires HaveKinds(vs, kinds) && forall i :: 0 <= i < |vs| ==> Fits(vs[i])
    ensures ReadAll(EncodeAll(vs, swap), kinds, swap) == Got(Many(vs), [])
  {
    if vs != [] {
      ReadBack(vs[0], kinds[0], EncodeAll(vs[1..], swap), swap);
      AllBack(vs[1..], kinds[1..], swap);
      assert [vs[0]] + vs[1..] == vs;
    }
  }

  /**
   Under either byte order: values of any kinds, appended in a row without an exception,
   are read back in order, and the read position ends at the write position.
   */
  lemma {:induction false} Duality(vs: seq<Value>, kinds: seq<Kind>, swap: bool)
    requires HaveKinds(vs, kinds) && WriteAll(Empty(), vs, swap).status == Fine
    ensures var b := WriteAll(Empty(), vs, swap);
      && b.wpos == |b.storage|
      && ReadAll(b.storage, kinds, swap) == Got(Many(vs), [])
  {
    WriteAllExact(Empty(), vs, swap);
    AllBack(vs, kinds, swap);
    assert [] + EncodeAll(vs, swap) == EncodeAll(vs, swap);
  }

  /** The append itself throws exactly on an empty source, and asserts exactly on a full buffer. */
  lemma {:induction false} AppendIff(b: Buf, src: Bytes)
    requires b.status == Fine
    ensures Append(b, src).status == Fine <==> src != [] && |b.storage| < 10000000
    ensures Append(b, src).status == Fine ==>
      var n := Append(b, src);
      && n.wpos == b.wpos + |src| && n.storage[b.wpos..n.wpos] == src
      && (forall i :: 0 <= i < |b.storage| && !(b.wpos <= i < n.wpos) ==> n.storage[i] == b.storage[i])
  {
    if src != [] && |b.storage| < MaxSize {
      var n := Append(b, src);
      assert n.storage[b.wpos..n.wpos] == src;
    }
  }
}
