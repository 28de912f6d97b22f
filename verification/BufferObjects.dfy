/**
 The byte buffer as an object with its storage and two positions.  The append and
 read operators are proved against Buffers.Write and BufferFormat.Read.
 */
module BufferObjects {
  import opened Octets
  import opened KeyXor
  import opened BufferFormat
  import opened Buffers
  import opened Wrappers

  /** One turn of the string read. */
  lemma {:induction false} TextStep(b: Bytes)
    requires b != []
    ensures b[0] == 0 ==> Text(b) == [] && AfterText(b) == b[1..]
    ensures b[0] != 0 ==> Text(b) == [b[0]] + Text(b[1..]) && AfterText(b) == AfterText(b[1..])
  {
    if b[0] != 0 {
      assert TextLength(b) == 1 + TextLength(b[1..]);
    }
  }

  /** The writer stops shifting when no octet is left; the rest of the mark is zero. */
  lemma {:induction false} MarkSnoc(b: Bytes, x: Octet)
    ensures Mark(b + [x]) == Mark(b) + if x != 0 then Pow2(|b|) else 0
    ensures NonZero(b + [x]) == NonZero(b) + if x != 0 then [x] else []
  {
    if b != [] {
      MarkSnoc(b[1..], x);
      assert (b + [x])[1..] == b[1..] + [x];
    }
  }

  lemma {:induction false} ZeroTail(b: Bytes, n: nat)
    ensures Mark(b + LittleEndian(0, n)) == Mark(b) && NonZero(b + LittleEndian(0, n)) == NonZero(b)
    decreases n
  {
    if n == 0 {
      assert b + LittleEndian(0, 0) == b;
    } else {
      MarkSnoc(b, 0);
      ZeroTail(b + [0], n - 1);
      assert LittleEndian(0, n) == [0] + LittleEndian(0, n - 1);
      var z := LittleEndian(0, n - 1);
      assert b + ([0] + z) == b + [0] + z;
    }
  }

  lemma {:induction false} Pow2Up(i: nat)
    requires i < 8
    ensures Pow2(i + 1) <= 256
  {
    PowersOf2();
    Pow2Mono(i + 1, 8);
  }

  lemma {:induction false} Pow2Mono(i: nat, j: nat)
    requires i <= j
    ensures Pow2(i) <= Pow2(j)
    decreases j
  {
    if i < j {
      Pow2Mono(i, j - 1);
    }
  }

  /** i octets are done, g is what is left of guid. */
  ghost predicate Packing(guid: nat, i: nat, g: nat, done: Bytes) {
    i <= 8 && g < Pow256(8 - i) && |done| == i && LittleEndian(guid, 8) == done + LittleEndian(g, 8 - i)
  }

  lemma {:induction false} PackStep(guid: nat, i: nat, g: nat, done: Bytes)
    requires Packing(guid, i, g, done) && g != 0
    ensures i < 8 && Packing(guid, i + 1, g / 256, done + [g % 256])
    ensures Mark(done + [g % 256]) < 256
  {
    assert Pow256(0) == 1;
    MarkBound(done + [g % 256]);
    Pow2Up(i);
  }

  ghost predicate Packed(pack: array<Octet>, size: nat, done: Bytes)
    reads pack
  {
    pack.Length == 9 && 1 <= size <= |done| + 1 <= 9 && pack[0] == Mark(done) && pack[1..size] == NonZero(done)
  }

  /** One turn of the packing loop: an octet that is not zero is stored and its bit is set. */
  method PackOctet(pack: array<Octet>, from: nat, i: nat, octet: Octet, ghost done: Bytes) returns (size: nat)
    requires Packed(pack, from, done) && |done| == i < 8 && Mark(done + [octet]) < 256
    modifies pack
    ensures Packed(pack, size, done + [octet])
  {
    MarkSnoc(done, octet);
    size := from;
    if octet != 0 {
      pack[0] := pack[0] + Pow2(i);
      pack[size] := octet;
      size := size + 1;
      assert pack[1..size] == NonZero(done) + [octet];
    }
  }

  /** appendPackGUID up to the append: at most nine octets are filled. */
  method PackGuid(guid: nat) returns (pack: array<Octet>, size: nat)
    requires guid < Pow256(8)
    ensures fresh(pack) && size <= pack.Length == 9 && pack[..size] == Pack(guid)
  {
    pack := new Octet[9](_ => 0);
    pack[0] := 0;
    size := 1;
    var i: nat, g := 0, guid;
    ghost var done: Bytes := [];
    while g != 0
      invariant Packing(guid, i, g, done)
      invariant Packed(pack, size, done)
      decreases g
    {
      PackStep(guid, i, g, done);
      size := PackOctet(pack, size, i, g % 256, done);
      done := done + [g % 256];
      g := g / 256;
      i := i + 1;
    }
    ZeroTail(done, 8 - i);
    assert pack[..size] == [pack[0]] + pack[1..size];
  }

  /** The mark shifted right, one place at a time. */
  function Shifted(mark: nat, i: nat): nat {
    if i == 0 then mark else Shifted(mark, i - 1) / 2
  }

  class ByteBuffer {
    const swap: bool
    var storage: Bytes
    var rpos: nat
    var wpos: nat

    ghost predicate Valid()
      reads this
    {
      rpos <= |storage|
    }

    ghost function View(status: Status): Buf
      reads this
    {
      Buf(storage, rpos, wpos, status)
    }

    /** What the read operators have before them. */
    ghost function Ahead(): Bytes
      reads this
      requires Valid()
    {
      storage[rpos..]
    }

    constructor (bigEndian: bool)
      ensures Valid() && View(Fine) == Empty() && swap == bigEndian
    {
      swap := bigEndian;
      storage, rpos, wpos := [], 0, 0;
    }

    method Clear()
      modifies this
      ensures View(Fine) == Empty() && Valid()
    {
      storage, rpos, wpos := [], 0, 0;
    }

    /** Cuts or fills with zeros, and starts reading again. */
    method Resize(n: nat)
      modifies this
      ensures storage == if n <= |old(storage)| then old(storage)[..n] else old(storage) + Zeros(n - |old(storage)|)
      ensures Valid() && rpos == 0 && wpos == n
    {
      storage := if n <= |storage| then storage[..n] else storage + Zeros(n - |storage|);
      rpos, wpos := 0, n;
    }

    // ---------- writing ----------

    method AppendOctets(src: Bytes) returns (status: Status)
      requires Valid()
      modifies this`storage, this`wpos
      ensures Valid() && View(status) == Append(old(View(Fine)), src)
    {
      if src == [] {
        return SourceException;
      }
      if |storage| >= MaxSize {
        return AssertFailed;
      }
      ghost var before := View(Fine);
      if |storage| < wpos + |src| {
        storage := storage + Zeros(wpos + |src| - |storage|);
      }
      storage := storage[..wpos] + src + storage[wpos + |src|..];
      wpos := wpos + |src|;
      assert storage == Overwrite(before.storage, before.wpos, src);
      return Fine;
    }

    method AppendText(t: Bytes) returns (status: Status)
      requires Valid()
      modifies this`storage, this`wpos
      ensures Valid() && View(status) == Write(old(View(Fine)), Str(t), swap)
    {
      status := Fine;
      if t != [] {
        status := AppendOctets(t);
      }
      if status == Fine {
        status := AppendOctets([0]);
      }
    }

    method AppendPackGuid(guid: nat) returns (status: Status)
      requires Valid() && guid < Pow256(8)
      modifies this`storage, this`wpos
      ensures Valid() && View(status) == Append(old(View(Fine)), Pack(guid))
    {
      var pack, size := PackGuid(guid);
      status := AppendOctets(pack[..size]);
    }

    /** The append operators; a container writes its count and then its elements in a loop. */
    method AppendValue(v: Value) returns (status: Status)
      requires Valid() && InRange(v)
      modifies this`storage, this`wpos
      ensures Valid() && View(status) == Write(old(View(Fine)), v, swap)
      decreases v, 0
    {
      match v {
        case Unsigned(w, u) => status := AppendOctets(Store(u, w, swap));
        case Signed(w, i) => status := AppendOctets(Store(i % Pow256(w), w, swap));
        case Str(t) => status := AppendText(t);
        case Block(octets) => status := AppendOctets(octets);
        case Guid(g) => status := AppendPackGuid(g);
        case Many(vs) => status := AppendMany(vs);
        case Pair(first, second) =>
          ghost var before := View(Fine);
          status := AppendValue(first);
          if status == Fine {
            status := AppendValue(second);
          } else {
            Sticky(View(status), second, swap);
          }
      }
    }

    method AppendMany(vs: seq<Value>) returns (status: Status)
      requires Valid() && forall i :: 0 <= i < |vs| ==> InRange(vs[i])
      modifies this`storage, this`wpos
      ensures Valid() && View(status) == Write(old(View(Fine)), Many(vs), swap)
      decreases vs, 0
    {
      status := AppendOctets(Count(vs, swap));
      ghost var counted := View(status);
      var i := 0;
      while i < |vs| && status == Fine
        invariant i <= |vs| && Valid()
        invariant WriteAll(View(status), vs[i..], swap) == WriteAll(counted, vs, swap)
      {
        assert vs[i..][0] == vs[i] && vs[i..][1..] == vs[i + 1..];
        ghost var before := View(Fine);
        status := AppendValue(vs[i]);
        i := i + 1;
      }
      if status != Fine {
        StickyAll(View(status), vs[i..], swap);
      }
    }

    // ---------- reading ----------

    /** The memory copy of a read, refused when fewer octets are ahead. */
    method ReadOctets(len: nat) returns (r: Option<Bytes>)
      requires Valid()
      modifies this`rpos
      ensures Valid()
      ensures r == if len <= |old(Ahead())| then Some(old(Ahead())[..len]) else None
      ensures Ahead() == if len <= |old(Ahead())| then old(Ahead())[len..] else old(Ahead())
    {
      if rpos + len > |storage| {
        return None;
      }
      r := Some(storage[rpos..rpos + len]);
      assert storage[rpos..][..len] == storage[rpos..rpos + len];
      rpos := rpos + len;
    }

    /** Reads up to a zero octet or the end. */
    method ReadText() returns (t: Bytes)
      requires Valid()
      modifies this`rpos
      ensures Valid() && t == Text(old(Ahead())) && Ahead() == AfterText(old(Ahead()))
    {
      t := [];
      ghost var all := Ahead();
      while rpos < |storage|
        invariant Valid()
        invariant Text(all) == t + Text(Ahead()) && AfterText(all) == AfterText(Ahead())
        decreases |storage| - rpos
      {
        ghost var before := Ahead();
        var c := storage[rpos];
        rpos := rpos + 1;
        assert Ahead() == before[1..] && before[0] == c;
        TextStep(before);
        if c == 0 {
          return;
        }
        t := t + [c];
      }
      assert Text(Ahead()) == [] && AfterText(Ahead()) == [];
    }

    /** readPackGUID. */
    method ReadPackGuid() returns (guid: Option<nat>)
      requires Valid()
      modifies this`rpos
      ensures Valid()
      ensures var r := Read(old(Ahead()), KGuid, swap);
        Ahead() == r.rest && guid == if r.Got? then Some(r.value.guid) else None
    {
      if rpos + 1 > |storage| {
        return None;
      }
      var mark := storage[rpos];
      ghost var s := Ahead();
      rpos := rpos + 1;
      assert Ahead() == s[1..];
      var g: nat := 0;
      ghost var all := ReadGuid(mark, 8, Ahead());
      for i := 0 to 8
        invariant Valid()
        invariant all == Pending(mark, g, i, Ahead())
      {
        ghost var before := Ahead();
        if Shifted(mark, i) % 2 == 1 {
          if rpos + 1 > |storage| {
            return None;
          }
          var bit := storage[rpos];
          rpos := rpos + 1;
          assert before == [bit] + Ahead();
          TurnOne(mark, g, i, bit, Ahead());
          g := g + bit * Pow256(i);
        } else {
          TurnZero(mark, g, i, before);
        }
      }
      guid := Some(g);
    }

    /** The read operators; a container reads its count and then as many elements. */
    method ReadValue(k: Kind) returns (r: Option<Value>)
      requires Valid()
      modifies this`rpos
      ensures Valid()
      ensures var found := Read(old(Ahead()), k, swap);
        Ahead() == found.rest && r == if found.Got? then Some(found.value) else None
      decreases k, 0
    {
      match k {
        case KUnsigned(w) =>
          var o := ReadOctets(w);
          r := if o.Some? then Some(Unsigned(w, Load(o.value, swap))) else None;
        case KSigned(w) =>
          var o := ReadOctets(w);
          r := if o.Some? then Some(Signed(w, Signum(Load(o.value, swap), w))) else None;
        case KStr =>
          var t := ReadText();
          r := Some(Str(t));
        case KBlock(len) =>
          var o := ReadOctets(len);
          r := if o.Some? then Some(Block(o.value)) else None;
        case KGuid =>
          var g := ReadPackGuid();
          r := if g.Some? then Some(Guid(g.value)) else None;
        case KMany(each) =>
          var o := ReadOctets(4);
          if o.None? {
            return None;
          }
          r := ReadElements(Load(o.value, swap), each);
        case KPair(first, second) =>
          var a := ReadValue(first);
          if a.None? {
            return None;
          }
          var b := ReadValue(second);
          r := if b.Some? then Some(Pair(a.value, b.value)) else None;
      }
    }

    method ReadElements(count: nat, each: Kind) returns (r: Option<Value>)
      requires Valid()
      modifies this`rpos
      ensures Valid()
      ensures var found := ReadMany(old(Ahead()), each, count, swap);
        Ahead() == found.rest && r == if found.Got? then Some(found.value) else None
      decreases each, 1
    {
      var vs: seq<Value> := [];
      var n: nat := count;
      ghost var all := ReadMany(Ahead(), each, count, swap);
      while n > 0
        invariant Valid() && n <= count
        invariant all == Prepend(vs, ReadMany(Ahead(), each, n, swap))
      {
        var v := ReadValue(each);
        if v.None? {
          return None;
        }
        PrependStep(vs, v.value, ReadMany(Ahead(), each, n - 1, swap));
        vs := vs + [v.value];
        n := n - 1;
      }
      assert vs + [] == vs;
      r := Some(Many(vs));
    }
  }

  /** The GUID read so far, and what the rest of the loop adds. */
  ghost function Combine(g: nat, i: nat, r: Found): Found
    requires r.Got? ==> r.value.Guid?
  {
    if r.Short? then r else Got(Guid(g + Pow256(i) * r.value.guid), r.rest)
  }

  ghost function Pending(mark: nat, g: nat, i: nat, s: Bytes): Found
    requires i <= 8
  {
    Combine(g, i, ReadGuid(Shifted(mark, i), 8 - i, s))
  }

  lemma {:induction false} TurnOne(mark: nat, g: nat, i: nat, bit: Octet, s: Bytes)
    requires i < 8 && Shifted(mark, i) % 2 == 1
    ensures Pending(mark, g, i, [bit] + s) == Pending(mark, g + bit * Pow256(i), i + 1, s)
  {
    assert Shifted(mark, i + 1) == Shifted(mark, i) / 2;
    GuidStep(Shifted(mark, i), 8 - i, [bit] + s, bit, s);
    CombineStep(g, i, bit, ReadGuid(Shifted(mark, i + 1), 8 - (i + 1), s));
  }

  lemma {:induction false} TurnZero(mark: nat, g: nat, i: nat, s: Bytes)
    requires i < 8 && Shifted(mark, i) % 2 != 1
    ensures Pending(mark, g, i, s) == Pending(mark, g, i + 1, s)
  {
    assert Shifted(mark, i + 1) == Shifted(mark, i) / 2;
    GuidSkip(Shifted(mark, i), 8 - i, s);
    CombineStep(g, i, 0, ReadGuid(Shifted(mark, i + 1), 8 - (i + 1), s));
  }

  lemma {:induction false} CombineStep(g: nat, i: nat, octet: Octet, r: Found)
    requires r.Got? ==> r.value.Guid?
    ensures Combine(g + octet * Pow256(i), i + 1, r) ==
      Combine(g, i, if r.Short? then r else Got(Guid(octet + 256 * r.value.guid), r.rest))
  {
    if r.Got? {
      var p, x := Pow256(i), r.value.guid;
      assert p * (octet + 256 * x) == octet * p + 256 * p * x;
    }
  }

  ghost function Prepend(vs: seq<Value>, r: Found): Found
    requires r.Got? ==> r.value.Many?
  {
    if r.Short? then r else Got(Many(vs + r.value.values), r.rest)
  }

  lemma {:induction false} PrependStep(vs: seq<Value>, v: Value, r: Found)
    requires r.Got? ==> r.value.Many?
    ensures Prepend(vs + [v], r) == Prepend(vs, if r.Short? then r else Got(Many([v] + r.value.values), r.rest))
  {
    if r.Got? {
      assert vs + [v] + r.value.values == vs + ([v] + r.value.values);
    }
  }
}
