/**
 What every run of the session manager keeps: exact queue positions, the two
 limits, no idle slot while somebody waits, and activation in admission order.
 */
module AdmissionTheorems {
  import opened Common
  import opened Admission

  ghost predicate Shape(m: Manager) {
    && NoDuplicates(m.waiting) && NoDuplicates(m.pending)
    && (forall k :: k in m.waiting ==> k in m.sessions)
    && (forall k :: k in m.pending ==> k !in m.sessions && k in m.objs)
    && (forall k :: k in m.sessions ==> k in m.objs)
  }

  /** The last position sent to the session is its 1-based place. */
  ghost predicate Told(objs: map<nat, Sess>, waiting: seq<nat>, i: nat)
    requires i < |waiting|
  {
    waiting[i] in objs &&
    (objs[waiting[i]].open ==>
      objs[waiting[i]].positions != [] && objs[waiting[i]].positions[|objs[waiting[i]].positions| - 1] == i + 1)
  }

  ghost predicate PositionsExact(m: Manager) {
    forall i :: 0 <= i < |m.waiting| ==> Told(m.objs, m.waiting, i)
  }

  /** A session is flagged as waiting exactly while it waits, and has started its login exactly when it does not. */
  ghost predicate FlagsExact(m: Manager) {
    (forall k :: k in m.sessions ==>
      k in m.objs && m.objs[k].inQueue == (k in m.waiting) && m.objs[k].loginStarted == (k !in m.waiting))
    && (forall k :: k in m.pending ==> k in m.objs && !m.objs[k].inQueue && !m.objs[k].loginStarted)
  }

  ghost predicate Limits(m: Manager) {
    && (m.activeLimit != 0 ==> ActiveCount(m) <= m.activeLimit)
    && (m.queueLimit != 0 ==> |m.waiting| + |m.pending| <= m.queueLimit)
  }

  /** Somebody waits only while every active slot is taken. */
  ghost predicate NoIdleSlot(m: Manager) {
    m.waiting != [] ==> m.activeLimit != 0 && ActiveCount(m) >= m.activeLimit
  }

  /** s without the members of gone. */
  function Keep(s: seq<nat>, gone: set<nat>): seq<nat> {
    if s == [] then [] else
    Keep(s[..|s| - 1], gone) + if s[|s| - 1] in gone then [] else [s[|s| - 1]]
  }

  /** Slots are given in the order of admission, leaving out only those who left while waiting. */
  ghost predicate InOrder(m: Manager) {
    NoDuplicates(m.admitted) && Keep(m.admitted, m.abandoned) == m.activated + m.waiting
  }

  /** A session is admitted once, after it was pending. */
  ghost predicate AdmittedOnce(m: Manager) {
    && (forall k :: k in m.admitted ==> k in m.objs && k !in m.pending)
    && (forall k :: k in m.sessions ==> k in m.admitted)
    && (forall k :: k in m.abandoned ==> k in m.admitted)
  }

  // ---------- notifying ----------

  lemma {:induction false} NotifySpec(objs: map<nat, Sess>, waiting: seq<nat>, i: nat)
    requires i <= |waiting| && NoDuplicates(waiting)
    ensures var after := NotifyFrom(objs, waiting, i);
      && after.Keys == objs.Keys
      && (forall k :: k in objs && k !in waiting[i..] ==> after[k] == objs[k])
      && (forall k :: k in objs ==> after[k] == objs[k].(positions := after[k].positions))
      && (forall j :: i <= j < |waiting| && waiting[j] in objs ==> Told(after, waiting, j))
    decreases |waiting| - i
  {
    if i < |waiting| {
      var objs1 := SendPosition(objs, waiting[i], i + 1);
      NotifySpec(objs1, waiting, i + 1);
      assert waiting[i..] == [waiting[i]] + waiting[i + 1..];
      assert waiting[i] !in waiting[i + 1..];
    }
  }

  /**
   Position accuracy of RemoveQueuedSession, for every state whatever its limits:
   in all four cases of erase and pop, every open waiting session has been told its place.
   */
  lemma {:induction false} RemoveTellsPositions(m: Manager, id: nat)
    requires Shape(m) && PositionsExact(m)
    ensures PositionsExact(RemoveQueued(m, id))
  {
    EraseShape(m, id);
    if TakesNext(m, id) {
      AllTold(m, id);
    } else if id in m.waiting {
      BehindTold(m, id);
    }
  }

  /** After an activation everybody is told. */
  lemma {:induction false} AllTold(m: Manager, id: nat)
    requires Shape(m) && TakesNext(m, id)
    ensures PositionsExact(RemoveQueued(m, id))
  {
    EraseShape(m, id);
    var m1 := EraseFound(m, id);
    var objs := Activate(m1.objs, m1.waiting[0]);
    var rest := m1.waiting[1..];
    TailWithoutHead(m1.waiting);
    assert objs.Keys == m.objs.Keys;
    ToldFrom(objs, rest);
    assert RemoveQueued(m, id).objs == NotifyFrom(objs, rest, 0) && RemoveQueued(m, id).waiting == rest;
  }

  lemma {:induction false} ToldFrom(objs: map<nat, Sess>, waiting: seq<nat>)
    requires NoDuplicates(waiting) && forall k :: k in waiting ==> k in objs
    ensures forall j :: 0 <= j < |waiting| ==> Told(NotifyFrom(objs, waiting, 0), waiting, j)
  {
    NotifySpec(objs, waiting, 0);
  }

  /** Without an activation the sessions before the erased one keep their places, and the others are told. */
  lemma {:induction false} BehindTold(m: Manager, id: nat)
    requires Shape(m) && PositionsExact(m) && id in m.waiting
    ensures var m1 := EraseFound(m, id);
      PositionsExact(m1.(objs := NotifyFrom(m1.objs, m1.waiting, IndexOf(m.waiting, id))))
  {
    var m1 := EraseFound(m, id);
    var i := IndexOf(m.waiting, id);
    EraseShape(m, id);
    NotifySpec(m1.objs, m1.waiting, i);
    var objs := NotifyFrom(m1.objs, m1.waiting, i);
    forall j | 0 <= j < |m1.waiting|
      ensures Told(objs, m1.waiting, j)
    {
      if j < i {
        StillTold(m, id, objs, j);
      }
    }
  }

  lemma {:induction false} StillTold(m: Manager, id: nat, objs: map<nat, Sess>, j: nat)
    requires Shape(m) && PositionsExact(m) && id in m.waiting && j < IndexOf(m.waiting, id)
    requires var m1, i := EraseFound(m, id), IndexOf(m.waiting, id);
      && j < |m1.waiting| && NoDuplicates(m1.waiting) && i <= |m1.waiting| && objs.Keys == m1.objs.Keys
      && (forall k :: k in m1.objs && k !in m1.waiting[i..] ==> objs[k] == m1.objs[k])
    ensures Told(objs, EraseFound(m, id).waiting, j)
  {
    var m1, i := EraseFound(m, id), IndexOf(m.waiting, id);
    var k := m1.waiting[j];
    assert Told(m.objs, m.waiting, j) && m.waiting[j] == k;
    assert k != id;
    assert m1.objs[k] == m.objs[k];
  }

  /** What erasing a waiting session leaves. */
  lemma {:induction false} EraseShape(m: Manager, id: nat)
    requires Shape(m)
    ensures var m1 := EraseFound(m, id);
      && NoDuplicates(m1.waiting) && m1.objs.Keys == m.objs.Keys
      && (forall k :: k in m1.waiting <==> k in m.waiting && k != id)
      && |m1.waiting| == |m.waiting| - (if id in m.waiting then 1 else 0)
      && (forall k :: k in m.objs && k != id ==> m1.objs[k] == m.objs[k])
  {
    var i := IndexOf(m.waiting, id);
    if i < |m.waiting| {
      Removed(m.waiting, i);
    }
  }

  lemma {:induction false} Removed(s: seq<nat>, i: nat)
    requires NoDuplicates(s) && i < |s|
    ensures NoDuplicates(s[..i] + s[i + 1..])
    ensures forall k :: k in s[..i] + s[i + 1..] <==> k in s && k != s[i]
  {
    var a, b := s[..i], s[i + 1..];
    assert s == a + [s[i]] + b;
    assert forall j :: 0 <= j < |a| ==> a[j] == s[j];
    assert forall j :: 0 <= j < |b| ==> b[j] == s[i + 1 + j];
    assert s[i] !in a && s[i] !in b;
  }

  // ---------- one step at a time ----------

  ghost predicate Inv(m: Manager) {
    Shape(m) && PositionsExact(m) && FlagsExact(m) && Limits(m) && NoIdleSlot(m) && InOrder(m) && AdmittedOnce(m)
  }

  lemma {:induction false} WaitingFits(m: Manager)
    requires Shape(m)
    ensures |m.waiting| <= |m.sessions|
  {
    DistinctSize(m.waiting);
    SubsetSize(Elements(m.waiting), m.sessions);
  }

  lemma {:induction false} SubsetSize(a: set<nat>, b: set<nat>)
    requires a <= b
    ensures |a| <= |b|
  {
    assert b == a + (b - a);
    assert |a + (b - a)| == |a| + |b - a|;
  }

  lemma {:induction false} AcceptKeeps(m: Manager, id: nat)
    requires Inv(m) && id !in m.objs
    ensures Inv(Connect(m, id))
  {
    var next := Connect(m, id);
    assert forall i :: 0 <= i < |m.waiting| && Told(m.objs, m.waiting, i) ==> Told(next.objs, m.waiting, i);
  }

  lemma {:induction false} CloseKeeps(m: Manager, id: nat)
    requires Inv(m) && id in m.objs
    ensures Inv(m.(objs := m.objs[id := m.objs[id].(open := false)]))
  {
    var next := m.(objs := m.objs[id := m.objs[id].(open := false)]);
    assert forall i :: 0 <= i < |m.waiting| && Told(m.objs, m.waiting, i) ==> Told(next.objs, m.waiting, i);
  }

  ghost predicate AllButOrder(m: Manager) {
    Shape(m) && PositionsExact(m) && FlagsExact(m) && Limits(m) && NoIdleSlot(m)
  }

  lemma {:induction false} AddActive(m: Manager)
    requires AllButOrder(m) && m.pending != [] && !(m.activeLimit != 0 && ActiveCount(m) >= m.activeLimit)
    ensures AllButOrder(AddOne(m))
  {
    var id := m.pending[0];
    var next := AddOne(m);
    assert m.waiting == [] && next.waiting == [];
    assert next.sessions == m.sessions + {id} && id !in m.sessions;
    assert forall k :: k in next.pending ==> k in m.pending && k != id;
  }

  lemma {:induction false} LastPlace(waiting: seq<nat>, id: nat)
    requires id !in waiting
    ensures IndexOf(waiting + [id], id) == |waiting|
  {
    if waiting != [] {
      assert (waiting + [id])[1..] == waiting[1..] + [id];
      LastPlace(waiting[1..], id);
    }
  }

  lemma {:induction false} AddWaitingShape(m: Manager)
    requires AllButOrder(m) && m.pending != [] && m.activeLimit != 0 && ActiveCount(m) >= m.activeLimit
    ensures var next := AddOne(m);
      && Shape(next) && Limits(next) && NoIdleSlot(next)
      && next.waiting == m.waiting + [m.pending[0]] && m.pending[0] !in m.waiting
  {
    var id := m.pending[0];
    assert id !in m.sessions;
    assert |m.sessions + {id}| == |m.sessions| + 1;
    assert forall k :: k in m.pending[1..] ==> k in m.pending && k != id;
  }

  lemma {:induction false} AddWaiting(m: Manager)
    requires AllButOrder(m) && m.pending != [] && m.activeLimit != 0 && ActiveCount(m) >= m.activeLimit
    ensures AllButOrder(AddOne(m))
  {
    AddWaitingShape(m);
    AddWaitingFlags(m);
    AddWaitingTold(m);
  }

  lemma {:induction false} AddWaitingTold(m: Manager)
    requires AllButOrder(m) && m.pending != [] && m.activeLimit != 0 && ActiveCount(m) >= m.activeLimit
    ensures PositionsExact(AddOne(m))
  {
    var id := m.pending[0];
    var next := AddOne(m);
    LastPlace(m.waiting, id);
    assert id !in m.waiting;
    assert forall k :: k in m.objs && k != id ==> next.objs[k] == m.objs[k];
    forall i | 0 <= i < |next.waiting|
      ensures Told(next.objs, next.waiting, i)
    {
      if i < |m.waiting| {
        assert Told(m.objs, m.waiting, i) && m.waiting[i] != id;
      }
    }
  }

  lemma {:induction false} AddWaitingFlags(m: Manager)
    requires AllButOrder(m) && m.pending != [] && m.activeLimit != 0 && ActiveCount(m) >= m.activeLimit
    ensures FlagsExact(AddOne(m))
  {
    var id := m.pending[0];
    var next := AddOne(m);
    TailWithoutHead(m.pending);
    assert forall k :: k in next.waiting <==> k in m.waiting || k == id;
    assert next.objs[id].inQueue && !next.objs[id].loginStarted;
    assert forall k :: k in m.objs && k != id ==> next.objs[k] == m.objs[k];
  }

  // ---------- the sweep ----------

  /** What RemoveQueuedSession does to the queue and the flags. */
  lemma {:induction false} RemoveShape(m: Manager, id: nat)
    requires Shape(m) && id in m.sessions
    ensures var next := RemoveQueued(m, id);
      && NoDuplicates(next.waiting) && next.objs.Keys == m.objs.Keys
      && (forall k :: k in next.waiting ==> k in m.waiting && k != id)
      && |next.waiting| == |m.waiting| - (if id in m.waiting then 1 else 0) - (if TakesNext(m, id) then 1 else 0)
      && next == m.(objs := next.objs, waiting := next.waiting, activated := next.activated, abandoned := next.abandoned)
  {
    EraseShape(m, id);
    RemoveFrame(m, id);
    if TakesNext(m, id) {
      TailWithoutHead(EraseFound(m, id).waiting);
    }
  }

  lemma {:induction false} RemoveFrame(m: Manager, id: nat)
    requires Shape(m)
    ensures var m1 := EraseFound(m, id);
      var next := RemoveQueued(m, id);
      && next.objs.Keys == m.objs.Keys
      && next.waiting == (if TakesNext(m, id) then m1.waiting[1..] else m1.waiting)
      && next == m.(objs := next.objs, waiting := next.waiting, activated := next.activated, abandoned := next.abandoned)
  {
    var m1 := EraseFound(m, id);
    if TakesNext(m, id) {
      NotifyKeys(Activate(m1.objs, m1.waiting[0]), m1.waiting[1..], 0);
    } else if id in m.waiting {
      NotifyKeys(m1.objs, m1.waiting, IndexOf(m.waiting, id));
    }
  }

  lemma {:induction false} NotifyKeys(objs: map<nat, Sess>, waiting: seq<nat>, i: nat)
    requires i <= |waiting|
    ensures NotifyFrom(objs, waiting, i).Keys == objs.Keys
    decreases |waiting| - i
  {
    if i < |waiting| {
      NotifyKeys(SendPosition(objs, waiting[i], i + 1), waiting, i + 1);
    }
  }

  lemma {:induction false} RemoveFlags(m: Manager, id: nat)
    requires Shape(m) && FlagsExact(m) && id in m.sessions
    ensures FlagsExact(Sweep(m, id))
  {
    EraseShape(m, id);
    if TakesNext(m, id) {
      TakenFlags(m, id, EraseFound(m, id), Sweep(m, id));
    } else if id in m.waiting {
      NotifySpec(EraseFound(m, id).objs, EraseFound(m, id).waiting, IndexOf(m.waiting, id));
      SweptFlags(m, id, EraseFound(m, id).objs, Sweep(m, id));
    } else {
      SweptFlags(m, id, m.objs, Sweep(m, id));
    }
  }

  /** The front of the queue is activated as well. */
  lemma {:induction false} TakenFlags(m: Manager, id: nat, m1: Manager, next: Manager)
    requires Shape(m) && FlagsExact(m) && id in m.sessions
    requires m1.waiting != [] && NoDuplicates(m1.waiting) && m1.objs.Keys == m.objs.Keys
    requires forall k :: k in m1.waiting <==> k in m.waiting && k != id
    requires forall k :: k in m.objs && k != id ==> m1.objs[k] == m.objs[k]
    requires next.sessions == m.sessions - {id} && next.pending == m.pending && next.waiting == m1.waiting[1..]
    requires next.objs == NotifyFrom(Activate(m1.objs, m1.waiting[0]), m1.waiting[1..], 0)
    ensures FlagsExact(next)
  {
    var objs := Activate(m1.objs, m1.waiting[0]);
    TailWithoutHead(m1.waiting);
    NotifySpec(objs, m1.waiting[1..], 0);
    SweptFlags(m, id, objs, next);
  }

  /** flags are the sessions' flags before the new places are told, which changes no flag. */
  lemma {:induction false} SweptFlags(m: Manager, id: nat, flags: map<nat, Sess>, next: Manager)
    requires Shape(m) && FlagsExact(m) && id in m.sessions
    requires next.sessions == m.sessions - {id} && next.pending == m.pending
    requires flags.Keys == next.objs.Keys == m.objs.Keys
    requires forall k :: k in flags ==> next.objs[k] == flags[k].(positions := next.objs[k].positions)
    requires forall k :: k in next.waiting ==> k in m.waiting && k != id
    requires forall k :: k in m.objs && k != id ==>
      if k in m.waiting && k !in next.waiting then !flags[k].inQueue && flags[k].loginStarted else flags[k] == m.objs[k]
    ensures FlagsExact(next)
  {
  }

  /** The slot that falls free is given away before anybody is left waiting. */
  lemma {:induction false} RemoveLimits(m: Manager, id: nat)
    requires Shape(m) && Limits(m) && NoIdleSlot(m) && id in m.sessions
    ensures Limits(Sweep(m, id)) && NoIdleSlot(Sweep(m, id))
  {
    RemoveShape(m, id);
    WaitingFits(m);
    EraseShape(m, id);
    var next := Sweep(m, id);
    assert |next.sessions| == |m.sessions| - 1;
    if id !in m.waiting {
      DistinctSize(m.waiting);
      SubsetSize(Elements(m.waiting) + {id}, m.sessions);
      assert |Elements(m.waiting) + {id}| == |m.waiting| + 1;
    }
  }

  // ---------- order, on plain sequences ----------

  lemma {:induction false} KeepConcat(a: seq<nat>, b: seq<nat>, gone: set<nat>)
    ensures Keep(a + b, gone) == Keep(a, gone) + Keep(b, gone)
  {
    if b == [] {
      assert a + b == a;
    } else {
      var front, y := b[..|b| - 1], b[|b| - 1];
      KeepConcat(a, front, gone);
      assert a + b == a + front + [y];
    }
  }

  lemma {:induction false} KeepNone(s: seq<nat>, x: nat)
    requires x !in s
    ensures Keep(s, {x}) == s
  {
    if s != [] {
      var front, y := s[..|s| - 1], s[|s| - 1];
      assert s == front + [y];
      KeepNone(front, x);
    }
  }

  lemma {:induction false} KeepTwice(s: seq<nat>, gone: set<nat>, x: nat)
    ensures Keep(s, gone + {x}) == Keep(Keep(s, gone), {x})
  {
    if s != [] {
      var front, y := s[..|s| - 1], s[|s| - 1];
      var k := Keep(front, gone);
      KeepTwice(front, gone, x);
      if y in gone {
        assert Keep(s, gone) == k + [] == k;
      } else {
        assert Keep(s, gone) == k + [y];
      }
    }
  }

  lemma {:induction false} KeepMember(s: seq<nat>, gone: set<nat>, k: nat)
    requires k in Keep(s, gone)
    ensures k in s
  {
    if s != [] && k in Keep(s[..|s| - 1], gone) {
      KeepMember(s[..|s| - 1], gone, k);
    }
  }

  lemma {:induction false} KeepDistinct(s: seq<nat>, gone: set<nat>)
    requires NoDuplicates(s)
    ensures NoDuplicates(Keep(s, gone))
  {
    if s != [] {
      var front, y := s[..|s| - 1], s[|s| - 1];
      KeepDistinct(front, gone);
      assert y !in front;
      if y in Keep(front, gone) {
        KeepMember(front, gone, y);
      }
    }
  }

  lemma {:induction false} KeepParts(a: seq<nat>, x: nat, b: seq<nat>)
    requires x !in a && x !in b
    ensures Keep(a + [x] + b, {x}) == a + b
  {
    KeepNone(a, x);
    KeepNone(b, x);
    KeepConcat(a + [x], b, {x});
    assert Keep(a + [x], {x}) == a + [] == a;
  }

  lemma {:induction false} KeepMiddle(a: seq<nat>, x: nat, b: seq<nat>)
    requires NoDuplicates(a + [x] + b)
    ensures Keep(a + [x] + b, {x}) == a + b
  {
    var all := a + [x] + b;
    assert forall i :: 0 <= i < |a| ==> all[i] == a[i];
    assert all[|a|] == x;
    assert forall i :: 0 <= i < |b| ==> all[|a| + 1 + i] == b[i];
    assert x !in a && x !in b;
    KeepParts(a, x, b);
  }

  /** Erasing from the waiting queue leaves the rest in admission order. */
  lemma {:induction false} EraseInOrder(m: Manager, id: nat)
    requires InOrder(m) && id in m.waiting
    ensures InOrder(EraseFound(m, id))
  {
    var w, i := m.waiting, IndexOf(m.waiting, id);
    Around(m.activated, w, i);
    KeepErased(m.admitted, m.abandoned, m.activated + w[..i], id, w[i + 1..]);
    assert EraseFound(m, id).waiting == w[..i] + w[i + 1..];
  }

  lemma {:induction false} KeepErased(s: seq<nat>, gone: set<nat>, before: seq<nat>, x: nat, after: seq<nat>)
    requires NoDuplicates(s) && Keep(s, gone) == before + [x] + after
    ensures Keep(s, gone + {x}) == before + after
  {
    KeepDistinct(s, gone);
    KeepMiddle(before, x, after);
    KeepTwice(s, gone, x);
  }

  lemma {:induction false} Around(a: seq<nat>, w: seq<nat>, i: nat)
    requires i < |w|
    ensures a + w == a + w[..i] + [w[i]] + w[i + 1..]
    ensures a + w[..i] + w[i + 1..] == a + (w[..i] + w[i + 1..])
  {
  }

  lemma {:induction false} NextInOrder(activated: seq<nat>, waiting: seq<nat>)
    requires waiting != []
    ensures activated + waiting == activated + [waiting[0]] + waiting[1..]
  {
  }

  lemma {:induction false} RemoveInOrder(m: Manager, id: nat)
    requires InOrder(m)
    ensures InOrder(Sweep(m, id))
  {
    var m1 := EraseFound(m, id);
    if id in m.waiting {
      EraseInOrder(m, id);
    }
    assert InOrder(m1);
    if TakesNext(m, id) {
      NextInOrder(m1.activated, m1.waiting);
    }
  }

  lemma {:induction false} AddInOrder(m: Manager)
    requires InOrder(m) && m.pending != [] && m.pending[0] !in m.admitted && m.pending[0] !in m.abandoned
    requires (m.activeLimit != 0 && ActiveCount(m) >= m.activeLimit) || m.waiting == []
    ensures InOrder(AddOne(m))
  {
    var id := m.pending[0];
    assert m.activated + (m.waiting + [id]) == m.activated + m.waiting + [id];
    if m.waiting == [] {
      assert m.activated + m.waiting == m.activated;
      assert m.activated + [id] + m.waiting == m.activated + [id];
    }
  }

  // ---------- admitted once ----------

  lemma {:induction false} AddAdmits(m: Manager)
    requires AdmittedOnce(m) && Shape(m) && m.pending != []
    ensures AdmittedOnce(AddOne(m))
  {
    var id := m.pending[0];
    var next := AddOne(m);
    assert next.objs.Keys == m.objs.Keys;
    assert next.admitted == m.admitted + [id] && next.abandoned == m.abandoned && next.sessions == m.sessions + {id};
    TailWithoutHead(m.pending);
    assert next.pending == m.pending[1..];
  }

  lemma {:induction false} TailWithoutHead(s: seq<nat>)
    requires NoDuplicates(s) && s != []
    ensures forall k :: k in s[1..] <==> k in s && k != s[0]
  {
  }

  lemma {:induction false} SweepAdmits(m: Manager, id: nat)
    requires AdmittedOnce(m) && Shape(m) && id in m.sessions
    ensures AdmittedOnce(Sweep(m, id))
  {
    RemoveShape(m, id);
    var next := Sweep(m, id);
    assert next.abandoned <= m.abandoned + {id};
  }

  lemma {:induction false} SweepKeeps(m: Manager, id: nat)
    requires Inv(m) && id in m.sessions
    ensures Inv(Sweep(m, id))
  {
    RemoveShape(m, id);
    RemoveTellsPositions(m, id);
    RemoveFlags(m, id);
    RemoveLimits(m, id);
    RemoveInOrder(m, id);
    SweepAdmits(m, id);
  }

  // ---------- every run ----------

  lemma {:induction false} StepKeeps(m: Manager, ev: Event)
    requires Inv(m)
    ensures Inv(Step(m, ev))
  {
    match ev {
      case Accept(id) => if id !in m.objs { AcceptKeeps(m, id); }
      case Close(id) => if id in m.objs { CloseKeeps(m, id); }
      case TakeNew =>
        if m.pending != [] {
          AddInOrder(m);
          AddAdmits(m);
          if m.activeLimit != 0 && ActiveCount(m) >= m.activeLimit { AddWaiting(m); } else { AddActive(m); }
        }
      case Remove(id) => if id in m.sessions && !m.objs[id].open { SweepKeeps(m, id); }
    }
  }

  lemma {:induction false} LimitsFixed(m: Manager, ev: Event)
    ensures Step(m, ev).activeLimit == m.activeLimit && Step(m, ev).queueLimit == m.queueLimit
  {
  }

  lemma {:induction false} InitialKeeps(activeLimit: nat, queueLimit: nat)
    ensures Inv(Initial(activeLimit, queueLimit))
  {
    var m := Initial(activeLimit, queueLimit);
    assert Keep(m.admitted, m.abandoned) == [] && m.activated + m.waiting == [];
  }

  lemma {:induction false} RunKeeps(activeLimit: nat, queueLimit: nat, evs: seq<Event>)
    ensures Inv(Run(Initial(activeLimit, queueLimit), evs))
    ensures var m := Run(Initial(activeLimit, queueLimit), evs);
      m.activeLimit == activeLimit && m.queueLimit == queueLimit
  {
    if evs == [] {
      InitialKeeps(activeLimit, queueLimit);
    } else {
      var m := Run(Initial(activeLimit, queueLimit), evs[..|evs| - 1]);
      RunKeeps(activeLimit, queueLimit, evs[..|evs| - 1]);
      StepKeeps(m, evs[|evs| - 1]);
      LimitsFixed(m, evs[|evs| - 1]);
    }
  }

  /** In every reachable state, the last position sent to an open waiting session is its place. */
  lemma {:induction false} EveryPositionExact(activeLimit: nat, queueLimit: nat, evs: seq<Event>, i: nat)
    requires i < |Run(Initial(activeLimit, queueLimit), evs).waiting|
    ensures Told(Run(Initial(activeLimit, queueLimit), evs).objs, Run(Initial(activeLimit, queueLimit), evs).waiting, i)
  {
    RunKeeps(activeLimit, queueLimit, evs);
  }

  /** The limits hold, and nobody waits beside an unused slot. */
  lemma {:induction false} LimitsAndWork(activeLimit: nat, queueLimit: nat, evs: seq<Event>)
    ensures var m := Run(Initial(activeLimit, queueLimit), evs);
      && (activeLimit != 0 ==> ActiveCount(m) <= activeLimit)
      && (queueLimit != 0 ==> |m.waiting| + |m.pending| <= queueLimit)
      && (m.waiting != [] ==> activeLimit != 0 && ActiveCount(m) == activeLimit)
  {
    RunKeeps(activeLimit, queueLimit, evs);
  }

  /** Sessions get their slots in the order in which they were admitted, skipping those who left while waiting. */
  lemma {:induction false} AdmissionOrder(activeLimit: nat, queueLimit: nat, evs: seq<Event>)
    ensures var m := Run(Initial(activeLimit, queueLimit), evs);
      Keep(m.admitted, m.abandoned) == m.activated + m.waiting
  {
    RunKeeps(activeLimit, queueLimit, evs);
  }
}
