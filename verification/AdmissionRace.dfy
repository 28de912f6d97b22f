/**
 AddSession as the network thread runs it: it reads the length of the waiting queue, and
 only then, without a lock over both, the length of the queue of new sessions.  The server
 thread may come in between.  (Should the compiler read the second length first, the sum
 can only be too large.)  The second read and the add are one step here: only the network
 thread lengthens the queue of new sessions, so a call that accepts can be placed at its
 add and one that refuses at its second read.
 */
module AdmissionRace {
  import opened Wrappers
  import opened Admission
  import opened AdmissionTheorems

  /** seen is the connection being accepted and the waiting count that was read for it. */
  datatype Race = Race(m: Manager, seen: Option<(nat, nat)>)

  /** The network thread takes one connection at a time; the server thread does the rest. */
  datatype RaceEvent = Reads(id: nat) | Enters | Does(ev: Event)

  function Start(activeLimit: nat, queueLimit: nat): Race {
    Race(Initial(activeLimit, queueLimit), None)
  }

  function ConnectAfter(seen: nat, m: Manager, id: nat): Manager {
    if m.queueLimit == 0 || seen + |m.pending| < m.queueLimit
    then m.(objs := m.objs[id := Sess(true, false, false, [])], pending := m.pending + [id])
    else m
  }

  function RaceStep(r: Race, ev: RaceEvent): Race {
    match ev
    case Reads(id) => if r.seen.Some? || id in r.m.objs then r else r.(seen := Some((id, |r.m.waiting|)))
    case Enters => if r.seen.None? then r else Race(ConnectAfter(r.seen.value.1, r.m, r.seen.value.0), None)
    case Does(ev) => if ev.Accept? then r else r.(m := Step(r.m, ev))
  }

  function RaceRun(r: Race, evs: seq<RaceEvent>): Race {
    if evs == [] then r else RaceStep(RaceRun(r, evs[..|evs| - 1]), evs[|evs| - 1])
  }

  function Queued(m: Manager): nat {
    |m.waiting| + |m.pending|
  }

  /** The queue limit is passed. */
  predicate Over(r: Race) {
    r.m.queueLimit != 0 && Queued(r.m) > r.m.queueLimit
  }

  /** The queue is full, and the waiting queue has grown since it was read for the connection that enters. */
  predicate FullAndGrown(r: Race) {
    r.seen.Some? && Queued(r.m) == r.m.queueLimit && r.seen.value.1 < |r.m.waiting|
  }

  /** The manager without its queue limit. */
  function Unlimited(m: Manager): Manager {
    m.(queueLimit := 0)
  }

  ghost predicate RaceInv(r: Race) {
    Inv(Unlimited(r.m)) && (r.seen.Some? ==> r.seen.value.0 !in r.m.objs)
  }

  /** Only the queue limit depends on the reads: a manager without it makes the same step. */
  lemma {:induction false} SameStep(m: Manager, ev: Event)
    requires Inv(Unlimited(m)) && !ev.Accept?
    ensures Unlimited(Step(m, ev)) == Step(Unlimited(m), ev)
  {
    if ev.Remove? {
      SameSweep(m, ev.id);
    }
  }

  lemma {:induction false} SameSweep(m: Manager, id: nat)
    ensures Unlimited(Sweep(m, id)) == Sweep(Unlimited(m), id)
  {
    assert EraseFound(Unlimited(m), id) == Unlimited(EraseFound(m, id));
    assert TakesNext(Unlimited(m), id) == TakesNext(m, id);
  }

  /** No step of the server thread makes the two queues longer together, or adds a session. */
  lemma {:induction false} NoLonger(m: Manager, ev: Event)
    requires Inv(Unlimited(m)) && !ev.Accept?
    ensures Queued(Step(m, ev)) <= Queued(m) && Step(m, ev).objs.Keys == m.objs.Keys
    ensures Step(m, ev).queueLimit == m.queueLimit
  {
    if ev.Remove? && ev.id in m.sessions && !m.objs[ev.id].open {
      assert Shape(m);
      RemoveShape(m, ev.id);
    }
  }

  lemma {:induction false} RaceStepKeeps(r: Race, ev: RaceEvent)
    requires RaceInv(r)
    ensures RaceInv(RaceStep(r, ev)) && RaceStep(r, ev).m.queueLimit == r.m.queueLimit
    ensures !Over(r) && r.m.queueLimit != 0 ==> (Over(RaceStep(r, ev)) <==> ev.Enters? && FullAndGrown(r))
  {
    match ev {
      case Reads(id) =>
      case Enters =>
        if r.seen.Some? {
          var (id, seen) := r.seen.value;
          AcceptKeeps(Unlimited(r.m), id);
          assert Unlimited(r.m).(objs := r.m.objs[id := Sess(true, false, false, [])], pending := r.m.pending + [id])
            == Connect(Unlimited(r.m), id);
        }
      case Does(e) =>
        if !e.Accept? {
          SameStep(r.m, e);
          StepKeeps(Unlimited(r.m), e);
          NoLonger(r.m, e);
        }
    }
  }

  lemma {:induction false} RaceRunKeeps(r: Race, evs: seq<RaceEvent>)
    requires RaceInv(r)
    ensures RaceInv(RaceRun(r, evs)) && RaceRun(r, evs).m.queueLimit == r.m.queueLimit
  {
    if evs != [] {
      RaceRunKeeps(r, evs[..|evs| - 1]);
      RaceStepKeeps(RaceRun(r, evs[..|evs| - 1]), evs[|evs| - 1]);
    }
  }

  lemma {:induction false} StartInv(activeLimit: nat, queueLimit: nat)
    ensures RaceInv(Start(activeLimit, queueLimit))
  {
    InitialKeeps(activeLimit, 0);
  }

  /** Whatever the interleaving, all but the queue limit holds: positions, the active limit, no idle slot and order. */
  lemma {:induction false} RaceKeepsRest(activeLimit: nat, queueLimit: nat, evs: seq<RaceEvent>)
    ensures var m := RaceRun(Start(activeLimit, queueLimit), evs).m;
      PositionsExact(m) && FlagsExact(m) && NoIdleSlot(m) && InOrder(m)
      && (m.activeLimit != 0 ==> ActiveCount(m) <= m.activeLimit)
  {
    StartInv(activeLimit, queueLimit);
    RaceRunKeeps(Start(activeLimit, queueLimit), evs);
  }

  ghost predicate OverAt(r: Race, evs: seq<RaceEvent>, i: nat)
    requires i <= |evs|
  {
    Over(RaceRun(r, evs[..i]))
  }

  ghost predicate GrownAt(r: Race, evs: seq<RaceEvent>, i: nat)
    requires i < |evs|
  {
    evs[i].Enters? && FullAndGrown(RaceRun(r, evs[..i]))
  }

  /**
   The runs that ever pass the queue limit are exactly those in which some connection
   enters a full queue after the waiting queue has grown since its count was read.
   */
  lemma {:induction false} OverIff(activeLimit: nat, queueLimit: nat, evs: seq<RaceEvent>)
    requires queueLimit != 0
    ensures (exists i: nat :: i <= |evs| && OverAt(Start(activeLimit, queueLimit), evs, i)) <==>
            (exists i: nat :: i < |evs| && GrownAt(Start(activeLimit, queueLimit), evs, i))
  {
    var r := Start(activeLimit, queueLimit);
    StartInv(activeLimit, queueLimit);
    if i: nat :| i <= |evs| && OverAt(r, evs, i) {
      FirstOver(r, evs, i);
    }
    if i: nat :| i < |evs| && GrownAt(r, evs, i) {
      GrownIsOver(r, evs, i);
    }
  }

  lemma {:induction false} GrownIsOver(r: Race, evs: seq<RaceEvent>, i: nat)
    requires RaceInv(r) && r.m.queueLimit != 0 && i < |evs| && GrownAt(r, evs, i)
    ensures OverAt(r, evs, i + 1)
  {
    RaceRunKeeps(r, evs[..i]);
    Prefix(r, evs, i);
    var before := RaceRun(r, evs[..i]);
    assert !Over(before);
    RaceStepKeeps(before, evs[i]);
  }

  lemma {:induction false} FirstOver(r: Race, evs: seq<RaceEvent>, i: nat)
    requires RaceInv(r) && r.m.queueLimit != 0 && !Over(r) && i <= |evs| && OverAt(r, evs, i)
    ensures exists j: nat :: j < |evs| && GrownAt(r, evs, j)
    decreases i
  {
    assert i > 0 by { assert evs[..0] == []; }
    if OverAt(r, evs, i - 1) {
      FirstOver(r, evs, i - 1);
    } else {
      RaceRunKeeps(r, evs[..i - 1]);
      assert evs[..i][..i - 1] == evs[..i - 1];
      RaceStepKeeps(RaceRun(r, evs[..i - 1]), evs[i - 1]);
      assert GrownAt(r, evs, i - 1);
    }
  }

  /** The count in hand is the waiting count of an earlier moment, with no connection entered since. */
  lemma {:induction false} SeenWasRead(r: Race, evs: seq<RaceEvent>)
    requires r.seen.None? && RaceRun(r, evs).seen.Some?
    ensures exists j: nat :: j < |evs| && ReadAt(r, evs, j)
  {
    var front, ev := evs[..|evs| - 1], evs[|evs| - 1];
    if RaceRun(r, front).seen.None? {
      assert ReadAt(r, evs, |evs| - 1);
    } else {
      SeenWasRead(r, front);
      var j: nat :| j < |front| && ReadAt(r, front, j);
      assert evs[..j] == front[..j];
      assert ReadAt(r, evs, j);
    }
  }

  ghost predicate ReadAt(r: Race, evs: seq<RaceEvent>, j: nat)
    requires j < |evs| && RaceRun(r, evs).seen.Some?
  {
    && evs[j] == Reads(RaceRun(r, evs).seen.value.0)
    && RaceRun(r, evs).seen.value.1 == |RaceRun(r, evs[..j]).m.waiting|
    && (forall k :: j <= k < |evs| ==> evs[k] != Enters)
  }

  /** A run that passes the limit: the second session starts to wait between the two reads for the third. */
  lemma {:induction false} QueueLimitOverrun(r: Race, evs: seq<RaceEvent>)
    requires r == Start(1, 1)
    requires evs == [Reads(0), Enters, Does(TakeNew), Reads(1), Enters, Reads(2), Does(TakeNew), Enters]
    ensures Over(RaceRun(r, evs))
  {
    assert evs[..0] == [] && evs[..8] == evs;
    var r3, r6 := RaceRun(r, evs[..3]), RaceRun(r, evs[..6]);
    ThreeSteps(r, evs, 0);
    FirstActive(r, r3);
    ThreeSteps(r, evs, 3);
    ThirdReads(r3, r6);
    Prefix(r, evs, 6);
    Prefix(r, evs, 7);
    ThirdEnters(r6, RaceRun(r, evs));
  }

  lemma {:induction false} ThreeSteps(r: Race, evs: seq<RaceEvent>, i: nat)
    requires i + 3 <= |evs|
    ensures RaceRun(r, evs[..i + 3]) == RaceStep(RaceStep(RaceStep(RaceRun(r, evs[..i]), evs[i]), evs[i + 1]), evs[i + 2])
  {
    Prefix(r, evs, i);
    Prefix(r, evs, i + 1);
    Prefix(r, evs, i + 2);
  }

  lemma {:induction false} FirstActive(r: Race, r3: Race)
    requires r == Start(1, 1) && r3 == RaceStep(RaceStep(RaceStep(r, Reads(0)), Enters), Does(TakeNew))
    ensures r3.m.sessions == {0} && r3.m.waiting == [] && r3.m.pending == [] && r3.seen == None
    ensures r3.m.objs.Keys == {0} && r3.m.activeLimit == 1 && r3.m.queueLimit == 1
  {
    var m := Initial(1, 1);
    var m2 := ConnectAfter(0, m, 0);
    assert RaceStep(RaceStep(r, Reads(0)), Enters) == Race(m2, None);
    assert m2.pending == [0] && ActiveCount(m2) == 0;
  }

  lemma {:induction false} ThirdReads(r3: Race, r6: Race)
    requires r3.m.sessions == {0} && r3.m.waiting == [] && r3.m.pending == [] && r3.seen == None
    requires r3.m.objs.Keys == {0} && r3.m.activeLimit == 1 && r3.m.queueLimit == 1
    requires r6 == RaceStep(RaceStep(RaceStep(r3, Reads(1)), Enters), Reads(2))
    ensures r6.m.sessions == {0} && r6.m.waiting == [] && r6.m.pending == [1] && r6.seen == Some((2, 0))
    ensures r6.m.activeLimit == 1 && r6.m.queueLimit == 1
  {
    var m5 := ConnectAfter(0, r3.m, 1);
    assert RaceStep(RaceStep(r3, Reads(1)), Enters) == Race(m5, None);
    assert m5.pending == [] + [1] == [1] && 2 !in m5.objs;
  }

  lemma {:induction false} ThirdEnters(r6: Race, r8: Race)
    requires r6.m.sessions == {0} && r6.m.waiting == [] && r6.m.pending == [1] && r6.seen == Some((2, 0))
    requires r6.m.activeLimit == 1 && r6.m.queueLimit == 1
    requires r8 == RaceStep(RaceStep(r6, Does(TakeNew)), Enters)
    ensures Over(r8)
  {
    var m7 := AddOne(r6.m);
    assert ActiveCount(r6.m) == 1;
    assert m7.waiting == [] + [1] && m7.pending == [];
    assert r8.m == ConnectAfter(0, m7, 2);
  }

  lemma {:induction false} Prefix(r: Race, evs: seq<RaceEvent>, i: nat)
    requires i < |evs|
    ensures RaceRun(r, evs[..i + 1]) == RaceStep(RaceRun(r, evs[..i]), evs[i])
  {
    assert evs[..i + 1][..i] == evs[..i];
  }
}
