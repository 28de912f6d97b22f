/**
 Reference-counted handles.  Handles may be members of counted objects: when an object
 is deleted, its member handles are destroyed one by one, which may delete more.
 */
module CountedPtr {
  import opened Common
  import opened Wrappers

  /** target is the counter (and so the object) held; home is the object the handle is a member of. */
  datatype Handle = Handle(target: Option<nat>, home: Option<nat>)

  /**
   An object and its counter share a number, used once.  dying are the member handles of
   deleted objects that still have to be destroyed; made and freed are histories.
   */
  datatype Store = Store(handles: map<nat, Handle>, counters: map<nat, nat>, dying: set<nat>,
    made: set<nat>, freed: seq<nat>)

  function Empty(): Store {
    Store(map[], map[], {}, {}, [])
  }

  // ---------- acquire and release ----------

  function Members(s: Store, c: nat): set<nat> {
    set h | h in s.handles && s.handles[h].home == Some(c)
  }

  /** The unsigned count falls; at zero the object and its counter are deleted. */
  function Drop(s: Store, c: nat): Store {
    if c !in s.counters then s
    else if s.counters[c] == 1 then
      s.(counters := s.counters - {c}, freed := s.freed + [c], dying := s.dying + Members(s, c))
    else s.(counters := s.counters[c := if s.counters[c] == 0 then 0xFFFF_FFFF else s.counters[c] - 1])
  }

  function Raise(s: Store, target: Option<nat>): Store {
    if target.Some? && target.value in s.counters
    then s.(counters := s.counters[target.value := s.counters[target.value] + 1])
    else s
  }

  /** release(): afterwards the handle is null. */
  function Release(s: Store, h: nat): Store
    requires h in s.handles
  {
    var emptied := s.(handles := s.handles[h := s.handles[h].(target := None)]);
    if s.handles[h].target.Some? then Drop(emptied, s.handles[h].target.value) else emptied
  }

  /** acquire(r.itsCounter) into a null handle. */
  function Acquire(s: Store, h: nat, r: nat): Store
    requires h in s.handles && r in s.handles
  {
    Raise(s.(handles := s.handles[h := s.handles[h].(target := s.handles[r].target)]), s.handles[r].target)
  }

  /** The constructor from a raw pointer makes a new counter with count one; from null it makes none. */
  function Construct(s: Store, h: nat, obj: Option<nat>, home: Option<nat>): Store {
    var s1 := s.(handles := s.handles[h := Handle(obj, home)]);
    if obj.Some? then s1.(counters := s.counters[obj.value := 1], made := s.made + {obj.value}) else s1
  }

  function Copy(s: Store, h: nat, r: nat, home: Option<nat>): Store
    requires r in s.handles
  {
    Raise(s.(handles := s.handles[h := Handle(s.handles[r].target, home)]), s.handles[r].target)
  }

  /** The destructor. */
  function Destroy(s: Store, h: nat): Store
    requires h in s.handles
  {
    var s1 := Release(s, h);
    s1.(handles := s1.handles - {h}, dying := s1.dying - {h})
  }

  // ---------- runs ----------

  datatype Event =
    | DoConstruct(h: nat, obj: Option<nat>, home: Option<nat>)
    | DoCopy(h: nat, r: nat, home: Option<nat>)
    | DoRelease(h: nat)          // the first half of an assignment
    | DoAcquire(h: nat, r: nat)  // the second half, once every destruction is done
    | DoDestroy(h: nat)

  /** Releasing h deletes the very object that h is a member of. */
  predicate FreesItsHome(s: Store, h: nat)
    requires h in s.handles
  {
    var c := s.handles[h].target;
    c.Some? && c.value in s.counters && s.counters[c.value] == 1 && s.handles[h].home == c
  }

  predicate LiveHome(s: Store, home: Option<nat>) {
    home.Some? ==> home.value in s.counters
  }

  /**
   What a program may do: a raw pointer is given to one handle only, member handles die
   with their object, and no handle releases the object that it lies in.
   */
  predicate Enabled(s: Store, ev: Event) {
    match ev
    case DoConstruct(h, obj, home) =>
      h !in s.handles && LiveHome(s, home) && (obj.Some? ==> obj.value !in s.made)
    case DoCopy(h, r, home) => h !in s.handles && r in s.handles && r !in s.dying && LiveHome(s, home)
    case DoRelease(h) => h in s.handles && h !in s.dying && !FreesItsHome(s, h)
    case DoAcquire(h, r) =>
      h in s.handles && r in s.handles && h != r && s.dying == {} && s.handles[h].target.None?
    case DoDestroy(h) => h in s.handles && (h in s.dying || s.handles[h].home.None?)
  }

  function Step(s: Store, ev: Event): Store
    requires Enabled(s, ev)
  {
    match ev
    case DoConstruct(h, obj, home) => Construct(s, h, obj, home)
    case DoCopy(h, r, home) => Copy(s, h, r, home)
    case DoRelease(h) => Release(s, h)
    case DoAcquire(h, r) => Acquire(s, h, r)
    case DoDestroy(h) => Destroy(s, h)
  }

  ghost predicate Reaches(s: Store, evs: seq<Event>, t: Store)
    decreases |evs|
  {
    if evs == [] then s == t else Enabled(s, evs[0]) && Reaches(Step(s, evs[0]), evs[1..], t)
  }

  // ---------- counts are exact ----------

  function Holders(handles: map<nat, Handle>, c: nat): set<nat> {
    set h | h in handles && handles[h].target == Some(c)
  }

  ghost predicate CountsExact(s: Store) {
    && (forall c :: c in s.counters ==> s.counters[c] == |Holders(s.handles, c)| > 0)
    && (forall h :: h in s.handles && s.handles[h].target.Some? ==> s.handles[h].target.value in s.counters)
  }

  /** Everything made is either alive or freed, once. */
  ghost predicate FreedOnce(s: Store) {
    && s.made == s.counters.Keys + Elements(s.freed)
    && (forall c :: c in s.freed ==> c !in s.counters)
    && NoDuplicates(s.freed)
  }

  /** A member handle whose object is gone is on its way out. */
  ghost predicate HomesLive(s: Store) {
    && (forall h :: h in s.handles && h !in s.dying ==> LiveHome(s, s.handles[h].home))
    && (forall h :: h in s.dying ==> h in s.handles)
    && (forall h :: h in s.dying ==> s.handles[h].home.Some? && s.handles[h].home.value !in s.counters)
    && (forall h :: h in s.handles && s.handles[h].home.Some? ==> s.handles[h].home.value in s.made)
  }

  ghost predicate Inv(s: Store) {
    CountsExact(s) && FreedOnce(s) && HomesLive(s)
  }

  /** Retargeting one handle changes the holders by that handle only. */
  lemma {:induction false} Retarget(handles: map<nat, Handle>, h: nat, to: Handle, c: nat)
    ensures var before, after := Holders(handles, c), Holders(handles[h := to], c);
      && (to.target == Some(c) ==> after == before + {h})
      && (to.target != Some(c) ==> after == before - {h})
      && (h in before <==> h in handles && handles[h].target == Some(c))
  {
  }

  lemma {:induction false} Without(handles: map<nat, Handle>, h: nat, c: nat)
    requires h in handles && handles[h].target.None?
    ensures Holders(handles - {h}, c) == Holders(handles, c)
  {
  }

  /** The last handle that goes frees the object; any other only lowers the count. */
  lemma {:induction false} ReleaseCounts(s: Store, h: nat)
    requires CountsExact(s) && h in s.handles
    ensures CountsExact(Release(s, h))
  {
    var t := Release(s, h);
    forall c | c in t.counters
      ensures t.counters[c] == |Holders(t.handles, c)| > 0
    {
      ReleaseCount(s, h, c);
    }
    if s.handles[h].target.Some? {
      var c := s.handles[h].target.value;
      if s.counters[c] == 1 {
        Single(Holders(s.handles, c), h);
        Retarget(s.handles, h, s.handles[h].(target := None), c);
        assert Holders(t.handles, c) == {};
      }
      forall k | k in t.handles && t.handles[k].target.Some?
        ensures t.handles[k].target.value in t.counters
      {
        assert k in Holders(t.handles, t.handles[k].target.value);
      }
    }
  }

  lemma {:induction false} ReleaseCount(s: Store, h: nat, c: nat)
    requires CountsExact(s) && h in s.handles && c in Release(s, h).counters
    ensures Release(s, h).counters[c] == |Holders(Release(s, h).handles, c)| > 0
  {
    assert s.counters[c] == |Holders(s.handles, c)| > 0;
    Retarget(s.handles, h, s.handles[h].(target := None), c);
  }

  lemma {:induction false} Single(a: set<nat>, x: nat)
    requires |a| == 1 && x in a
    ensures a == {x}
  {
    assert |a - {x}| == 0;
  }

  lemma {:induction false} ReleaseFrees(s: Store, h: nat)
    requires FreedOnce(s) && CountsExact(s) && h in s.handles
    ensures FreedOnce(Release(s, h))
  {
    var t := Release(s, h);
    if s.handles[h].target.Some? && s.counters[s.handles[h].target.value] == 1 {
      var c := s.handles[h].target.value;
      assert t.freed == s.freed + [c];
      assert t.counters.Keys == s.counters.Keys - {c};
      assert Elements(t.freed) == Elements(s.freed) + {c};
    } else {
      assert t.counters.Keys == s.counters.Keys;
    }
  }

  lemma {:induction false} ReleaseHomes(s: Store, h: nat)
    requires HomesLive(s) && CountsExact(s) && h in s.handles
    ensures HomesLive(Release(s, h))
  {
    var t := Release(s, h);
    assert forall k :: k in t.handles ==> t.handles[k].home == s.handles[k].home;
    if s.handles[h].target.Some? && s.counters[s.handles[h].target.value] == 1 {
      var c := s.handles[h].target.value;
      assert t.counters.Keys == s.counters.Keys - {c};
      assert forall k :: k in t.dying <==> k in s.dying || (k in s.handles && s.handles[k].home == Some(c));
    } else {
      assert t.counters.Keys == s.counters.Keys && t.dying == s.dying;
    }
  }

  lemma {:induction false} DestroyKeeps(s: Store, h: nat)
    requires Inv(s) && Enabled(s, DoDestroy(h))
    ensures Inv(Destroy(s, h))
  {
    ReleaseCounts(s, h);
    ReleaseFrees(s, h);
    ReleaseHomes(s, h);
    var s1, t := Release(s, h), Destroy(s, h);
    forall c | c in t.counters
      ensures t.counters[c] == |Holders(t.handles, c)| > 0
    {
      Without(s1.handles, h, c);
    }
  }

  lemma {:induction false} AddHolder(s: Store, h: nat, to: Handle)
    requires CountsExact(s) && (h in s.handles ==> s.handles[h].target.None?)
    requires to.target.Some? ==> to.target.value in s.counters
    ensures CountsExact(Raise(s.(handles := s.handles[h := to]), to.target))
  {
    var t := Raise(s.(handles := s.handles[h := to]), to.target);
    forall c | c in t.counters
      ensures t.counters[c] == |Holders(t.handles, c)| > 0
    {
      Retarget(s.handles, h, to, c);
      assert h !in Holders(s.handles, c);
    }
  }

  lemma {:induction false} RaiseKeepsRest(s: Store, h: nat, to: Handle)
    requires FreedOnce(s) && HomesLive(s) && LiveHome(s, to.home) && h !in s.dying
    requires to.target.Some? ==> to.target.value in s.counters
    ensures FreedOnce(Raise(s.(handles := s.handles[h := to]), to.target))
    ensures HomesLive(Raise(s.(handles := s.handles[h := to]), to.target))
  {
    var t := Raise(s.(handles := s.handles[h := to]), to.target);
    assert t.counters.Keys == s.counters.Keys;
  }

  lemma {:induction false} ConstructKeeps(s: Store, h: nat, obj: Option<nat>, home: Option<nat>)
    requires Inv(s) && Enabled(s, DoConstruct(h, obj, home))
    ensures Inv(Construct(s, h, obj, home))
  {
    if obj.Some? {
      ConstructCounts(s, h, obj.value, home);
    } else {
      AddHolder(s, h, Handle(obj, home));
      RaiseKeepsRest(s, h, Handle(obj, home));
    }
  }

  lemma {:induction false} ConstructCounts(s: Store, h: nat, c: nat, home: Option<nat>)
    requires Inv(s) && h !in s.handles && c !in s.made
    ensures CountsExact(Construct(s, h, Some(c), home))
  {
    var t := Construct(s, h, Some(c), home);
    assert Holders(s.handles, c) == {} by {
      assert forall k :: k in s.handles ==> s.handles[k].target != Some(c);
    }
    forall k | k in t.counters
      ensures t.counters[k] == |Holders(t.handles, k)| > 0
    {
      Retarget(s.handles, h, Handle(Some(c), home), k);
      assert h !in Holders(s.handles, k);
    }
  }

  lemma {:induction false} StepKeeps(s: Store, ev: Event)
    requires Inv(s) && Enabled(s, ev)
    ensures Inv(Step(s, ev))
  {
    match ev {
      case DoConstruct(h, obj, home) => ConstructKeeps(s, h, obj, home);
      case DoCopy(h, r, home) =>
        AddHolder(s, h, Handle(s.handles[r].target, home));
        RaiseKeepsRest(s, h, Handle(s.handles[r].target, home));
      case DoRelease(h) =>
        ReleaseCounts(s, h);
        ReleaseFrees(s, h);
        ReleaseHomes(s, h);
      case DoAcquire(h, r) =>
        AddHolder(s, h, s.handles[h].(target := s.handles[r].target));
        RaiseKeepsRest(s, h, s.handles[h].(target := s.handles[r].target));
      case DoDestroy(h) => DestroyKeeps(s, h);
    }
  }

  lemma {:induction false} ReachesKeeps(s: Store, evs: seq<Event>, t: Store)
    requires Inv(s) && Reaches(s, evs, t)
    ensures Inv(t)
    decreases |evs|
  {
    if evs != [] {
      StepKeeps(s, evs[0]);
      ReachesKeeps(Step(s, evs[0]), evs[1..], t);
    }
  }

  /**
   After any run every counter is the number of handles on it, nothing is freed twice, and
   what was made and is not freed is still held by somebody.
   */
  lemma {:induction false} EveryRun(evs: seq<Event>, t: Store)
    requires Reaches(Empty(), evs, t)
    ensures CountsExact(t) && FreedOnce(t)
    ensures forall c :: c in t.made ==> (c in t.freed <==> Holders(t.handles, c) == {})
  {
    assert Inv(Empty());
    ReachesKeeps(Empty(), evs, t);
    forall c | c in t.made
      ensures c in t.freed <==> Holders(t.handles, c) == {}
    {
      if c in t.counters {
        assert t.counters[c] == |Holders(t.handles, c)| > 0;
        assert Holders(t.handles, c) != {};
      } else {
        assert forall h :: h in t.handles ==> t.handles[h].target != Some(c);
      }
    }
  }

  /** Once the last handle is gone, everything that was made has been freed exactly once. */
  lemma {:induction false} NothingLeaks(evs: seq<Event>, t: Store)
    requires Reaches(Empty(), evs, t) && t.handles == map[]
    ensures forall c :: c in t.made <==> c in t.freed
    ensures |t.freed| == |t.made|
  {
    EveryRun(evs, t);
    assert forall c :: Holders(t.handles, c) == {};
    assert t.made == Elements(t.freed);
    DistinctSize(t.freed);
  }

  // ---------- assignment ----------

  /** The members of deleted objects are destroyed one after the other, which may delete more objects. */
  ghost predicate Cascade(s: Store, ms: seq<nat>, t: Store)
    decreases |ms|
  {
    if ms == [] then s == t
    else ms[0] in s.dying && ms[0] in s.handles && Cascade(Destroy(s, ms[0]), ms[1..], t)
  }

  /** t is what a release of h leaves when every destructor that it sets off has run. */
  ghost predicate Released(s: Store, h: nat, ms: seq<nat>, t: Store)
    requires h in s.handles
  {
    Cascade(Release(s, h), ms, t) && t.dying == {}
  }

  /**
   operator=: nothing for the same handle; otherwise release, with all its destructors,
   and acquire.  The program may only go on if both handles are still there.
   */
  ghost predicate Assigned(s: Store, h: nat, r: nat, ms: seq<nat>, t: Store)
    requires h in s.handles && r in s.handles
  {
    if h == r then ms == [] && t == s
    else exists mid ::
      Released(s, h, ms, mid) && h in mid.handles && r in mid.handles && t == Acquire(mid, h, r)
  }

  lemma {:induction false} CascadeExists(s: Store) returns (ms: seq<nat>, t: Store)
    requires Inv(s)
    ensures Cascade(s, ms, t) && t.dying == {} && Inv(t)
    decreases |s.handles|
  {
    if s.dying == {} {
      ms, t := [], s;
    } else {
      var m :| m in s.dying;
      DestroyKeeps(s, m);
      FewerHandles(s, m);
      var rest;
      rest, t := CascadeExists(Destroy(s, m));
      ms := [m] + rest;
      assert ms[1..] == rest;
    }
  }

  lemma {:induction false} FewerHandles(s: Store, m: nat)
    requires m in s.handles
    ensures |Destroy(s, m).handles| < |s.handles|
  {
    assert Destroy(s, m).handles.Keys == s.handles.Keys - {m};
    assert |Destroy(s, m).handles| == |Destroy(s, m).handles.Keys| && |s.handles| == |s.handles.Keys|;
  }

  /** A cascade destroys handles and leaves the others as they were. */
  lemma {:induction false} CascadeFrame(s: Store, ms: seq<nat>, t: Store)
    requires Inv(s) && Cascade(s, ms, t)
    ensures Inv(t)
    ensures forall g :: g in t.handles ==> g in s.handles && t.handles[g] == s.handles[g]
    decreases |ms|
  {
    if ms != [] {
      DestroyKeeps(s, ms[0]);
      CascadeFrame(Destroy(s, ms[0]), ms[1..], t);
    }
  }

  ghost predicate HomeIn(x: Handle, kept: set<nat>) {
    x.home.Some? ==> x.home.value in kept
  }

  /** Each of these objects has a holder other than h that is no member, or a member of one of them. */
  ghost predicate Keeps(s: Store, h: nat, kept: set<nat>) {
    forall c :: c in kept ==>
      exists g :: g in s.handles && g != h && s.handles[g].target == Some(c) && HomeIn(s.handles[g], kept)
  }

  /** The same while destructors run: the holders are not about to be destroyed. */
  ghost predicate Held(s: Store, kept: set<nat>) {
    && kept <= s.counters.Keys
    && (forall c :: c in kept ==>
          exists g :: g in s.handles && g !in s.dying && s.handles[g].target == Some(c) && HomeIn(s.handles[g], kept))
  }

  lemma {:induction false} ReleaseHolds(s: Store, h: nat, kept: set<nat>)
    requires Inv(s) && s.dying == {} && h in s.handles && Keeps(s, h, kept)
    ensures Held(Release(s, h), kept)
    ensures forall g :: g in s.handles && HomeIn(s.handles[g], kept) ==> g !in Release(s, h).dying
  {
    var t := Release(s, h);
    forall c | c in kept
      ensures c in t.counters
      ensures exists g :: g in t.handles && g !in t.dying && t.handles[g].target == Some(c) && HomeIn(t.handles[g], kept)
    {
      StillHeld(s, h, kept, c);
      var g :| g in s.handles && g != h && s.handles[g].target == Some(c) && HomeIn(s.handles[g], kept);
      assert t.handles[g] == s.handles[g];
      if s.handles[h].target.Some? && s.handles[h].target.value in kept {
        StillHeld(s, h, kept, s.handles[h].target.value);
      }
    }
    if s.handles[h].target.Some? && s.handles[h].target.value in kept {
      StillHeld(s, h, kept, s.handles[h].target.value);
    }
  }

  lemma {:induction false} StillHeld(s: Store, h: nat, kept: set<nat>, c: nat)
    requires Inv(s) && h in s.handles && Keeps(s, h, kept) && c in kept
    ensures c in Release(s, h).counters
    ensures s.handles[h].target == Some(c) ==> s.counters[c] >= 2
  {
    var g :| g in s.handles && g != h && s.handles[g].target == Some(c) && HomeIn(s.handles[g], kept);
    assert c in s.counters;
    if s.handles[h].target == Some(c) {
      TwoHolders(Holders(s.handles, c), g, h);
    }
  }

  /** What is held stays, through every destructor. */
  lemma {:induction false} HeldThrough(s: Store, ms: seq<nat>, t: Store, kept: set<nat>, x: nat)
    requires Inv(s) && Cascade(s, ms, t) && Held(s, kept)
    requires x in s.handles && x !in s.dying && HomeIn(s.handles[x], kept)
    ensures x in t.handles
    decreases |ms|
  {
    if ms != [] {
      var m := ms[0];
      DestroyKeeps(s, m);
      DestroyHolds(s, m, kept);
      assert Destroy(s, m).handles[x] == s.handles[x];
      HeldThrough(Destroy(s, m), ms[1..], t, kept, x);
    }
  }

  lemma {:induction false} DestroyHolds(s: Store, m: nat, kept: set<nat>)
    requires Inv(s) && m in s.dying && Held(s, kept)
    ensures Held(Destroy(s, m), kept)
    ensures forall g :: g in s.handles && g !in s.dying && HomeIn(s.handles[g], kept) ==> g !in Destroy(s, m).dying
  {
    var t := Destroy(s, m);
    if s.handles[m].target.Some? {
      var c := s.handles[m].target.value;
      if c in kept {
        var g :| g in s.handles && g !in s.dying && s.handles[g].target == Some(c) && HomeIn(s.handles[g], kept);
        TwoHolders(Holders(s.handles, c), g, m);
      }
    }
    forall c | c in kept
      ensures c in t.counters
      ensures exists g :: g in t.handles && g !in t.dying && t.handles[g].target == Some(c) && HomeIn(t.handles[g], kept)
    {
      var g :| g in s.handles && g !in s.dying && s.handles[g].target == Some(c) && HomeIn(s.handles[g], kept);
      assert t.handles[g] == s.handles[g];
    }
  }

  /** The objects that are alive at the end were held all along by something other than h. */
  lemma {:induction false} AliveKept(s: Store, h: nat, ms: seq<nat>, t: Store)
    requires Inv(s) && h in s.handles && Released(s, h, ms, t) && Inv(Release(s, h))
    ensures Inv(t) && Keeps(s, h, t.counters.Keys)
    ensures forall g :: g in t.handles ==> g in s.handles && HomeIn(s.handles[g], t.counters.Keys)
  {
    var kept := t.counters.Keys;
    CascadeFrame(Release(s, h), ms, t);
    forall c | c in kept
      ensures exists g :: g in s.handles && g != h && s.handles[g].target == Some(c) && HomeIn(s.handles[g], kept)
    {
      AliveHolder(s, h, t, c);
    }
    AliveHomes(s, h, t);
  }

  lemma {:induction false} AliveHomes(s: Store, h: nat, t: Store)
    requires h in s.handles && Inv(t) && t.dying == {}
    requires forall g :: g in t.handles ==> g in Release(s, h).handles && t.handles[g] == Release(s, h).handles[g]
    ensures forall g :: g in t.handles ==> g in s.handles && HomeIn(s.handles[g], t.counters.Keys)
  {
    forall g | g in t.handles
      ensures g in s.handles && HomeIn(s.handles[g], t.counters.Keys)
    {
      assert t.handles[g] == Release(s, h).handles[g];
      assert LiveHome(t, t.handles[g].home);
    }
  }

  lemma {:induction false} AliveHolder(s: Store, h: nat, t: Store, c: nat)
    requires h in s.handles && Inv(t) && t.dying == {} && c in t.counters
    requires forall g :: g in t.handles ==> g in Release(s, h).handles && t.handles[g] == Release(s, h).handles[g]
    ensures exists g :: g in s.handles && g != h && s.handles[g].target == Some(c) && HomeIn(s.handles[g], t.counters.Keys)
  {
    var holders := Holders(t.handles, c);
    assert t.counters[c] == |holders| > 0;
    assert holders != {};
    var g :| g in holders;
    assert t.handles[g] == Release(s, h).handles[g];
  }

  /** The homes of h and r, if they have any, are among objects that handles other than h hold. */
  ghost predicate Safe(s: Store, h: nat, r: nat)
    requires h in s.handles && r in s.handles
  {
    h == r || exists kept: set<nat> :: Keeps(s, h, kept) && HomeIn(s.handles[h], kept) && HomeIn(s.handles[r], kept)
  }

  /**
   operator= reads r after it has released h.  In whatever order the destructors run, both
   handles are still there if and only if, before the call, their homes are held by
   handles other than h.
   */
  lemma {:induction false} AssignSafeIff(s: Store, h: nat, r: nat, ms: seq<nat>, mid: Store)
    requires Inv(s) && s.dying == {} && h in s.handles && r in s.handles && h != r && Released(s, h, ms, mid)
    ensures h in mid.handles && r in mid.handles <==> Safe(s, h, r)
  {
    StepsOfRelease(s, h);
    if h in mid.handles && r in mid.handles {
      AliveKept(s, h, ms, mid);
      assert Keeps(s, h, mid.counters.Keys) && HomeIn(s.handles[h], mid.counters.Keys);
    }
    if Safe(s, h, r) {
      var kept: set<nat> :| Keeps(s, h, kept) && HomeIn(s.handles[h], kept) && HomeIn(s.handles[r], kept);
      ReleaseHolds(s, h, kept);
      var t := Release(s, h);
      assert t.handles[h].home == s.handles[h].home && t.handles[r] == s.handles[r];
      HeldThrough(t, ms, mid, kept, h);
      HeldThrough(t, ms, mid, kept, r);
    }
  }

  lemma {:induction false} StepsOfRelease(s: Store, h: nat)
    requires Inv(s) && h in s.handles
    ensures Inv(Release(s, h))
  {
    ReleaseCounts(s, h);
    ReleaseFrees(s, h);
    ReleaseHomes(s, h);
  }

  /** So an assignment has a defined outcome exactly then, and the outcome is a run of the handles. */
  lemma {:induction false} AssignDefinedIff(s: Store, h: nat, r: nat)
    requires Inv(s) && s.dying == {} && h in s.handles && r in s.handles
    ensures (exists ms, t :: Assigned(s, h, r, ms, t)) <==> Safe(s, h, r)
  {
    if h == r {
      assert Assigned(s, h, r, [], s);
    } else {
      if Safe(s, h, r) {
        SafeIsDefined(s, h, r);
      }
      forall ms, t | Assigned(s, h, r, ms, t)
        ensures Safe(s, h, r)
      {
        DefinedIsSafe(s, h, r, ms, t);
      }
    }
  }

  lemma {:induction false} SafeIsDefined(s: Store, h: nat, r: nat)
    requires Inv(s) && s.dying == {} && h in s.handles && r in s.handles && h != r && Safe(s, h, r)
    ensures exists ms, t :: Assigned(s, h, r, ms, t)
  {
    StepsOfRelease(s, h);
    var ms, mid := CascadeExists(Release(s, h));
    AssignSafeIff(s, h, r, ms, mid);
    assert Assigned(s, h, r, ms, Acquire(mid, h, r));
  }

  lemma {:induction false} DefinedIsSafe(s: Store, h: nat, r: nat, ms: seq<nat>, t: Store)
    requires Inv(s) && s.dying == {} && h in s.handles && r in s.handles && h != r && Assigned(s, h, r, ms, t)
    ensures Safe(s, h, r)
  {
    var mid :| Released(s, h, ms, mid) && h in mid.handles && r in mid.handles && t == Acquire(mid, h, r);
    AssignSafeIff(s, h, r, ms, mid);
  }

  function Destroys(ms: seq<nat>): seq<Event> {
    if ms == [] then [] else [DoDestroy(ms[0])] + Destroys(ms[1..])
  }

  lemma {:induction false} CascadeReaches(s: Store, ms: seq<nat>, t: Store, last: Event, u: Store)
    requires Cascade(s, ms, t) && Enabled(t, last) && Step(t, last) == u
    ensures Reaches(s, Destroys(ms) + [last], u)
    decreases |ms|
  {
    if ms == [] {
      assert [] + [last] == [last];
      assert [last][1..] == [];
    } else {
      CascadeReaches(Destroy(s, ms[0]), ms[1..], t, last, u);
      var evs := Destroys(ms) + [last];
      assert evs[0] == DoDestroy(ms[0]) && evs[1..] == Destroys(ms[1..]) + [last];
    }
  }

  /** A defined assignment is a run of the steps above, so all that holds of runs holds of it. */
  lemma {:induction false} AssignIsARun(s: Store, h: nat, r: nat, ms: seq<nat>, t: Store)
    requires Inv(s) && s.dying == {} && h in s.handles && r in s.handles && h != r && Assigned(s, h, r, ms, t)
    ensures Reaches(s, [DoRelease(h)] + (Destroys(ms) + [DoAcquire(h, r)]), t) && Inv(t)
  {
    var mid :| Released(s, h, ms, mid) && h in mid.handles && r in mid.handles && t == Acquire(mid, h, r);
    AssignSafeIff(s, h, r, ms, mid);
    SafeKeepsHome(s, h, r);
    StepsOfRelease(s, h);
    CascadeFrame(Release(s, h), ms, mid);
    CascadeReaches(Release(s, h), ms, mid, DoAcquire(h, r), t);
    var evs := [DoRelease(h)] + (Destroys(ms) + [DoAcquire(h, r)]);
    assert evs[1..] == Destroys(ms) + [DoAcquire(h, r)];
    ReachesKeeps(s, evs, t);
  }

  lemma {:induction false} SafeKeepsHome(s: Store, h: nat, r: nat)
    requires Inv(s) && h in s.handles && r in s.handles && h != r && Safe(s, h, r)
    ensures !FreesItsHome(s, h)
  {
    var kept: set<nat> :| Keeps(s, h, kept) && HomeIn(s.handles[h], kept) && HomeIn(s.handles[r], kept);
    if s.handles[h].home.Some? {
      StillHeld(s, h, kept, s.handles[h].home.value);
    }
  }

  /** Assigning to the only holder of an object from a member of that object reads a destroyed handle. */
  lemma {:induction false} MemberDestroyed(s: Store, h: nat, r: nat, c: nat)
    requires Inv(s) && s.dying == {} && h in s.handles && r in s.handles && h != r
    requires s.handles[h].target == Some(c) && s.handles[r].home == Some(c) && s.counters[c] == 1
    ensures forall ms, t :: !Assigned(s, h, r, ms, t)
  {
    Single(Holders(s.handles, c), h);
    assert forall g :: g in s.handles && s.handles[g].target == Some(c) ==> g in Holders(s.handles, c);
    AssignDefinedIff(s, h, r);
  }

  /** Such a store: handle 0 alone holds object 0, whose member 1 holds object 1. */
  lemma {:induction false} NextOfOnlyHolder(s: Store, evs: seq<Event>)
    requires evs == [DoConstruct(0, Some(0), None), DoConstruct(1, Some(1), Some(0))]
    requires s == Store(map[0 := Handle(Some(0), None), 1 := Handle(Some(1), Some(0))], map[0 := 1, 1 := 1], {}, {0, 1}, [])
    ensures Reaches(Empty(), evs, s) && forall ms, t :: !Assigned(s, 0, 1, ms, t)
  {
    var s1 := Construct(Empty(), 0, Some(0), None);
    assert Construct(s1, 1, Some(1), Some(0)) == s;
    assert Reaches(s1, evs[1..], s);
    assert Inv(Empty());
    ReachesKeeps(Empty(), evs, s);
    MemberDestroyed(s, 0, 1, 0);
  }

  /** After an assignment both handles hold what the right one held, and every handle that is left is otherwise as before. */
  lemma {:induction false} AssignTargets(s: Store, h: nat, r: nat, ms: seq<nat>, t: Store)
    requires Inv(s) && s.dying == {} && h in s.handles && r in s.handles && Assigned(s, h, r, ms, t)
    ensures h in t.handles && t.handles[h] == s.handles[h].(target := s.handles[r].target)
    ensures r in t.handles && t.handles[r] == s.handles[r]
    ensures forall g :: g in t.handles && g != h ==> g in s.handles && t.handles[g] == s.handles[g]
  {
    if h != r {
      var mid :| Released(s, h, ms, mid) && h in mid.handles && r in mid.handles && t == Acquire(mid, h, r);
      StepsOfRelease(s, h);
      CascadeFrame(Release(s, h), ms, mid);
      Retargeted(s, mid, h, r);
    }
  }

  lemma {:induction false} Retargeted(s: Store, mid: Store, h: nat, r: nat)
    requires h in s.handles && r in s.handles && h != r && h in mid.handles && r in mid.handles
    requires forall g :: g in mid.handles ==> g in s.handles && mid.handles[g] == Release(s, h).handles[g]
    ensures var t := Acquire(mid, h, r).handles;
      && t.Keys == mid.handles.Keys
      && t[h] == s.handles[h].(target := s.handles[r].target)
      && (forall g :: g in t && g != h ==> g in s.handles && t[g] == s.handles[g])
  {
    assert Release(s, h).handles == s.handles[h := s.handles[h].(target := None)];
  }

  /** A copy holds what the original holds, a handle on a new object that object, and nobody else's target changes. */
  lemma {:induction false} MadeTargets(s: Store, ev: Event)
    requires Inv(s) && Enabled(s, ev) && (ev.DoConstruct? || ev.DoCopy?)
    ensures var t := Step(s, ev);
      && t.handles.Keys == s.handles.Keys + {ev.h}
      && t.handles[ev.h] == Handle(if ev.DoCopy? then s.handles[ev.r].target else ev.obj, ev.home)
      && (forall g :: g in s.handles ==> t.handles[g] == s.handles[g])
  {
  }

  /** Assigning a handle to itself, or to another on the same object, changes nothing and frees nothing. */
  lemma {:induction false} AssignSame(s: Store, h: nat, r: nat, ms: seq<nat>, t: Store)
    requires Inv(s) && s.dying == {} && h in s.handles && r in s.handles && s.handles[h].target == s.handles[r].target
    ensures Assigned(s, h, r, [], s)
    ensures Assigned(s, h, r, ms, t) ==> ms == [] && t == s
  {
    if h != r {
      var mid := Release(s, h);
      if s.handles[h].target.Some? {
        var c := s.handles[h].target.value;
        assert {h, r} <= Holders(s.handles, c);
        TwoHolders(Holders(s.handles, c), h, r);
        assert s.counters[c] >= 2;
        assert mid.counters == s.counters[c := s.counters[c] - 1];
        assert Acquire(mid, h, r).counters == s.counters;
      }
      assert Acquire(mid, h, r).handles == s.handles;
      assert Released(s, h, [], mid);
    }
  }

  lemma {:induction false} TwoHolders(a: set<nat>, h: nat, r: nat)
    requires h in a && r in a && h != r
    ensures |a| >= 2
  {
    assert |a - {h}| == |a| - 1;
    assert r in a - {h};
  }

  // ---------- a session's handle on itself ----------

  /** setSmartPointer leaves a member handle of c on c. */
  predicate SelfHandle(s: Store, m: nat, c: nat) {
    m in s.handles && s.handles[m] == Handle(Some(c), Some(c)) && m !in s.dying
  }

  /** No step but its own release touches a self-handle, and with it the object stays. */
  lemma {:induction false} SelfHandleStep(s: Store, ev: Event, m: nat, c: nat)
    requires Inv(s) && Enabled(s, ev) && SelfHandle(s, m, c) && ev != DoRelease(m)
    ensures SelfHandle(Step(s, ev), m, c) && c in Step(s, ev).counters
  {
    assert c in s.counters;
    if ev.DoRelease? || ev.DoDestroy? {
      OtherReleased(s, ev.h, m, c);
    }
  }

  /** Whatever other handle is released, the object of a self-handle is not deleted. */
  lemma {:induction false} OtherReleased(s: Store, h: nat, m: nat, c: nat)
    requires Inv(s) && SelfHandle(s, m, c) && h in s.handles && h != m
    ensures SelfHandle(Release(s, h), m, c) && c in Release(s, h).counters
  {
    assert c in s.counters && m in Holders(s.handles, c);
    if s.handles[h].target == Some(c) {
      TwoHolders(Holders(s.handles, c), m, h);
      assert s.counters[c] >= 2;
    }
  }

  lemma {:induction false} SelfHandleKeepsAlive(s: Store, evs: seq<Event>, t: Store, m: nat, c: nat)
    requires Inv(s) && Reaches(s, evs, t) && SelfHandle(s, m, c)
    requires DoRelease(m) !in evs
    ensures SelfHandle(t, m, c) && c in t.counters && c !in t.freed
    decreases |evs|
  {
    if evs == [] {
      assert c in s.counters;
    } else {
      SelfHandleStep(s, evs[0], m, c);
      StepKeeps(s, evs[0]);
      SelfHandleKeepsAlive(Step(s, evs[0]), evs[1..], t, m, c);
    }
  }

  /** deleteSmartPointer, called on a live session, is sound exactly when somebody else still holds the session. */
  lemma {:induction false} DeleteSmartPointerIff(s: Store, m: nat, c: nat)
    requires Inv(s) && SelfHandle(s, m, c)
    ensures Enabled(s, DoRelease(m)) <==> exists h :: h in Holders(s.handles, c) && h != m
    ensures Enabled(s, DoRelease(m)) ==> c in Release(s, m).counters
  {
    var holders := Holders(s.handles, c);
    assert m in holders && c in s.counters;
    if s.counters[c] == 1 {
      Single(holders, m);
    } else {
      assert |holders - {m}| == |holders| - 1;
      var h :| h in holders - {m};
      assert h in holders && h != m;
    }
  }
}
