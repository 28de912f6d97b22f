/**
 The pointer class over a heap of handles and counters: release and acquire in place,
 proved equal to the functions of CountedPtr.
 */
module CountedPtrObjects {
  import opened Wrappers
  import opened CountedPtr

  class Heap {
    var handles: map<nat, Handle>
    var counters: map<nat, nat>
    var dying: set<nat>
    ghost var made: set<nat>
    ghost var freed: seq<nat>

    ghost function View(): Store
      reads this
    {
      Store(handles, counters, dying, made, freed)
    }

    constructor ()
      ensures View() == Empty()
    {
      handles, counters, dying, made, freed := map[], map[], {}, {}, [];
    }

    /** acquire: point at the counter and raise it. */
    method AcquireCounter(h: nat, target: Option<nat>, home: Option<nat>)
      modifies this`handles, this`counters
      ensures View() == Raise(old(View()).(handles := old(handles)[h := Handle(target, home)]), target)
    {
      handles := handles[h := Handle(target, home)];
      if target.Some? && target.value in counters {
        counters := counters[target.value := counters[target.value] + 1];
      }
    }

    /** The part of release before any destructor runs: lower the count, delete at zero, and become null. */
    method LowerCount(h: nat)
      requires h in handles
      modifies this
      ensures View() == Release(old(View()), h)
    {
      var target, home := handles[h].target, handles[h].home;
      handles := handles[h := Handle(None, home)];
      assert View().handles == Release(old(View()), h).handles;
      if target.Some? && target.value in counters {
        var c := target.value;
        if counters[c] == 1 {
          dying := dying + set k | k in handles && handles[k].home == Some(c);
          freed := freed + [c];
          counters := counters - {c};
        } else {
          counters := counters[c := if counters[c] == 0 then 0xFFFF_FFFF else counters[c] - 1];
        }
      }
    }

    /** release with every destructor that it sets off, in some order. */
    method ReleaseHandle(h: nat) returns (ghost ms: seq<nat>)
      requires h in handles && Inv(View()) && dying == {}
      modifies this
      ensures Released(old(View()), h, ms, View()) && Inv(View())
    {
      StepsOfRelease(View(), h);
      LowerCount(h);
      ms := RunDestructors();
    }

    method RunDestructors() returns (ghost ms: seq<nat>)
      requires Inv(View())
      modifies this
      ensures Cascade(old(View()), ms, View()) && Inv(View()) && dying == {}
    {
      ghost var first := View();
      ms := [];
      while dying != {}
        invariant Inv(View()) && Cascade(first, ms, View())
        decreases |handles|
      {
        var m :| m in dying;
        DestroyKeeps(View(), m);
        CascadeSnoc(first, ms, View(), m);
        FewerHandles(View(), m);
        DestroyMember(m);
        ms := ms + [m];
      }
    }

    method DestroyMember(m: nat)
      requires m in handles
      modifies this
      ensures View() == Destroy(old(View()), m)
    {
      LowerCount(m);
      handles := handles - {m};
      dying := dying - {m};
    }

    method ConstructHandle(h: nat, obj: Option<nat>, home: Option<nat>)
      modifies this
      ensures View() == Construct(old(View()), h, obj, home)
    {
      handles := handles[h := Handle(obj, home)];
      if obj.Some? {
        counters := counters[obj.value := 1];
        made := made + {obj.value};
      }
    }

    method CopyHandle(h: nat, r: nat, home: Option<nat>)
      requires r in handles
      modifies this`handles, this`counters
      ensures View() == Copy(old(View()), h, r, home)
    {
      AcquireCounter(h, handles[r].target, home);
    }

    /** The assignment operator; false when the release destroys one of the two handles, and the program must not go on. */
    method AssignHandle(h: nat, r: nat) returns (defined: bool, ghost ms: seq<nat>)
      requires h in handles && r in handles && Inv(View()) && dying == {}
      modifies this
      ensures defined <==> Safe(old(View()), h, r)
      ensures defined ==> Assigned(old(View()), h, r, ms, View())
    {
      ms := [];
      defined := true;
      if h != r {
        ms := ReleaseHandle(h);
        AssignSafeIff(old(View()), h, r, ms, View());
        defined := h in handles && r in handles;
        if defined {
          ghost var mid := View();
          AcquireCounter(h, handles[r].target, handles[h].home);
          assert View() == Acquire(mid, h, r);
        }
      }
    }

    /** The destructor of a handle that is no member. */
    method DestroyHandle(h: nat) returns (ghost ms: seq<nat>, ghost mid: Store)
      requires h in handles && handles[h].home.None? && Inv(View()) && dying == {}
      modifies this
      ensures Released(old(View()), h, ms, mid) && h in mid.handles
      ensures View() == mid.(handles := mid.handles - {h})
    {
      ghost var before := View();
      ms := ReleaseHandle(h);
      mid := View();
      StepsOfRelease(before, h);
      NoMemberStays(Release(before, h), ms, mid, h);
      handles := handles - {h};
    }
  }

  lemma {:induction false} CascadeSnoc(s: Store, ms: seq<nat>, t: Store, m: nat)
    requires Cascade(s, ms, t) && m in t.dying && m in t.handles
    ensures Cascade(s, ms + [m], Destroy(t, m))
    decreases |ms|
  {
    if ms == [] {
      assert [] + [m] == [m];
      assert [m][1..] == [];
    } else {
      CascadeSnoc(Destroy(s, ms[0]), ms[1..], t, m);
      assert (ms + [m])[1..] == ms[1..] + [m];
    }
  }

  lemma {:induction false} NoMemberStays(s: Store, ms: seq<nat>, t: Store, h: nat)
    requires Inv(s) && Cascade(s, ms, t) && h in s.handles && s.handles[h].home.None? && h !in s.dying
    ensures h in t.handles
  {
    HeldThrough(s, ms, t, {}, h);
  }
}
