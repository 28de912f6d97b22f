/**
 The session manager as an object that updates its map and its two queues in
 place, with the searching and notifying loops.  Each method is proved equal to the
 corresponding function of Admission.
 */
module AdmissionObjects {
  import opened Admission

  class SessionManager {
    const activeLimit: nat
    const queueLimit: nat
    var objs: map<nat, Sess>
    var sessions: set<nat>
    var addSessQueue: seq<nat>
    var waitSessQueue: seq<nat>
    ghost var admitted: seq<nat>
    ghost var activated: seq<nat>
    ghost var abandoned: set<nat>

    ghost function View(): Manager
      reads this
    {
      Manager(objs, sessions, addSessQueue, waitSessQueue, activeLimit, queueLimit, admitted, activated, abandoned)
    }

    constructor (active: nat, queue: nat)
      ensures View() == Initial(active, queue)
    {
      activeLimit, queueLimit := active, queue;
      objs, sessions, addSessQueue, waitSessQueue := map[], {}, [], [];
      admitted, activated, abandoned := [], [], {};
    }

    method SendWaitQueue(id: nat, position: nat)
      modifies this`objs
      ensures objs == SendPosition(old(objs), id, position)
    {
      if id in objs && objs[id].open {
        objs := objs[id := objs[id].(positions := objs[id].positions + [position])];
      }
    }

    /** SetInQueue(false) and the login handler run on the session that leaves the queue. */
    method LeaveQueue(id: nat)
      modifies this`objs
      ensures objs == Activate(old(objs), id)
    {
      if id in objs {
        objs := objs[id := objs[id].(inQueue := false)];
        objs := objs[id := objs[id].(loginStarted := true)];
      }
    }

    /** The 1-based place of the session, or 0 when it does not wait. */
    method GetQueuePos(id: nat) returns (position: nat)
      ensures id in waitSessQueue ==> position == IndexOf(waitSessQueue, id) + 1
      ensures id !in waitSessQueue ==> position == 0
    {
      position := 1;
      while position <= |waitSessQueue|
        invariant 1 <= position <= |waitSessQueue| + 1
        invariant id !in waitSessQueue[..position - 1]
      {
        if waitSessQueue[position - 1] == id {
          FirstIndex(waitSessQueue, id, position - 1);
          return;
        }
        assert waitSessQueue[..position] == waitSessQueue[..position - 1] + [waitSessQueue[position - 1]];
        position := position + 1;
      }
      assert waitSessQueue[..position - 1] == waitSessQueue;
      return 0;
    }

    method AddSession(id: nat) returns (accepted: bool)
      modifies this`objs, this`addSessQueue
      ensures View() == Connect(old(View()), id)
      ensures accepted <==> queueLimit == 0 || |old(waitSessQueue)| + |old(addSessQueue)| < queueLimit
      ensures addSessQueue == if accepted then old(addSessQueue) + [id] else old(addSessQueue)
    {
      accepted := queueLimit == 0 || |waitSessQueue| + |addSessQueue| < queueLimit;
      if accepted {
        objs := objs[id := Sess(true, false, false, [])];
        addSessQueue := addSessQueue + [id];
      }
    }

    method AddQueuedSession(id: nat)
      modifies this`objs, this`waitSessQueue
      ensures waitSessQueue == old(waitSessQueue) + [id]
      ensures objs == SendPosition(SetInQueue(old(objs), id, true), id, IndexOf(waitSessQueue, id) + 1)
    {
      if id in objs {
        objs := objs[id := objs[id].(inQueue := true)];
      }
      waitSessQueue := waitSessQueue + [id];
      assert waitSessQueue[|waitSessQueue| - 1] == id;
      var position := GetQueuePos(id);
      SendWaitQueue(id, position);
    }

    /** AddSessions_ takes the new sessions one by one. */
    method AddSessions()
      modifies this
      ensures View() == AddAll(old(View()))
    {
      while addSessQueue != []
        invariant AddAll(View()) == AddAll(old(View()))
        decreases |addSessQueue|
      {
        ghost var before := View();
        var id := addSessQueue[0];
        addSessQueue := addSessQueue[1..];
        var full := activeLimit != 0 && |sessions| - |waitSessQueue| >= activeLimit;
        if full {
          AddQueuedSession(id);
        } else {
          if id in objs {
            objs := objs[id := objs[id].(loginStarted := true)];
          }
          activated := activated + [id];
        }
        sessions := sessions + {id};
        admitted := admitted + [id];
        assert View() == AddOne(before);
      }
    }

    /** Tells every waiting session from index i on its place. */
    method UpdatePositions(from: nat)
      requires from <= |waitSessQueue|
      modifies this`objs
      ensures objs == NotifyFrom(old(objs), waitSessQueue, from)
    {
      var i := from;
      while i < |waitSessQueue|
        invariant from <= i <= |waitSessQueue|
        invariant NotifyFrom(objs, waitSessQueue, i) == NotifyFrom(old(objs), waitSessQueue, from)
      {
        SendWaitQueue(waitSessQueue[i], i + 1);
        i := i + 1;
      }
    }

    method FindQueued(id: nat) returns (i: nat)
      ensures i == IndexOf(waitSessQueue, id)
    {
      i := 0;
      while i < |waitSessQueue| && waitSessQueue[i] != id
        invariant i <= |waitSessQueue|
        invariant id !in waitSessQueue[..i]
      {
        assert waitSessQueue[..i + 1] == waitSessQueue[..i] + [waitSessQueue[i]];
        i := i + 1;
      }
      if i < |waitSessQueue| {
        FirstIndex(waitSessQueue, id, i);
      } else {
        assert waitSessQueue[..i] == waitSessQueue;
      }
    }

    method RemoveQueuedSession(id: nat) returns (found: bool)
      modifies this`objs, this`waitSessQueue, this`activated, this`abandoned
      ensures View() == RemoveQueued(old(View()), id)
      ensures found <==> id in old(waitSessQueue)
    {
      ghost var m := View();
      var slots := |sessions| - |waitSessQueue|;
      var iter := FindQueued(id);
      found := iter < |waitSessQueue|;
      if found {
        LeaveQueue(id);
        waitSessQueue := waitSessQueue[..iter] + waitSessQueue[iter + 1..];
        abandoned := abandoned + {id};
      } else if slots > 0 {
        slots := slots - 1;
      }
      ghost var m1 := View();
      assert m1 == EraseFound(m, id) && slots == SlotsAfter(m, id);
      var takes := (activeLimit == 0 || slots < activeLimit) && waitSessQueue != [];
      assert takes == TakesNext(m, id);
      if takes {
        var next := waitSessQueue[0];
        LeaveQueue(next);
        waitSessQueue := waitSessQueue[1..];
        activated := activated + [next];
        iter := 0;
      }
      UpdatePositions(iter);
    }

    /** The part of the sweep that removes a session whose socket is closed. */
    method RemoveClosed(id: nat)
      modifies this
      ensures View() == Sweep(old(View()), id)
    {
      var _ := RemoveQueuedSession(id);
      sessions := sessions - {id};
    }
  }

  lemma {:induction false} FirstIndex(waiting: seq<nat>, id: nat, i: nat)
    requires i < |waiting| && waiting[i] == id && id !in waiting[..i]
    ensures IndexOf(waiting, id) == i
  {
    if i > 0 {
      assert waiting[..i] == [waiting[0]] + waiting[1..][..i - 1];
      FirstIndex(waiting[1..], id, i - 1);
    }
  }
}
