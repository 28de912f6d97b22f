/**
 The semaphore and the request queue as objects.  A method is one atomic step: what a
 thread does between taking a mutex and giving it up, or one condition-variable call.
 */
module DispatchObjects {
  import opened Wrappers
  import opened LockQueues
  import opened Dispatch

  class Engine {
    const requests: LockQueue<nat>
    var value: int
    var pcs: seq<Pc>
    ghost var added: seq<nat>
    ghost var taken: seq<nat>
    ghost var missed: nat

    ghost function View(): Pool
      reads this, requests
    {
      Pool(pcs, value, requests.storage, added, taken, missed)
    }

    constructor (threads: nat)
      ensures View() == Initial(threads) && fresh(requests)
    {
      requests := new LockQueue();
      value, pcs := 0, seq(threads, i => Outside);
      added, taken, missed := [], [], 0;
    }

    /** Execute and QueueSend put the request in first. */
    method AddRequest(t: nat, item: nat)
      requires Enabled(View(), DoAdd(t, item))
      modifies this, requests
      ensures View() == Step(old(View()), DoAdd(t, item))
    {
      requests.Add(item);
      pcs := pcs[t := Added];
      added := added + [item];
    }

    /** Signal with the mutex held. */
    method SignalRaise(t: nat)
      requires Enabled(View(), DoRaise(t))
      modifies this
      ensures View() == Step(old(View()), DoRaise(t))
    {
      value := value + 1;
      pcs := pcs[t := Raised];
    }

    /** The condition variable picks some sleeper, if there is one. */
    method SignalNotify(t: nat, chosen: nat)
      requires Enabled(View(), DoNotify(t, chosen))
      modifies this
      ensures View() == Step(old(View()), DoNotify(t, chosen))
    {
      pcs := pcs[t := Outside];
      if chosen < |pcs| && pcs[chosen] == Asleep {
        pcs := pcs[chosen := Woken];
      }
    }

    /** Wait enters, or comes back from pthread_cond_wait: test value with the mutex held. */
    method WaitTest(t: nat) returns (through: bool)
      requires Enabled(View(), DoEnter(t)) || Enabled(View(), DoRecheck(t))
      modifies this
      ensures View() == Test(old(View()), t)
      ensures through <==> old(value) > 0
    {
      through := value > 0;
      if value <= 0 {
        pcs := pcs[t := Asleep];
      } else {
        value := value - 1;
        pcs := pcs[t := Past];
      }
    }

    /** GetNextMethod and GetNextSession after Wait: under the invariant there is always a request. */
    method GetNext(t: nat) returns (r: Option<nat>)
      requires Enabled(View(), DoTake(t))
      modifies this, requests
      ensures View() == Step(old(View()), DoTake(t))
      ensures Inv(old(View())) ==> r == Some(old(requests.storage)[0])
    {
      ghost var before := View();
      r := requests.Next();
      pcs := pcs[t := Outside];
      if r.Some? {
        taken := taken + [r.value];
      } else {
        missed := missed + 1;
      }
      if Inv(before) {
        TakeKeeps(before, t);
      }
    }
  }
}
