/** The channel updater as an object; each method is one step of Barrier. */
module BarrierObjects {
  import opened Barrier

  class ChannelUpdater {
    var pendingRequests: nat
    var semaphore: nat
    var active: bool
    var waiting: bool
    ghost var scheduled: nat
    ghost var finished: nat

    ghost function View(): Updater
      reads this
    {
      Updater(pendingRequests, semaphore, active, waiting, scheduled, finished)
    }

    constructor ()
      ensures View() == Initial()
    {
      pendingRequests, semaphore, active, waiting := 0, 0, false, false;
      scheduled, finished := 0, 0;
    }

    method ScheduleUpdate()
      requires Enabled(View(), DoSchedule)
      modifies this
      ensures View() == Step(old(View()), DoSchedule)
    {
      pendingRequests := (pendingRequests + 1) % Size;
      active := true;
      scheduled := scheduled + 1;
    }

    method UpdateFinished()
      requires Enabled(View(), DoFinish)
      modifies this
      ensures View() == Step(old(View()), DoFinish)
      ensures Inv(old(View())) ==> pendingRequests == old(pendingRequests) - 1
    {
      pendingRequests := (pendingRequests - 1) % Size;
      if pendingRequests <= 0 {
        semaphore := semaphore + 1;
      }
      finished := finished + 1;
    }

    /** Wait up to the semaphore; false means that it returned at once. */
    method WaitBegin() returns (blocks: bool)
      requires Enabled(View(), DoEnterWait)
      modifies this
      ensures View() == Step(old(View()), DoEnterWait)
      ensures blocks == active
    {
      waiting := active;
      blocks := active;
    }

    method WaitEnd()
      requires Enabled(View(), DoLeaveWait)
      modifies this
      ensures View() == Step(old(View()), DoLeaveWait)
    {
      semaphore := semaphore - 1;
      active, waiting := false, false;
    }
  }
}
