/** The locked queue: every operation holds the lock, so each is one atomic step. */
module LockQueues {
  import opened Wrappers

  function Front<T>(s: seq<T>): (r: Option<T>) {
    if s == [] then None else Some(s[0])
  }

  class LockQueue<T> {
    var storage: seq<T>
    var canceled: bool

    constructor ()
      ensures storage == [] && !canceled
    {
      storage, canceled := [], false;
    }

    method Add(item: T)
      modifies this`storage
      ensures storage == old(storage) + [item]
    {
      storage := storage + [item];
    }

    method Next() returns (r: Option<T>)
      modifies this`storage
      ensures r == Front(old(storage))
      ensures old(storage) == (if r.Some? then [r.value] else []) + storage
    {
      if storage == [] {
        return None;
      }
      r := Some(storage[0]);
      storage := storage[1..];
    }

    /** The head is taken only when the checker accepts it; nothing behind it is looked at. */
    method NextIf(process: T -> bool) returns (r: Option<T>)
      modifies this`storage
      ensures r.Some? <==> old(storage) != [] && process(old(storage)[0])
      ensures old(storage) == (if r.Some? then [r.value] else []) + storage
    {
      if storage == [] || !process(storage[0]) {
        return None;
      }
      r := Some(storage[0]);
      storage := storage[1..];
    }

    method Size() returns (n: nat)
      ensures n == |storage|
    {
      n := |storage|;
    }

    method Cancel()
      modifies this`canceled
      ensures canceled
    {
      canceled := true;
    }
  }
}
