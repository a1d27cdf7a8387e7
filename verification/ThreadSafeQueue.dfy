// ThreadSafeQueue of src/thread_safe_queue.hpp as it is programmed.  Between two points where a thread can lose
// the mutex, its code runs undisturbed but for sleepers that wake up by chance; each such section takes the
// steps of the queue's state machine.

module ThreadSafeQueue {
  import opened QueueMonitor
  import opened Wrappers

  class Queue<T> {
    var q: seq<T>
    var owner: Owner            // the mutex
    var sleeping: set<Tid>      // the condition variable
    var woken: set<Tid>

    constructor ()
      ensures Value() == Initial<T>()
    {
      q, owner, sleeping, woken := [], Free, {}, {};
    }

    ghost function Value(): Monitor<T>
      reads this
    {
      Monitor(q, owner, sleeping, woken)
    }

    // The lock taken on entry, or again inside wait.
    method Lock(t: Tid, toPop: bool)
      requires owner == Free && (Running(Value(), t) || (toPop && t in woken))
      modifies this
      ensures
        var a: Action<T> := if !toPop then LockToPush else if t in old(woken) then Relock else LockToPop;
        Enabled(old(Value()), t, a) && Value() == Apply(old(Value()), t, a)
    {
      if toPop {
        owner := Checking(t);
        woken := woken - {t};
      } else {
        owner := Entered(t);
      }
    }

    // GetFrontAndPop with the mutex held: wait if the queue is empty, return the front otherwise.
    method GetFrontAndPop(t: Tid) returns (ret: Option<T>)
      requires owner == Checking(t)
      modifies this
      ensures ret == if old(q) == [] then None else Some(old(q)[0])
      ensures
        var m := old(Value());
        if ret == None then
          Enabled(m, t, Sleep) && Value() == Apply(m, t, Sleep)
        else
          && Enabled(m, t, Take) && Enabled(Apply(m, t, Take), t, LeavePop)
          && Value() == Apply(Apply(m, t, Take), t, LeavePop)
    {
      if q == [] {
        sleeping := sleeping + {t};
        owner := Free;
        return None;
      }
      ret := Some(q[0]);
      q := q[1..];
      owner := Free;
    }

    // push with the mutex held; notify_one wakes any one of the sleepers.
    method Push(t: Tid, x: T)
      requires owner == Entered(t)
      modifies this
      ensures
        var m := old(Value());
        exists who :: Pushes(m, t, x, who) && Value() == AfterPush(m, t, x, who)
    {
      q := q + [x];
      ghost var who: Option<Tid> := None;
      if sleeping != {} {
        var s :| s in sleeping;
        who := Some(s);
        sleeping := sleeping - {s};
        woken := woken + {s};
      }
      owner := Free;
      assert Pushes(old(Value()), t, x, who);
    }
  }

  ghost predicate Pushes<T>(m: Monitor<T>, t: Tid, x: T, who: Option<Tid>) {
    && Enabled(m, t, Enqueue(x))
    && Enabled(Apply(m, t, Enqueue(x)), t, Notify(who))
    && Enabled(Apply(Apply(m, t, Enqueue(x)), t, Notify(who)), t, LeavePush)
  }

  ghost function AfterPush<T>(m: Monitor<T>, t: Tid, x: T, who: Option<Tid>): Monitor<T>
    requires Pushes(m, t, x, who)
  {
    Apply(Apply(Apply(m, t, Enqueue(x)), t, Notify(who)), t, LeavePush)
  }

  // A push into an empty queue does not leave a consumer sleeping beside its item unless another one is awake.
  lemma PushWakes<T>(m: Monitor<T>, t: Tid, x: T, who: Option<Tid>)
    requires Inv(m) && Pushes(m, t, x, who)
    ensures Inv(AfterPush(m, t, x, who))
    ensures m.sleeping != {} ==> |AfterPush(m, t, x, who).woken| == |m.woken| + 1
  {
  }
}
