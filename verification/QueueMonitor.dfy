// The queue of src/thread_safe_queue.hpp, one atomic step at a time.
//
// A mutex guards a queue; consumers that find it empty sleep on a condition variable.  Any number of
// threads may push and pop.  A sleeper may wake up at any time without having been notified.

module QueueMonitor {
  import opened Wrappers

  type Tid = nat

  // Who holds the mutex, and how far it has come.
  //   GetFrontAndPop:  Checking (about to test the queue), Took (the front has been removed)
  //   push:            Entered, Pushed (about to notify), Notified
  datatype Owner = Free | Checking(t: Tid) | Took(t: Tid) | Entered(t: Tid) | Pushed(t: Tid) | Notified(t: Tid)

  // `sleeping` threads wait on the condition variable; `woken` threads have left it but do not hold the
  // mutex again yet.
  datatype Monitor<T> = Monitor(q: seq<T>, owner: Owner, sleeping: set<Tid>, woken: set<Tid>)

  datatype Action<T> =
    // GetFrontAndPop
    | LockToPop
    | Sleep
    | Relock
    | Take
    | LeavePop
    // push
    | LockToPush
    | Enqueue(x: T)
    | Notify(who: Option<Tid>)
    | LeavePush
    // the condition variable's own doing
    | Spurious

  predicate Running<T>(m: Monitor<T>, t: Tid) {
    t !in m.sleeping && t !in m.woken
  }

  predicate Enabled<T>(m: Monitor<T>, t: Tid, a: Action<T>) {
    match a
    case LockToPop => m.owner == Free && Running(m, t)
    case Sleep => m.owner == Checking(t) && m.q == []
    case Relock => m.owner == Free && t in m.woken
    case Take => m.owner == Checking(t) && m.q != []
    case LeavePop => m.owner == Took(t)
    case LockToPush => m.owner == Free && Running(m, t)
    case Enqueue(_) => m.owner == Entered(t)
    case Notify(who) => m.owner == Pushed(t) && if m.sleeping == {} then who == None else who.Some? && who.value in m.sleeping
    case LeavePush => m.owner == Notified(t)
    case Spurious => t in m.sleeping
  }

  function Apply<T>(m: Monitor<T>, t: Tid, a: Action<T>): Monitor<T>
    requires Enabled(m, t, a)
  {
    match a
    case LockToPop => m.(owner := Checking(t))
    case Sleep => m.(owner := Free, sleeping := m.sleeping + {t})
    case Relock => m.(owner := Checking(t), woken := m.woken - {t})
    case Take => m.(owner := Took(t), q := m.q[1..])
    case LeavePop => m.(owner := Free)
    case LockToPush => m.(owner := Entered(t))
    case Enqueue(x) => m.(owner := Pushed(t), q := m.q + [x])
    case Notify(who) =>
      if who == None then m.(owner := Notified(t))
      else m.(owner := Notified(t), sleeping := m.sleeping - {who.value}, woken := m.woken + {who.value})
    case LeavePush => m.(owner := Free)
    case Spurious => m.(sleeping := m.sleeping - {t}, woken := m.woken + {t})
  }

  // ---------- the invariant ----------

  // A consumer about to test the queue, or a producer about to notify, accounts for one item.
  function Slack(owner: Owner): nat {
    if owner.Checking? || owner.Pushed? then 1 else 0
  }

  ghost predicate Inv<T>(m: Monitor<T>) {
    && m.sleeping !! m.woken
    && (m.owner != Free ==> Running(m, m.owner.t))
    && (m.sleeping != {} ==> |m.q| <= |m.woken| + Slack(m.owner))
  }

  lemma InvKept<T>(m: Monitor<T>, t: Tid, a: Action<T>)
    requires Inv(m) && Enabled(m, t, a)
    ensures Inv(Apply(m, t, a))
  {
  }

  // ---------- runs ----------

  datatype Step<T> = Step(t: Tid, a: Action<T>)

  function Initial<T>(): Monitor<T> {
    Monitor([], Free, {}, {})
  }

  predicate IsRun<T>(m: Monitor<T>, steps: seq<Step<T>>)
    decreases steps
  {
    steps == [] || (Enabled(m, steps[0].t, steps[0].a) && IsRun(Apply(m, steps[0].t, steps[0].a), steps[1..]))
  }

  function After<T>(m: Monitor<T>, steps: seq<Step<T>>): Monitor<T>
    requires IsRun(m, steps)
    decreases steps
  {
    if steps == [] then m else After(Apply(m, steps[0].t, steps[0].a), steps[1..])
  }

  lemma {:induction false} InvAfter<T>(m: Monitor<T>, steps: seq<Step<T>>)
    requires Inv(m) && IsRun(m, steps)
    ensures Inv(After(m, steps))
    decreases steps
  {
    if steps != [] {
      InvKept(m, steps[0].t, steps[0].a);
      InvAfter(Apply(m, steps[0].t, steps[0].a), steps[1..]);
    }
  }

  // No wake-up is lost: whenever the mutex is free and a consumer sleeps, every queued item is covered by a
  // consumer that has been woken and will test the queue again.
  lemma NoLostWakeUp<T>(steps: seq<Step<T>>)
    requires IsRun(Initial<T>(), steps)
    ensures
      var m := After(Initial<T>(), steps);
      && (m.owner == Free && m.sleeping != {} ==> |m.q| <= |m.woken|)
      && (m.owner == Free && m.q != [] && m.woken == {} ==> m.sleeping == {})
  {
    InvAfter(Initial<T>(), steps);
  }

  // Steps of threads that are inside a call of the queue and not asleep.
  predicate Inside<T>(a: Action<T>) {
    !a.LockToPop? && !a.LockToPush? && !a.Spurious?
  }

  // So an item never lies in the queue, with a consumer asleep, until a new caller or chance comes along.
  lemma ItemIsNeverStranded<T>(steps: seq<Step<T>>)
    requires IsRun(Initial<T>(), steps)
    ensures
      var m := After(Initial<T>(), steps);
      m.q != [] && m.sleeping != {} ==> exists t, a: Action<T> :: Inside(a) && Enabled(m, t, a)
  {
    InvAfter(Initial<T>(), steps);
    var m := After(Initial<T>(), steps);
    if m.q != [] && m.sleeping != {} {
      if m.owner == Free {
        var t :| t in m.woken;
        assert Enabled(m, t, Relock);
      } else {
        OwnerCanStep(m);
      }
    }
  }

  lemma OwnerCanStep<T>(m: Monitor<T>)
    requires m.owner != Free && m.q != []
    ensures exists a: Action<T> :: Inside(a) && Enabled(m, m.owner.t, a)
  {
    var a: Action<T> :=
      match m.owner
      case Checking(_) => Take
      case Took(_) => LeavePop
      case Entered(_) => Enqueue(m.q[0])
      case Pushed(_) => Notify(Someone(m.sleeping))
      case Notified(_) => LeavePush
      case Free => Sleep;
    assert Enabled(m, m.owner.t, a);
  }

  ghost function Someone(s: set<Tid>): (who: Option<Tid>)
    ensures if s == {} then who == None else who.Some? && who.value in s
  {
    if s == {} then None else var t :| t in s; Some(t)
  }

  // ---------- the queue is first in, first out ----------

  function Enqueued<T>(steps: seq<Step<T>>): seq<T>
    decreases steps
  {
    if steps == [] then []
    else (if steps[0].a.Enqueue? then [steps[0].a.x] else []) + Enqueued(steps[1..])
  }

  function Taken<T>(m: Monitor<T>, steps: seq<Step<T>>): seq<T>
    requires IsRun(m, steps)
    decreases steps
  {
    if steps == [] then []
    else (if steps[0].a.Take? then [m.q[0]] else []) + Taken(Apply(m, steps[0].t, steps[0].a), steps[1..])
  }

  // Across all threads, what has been taken and then what is queued is what has been pushed, in this order.
  lemma {:induction false} FirstInFirstOut<T>(m: Monitor<T>, steps: seq<Step<T>>)
    requires IsRun(m, steps)
    ensures Taken(m, steps) + After(m, steps).q == m.q + Enqueued(steps)
    decreases steps
  {
    if steps != [] {
      var m' := Apply(m, steps[0].t, steps[0].a);
      FirstInFirstOut(m', steps[1..]);
      var taken, pushed := Taken(m', steps[1..]), Enqueued(steps[1..]);
      match steps[0].a {
        case Take =>
          assert m.q == [m.q[0]] + m'.q;
          assert [m.q[0]] + taken + After(m', steps[1..]).q == [m.q[0]] + (m'.q + pushed);
        case Enqueue(x) =>
          assert m.q + [x] + pushed == m.q + ([x] + pushed);
          assert [] + taken == taken;
        case _ =>
          assert [] + taken == taken && [] + pushed == pushed;
      }
    }
  }
}
