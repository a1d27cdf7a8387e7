// Program counters and queues agree in every reachable state of the daemon: who sleeps, who has been woken and
// who holds a mutex is what the threads are doing.  DaemonDrain builds on this.

module DaemonProgress {
  import opened QueueMonitor
  import opened Daemon
  import opened DaemonSafety

  // Threads that wait for the condition variable or have just been woken.
  function Parked<T>(m: Monitor<T>): set<Tid> {
    m.sleeping + m.woken
  }

  lemma ParkedAfter<T>(m: Monitor<T>, t: Tid, a: Action<T>)
    requires Enabled(m, t, a)
    ensures Parked(Apply(m, t, a)) <= Parked(m) + if a.Sleep? then {t} else {}
    ensures Inv(m) && m.owner != Free ==> m.owner.t !in Parked(m)
  {
  }

  // How an action changes who holds the mutex.
  lemma OwnerStep<T>(m: Monitor<T>, t: Tid, a: Action<T>)
    requires Enabled(m, t, a)
    ensures
      var owner := Apply(m, t, a).owner;
      match a
      case LockToPop => m.owner == Free && owner == Checking(t)
      case Relock => m.owner == Free && owner == Checking(t)
      case Sleep => m.owner == Checking(t) && owner == Free
      case Take => m.owner == Checking(t) && owner == Took(t)
      case LeavePop => m.owner == Took(t) && owner == Free
      case LockToPush => m.owner == Free && owner == Entered(t)
      case Enqueue(_) => m.owner == Entered(t) && owner == Pushed(t)
      case Notify(_) => m.owner == Pushed(t) && owner == Notified(t)
      case LeavePush => m.owner == Notified(t) && owner == Free
      case Spurious => owner == m.owner
  {
  }

  // ---------- program counters agree with the queues ----------

  ghost predicate ProcessParked(s: State) {
    forall t :: t in Parked(s.process) ==> t < |s.workers| && s.workers[t] == Popping
  }

  ghost predicate ProcessOwned(s: State) {
    && (match s.process.owner
        case Free => true
        case Checking(t) => t < |s.workers| && s.workers[t] == Popping
        case Took(t) => t < |s.workers| && s.workers[t].Got?
        case Entered(t) => t == s.Other() && s.acceptor.APushing?
        case Pushed(t) => t == s.Other() && s.acceptor == AReturning
        case Notified(t) => t == s.Other() && s.acceptor == AReturning)
    && (forall i :: 0 <= i < |s.workers| && s.workers[i].Got? ==> s.process.owner == Took(i))
    && (s.acceptor == AReturning ==> s.process.owner == Pushed(s.Other()) || s.process.owner == Notified(s.Other()))
  }

  ghost predicate SendParked(s: State) {
    forall t :: t in Parked(s.send) ==> t == s.Other() && s.sender == SPopping
  }

  ghost predicate SendOwned(s: State) {
    && (match s.send.owner
        case Free => true
        case Checking(t) => t == s.Other() && s.sender == SPopping
        case Took(t) => t == s.Other() && s.sender.SGot?
        case Entered(t) => t < |s.workers| && s.workers[t].Pushing?
        case Pushed(t) => t < |s.workers| && s.workers[t] == Returning
        case Notified(t) => t < |s.workers| && s.workers[t] == Returning)
    && (s.sender.SGot? ==> s.send.owner == Took(s.Other()))
    && (forall i :: 0 <= i < |s.workers| && s.workers[i] == Returning ==> s.send.owner == Pushed(i) || s.send.owner == Notified(i))
  }

  ghost predicate Alive(s: State) {
    s.isRunning ==> Stopped !in s.workers && s.sender != SStopped && s.acceptor != AExited
  }

  ghost predicate Agrees(s: State) {
    && ProcessParked(s) && ProcessOwned(s) && SendParked(s) && SendOwned(s)
    && Alive(s) && Inv(s.process) && Inv(s.send)
  }

  predicate ByWorker(e: Event) {
    e.WorkerTest? || e.WorkerPop? || e.WorkerRun? || e.WorkerPush?
  }

  // What a step does to the two queues, with the queues' own rules used up.
  lemma QueueSteps(s: State, e: Event)
    requires CanHappen(s, e)
    ensures e.AcceptorPush? ==> Next(s, e).process == Apply(s.process, s.Other(), e.ap)
    ensures e.WorkerPop? ==> Next(s, e).process == Apply(s.process, e.i, e.wp)
    ensures e.SpuriousProcess? ==> Next(s, e).process == Apply(s.process, e.t, Spurious)
    ensures !e.AcceptorPush? && !e.WorkerPop? && !e.SpuriousProcess? ==> Next(s, e).process == s.process
    ensures e.WorkerPush? ==> Next(s, e).send == Apply(s.send, e.i, e.ws)
    ensures e.SenderPop? ==> Next(s, e).send == Apply(s.send, s.Other(), e.sp)
    ensures e.SpuriousSend? ==> Next(s, e).send == Apply(s.send, e.t, Spurious)
    ensures !e.WorkerPush? && !e.SenderPop? && !e.SpuriousSend? ==> Next(s, e).send == s.send
  {
    hide Enabled, Apply;
  }

  lemma ProcessParkedKept(s: State, e: Event)
    requires Agrees(s) && CanHappen(s, e)
    ensures ProcessParked(Next(s, e))
  {
    hide Enabled, Apply, Parked, Inv, SendParked, SendOwned, ProcessOwned;
    QueueSteps(s, e);
    match e
    case AcceptorPush(a) => ParkedAfter(s.process, s.Other(), a);
    case WorkerPop(i, a) => ParkedAfter(s.process, i, a); OwnerStep(s.process, i, a);
    case SpuriousProcess(t) => ParkedAfter(s.process, t, Spurious);
    case _ =>
  }

  lemma ProcessOwnedKept(s: State, e: Event)
    requires Agrees(s) && CanHappen(s, e)
    ensures ProcessOwned(Next(s, e))
  {
    hide Enabled, Apply, Inv, SendParked, SendOwned, ProcessParked;
    QueueSteps(s, e);
    match e
    case AcceptorPush(a) => OwnerStep(s.process, s.Other(), a);
    case WorkerPop(i, a) => OwnerStep(s.process, i, a);
    case SpuriousProcess(t) => OwnerStep(s.process, t, Spurious);
    case _ =>
  }

  lemma SendParkedKept(s: State, e: Event)
    requires Agrees(s) && CanHappen(s, e)
    ensures SendParked(Next(s, e))
  {
    hide Enabled, Apply, Parked, Inv, ProcessParked, ProcessOwned, SendOwned;
    QueueSteps(s, e);
    match e
    case WorkerPush(i, a) => ParkedAfter(s.send, i, a);
    case SenderPop(a) => ParkedAfter(s.send, s.Other(), a); OwnerStep(s.send, s.Other(), a);
    case SpuriousSend(t) => ParkedAfter(s.send, t, Spurious);
    case _ =>
  }

  lemma SendOwnedKept(s: State, e: Event)
    requires Agrees(s) && CanHappen(s, e)
    ensures SendOwned(Next(s, e))
  {
    hide Enabled, Apply, Inv, ProcessParked, ProcessOwned, SendParked;
    QueueSteps(s, e);
    match e
    case WorkerPush(i, a) => OwnerStep(s.send, i, a);
    case SenderPop(a) => OwnerStep(s.send, s.Other(), a);
    case SpuriousSend(t) => OwnerStep(s.send, t, Spurious);
    case _ =>
  }

  lemma AliveKept(s: State, e: Event)
    requires Agrees(s) && CanHappen(s, e)
    ensures Alive(Next(s, e))
  {
    hide ProcessParked, ProcessOwned, SendParked, SendOwned, Inv, Enabled, Apply;
  }

  lemma AgreesKept(s: State, e: Event)
    requires Agrees(s) && CanHappen(s, e)
    ensures Agrees(Next(s, e))
  {
    hide ProcessParked, ProcessOwned, SendParked, SendOwned, Alive, Inv, Enabled, Apply;
    ProcessParkedKept(s, e);
    ProcessOwnedKept(s, e);
    SendParkedKept(s, e);
    SendOwnedKept(s, e);
    AliveKept(s, e);
    MonitorsKept(s, e);
  }
}
