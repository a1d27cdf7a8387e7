// The judging daemon: src/judged.cpp.
//
// One acceptor, N workers and one sender, joined by two queues.  Each thread is a program counter; a step of
// the daemon is one step of one thread, of one of the two queues' condition variables, or the arrival of
// SIGTERM.

module Daemon {
  import opened JudgeCore
  import opened QueueMonitor

  // Submissions are numbered in the order in which they are accepted.
  type Ticket = nat

  // How the judge process of one submission ends, as `run` finds out.
  datatype Outcome = ForkFailed | WaitFailed | Exited(code: nat) | KilledBy(signo: nat) | StoppedBy(signo: nat) | UnknownStatus

  // The number that `run` pushes.  A failed waitpid leaves the status 0, which reads as a normal exit.
  function ResultCode(outcome: Outcome): nat {
    match outcome
    case ForkFailed => EXIT_FORK_ERROR
    case WaitFailed => EXIT_OK
    case Exited(code) =>
      if code == EXIT_SUCCESS then EXIT_OK
      else if code == EXIT_COMPILE_ERROR then EXIT_OK
      else if code == EXIT_JUDGE then OJ_SE
      else code
    case KilledBy(signo) => signo
    case StoppedBy(signo) => signo
    case UnknownStatus => EXIT_UNKNOWN
  }

  // The codes by number.
  lemma CodeByNumber(outcome: Outcome)
    ensures
      match outcome
      case ForkFailed => ResultCode(outcome) == 13
      case WaitFailed => ResultCode(outcome) == 0
      case Exited(code) => ResultCode(outcome) == (if code == 6 then 0 else if code == 21 then 9 else code)
      case KilledBy(signo) => ResultCode(outcome) == signo
      case StoppedBy(signo) => ResultCode(outcome) == signo
      case UnknownStatus => ResultCode(outcome) == 127
  {
  }

  // SendWork reports a result, and not a system error, exactly for these ends of the judge process.
  lemma ReportedAsResult(outcome: Outcome)
    requires (outcome.KilledBy? || outcome.StoppedBy?) ==> outcome.signo > 0
    ensures ResultCode(outcome) == EXIT_OK <==> outcome in {WaitFailed, Exited(EXIT_SUCCESS), Exited(EXIT_COMPILE_ERROR)}
  {
  }

  datatype Judged = Judged(code: nat, ticket: Ticket)

  datatype AcceptorPc = ATesting | Accepting | APushing(x: Ticket) | AReturning | AExited

  datatype WorkerPc =
    | Testing                // at the test of isRunning
    | Popping                // in ProcessQueue.GetFrontAndPop
    | Got(x: Ticket)         // the same, with the front removed
    | Judging(x: Ticket)     // in run
    | Pushing(r: Judged)     // in SendQueue.push
    | Returning              // the same, with the result queued
    | Stopped

  datatype SenderPc = STesting | SPopping | SGot(r: Judged) | Sending(r: Judged) | SStopped

  datatype State = State(
    isRunning: bool,
    process: Monitor<Ticket>,
    send: Monitor<Judged>,
    acceptor: AcceptorPc,
    workers: seq<WorkerPc>,
    sender: SenderPc,
    accepted: nat,           // submissions accepted so far
    finished: seq<Judged>)   // results reported, in order
  {
    // Thread ids: workers by index; the acceptor and the sender share the next one, on different queues.
    function Other(): Tid { |workers| }
  }

  function Start(n: nat): State {
    State(true, Initial(), Initial(), ATesting, seq(n, _ => Testing), STesting, 0, [])
  }

  datatype Event =
    | Sigterm
    | AcceptorTest
    | Accept                                   // a complete request has been read
    | Reject                                   // accept failed, or the request was refused
    | AcceptorPush(ap: Action<Ticket>)
    | WorkerTest(i: nat)
    | WorkerPop(i: nat, wp: Action<Ticket>)
    | WorkerRun(i: nat, outcome: Outcome)
    | WorkerPush(i: nat, ws: Action<Judged>)
    | SenderTest
    | SenderPop(sp: Action<Judged>)
    | SenderSend
    | SpuriousProcess(t: Tid)
    | SpuriousSend(t: Tid)

  // What a thread inside GetFrontAndPop or push may do next.
  predicate MayPop<T>(a: Action<T>, got: bool) {
    if got then a.LeavePop? else a.LockToPop? || a.Sleep? || a.Relock? || a.Take?
  }

  predicate MayPush<T(==)>(a: Action<T>, queued: bool, x: T) {
    if queued then a.Notify? || a.LeavePush? else a.LockToPush? || a == Enqueue(x)
  }

  predicate CanHappen(s: State, e: Event) {
    && s.acceptor != AExited  // main has returned: the process is gone
    && match e
       case Sigterm => true
       case AcceptorTest => s.acceptor == ATesting
       case Accept => s.acceptor == Accepting
       case Reject => s.acceptor == Accepting
       case AcceptorPush(a) =>
         && Enabled(s.process, s.Other(), a)
         && (match s.acceptor
             case APushing(x) => MayPush(a, false, x)
             case AReturning => MayPush(a, true, 0)
             case _ => false)
       case WorkerTest(i) => i < |s.workers| && s.workers[i] == Testing
       case WorkerPop(i, a) =>
         && i < |s.workers| && Enabled(s.process, i, a)
         && (match s.workers[i]
             case Popping => MayPop(a, false)
             case Got(_) => MayPop(a, true)
             case _ => false)
       case WorkerRun(i, _) => i < |s.workers| && s.workers[i].Judging?
       case WorkerPush(i, a) =>
         && i < |s.workers| && Enabled(s.send, i, a)
         && (match s.workers[i]
             case Pushing(r) => MayPush(a, false, r)
             case Returning => MayPush(a, true, Judged(0, 0))
             case _ => false)
       case SenderTest => s.sender == STesting
       case SenderPop(a) =>
         && Enabled(s.send, s.Other(), a)
         && (match s.sender
             case SPopping => MayPop(a, false)
             case SGot(_) => MayPop(a, true)
             case _ => false)
       case SenderSend => s.sender.Sending?
       case SpuriousProcess(t) => Enabled(s.process, t, Spurious)
       case SpuriousSend(t) => Enabled(s.send, t, Spurious)
  }

  function WithWorker(s: State, i: nat, pc: WorkerPc): State
    requires i < |s.workers|
  {
    s.(workers := s.workers[i := pc])
  }

  function Next(s: State, e: Event): (s': State)
    requires CanHappen(s, e)
    ensures |s'.workers| == |s.workers|
  {
    match e
    case Sigterm => s.(isRunning := false)
    case AcceptorTest => s.(acceptor := if s.isRunning then Accepting else AExited)
    case Reject => s.(acceptor := ATesting)
    case Accept => s.(acceptor := APushing(s.accepted), accepted := s.accepted + 1)
    case AcceptorPush(a) =>
      var t := s.(process := Apply(s.process, s.Other(), a));
      if a.Enqueue? then t.(acceptor := AReturning) else if a.LeavePush? then t.(acceptor := ATesting) else t
    case WorkerTest(i) => WithWorker(s, i, if s.isRunning then Popping else Stopped)
    case WorkerPop(i, a) =>
      var t := s.(process := Apply(s.process, i, a));
      if a.Take? then WithWorker(t, i, Got(s.process.q[0]))
      else if a.LeavePop? then WithWorker(t, i, Judging(s.workers[i].x))
      else t
    case WorkerRun(i, outcome) => WithWorker(s, i, Pushing(Judged(ResultCode(outcome), s.workers[i].x)))
    case WorkerPush(i, a) =>
      var t := s.(send := Apply(s.send, i, a));
      if a.Enqueue? then WithWorker(t, i, Returning) else if a.LeavePush? then WithWorker(t, i, Testing) else t
    case SenderTest => s.(sender := if s.isRunning then SPopping else SStopped)
    case SenderPop(a) =>
      var t := s.(send := Apply(s.send, s.Other(), a));
      if a.Take? then t.(sender := SGot(s.send.q[0]))
      else if a.LeavePop? then t.(sender := Sending(s.sender.r))
      else t
    case SenderSend => s.(sender := STesting, finished := s.finished + [s.sender.r])
    case SpuriousProcess(t) => s.(process := Apply(s.process, t, Spurious))
    case SpuriousSend(t) => s.(send := Apply(s.send, t, Spurious))
  }

  predicate IsHistory(s: State, events: seq<Event>)
    decreases events
  {
    events == [] || (CanHappen(s, events[0]) && IsHistory(Next(s, events[0]), events[1..]))
  }

  function StateAfter(s: State, events: seq<Event>): State
    requires IsHistory(s, events)
    decreases events
  {
    if events == [] then s else StateAfter(Next(s, events[0]), events[1..])
  }

  // The states that a daemon with n workers can reach.
  ghost predicate Reachable(n: nat, s: State) {
    exists events: seq<Event> :: IsHistory(Start(n), events) && s == StateAfter(Start(n), events)
  }
}
