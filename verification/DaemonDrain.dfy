// Liveness of the daemon, by a rank that every step of the pipeline's threads lowers.

module DaemonDrain {
  import opened QueueMonitor
  import opened Daemon
  import opened Pipeline
  import opened Sequences
  import opened DaemonSafety
  import opened DaemonProgress
  import opened Wrappers

  // Steps of the threads behind the acceptor's socket: all but new submissions, SIGTERM and chance wake-ups.
  predicate Working(e: Event) {
    ByWorker(e) || e.AcceptorPush? || e.SenderTest? || e.SenderPop? || e.SenderSend?
  }

  // ---------- the rank ----------

  const QUEUED_RANK := 16
  const RESULT_RANK := 5

  // A bound on the steps of a consumer until it sleeps or finds an item.
  function PopRank<T>(m: Monitor<T>, t: Tid): nat {
    if t in m.sleeping then 0
    else if t in m.woken then 2
    else if m.owner == Checking(t) then 1
    else 2
  }

  function WorkerRank(pc: WorkerPc, i: nat, process: Monitor<Ticket>, send: Monitor<Judged>): nat {
    match pc
    case Testing => 3
    case Popping => PopRank(process, i)
    case Got(_) => 16
    case Judging(_) => 15
    case Pushing(_) => if send.owner == Entered(i) then 13 else 14
    case Returning => if send.owner == Pushed(i) then 7 else 4
    case Stopped => 0
  }

  function SenderRank(s: State): nat {
    match s.sender
    case STesting => 3
    case SPopping => PopRank(s.send, s.Other())
    case SGot(_) => 5
    case Sending(_) => 4
    case SStopped => 0
  }

  function AcceptorRank(s: State): nat {
    match s.acceptor
    case APushing(_) => if s.process.owner == Entered(s.Other()) then 21 else 22
    case AReturning => if s.process.owner == Pushed(s.Other()) then 4 else 1
    case _ => 0
  }

  function RankOf(s: State, i: nat): nat
    requires i < |s.workers|
  {
    WorkerRank(s.workers[i], i, s.process, s.send)
  }

  function WorkersRank(s: State, k: nat): nat
    requires k <= |s.workers|
  {
    if k == 0 then 0 else WorkersRank(s, k - 1) + RankOf(s, k - 1)
  }

  function Rank(s: State): nat {
    WorkersRank(s, |s.workers|) + SenderRank(s) + AcceptorRank(s) + QUEUED_RANK * |s.process.q| + RESULT_RANK * |s.send.q|
  }

  // Only worker j's rank differs.
  ghost predicate OthersKeepRank(s: State, s': State, j: nat) {
    |s'.workers| == |s.workers| && forall i :: 0 <= i < |s.workers| && i != j ==> RankOf(s', i) == RankOf(s, i)
  }

  lemma {:induction false} OneWorkerChanges(s: State, s': State, j: nat, k: nat)
    requires OthersKeepRank(s, s', j) && k <= |s.workers|
    ensures j < k ==> WorkersRank(s', k) + RankOf(s, j) == WorkersRank(s, k) + RankOf(s', j)
    ensures j >= k ==> WorkersRank(s', k) == WorkersRank(s, k)
  {
    if k > 0 {
      OneWorkerChanges(s, s', j, k - 1);
    }
  }

  // An action changes the rank of the thread that takes it, and of the one it wakes up.
  lemma PopRankAfter<T>(m: Monitor<T>, t: Tid, a: Action<T>)
    requires Inv(m) && Enabled(m, t, a)
    ensures forall j: Tid :: j != t && !(a.Notify? && a.who == Some(j)) ==> PopRank(Apply(m, t, a), j) == PopRank(m, j)
    ensures a.LockToPop? || a.Sleep? || a.Relock? ==> PopRank(Apply(m, t, a), t) < PopRank(m, t)
    ensures a.Take? ==> PopRank(m, t) == 1
    ensures a.Notify? && a.who.Some? ==> a.who.value != t && PopRank(m, a.who.value) == 0 && PopRank(Apply(m, t, a), a.who.value) == 2
  {
  }

  // ---------- every working step lowers the rank ----------

  lemma WorkerTestLowers(s: State, e: Event)
    requires Agrees(s) && s.isRunning && CanHappen(s, e) && (e.WorkerTest? || e.WorkerRun?)
    ensures OthersKeepRank(s, Next(s, e), e.i) && RankOf(Next(s, e), e.i) < RankOf(s, e.i)
  {
    hide Inv, SendParked, SendOwned, Alive, Apply;
  }

  lemma WorkerPopLowers(s: State, e: Event)
    requires Agrees(s) && CanHappen(s, e) && e.WorkerPop?
    ensures OthersKeepRank(s, Next(s, e), e.i)
    ensures RankOf(Next(s, e), e.i) < RankOf(s, e.i) + if e.wp.Take? then QUEUED_RANK else 0
    ensures SenderRank(Next(s, e)) == SenderRank(s) && AcceptorRank(Next(s, e)) == AcceptorRank(s)
    ensures Next(s, e).send == s.send && |Next(s, e).process.q| == |s.process.q| - if e.wp.Take? then 1 else 0
  {
    hide SendParked, SendOwned, Alive, PopRank;
    PopRankAfter(s.process, e.i, e.wp);
  }

  lemma WorkerPushLowers(s: State, e: Event)
    requires Agrees(s) && CanHappen(s, e) && e.WorkerPush?
    ensures OthersKeepRank(s, Next(s, e), e.i)
    ensures RankOf(Next(s, e), e.i) + SenderRank(Next(s, e)) + (if e.ws.Enqueue? then RESULT_RANK else 0) < RankOf(s, e.i) + SenderRank(s)
    ensures AcceptorRank(Next(s, e)) == AcceptorRank(s)
    ensures Next(s, e).process == s.process && |Next(s, e).send.q| == |s.send.q| + if e.ws.Enqueue? then 1 else 0
  {
    hide ProcessParked, ProcessOwned, Alive;
  }

  lemma SenderLowers(s: State, e: Event)
    requires Agrees(s) && s.isRunning && CanHappen(s, e) && (e.SenderTest? || e.SenderPop? || e.SenderSend?)
    ensures OthersKeepRank(s, Next(s, e), |s.workers|)
    ensures SenderRank(Next(s, e)) + RESULT_RANK * |Next(s, e).send.q| < SenderRank(s) + RESULT_RANK * |s.send.q|
    ensures AcceptorRank(Next(s, e)) == AcceptorRank(s) && Next(s, e).process == s.process
  {
    hide ProcessParked, ProcessOwned, Alive;
  }

  // The worker that the acceptor wakes up, if any.
  function WokenBy(e: Event, none: nat): nat
    requires e.AcceptorPush?
  {
    if e.ap.Notify? && e.ap.who.Some? then e.ap.who.value else none
  }

  lemma AcceptorLowers(s: State, e: Event)
    requires Agrees(s) && CanHappen(s, e) && e.AcceptorPush?
    ensures
      var s' := Next(s, e);
      && AcceptorRank(s') + (if e.ap.Notify? then 2 else 0) + QUEUED_RANK * |s'.process.q| < AcceptorRank(s) + QUEUED_RANK * |s.process.q|
      && SenderRank(s') == SenderRank(s) && s'.send == s.send
  {
    hide SendParked, SendOwned, ProcessParked, ProcessOwned, Alive, PopRank, Inv;
  }

  lemma AcceptorWakes(s: State, e: Event)
    requires Agrees(s) && CanHappen(s, e) && e.AcceptorPush?
    ensures
      var s', j := Next(s, e), WokenBy(e, |s.workers|);
      && OthersKeepRank(s, s', j)
      && (j < |s.workers| ==> e.ap.Notify? && RankOf(s', j) == RankOf(s, j) + 2)
  {
    hide SendParked, SendOwned, Alive, PopRank, Parked;
    PopRankAfter(s.process, s.Other(), e.ap);
    if e.ap.Notify? && e.ap.who.Some? {
      assert e.ap.who.value in Parked(s.process) by { SleepersAreParked(s.process, e.ap.who.value); }
    }
  }

  lemma SleepersAreParked<T>(m: Monitor<T>, t: Tid)
    ensures t in m.sleeping || t in m.woken <==> t in Parked(m)
  {
  }

  lemma RankDrops(s: State, e: Event)
    requires Agrees(s) && s.isRunning && CanHappen(s, e) && Working(e)
    ensures Rank(Next(s, e)) < Rank(s)
  {
    hide Agrees, CanHappen, Enabled, Apply, RankOf, SenderRank, AcceptorRank, Next, WorkersRank, OthersKeepRank;
    var s' := Next(s, e);
    var n := |s.workers|;
    if e.WorkerTest? || e.WorkerRun? {
      WorkerTestLowers(s, e);
      QuietWorker(s, e);
      OneWorkerChanges(s, s', e.i, n);
    } else if e.WorkerPop? {
      WorkerPopLowers(s, e);
      WorkerExists(s, e);
      OneWorkerChanges(s, s', e.i, n);
    } else if e.WorkerPush? {
      WorkerPushLowers(s, e);
      WorkerExists(s, e);
      OneWorkerChanges(s, s', e.i, n);
    } else if e.AcceptorPush? {
      AcceptorLowers(s, e);
      AcceptorWakes(s, e);
      OneWorkerChanges(s, s', WokenBy(e, n), n);
    } else {
      SenderLowers(s, e);
      OneWorkerChanges(s, s', n, n);
    }
  }

  lemma WorkerExists(s: State, e: Event)
    requires CanHappen(s, e) && ByWorker(e)
    ensures e.i < |s.workers|
  {
  }

  lemma QuietWorker(s: State, e: Event)
    requires CanHappen(s, e) && (e.WorkerTest? || e.WorkerRun?)
    ensures e.i < |s.workers| && SenderRank(Next(s, e)) == SenderRank(s) && AcceptorRank(Next(s, e)) == AcceptorRank(s)
    ensures Next(s, e).process == s.process && Next(s, e).send == s.send
  {
  }

  // ---------- while work is pending, some thread can work ----------

  lemma ProcessOwnerCanWork(s: State) returns (e: Event)
    requires Agrees(s) && s.isRunning && s.process.owner != Free
    ensures Working(e) && CanHappen(s, e)
  {
    hide SendParked, SendOwned;
    match s.process.owner
    case Checking(t) => e := WorkerPop(t, if s.process.q == [] then Sleep else Take);
    case Took(t) => e := WorkerPop(t, LeavePop);
    case Entered(t) => e := AcceptorPush(Enqueue(s.acceptor.x));
    case Pushed(t) => e := AcceptorPush(Notify(Someone(s.process.sleeping)));
    case Notified(t) => e := AcceptorPush(LeavePush);
  }

  lemma SendOwnerCanWork(s: State) returns (e: Event)
    requires Agrees(s) && s.isRunning && s.send.owner != Free
    ensures Working(e) && CanHappen(s, e)
  {
    hide ProcessParked, ProcessOwned;
    match s.send.owner
    case Checking(t) => e := SenderPop(if s.send.q == [] then Sleep else Take);
    case Took(t) => e := SenderPop(LeavePop);
    case Entered(t) => e := WorkerPush(t, Enqueue(s.workers[t].r));
    case Pushed(t) => e := WorkerPush(t, Notify(Someone(s.send.sleeping)));
    case Notified(t) => e := WorkerPush(t, LeavePush);
  }

  // With both mutexes free, a worker that is not asleep can work.
  lemma WorkerCanWork(s: State, i: nat) returns (e: Event)
    requires Agrees(s) && s.isRunning && s.process.owner == Free && s.send.owner == Free
    requires i < |s.workers| && i !in s.process.sleeping
    ensures Working(e) && CanHappen(s, e)
  {
    SleepersAreParked(s.process, i);
    SleepersAreParked(s.send, i);
    match s.workers[i]
    case Testing => e := WorkerTest(i);
    case Judging(_) => e := WorkerRun(i, UnknownStatus);
    case Pushing(_) => e := WorkerPush(i, LockToPush);
    case _ => e := WorkerPop(i, if i in s.process.woken then Relock else LockToPop);
  }

  lemma OthersCanWork(s: State) returns (e: Event)
    requires Agrees(s) && s.isRunning && s.process.owner == Free && s.send.owner == Free
    requires s.acceptor.APushing? || s.Other() !in s.send.sleeping
    ensures Working(e) && CanHappen(s, e)
  {
    SleepersAreParked(s.process, s.Other());
    SleepersAreParked(s.send, s.Other());
    if s.acceptor.APushing? {
      e := AcceptorPush(LockToPush);
    } else {
      match s.sender
      case STesting => e := SenderTest;
      case Sending(_) => e := SenderSend;
      case _ => e := SenderPop(if s.Other() in s.send.woken then Relock else LockToPop);
    }
  }

  // When all consumers sleep, both queues and all hands are empty.
  lemma AllAsleep(s: State)
    requires Agrees(s) && PipeInv(View(s)) && s.process.owner == Free && s.send.owner == Free && |s.workers| >= 1
    requires !s.acceptor.APushing? && s.Other() in s.send.sleeping
    requires forall i :: 0 <= i < |s.workers| ==> i in s.process.sleeping
    ensures |s.finished| == s.accepted
  {
    assert 0 in s.process.sleeping;
    forall t
      ensures t !in s.process.woken && t !in s.send.woken
    {
      SleepersAreParked(s.process, t);
      SleepersAreParked(s.send, t);
    }
    assert s.process.woken == {} && s.send.woken == {};
    SleepersAreParked(s.send, s.Other());
    forall i | 0 <= i < |s.workers|
      ensures Hands(s.workers)[i] == None
    {
      SleepersAreParked(s.process, i);
    }
    CountAll(Hands(s.workers), None);
    assert AddsUp(View(s));
  }

  // No accepted submission is ever stuck: while the daemon runs and a result is missing, some thread that
  // is not asleep can take a step.
  lemma WorkIsNeverStuck(n: nat, s: State) returns (e: Event)
    requires Reachable(n, s) && n >= 1 && s.isRunning && |s.finished| < s.accepted
    ensures Working(e) && CanHappen(s, e)
  {
    ReachableIsSafe(n, s);
    ReachableAgrees(n, s);
    hide PipeInv, Agrees, CanHappen, View;
    if s.process.owner != Free {
      e := ProcessOwnerCanWork(s);
    } else if s.send.owner != Free {
      e := SendOwnerCanWork(s);
    } else if i: nat :| i < |s.workers| && i !in s.process.sleeping {
      e := WorkerCanWork(s, i);
    } else if s.acceptor.APushing? || s.Other() !in s.send.sleeping {
      e := OthersCanWork(s);
    } else {
      AllAsleep(s);
    }
  }

  lemma {:induction false} AgreesAfter(s: State, events: seq<Event>)
    requires Agrees(s) && IsHistory(s, events)
    ensures Agrees(StateAfter(s, events))
    decreases events
  {
    if events != [] {
      AgreesKept(s, events[0]);
      AgreesAfter(Next(s, events[0]), events[1..]);
    }
  }

  lemma ReachableAgrees(n: nat, s: State)
    requires Reachable(n, s)
    ensures Agrees(s)
  {
    var events :| IsHistory(Start(n), events) && s == StateAfter(Start(n), events);
    AgreesAfter(Start(n), events);
  }

  // ---------- every schedule drains the pipeline ----------

  lemma WorkKeepsRunning(s: State, e: Event)
    requires CanHappen(s, e) && Working(e)
    ensures Next(s, e).isRunning == s.isRunning && Next(s, e).accepted == s.accepted
  {
  }

  lemma {:induction false} RankBoundsWork(s: State, events: seq<Event>)
    requires Agrees(s) && s.isRunning && IsHistory(s, events)
    requires forall k :: 0 <= k < |events| ==> Working(events[k])
    ensures |events| + Rank(StateAfter(s, events)) <= Rank(s)
    ensures StateAfter(s, events).isRunning && StateAfter(s, events).accepted == s.accepted
    decreases events
  {
    hide Rank, Agrees, CanHappen, Next, Working;
    if events != [] {
      RankDrops(s, events[0]);
      AgreesKept(s, events[0]);
      WorkKeepsRunning(s, events[0]);
      RankBoundsWork(Next(s, events[0]), events[1..]);
    }
  }

  lemma {:induction false} HistoriesCompose(s: State, a: seq<Event>, b: seq<Event>)
    requires IsHistory(s, a) && IsHistory(StateAfter(s, a), b)
    ensures IsHistory(s, a + b) && StateAfter(s, a + b) == StateAfter(StateAfter(s, a), b)
    decreases a
  {
    hide CanHappen, Next;
    if a == [] {
      assert a + b == b;
    } else {
      assert (a + b)[1..] == a[1..] + b;
      HistoriesCompose(Next(s, a[0]), a[1..], b);
    }
  }

  // Whatever the schedule: from any reachable state, the threads can take at most Rank(s) steps on their own,
  // and when none of them can take another one, every accepted submission has been reported.
  lemma EverythingIsReported(n: nat, s: State, events: seq<Event>)
    requires Reachable(n, s) && n >= 1 && s.isRunning && IsHistory(s, events)
    requires forall k :: 0 <= k < |events| ==> Working(events[k])
    ensures |events| <= Rank(s)
    ensures (forall e :: Working(e) ==> !CanHappen(StateAfter(s, events), e)) ==>
              && |StateAfter(s, events).finished| == s.accepted
              && forall x :: 0 <= x < s.accepted ==> x in Tickets(StateAfter(s, events).finished)
  {
    hide Rank, Agrees, CanHappen, Next, Working;
    ReachableAgrees(n, s);
    RankBoundsWork(s, events);
    var t := StateAfter(s, events);
    assert Reachable(n, t) by {
      var before :| IsHistory(Start(n), before) && s == StateAfter(Start(n), before);
      HistoriesCompose(Start(n), before, events);
    }
    if forall e :: Working(e) ==> !CanHappen(t, e) {
      ReachableIsSafe(n, t);
      if |t.finished| < t.accepted {
        var e := WorkIsNeverStuck(n, t);
      }
      AllFinished(t);
    }
  }

  lemma AllFinished(t: State)
    requires PipeInv(View(t)) && |t.finished| >= t.accepted
    ensures |t.finished| == t.accepted
    ensures forall x :: 0 <= x < t.accepted ==> x in Tickets(t.finished)
  {
    assert AddsUp(View(t));
    assert |Sent(t)| == |t.finished|;
    assert Sent(t) == t.finished;
    forall x: nat | x < t.accepted
      ensures x in Tickets(t.finished)
    {
      assert Places(View(t), x) == 1;
      CountBoth(View(t).hands, Some(x), None);
      Counted(Tickets(t.finished), x);
    }
  }
}
