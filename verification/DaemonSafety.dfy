// Safety of the daemon: it refines the pipeline, and its queues lose no wake-up, in every reachable state,
// whatever the number of workers and whenever SIGTERM arrives.

module DaemonSafety {
  import opened QueueMonitor
  import opened Daemon
  import opened Pipeline
  import opened Sequences
  import opened Wrappers

  // Results in the order in which they entered the send queue.
  function Sent(s: State): seq<Judged> {
    s.finished + InSender(s.sender) + s.send.q
  }

  function InSender(pc: SenderPc): seq<Judged> {
    match pc
    case SGot(r) => [r]
    case Sending(r) => [r]
    case _ => []
  }

  function Tickets(rs: seq<Judged>): seq<Ticket> {
    seq(|rs|, i requires 0 <= i < |rs| => rs[i].ticket)
  }

  function InHand(pc: WorkerPc): Option<Ticket> {
    match pc
    case Got(x) => Some(x)
    case Judging(x) => Some(x)
    case Pushing(r) => Some(r.ticket)
    case _ => None
  }

  function Hands(workers: seq<WorkerPc>): seq<Option<Ticket>> {
    seq(|workers|, i requires 0 <= i < |workers| => InHand(workers[i]))
  }

  function View(s: State): Pipe {
    Pipe(if s.acceptor.APushing? then Some(s.acceptor.x) else None, s.process.q, Hands(s.workers), Tickets(Sent(s)), s.accepted)
  }

  // ---------- refinement ----------

  lemma HandsUpdate(workers: seq<WorkerPc>, i: nat, pc: WorkerPc)
    requires i < |workers|
    ensures Hands(workers[i := pc]) == Hands(workers)[i := InHand(pc)]
    ensures InHand(pc) == InHand(workers[i]) ==> Hands(workers[i := pc]) == Hands(workers)
  {
  }

  lemma TicketsSnoc(rs: seq<Judged>, r: Judged)
    ensures Tickets(rs + [r]) == Tickets(rs) + [r.ticket]
  {
  }

  lemma WorkerRefines(s: State, e: Event)
    requires CanHappen(s, e) && (e.WorkerTest? || e.WorkerPop? || e.WorkerRun? || e.WorkerPush?)
    ensures PipeStep(View(s), View(Next(s, e)))
  {
    var s' := Next(s, e);
    var i: nat := e.i;
    HandsUpdate(s.workers, i, s'.workers[i]);
    assert s'.workers == s.workers[i := s'.workers[i]];
    if e.WorkerPop? && e.wp.Take? {
      assert Takes(View(s), i, View(s'));
    } else if e.WorkerPush? && e.ws.Enqueue? {
      var r := s.workers[i].r;
      assert Sent(s') == Sent(s) + [r];
      TicketsSnoc(Sent(s), r);
      assert Sends(View(s), i, View(s'));
    } else {
      assert Sent(s') == Sent(s);
      assert View(s') == View(s);
    }
  }

  lemma SenderRefines(s: State, e: Event)
    requires CanHappen(s, e) && (e.SenderTest? || e.SenderPop? || e.SenderSend?)
    ensures View(Next(s, e)) == View(s)
  {
  }

  // Every step of the daemon is a step of the pipeline, or none.
  lemma Refines(s: State, e: Event)
    requires CanHappen(s, e)
    ensures PipeStep(View(s), View(Next(s, e)))
  {
    var s' := Next(s, e);
    match e
    case WorkerTest(_) => WorkerRefines(s, e);
    case WorkerPop(_, _) => WorkerRefines(s, e);
    case WorkerRun(_, _) => WorkerRefines(s, e);
    case WorkerPush(_, _) => WorkerRefines(s, e);
    case SenderTest => SenderRefines(s, e);
    case SenderPop(_) => SenderRefines(s, e);
    case SenderSend => SenderRefines(s, e);
    case AcceptorPush(a) =>
      if a.Enqueue? {
        assert Queues(View(s), View(s'));
      }
    case Accept => assert Accepts(View(s), View(s'));
    case _ =>
  }

  // ---------- reachable states ----------

  ghost predicate SafetyInv(s: State) {
    PipeInv(View(s)) && Inv(s.process) && Inv(s.send)
  }

  lemma MonitorsKept(s: State, e: Event)
    requires Inv(s.process) && Inv(s.send) && CanHappen(s, e)
    ensures Inv(Next(s, e).process) && Inv(Next(s, e).send)
  {
    hide Inv, Enabled, Apply;
    match e
    case AcceptorPush(a) => InvKept(s.process, s.Other(), a);
    case WorkerPop(i, a) => InvKept(s.process, i, a);
    case WorkerPush(i, a) => InvKept(s.send, i, a);
    case SenderPop(a) => InvKept(s.send, s.Other(), a);
    case SpuriousProcess(t) => InvKept(s.process, t, Spurious);
    case SpuriousSend(t) => InvKept(s.send, t, Spurious);
    case _ =>
  }

  lemma SafetyInvKept(s: State, e: Event)
    requires SafetyInv(s) && CanHappen(s, e)
    ensures SafetyInv(Next(s, e))
  {
    hide PipeInv, Inv, View;
    Refines(s, e);
    PipeInvKept(View(s), View(Next(s, e)));
    MonitorsKept(s, e);
  }

  lemma {:induction false} SafetyInvAfter(s: State, events: seq<Event>)
    requires SafetyInv(s) && IsHistory(s, events)
    ensures SafetyInv(StateAfter(s, events)) && |StateAfter(s, events).workers| == |s.workers|
    decreases events
  {
    if events != [] {
      SafetyInvKept(s, events[0]);
      SafetyInvAfter(Next(s, events[0]), events[1..]);
    }
  }

  lemma ReachableIsSafe(n: nat, s: State)
    requires Reachable(n, s)
    ensures SafetyInv(s) && |s.workers| == n
  {
    var events :| IsHistory(Start(n), events) && s == StateAfter(Start(n), events);
    var v := View(Start(n));
    assert v.sent == [] && v.queue == [];
    CountAll(v.hands, None);
    forall x: nat
      ensures Places(v, x) == 0
    {
      CountBoth(v.hands, Some(x), None);
    }
    SafetyInvAfter(Start(n), events);
  }

  // ---------- the theorems ----------

  // How often x is found in each place.
  function Found(s: State, x: Ticket): nat {
    (if s.acceptor == APushing(x) then 1 else 0)
    + Count(s.process.q, x)
    + Held(Hands(s.workers), x)
    + Count(Tickets(s.send.q), x)
    + Count(Tickets(InSender(s.sender)), x)
    + Count(Tickets(s.finished), x)
  }

  // Every accepted submission is in exactly one place, and nothing else is anywhere.
  lemma ExactlyOnePlace(n: nat, s: State, x: Ticket)
    requires Reachable(n, s)
    ensures Found(s, x) == if x < s.accepted then 1 else 0
  {
    ReachableIsSafe(n, s);
    assert Places(View(s), x) == if x < s.accepted then 1 else 0;
    var a, b, c := Tickets(s.finished), Tickets(InSender(s.sender)), Tickets(s.send.q);
    assert Tickets(Sent(s)) == a + b + c;
    CountConcat(a + b, c, x);
    CountConcat(a, b, x);
  }

  // A result enters the send queue ahead of at most n - 1 submissions that were accepted earlier.
  lemma BoundedOvertaking(n: nat, s: State, k: nat)
    requires Reachable(n, s) && k < |Sent(s)|
    ensures |Overtaken(Tickets(Sent(s)), k)| <= n - 1
  {
    ReachableIsSafe(n, s);
  }

  // With one worker, results are sent and reported in the order in which the submissions were accepted.
  lemma OneWorkerIsFifo(s: State, k: nat)
    requires Reachable(1, s)
    ensures k < |Sent(s)| ==> Sent(s)[k].ticket == k
    ensures k < |s.finished| ==> s.finished[k].ticket == k
  {
    ReachableIsSafe(1, s);
    if k < |Sent(s)| {
      OneWorkerInOrder(View(s), k);
      assert k < |s.finished| ==> Sent(s)[k] == s.finished[k];
    }
  }

  // Neither queue ever loses a wake-up.
  lemma QueuesLoseNoWakeUp(n: nat, s: State)
    requires Reachable(n, s)
    ensures s.process.owner == Free && s.process.sleeping != {} ==> |s.process.q| <= |s.process.woken|
    ensures s.send.owner == Free && s.send.sleeping != {} ==> |s.send.q| <= |s.send.woken|
  {
    ReachableIsSafe(n, s);
  }

  // ---------- one result per run ----------

  // What `run` found out, each time that it returned from waiting for its judge.
  function Runs(s: State, events: seq<Event>): seq<Judged>
    requires IsHistory(s, events)
    decreases events
  {
    if events == [] then []
    else (if events[0].WorkerRun? then [Judged(ResultCode(events[0].outcome), s.workers[events[0].i].x)] else []) + Runs(Next(s, events[0]), events[1..])
  }

  // The results that workers are about to queue.
  function Undelivered(workers: seq<WorkerPc>): seq<Option<Judged>> {
    seq(|workers|, i requires 0 <= i < |workers| => if workers[i].Pushing? then Some(workers[i].r) else None)
  }

  // How often a result has been queued or is about to be.
  function Delivered(s: State, r: Judged): nat {
    Count(Sent(s), r) + Count(Undelivered(s.workers), Some(r))
  }

  lemma SentAfter(s: State, e: Event)
    requires CanHappen(s, e)
    ensures Sent(Next(s, e)) == if e.WorkerPush? && e.ws.Enqueue? then Sent(s) + [s.workers[e.i].r] else Sent(s)
  {
  }

  lemma DeliveredStep(s: State, e: Event, r: Judged)
    requires CanHappen(s, e)
    ensures Delivered(Next(s, e), r) == Delivered(s, r) + if e.WorkerRun? && r == Judged(ResultCode(e.outcome), s.workers[e.i].x) then 1 else 0
  {
    hide Sent, Enabled, Apply, MayPop;
    var s' := Next(s, e);
    SentAfter(s, e);
    if e.WorkerTest? || e.WorkerPop? || e.WorkerRun? || e.WorkerPush? {
      var i: nat := e.i;
      var u := Undelivered(s'.workers)[i];
      assert s'.workers == s.workers[i := s'.workers[i]];
      assert Undelivered(s'.workers) == Undelivered(s.workers)[i := u];
      CountUpdate(Undelivered(s.workers), i, u, Some(r));
      if e.WorkerPush? && e.ws.Enqueue? {
        CountSnoc(Sent(s), s.workers[i].r, r);
      }
    }
  }

  // Each completed run queues exactly one result, its own, and nothing else is queued.
  lemma {:induction false} OneResultPerRun(s: State, events: seq<Event>, r: Judged)
    requires IsHistory(s, events)
    ensures Delivered(StateAfter(s, events), r) == Delivered(s, r) + Count(Runs(s, events), r)
    decreases events
  {
    if events != [] {
      hide Delivered;
      var e := events[0];
      DeliveredStep(s, e, r);
      OneResultPerRun(Next(s, e), events[1..], r);
      var first := if e.WorkerRun? then [Judged(ResultCode(e.outcome), s.workers[e.i].x)] else [];
      CountConcat(first, Runs(Next(s, e), events[1..]), r);
      assert e.WorkerRun? ==> first[..0] == [];
    }
  }

  lemma {:induction false} HistorySnoc(s: State, events: seq<Event>, e: Event)
    requires IsHistory(s, events + [e])
    ensures IsHistory(s, events) && CanHappen(StateAfter(s, events), e)
    ensures StateAfter(s, events + [e]) == Next(StateAfter(s, events), e)
    ensures Runs(s, events + [e]) == Runs(s, events) + if e.WorkerRun? then [Judged(ResultCode(e.outcome), StateAfter(s, events).workers[e.i].x)] else []
    decreases events
  {
    hide CanHappen, Next;
    if events == [] {
      assert events + [e] == [e] && [e][1..] == [];
    } else {
      assert (events + [e])[1..] == events[1..] + [e];
      HistorySnoc(Next(s, events[0]), events[1..], e);
    }
  }

  // A worker that judges a submission is the only place where it is.
  lemma JudgedOnce(n: nat, s: State, i: nat, r: Judged)
    requires Reachable(n, s) && i < |s.workers| && s.workers[i].Judging? && s.workers[i].x == r.ticket
    ensures Delivered(s, r) == 0
  {
    var x := r.ticket;
    ExactlyOnePlace(n, s, x);
    var hands := Hands(s.workers);
    assert hands[i] == Some(x);
    Counted(hands, Some(x));
    Counted(Undelivered(s.workers), Some(r));
    forall j | 0 <= j < |s.workers|
      ensures Undelivered(s.workers)[j] != Some(r)
    {
      assert hands[j] == Some(x) ==> j == i;
    }
    Counted(Sent(s), r);
    if r in Sent(s) {
      SentTicket(s, r);
    }
  }

  lemma SentTicket(s: State, r: Judged)
    requires r in Sent(s)
    ensures Count(Tickets(s.send.q), r.ticket) + Count(Tickets(InSender(s.sender)), r.ticket) + Count(Tickets(s.finished), r.ticket) > 0
  {
    var x := r.ticket;
    TicketIn(s.send.q, r);
    TicketIn(InSender(s.sender), r);
    TicketIn(s.finished, r);
  }

  lemma TicketIn(rs: seq<Judged>, r: Judged)
    ensures r in rs ==> Count(Tickets(rs), r.ticket) > 0
  {
    if r in rs {
      var k :| 0 <= k < |rs| && rs[k] == r;
      assert Tickets(rs)[k] == r.ticket;
      Counted(Tickets(rs), r.ticket);
    }
  }

  // No submission is judged twice.
  lemma {:induction false} RunsAreDistinct(n: nat, events: seq<Event>, j: nat, k: nat)
    requires IsHistory(Start(n), events) && j < k < |Runs(Start(n), events)|
    ensures Runs(Start(n), events)[j].ticket != Runs(Start(n), events)[k].ticket
    decreases events
  {
    hide CanHappen, Delivered, Sent, Start;
    assert events != [];
    var front, e := events[..|events| - 1], events[|events| - 1];
    assert events == front + [e];
    HistorySnoc(Start(n), front, e);
    var runs := Runs(Start(n), front);
    if k < |runs| {
      RunsAreDistinct(n, front, j, k);
    } else {
      var s, r := StateAfter(Start(n), front), runs[j];
      OneResultPerRun(Start(n), front, r);
      Counted(runs, r);
      assert Delivered(s, r) > 0;
      RunHappens(s, e);
      if s.workers[e.i].x == r.ticket {
        JudgedOnce(n, s, e.i, r);
      }
    }
  }

  lemma RunHappens(s: State, e: Event)
    requires CanHappen(s, e) && e.WorkerRun?
    ensures e.i < |s.workers| && s.workers[e.i].Judging?
  {
  }

  // A result in the send queue, with the sender or reported carries the code of the one run of its submission.
  lemma ResultOfItsRun(n: nat, events: seq<Event>, r: Judged)
    requires IsHistory(Start(n), events) && r in Sent(StateAfter(Start(n), events))
    ensures
      var runs := Runs(Start(n), events);
      exists k :: 0 <= k < |runs| && runs[k] == r && forall j :: 0 <= j < |runs| && runs[j].ticket == r.ticket ==> j == k
  {
    var s, runs := StateAfter(Start(n), events), Runs(Start(n), events);
    NothingDelivered(n, r);
    OneResultPerRun(Start(n), events, r);
    Counted(Sent(s), r);
    Counted(runs, r);
    var k :| 0 <= k < |runs| && runs[k] == r;
    forall j | 0 <= j < |runs| && runs[j].ticket == r.ticket
      ensures j == k
    {
      if j < k {
        RunsAreDistinct(n, events, j, k);
      } else if k < j {
        RunsAreDistinct(n, events, k, j);
      }
    }
  }

  lemma NothingDelivered(n: nat, r: Judged)
    ensures Delivered(Start(n), r) == 0
  {
    var u := Undelivered(Start(n).workers);
    CountAll(u, None);
    CountBoth(u, Some(r), None);
  }
}
