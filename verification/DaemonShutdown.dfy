// What the threads of the daemon still do once SIGTERM has arrived.

module DaemonShutdown {
  import opened Daemon
  import opened QueueMonitor

  // How often worker i takes a submission.
  function WorkerTakes(events: seq<Event>, i: nat): nat {
    if events == [] then 0
    else (if events[0].WorkerPop? && events[0].i == i && events[0].wp.Take? then 1 else 0) + WorkerTakes(events[1..], i)
  }

  // How often the sender takes a result.
  function SenderTakes(events: seq<Event>): nat {
    if events == [] then 0
    else (if events[0].SenderPop? && events[0].sp.Take? then 1 else 0) + SenderTakes(events[1..])
  }

  // How often the acceptor comes back from accept, with a submission or without.
  function AcceptCalls(events: seq<Event>): nat {
    if events == [] then 0 else (if events[0].Accept? || events[0].Reject? then 1 else 0) + AcceptCalls(events[1..])
  }

  // SIGTERM is not undone.
  lemma {:induction false} StaysDown(s: State, events: seq<Event>)
    requires IsHistory(s, events) && !s.isRunning
    ensures !StateAfter(s, events).isRunning
    decreases events
  {
    hide Enabled, Apply;
    if events != [] {
      StaysDown(Next(s, events[0]), events[1..]);
    }
  }

  // After SIGTERM a worker takes one more submission if it is waiting for one, and none otherwise.
  lemma {:induction false} WorkerWindsDown(s: State, events: seq<Event>, i: nat)
    requires IsHistory(s, events) && !s.isRunning && i < |s.workers|
    ensures WorkerTakes(events, i) <= if s.workers[i] == Popping then 1 else 0
    decreases events
  {
    hide Enabled, Apply;
    if events != [] {
      WorkerWindsDown(Next(s, events[0]), events[1..], i);
    }
  }

  // When it is back at its test, it stops for good.
  lemma {:induction false} WorkerStops(s: State, events: seq<Event>, i: nat)
    requires IsHistory(s, events) && !s.isRunning && i < |s.workers|
    requires s.workers[i] == Stopped || WorkerTest(i) in events
    ensures i < |StateAfter(s, events).workers| && StateAfter(s, events).workers[i] == Stopped
    decreases events
  {
    hide Enabled, Apply;
    if events != [] {
      assert s.workers[i] == Stopped || events[0] == WorkerTest(i) || WorkerTest(i) in events[1..];
      WorkerStops(Next(s, events[0]), events[1..], i);
    }
  }

  // The same for the sender ...
  lemma {:induction false} SenderWindsDown(s: State, events: seq<Event>)
    requires IsHistory(s, events) && !s.isRunning
    ensures SenderTakes(events) <= if s.sender == SPopping then 1 else 0
    ensures s.sender == SStopped || SenderTest in events ==> StateAfter(s, events).sender == SStopped
    decreases events
  {
    hide Enabled, Apply;
    if events != [] {
      assert SenderTest in events ==> events[0] == SenderTest || SenderTest in events[1..];
      SenderWindsDown(Next(s, events[0]), events[1..]);
    }
  }

  // ... and for the acceptor, which ends the process.
  lemma {:induction false} AcceptorWindsDown(s: State, events: seq<Event>)
    requires IsHistory(s, events) && !s.isRunning
    ensures AcceptCalls(events) <= if s.acceptor == Accepting then 1 else 0
    ensures AcceptorTest in events ==> events[|events| - 1] == AcceptorTest && StateAfter(s, events).acceptor == AExited
    decreases events
  {
    hide Enabled, Apply;
    if events != [] {
      assert AcceptorTest in events ==> events[0] == AcceptorTest || AcceptorTest in events[1..];
      AcceptorWindsDown(Next(s, events[0]), events[1..]);
    }
  }
}
