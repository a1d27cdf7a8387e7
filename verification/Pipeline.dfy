// The daemon's pipeline without its threads: submissions move from the acceptor through the process queue
// and one of the workers to the send queue.

module Pipeline {
  import opened Sequences
  import opened Wrappers

  datatype Pipe = Pipe(
    hand: Option<nat>,          // accepted, not yet queued
    queue: seq<nat>,            // the process queue
    hands: seq<Option<nat>>,    // what each worker works on
    sent: seq<nat>,             // in the order in which results entered the send queue
    accepted: nat)

  ghost predicate Accepts(p: Pipe, p': Pipe) {
    p.hand == None && p' == p.(hand := Some(p.accepted), accepted := p.accepted + 1)
  }

  ghost predicate Queues(p: Pipe, p': Pipe) {
    p.hand.Some? && p' == p.(hand := None, queue := p.queue + [p.hand.value])
  }

  ghost predicate Takes(p: Pipe, i: nat, p': Pipe) {
    i < |p.hands| && p.hands[i] == None && p.queue != [] && p' == p.(queue := p.queue[1..], hands := p.hands[i := Some(p.queue[0])])
  }

  ghost predicate Sends(p: Pipe, i: nat, p': Pipe) {
    i < |p.hands| && p.hands[i].Some? && p' == p.(hands := p.hands[i := None], sent := p.sent + [p.hands[i].value])
  }

  ghost predicate PipeStep(p: Pipe, p': Pipe) {
    || p' == p
    || Accepts(p, p')
    || Queues(p, p')
    || (exists i :: Takes(p, i, p'))
    || (exists i :: Sends(p, i, p'))
  }

  // ---------- conservation ----------

  // How many workers hold x.
  function Held(hands: seq<Option<nat>>, x: nat): nat {
    Count(hands, Some(x))
  }

  function Places(p: Pipe, x: nat): nat {
    (if p.hand == Some(x) then 1 else 0) + Count(p.queue, x) + Held(p.hands, x) + Count(p.sent, x)
  }

  ghost predicate Conserved(p: Pipe) {
    forall x: nat :: Places(p, x) == if x < p.accepted then 1 else 0
  }

  // How many workers hold anything.
  function Busy(hands: seq<Option<nat>>): nat {
    |hands| - Count(hands, None)
  }

  // Nothing is lost or doubled.
  ghost predicate AddsUp(p: Pipe) {
    p.accepted == (if p.hand.Some? then 1 else 0) + |p.queue| + Busy(p.hands) + |p.sent|
  }

  lemma AddsUpKept(p: Pipe, p': Pipe)
    requires AddsUp(p) && PipeStep(p, p')
    ensures AddsUp(p')
  {
    if i: nat :| Takes(p, i, p') {
      CountUpdate(p.hands, i, Some(p.queue[0]), None);
    } else if i: nat :| Sends(p, i, p') {
      CountUpdate(p.hands, i, None, None);
    }
  }

  lemma PlacesAfterStep(p: Pipe, p': Pipe, x: nat)
    requires PipeStep(p, p')
    ensures Places(p', x) == Places(p, x) + if Accepts(p, p') && x == p.accepted then 1 else 0
  {
    if i: nat :| Takes(p, i, p') {
      CountHead(p.queue, x);
      CountUpdate(p.hands, i, Some(p.queue[0]), Some(x));
    } else if i: nat :| Sends(p, i, p') {
      CountSnoc(p.sent, p.hands[i].value, x);
      CountUpdate(p.hands, i, None, Some(x));
    } else if Queues(p, p') {
      CountSnoc(p.queue, p.hand.value, x);
    }
  }

  // ---------- order ----------

  // How many submissions have entered the process queue.
  function Queued(p: Pipe): int {
    p.accepted - if p.hand.Some? then 1 else 0
  }

  // The process queue holds the latest of these, in order.
  ghost predicate InOrder(p: Pipe) {
    && (p.hand.Some? ==> p.hand.value == p.accepted - 1)
    && |p.queue| <= Queued(p)
    && forall k :: 0 <= k < |p.queue| ==> p.queue[k] == Queued(p) - |p.queue| + k
  }

  // Submissions accepted before the p-th one sent that were not sent before it.
  ghost function Overtaken(sent: seq<nat>, p: nat): set<nat>
    requires p < |sent|
  {
    set y | 0 <= y < sent[p] && y !in sent[..p]
  }

  ghost predicate FewOvertaken(p: Pipe) {
    forall k :: 0 <= k < |p.sent| ==> |Overtaken(p.sent, k)| <= |p.hands| - 1
  }

  ghost predicate PipeInv(p: Pipe) {
    Conserved(p) && AddsUp(p) && InOrder(p) && FewOvertaken(p)
  }

  // What the workers hold.
  ghost function HandSet(hands: seq<Option<nat>>): set<nat> {
    if hands == [] then {}
    else HandSet(hands[..|hands| - 1]) + if hands[|hands| - 1].Some? then {hands[|hands| - 1].value} else {}
  }

  lemma {:induction false} HandSetSize(hands: seq<Option<nat>>)
    ensures |HandSet(hands)| <= |hands|
    ensures None in hands ==> |HandSet(hands)| <= |hands| - 1
    ensures forall x :: x in HandSet(hands) <==> Some(x) in hands
  {
    if hands != [] {
      var front, h := hands[..|hands| - 1], hands[|hands| - 1];
      HandSetSize(front);
      assert hands == front + [h];
    }
  }

  lemma SubsetSize(a: set<nat>, b: set<nat>)
    requires a <= b
    ensures |a| <= |b|
  {
    assert b == a + (b - a);
  }

  // A submission that has left the process queue and was not sent is in a worker's hands.
  lemma LeftTheQueue(p: Pipe, y: nat)
    requires Conserved(p) && InOrder(p)
    requires y < Queued(p) - |p.queue| && y !in p.sent
    ensures Some(y) in p.hands
  {
    Counted(p.queue, y);
    Counted(p.sent, y);
    Counted(p.hands, Some(y));
    assert Places(p, y) == 1;
  }

  // A submission in a worker's hands has left the process queue.
  lemma HandsHaveLeft(p: Pipe, i: nat)
    requires Conserved(p) && InOrder(p) && i < |p.hands| && p.hands[i].Some?
    ensures p.hands[i].value < Queued(p) - |p.queue|
  {
    var x := p.hands[i].value;
    QueueHolds(p, x);
    Counted(p.queue, x);
    Counted(p.hands, Some(x));
    assert Places(p, x) <= 1;
  }

  lemma QueueHolds(p: Pipe, x: nat)
    requires InOrder(p)
    ensures x in p.queue <==> Queued(p) - |p.queue| <= x < Queued(p)
  {
    if Queued(p) - |p.queue| <= x < Queued(p) {
      assert p.queue[x - (Queued(p) - |p.queue|)] == x;
    }
  }

  lemma SendOvertakesFew(p: Pipe, i: nat, p': Pipe)
    requires PipeInv(p) && Sends(p, i, p')
    ensures FewOvertaken(p')
  {
    var x := p.hands[i].value;
    forall k | 0 <= k < |p'.sent|
      ensures |Overtaken(p'.sent, k)| <= |p'.hands| - 1
    {
      if k < |p.sent| {
        assert p'.sent[..k] == p.sent[..k];
        assert Overtaken(p'.sent, k) == Overtaken(p.sent, k);
      } else {
        assert p'.sent[..k] == p.sent;
        HandsHaveLeft(p, i);
        HandSetSize(p'.hands);
        assert p'.hands[i] == None;
        forall y | y in Overtaken(p'.sent, k)
          ensures y in HandSet(p'.hands)
        {
          LeftTheQueue(p, y);
          var j :| 0 <= j < |p.hands| && p.hands[j] == Some(y);
          assert p'.hands[j] == Some(y);
        }
        SubsetSize(Overtaken(p'.sent, k), HandSet(p'.hands));
      }
    }
  }

  lemma PipeInvKept(p: Pipe, p': Pipe)
    requires PipeInv(p) && PipeStep(p, p')
    ensures PipeInv(p')
  {
    AddsUpKept(p, p');
    forall x: nat
      ensures Places(p', x) == if x < p'.accepted then 1 else 0
    {
      PlacesAfterStep(p, p', x);
    }
    if i: nat :| Sends(p, i, p') {
      SendOvertakesFew(p, i, p');
    }
  }

  // ---------- one worker ----------

  // With a single worker, results are sent in the order of acceptance.
  lemma {:induction false} OneWorkerInOrder(p: Pipe, k: nat)
    requires PipeInv(p) && |p.hands| == 1 && k < |p.sent|
    ensures p.sent[k] == k
  {
    forall j | 0 <= j < k
      ensures p.sent[j] == j
    {
      OneWorkerInOrder(p, j);
    }
    var x: nat := p.sent[k];
    assert x < k ==> x in p.sent[..k] by {
      if x < k {
        assert p.sent[..k][x] == x;
      }
    }
    assert k !in p.sent[..k] && x !in p.sent[..k] by {
      Counted(p.sent, x);
      assert Places(p, x) <= 1;
    }
    assert |Overtaken(p.sent, k)| == 0;
    assert k !in Overtaken(p.sent, k);
  }
}
