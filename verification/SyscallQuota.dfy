// The filter admits exactly the calls that the table allows.

module SyscallQuota {
  import opened Sequences
  import opened Syscalls
  import opened Wrappers

  // The tracer asks the filter only about positive ids.
  function Trap(f: Filter, id: int): (Filter, bool)
    requires |f.quota| == TABLE_SIZE && id < TABLE_SIZE
  {
    if id > 0 then Stop(f, id) else (f, true)
  }

  ghost predicate InTable(ids: seq<int>) {
    forall i :: 0 <= i < |ids| ==> ids[i] < TABLE_SIZE
  }

  // Successive stops, up to the first one that is refused.
  function Traps(f: Filter, ids: seq<int>): (r: (Filter, bool))
    requires |f.quota| == TABLE_SIZE && InTable(ids)
    ensures |r.0.quota| == TABLE_SIZE
    decreases ids
  {
    if ids == [] then (f, true)
    else
      var (g, ok) := Trap(f, ids[0]);
      if ok then Traps(g, ids[1..]) else (g, false)
  }

  function Positive(ids: seq<int>): seq<int> {
    if ids == [] then []
    else if ids[0] > 0 then [ids[0]] + Positive(ids[1..])
    else Positive(ids[1..])
  }

  // Each call stops twice.
  function Doubled(calls: seq<int>): seq<int> {
    if calls == [] then []
    else Doubled(calls[..|calls| - 1]) + [calls[|calls| - 1], calls[|calls| - 1]]
  }

  // Call numbers the filter is asked about.
  ghost predicate AreCalls(calls: seq<int>) {
    forall i :: 0 <= i < |calls| ==> 0 < calls[i] < TABLE_SIZE
  }

  // No call is made more often than the table allows; a negative entry is no limit.
  ghost predicate WithinQuota(quota: seq<int>, calls: seq<int>)
    requires |quota| == TABLE_SIZE
  {
    forall k :: 0 < k < TABLE_SIZE && quota[k] >= 0 ==> Count(calls, k) <= quota[k]
  }

  // What is left of the table once the calls have been charged.
  ghost predicate Charged(quota: seq<int>, calls: seq<int>, left: seq<int>)
    requires |quota| == TABLE_SIZE
  {
    && |left| == TABLE_SIZE
    && forall k :: 0 <= k < TABLE_SIZE ==> left[k] == if k > 0 && quota[k] >= 0 then quota[k] - Count(calls, k) else quota[k]
  }

  // ---------- stops with other ids are invisible ----------

  lemma {:induction false} SkippedStops(f: Filter, ids: seq<int>)
    requires |f.quota| == TABLE_SIZE && InTable(ids)
    ensures InTable(Positive(ids)) && AreCalls(Positive(ids))
    ensures Traps(f, ids) == Traps(f, Positive(ids))
    decreases ids
  {
    if ids != [] {
      var (g, ok) := Trap(f, ids[0]);
      SkippedStops(g, ids[1..]);
      if ids[0] > 0 {
        assert Positive(ids)[1..] == Positive(ids[1..]);
      }
    }
  }

  lemma {:induction false} TrapsConcat(f: Filter, a: seq<int>, b: seq<int>)
    requires |f.quota| == TABLE_SIZE && InTable(a) && InTable(b)
    ensures InTable(a + b)
    ensures Traps(f, a + b) == if Traps(f, a).1 then Traps(Traps(f, a).0, b) else Traps(f, a)
    decreases a
  {
    if a == [] {
      assert a + b == b;
    } else {
      var (g, ok) := Trap(f, a[0]);
      TrapsConcat(g, a[1..], b);
      assert (a + b)[1..] == a[1..] + b;
    }
  }

  lemma OneStop(f: Filter, id: int)
    requires |f.quota| == TABLE_SIZE && 0 < id < TABLE_SIZE
    ensures Traps(f, [id]) == Stop(f, id)
  {
  }

  // The phase bit tells the parity of the stops, the refused one included.
  lemma {:induction false} TrapsParity(f: Filter, ids: seq<int>)
    requires |f.quota| == TABLE_SIZE && InTable(ids)
    requires Traps(f, ids).1 || (ids != [] && Traps(f, ids[..|ids| - 1]).1)
    ensures Traps(f, ids).0.inSyscall == if |Positive(ids)| % 2 == 0 then f.inSyscall else !f.inSyscall
    decreases ids
  {
    if ids != [] {
      var (g, ok) := Trap(f, ids[0]);
      if ok {
        assert |ids| > 1 ==> ids[..|ids| - 1][1..] == ids[1..][..|ids[1..]| - 1];
        TrapsParity(g, ids[1..]);
      } else {
        assert |ids| == 1 && ids[1..] == [];
      }
    }
  }

  // ---------- charging one call ----------

  function Charge(quota: seq<int>, k: int): seq<int>
    requires 0 <= k < |quota|
  {
    if quota[k] > 0 then quota[k := quota[k] - 1] else quota
  }

  lemma ChargeOne(quota: seq<int>, calls: seq<int>, left: seq<int>, k: int)
    requires |quota| == TABLE_SIZE && 0 < k < TABLE_SIZE
    requires Charged(quota, calls, left) && WithinQuota(quota, calls)
    ensures WithinQuota(quota, calls + [k]) <==> left[k] != 0
    ensures left[k] != 0 ==> Charged(quota, calls + [k], Charge(left, k))
    ensures WithinQuota(quota, calls + [k]) <==> !(quota[k] >= 0 && Count(calls, k) == quota[k])
  {
  }

  // Once exceeded, a quota stays exceeded.
  lemma ExceededStays(quota: seq<int>, calls: seq<int>, k: int)
    requires |quota| == TABLE_SIZE && !WithinQuota(quota, calls)
    ensures !WithinQuota(quota, calls + [k])
  {
  }

  // ---------- the quota theorem ----------

  lemma {:induction false} DoubledAreCalls(calls: seq<int>)
    requires AreCalls(calls)
    ensures AreCalls(Doubled(calls)) && InTable(Doubled(calls)) && |Doubled(calls)| == 2 * |calls|
  {
    if calls != [] {
      DoubledAreCalls(calls[..|calls| - 1]);
    }
  }

  // After the stop that reports the initial exec, completed calls are charged exactly: they are all
  // admitted if and only if they are within the quota, the exec counting as one call.
  lemma {:induction false} CompletedCalls(f: Filter, exec: int, calls: seq<int>)
    requires |f.quota| == TABLE_SIZE && f.inSyscall && 0 < exec < TABLE_SIZE && AreCalls(calls)
    ensures InTable([exec] + Doubled(calls))
    ensures
      var (g, ok) := Traps(f, [exec] + Doubled(calls));
      && (ok <==> WithinQuota(f.quota, [exec] + calls))
      && (ok ==> !g.inSyscall && Charged(f.quota, [exec] + calls, g.quota))
      && (ok ==> f.quota[exec] != 0)
      && (!ok ==> g.inSyscall == (f.quota[exec] != 0))
  {
    hide WithinQuota, Charged, Traps;
    DoubledAreCalls(calls);
    if calls == [] {
      assert [exec] + Doubled(calls) == [exec] && [] + [exec] == [exec] + calls;
      OneStop(f, exec);
      NothingCharged(f.quota);
      ChargeOne(f.quota, [], f.quota, exec);
    } else {
      var front, k := calls[..|calls| - 1], calls[|calls| - 1];
      CompletedCalls(f, exec, front);
      DoubledAreCalls(front);
      var stops := [exec] + Doubled(front);
      assert [exec] + Doubled(calls) == stops + [k, k];
      assert [exec] + calls == ([exec] + front) + [k];
      TrapsConcat(f, stops, [k, k]);
      var (g, ok) := Traps(f, stops);
      if ok {
        OneCall(g, k);
        ChargeOne(f.quota, [exec] + front, g.quota, k);
      } else {
        ExceededStays(f.quota, [exec] + front, k);
      }
    }
  }

  lemma NothingCharged(quota: seq<int>)
    requires |quota| == TABLE_SIZE
    ensures Charged(quota, [], quota) && WithinQuota(quota, [])
  {
  }

  // The entry and the exit of one call: charged once, and never refused at the exit.
  lemma OneCall(g: Filter, k: int)
    requires |g.quota| == TABLE_SIZE && !g.inSyscall && 0 < k < TABLE_SIZE
    ensures InTable([k, k])
    ensures
      var (h, ok) := Traps(g, [k, k]);
      && (ok <==> g.quota[k] != 0)
      && (ok ==> h == Filter(Charge(g.quota, k), false))
      && (!ok ==> h.inSyscall)
  {
    var (h, ok) := Stop(g, k);
    assert [k, k][1..] == [k];
    OneStop(h, k);
  }

  // A program's stops: the exec, completed calls, and possibly one call that has been entered but does
  // not return.  Stops with other ids may be mixed in anywhere.
  function CallsOf(exec: int, calls: seq<int>, pending: Option<int>): seq<int> {
    [exec] + calls + (if pending.Some? then [pending.value] else [])
  }

  ghost predicate StopsOf(ids: seq<int>, exec: int, calls: seq<int>, pending: Option<int>) {
    && InTable(ids)
    && 0 < exec < TABLE_SIZE && AreCalls(calls) && (pending.Some? ==> 0 < pending.value < TABLE_SIZE)
    && Positive(ids) == [exec] + Doubled(calls) + (if pending.Some? then [pending.value] else [])
  }

  // A trace is admitted if and only if no call in it exceeds its quota.  The phase bit is then back
  // at its start value exactly when a call is pending; after a refusal it is, unless the exec was refused.
  lemma AdmittedIffWithinQuota(f: Filter, ids: seq<int>, exec: int, calls: seq<int>, pending: Option<int>)
    requires |f.quota| == TABLE_SIZE && f.inSyscall && StopsOf(ids, exec, calls, pending)
    ensures Traps(f, ids).1 <==> WithinQuota(f.quota, CallsOf(exec, calls, pending))
    ensures Traps(f, ids).1 ==> Traps(f, ids).0.inSyscall == pending.Some?
    ensures !Traps(f, ids).1 ==> Traps(f, ids).0.inSyscall == (f.quota[exec] != 0)
  {
    hide WithinQuota, Charged, Traps;
    SkippedStops(f, ids);
    CompletedCalls(f, exec, calls);
    var stops := [exec] + Doubled(calls);
    var (g, ok) := Traps(f, stops);
    if pending.Some? {
      var k := pending.value;
      TrapsConcat(f, stops, [k]);
      OneStop(g, k);
      if ok {
        ChargeOne(f.quota, [exec] + calls, g.quota, k);
      } else {
        ExceededStays(f.quota, [exec] + calls, k);
      }
    } else {
      assert CallsOf(exec, calls, pending) == [exec] + calls;
      assert Positive(ids) == stops;
    }
  }

  // An entry is refused if and only if exactly as many calls as the quota have completed ...
  lemma RefusedEntry(f: Filter, ids: seq<int>, exec: int, calls: seq<int>, zeros: seq<int>, k: int)
    requires |f.quota| == TABLE_SIZE && f.inSyscall && StopsOf(ids, exec, calls, None)
    requires 0 < k < TABLE_SIZE && InTable(zeros) && Positive(zeros) == []
    requires Traps(f, ids).1
    ensures InTable(ids + zeros + [k])
    ensures !Traps(f, ids + zeros + [k]).1 <==> f.quota[k] >= 0 && Count([exec] + calls, k) == f.quota[k]
  {
    hide WithinQuota, Charged, Traps;
    PositiveAppend(ids, zeros, k);
    assert CallsOf(exec, calls, None) == [exec] + calls && Positive(ids) == [exec] + Doubled(calls);
    AdmittedIffWithinQuota(f, ids, exec, calls, None);
    AdmittedIffWithinQuota(f, ids + zeros + [k], exec, calls, Some(k));
    SkippedStops(f, ids);
    CompletedCalls(f, exec, calls);
    ChargeOne(f.quota, [exec] + calls, Traps(f, ids).0.quota, k);
  }

  lemma PositiveAppend(ids: seq<int>, zeros: seq<int>, k: int)
    requires Positive(zeros) == [] && k > 0
    ensures Positive(ids + zeros + [k]) == Positive(ids) + [k]
  {
    PositiveConcat(ids, zeros);
    PositiveConcat(ids + zeros, [k]);
    assert [k][1..] == [];
    assert Positive(ids) + [] == Positive(ids);
  }

  lemma DoubledSnoc(calls: seq<int>, k: int)
    ensures Doubled(calls + [k]) == Doubled(calls) + [k, k]
  {
    assert (calls + [k])[..|calls|] == calls;
  }

  // ... and the exit of an admitted call never is.
  lemma ExitIsNeverRefused(f: Filter, ids: seq<int>, exec: int, calls: seq<int>, k: int, zeros: seq<int>)
    requires |f.quota| == TABLE_SIZE && f.inSyscall && StopsOf(ids, exec, calls, Some(k))
    requires InTable(zeros) && Positive(zeros) == []
    requires Traps(f, ids).1
    ensures InTable(ids + zeros + [k])
    ensures Traps(f, ids + zeros + [k]).1
  {
    hide WithinQuota, Charged, Traps, Positive, Doubled;
    PositiveAppend(ids, zeros, k);
    var all := calls + [k];
    DoubledSnoc(calls, k);
    assert Positive(ids + zeros + [k]) == [exec] + Doubled(all) + [];
    AdmittedIffWithinQuota(f, ids, exec, calls, Some(k));
    AdmittedIffWithinQuota(f, ids + zeros + [k], exec, all, None);
    assert CallsOf(exec, all, None) == CallsOf(exec, calls, Some(k));
  }

  lemma {:induction false} PositiveConcat(a: seq<int>, b: seq<int>)
    ensures Positive(a + b) == Positive(a) + Positive(b)
  {
    if a == [] {
      assert a + b == b;
    } else {
      hide Positive;
      PositiveConcat(a[1..], b);
      PositiveCons(a[0], a[1..]);
      PositiveCons(a[0], a[1..] + b);
      assert [a[0]] + a[1..] == a && [a[0]] + (a[1..] + b) == a + b;
    }
  }

  lemma PositiveCons(id: int, ids: seq<int>)
    ensures Positive([id] + ids) == (if id > 0 then [id] else []) + Positive(ids)
  {
    assert ([id] + ids)[1..] == ids;
  }

  // ---------- why the phase must be right when a case starts ----------

  // Started in the wrong phase, the filter charges entries instead of exits: the exec is free, and the last
  // call that the quota allows is refused when it returns.
  lemma {:induction false} WrongPhase(f: Filter, exec: int, calls: seq<int>)
    requires |f.quota| == TABLE_SIZE && !f.inSyscall && 0 < exec < TABLE_SIZE && AreCalls(calls)
    requires f.quota[exec] != 0
    ensures InTable([exec] + Doubled(calls))
    ensures
      var (g, ok) := Traps(f, [exec] + Doubled(calls));
      && (ok <==> BelowQuota(f.quota, calls))
      && (ok ==> g.inSyscall && Charged(f.quota, calls, g.quota))
      && g.inSyscall == (ok || RefusedAtExit(f.quota, calls))
  {
    hide Charged, Traps, RefusedAtExit, BelowQuota;
    DoubledAreCalls(calls);
    if calls == [] {
      assert [exec] + Doubled(calls) == [exec];
      OneStop(f, exec);
      NothingCharged(f.quota);
      NothingCalled(f.quota);
    } else {
      var front, k := calls[..|calls| - 1], calls[|calls| - 1];
      WrongPhase(f, exec, front);
      DoubledAreCalls(front);
      var stops := [exec] + Doubled(front);
      assert [exec] + Doubled(calls) == stops + [k, k];
      assert calls == front + [k];
      TrapsConcat(f, stops, [k, k]);
      var (g, ok) := Traps(f, stops);
      if ok {
        OneLateCall(g, k);
        LateCharge(f.quota, front, g.quota, k);
      }
      RefusedSnoc(f.quota, front, k);
    }
  }

  ghost predicate BelowQuota(quota: seq<int>, calls: seq<int>)
    requires |quota| == TABLE_SIZE && AreCalls(calls)
  {
    forall k :: k in calls && quota[k] >= 0 ==> Count(calls, k) < quota[k]
  }

  ghost predicate UsesUp(quota: seq<int>, calls: seq<int>, j: nat)
    requires |quota| == TABLE_SIZE && AreCalls(calls) && j < |calls|
  {
    BelowQuota(quota, calls[..j]) && Count(calls[..j + 1], calls[j]) == quota[calls[j]]
  }

  // The first call that breaks this rule uses up its quota, and is refused at its exit, when it has been charged.  A
  // call without any quota is refused at its entry.
  ghost predicate RefusedAtExit(quota: seq<int>, calls: seq<int>)
    requires |quota| == TABLE_SIZE && AreCalls(calls)
  {
    exists j :: 0 <= j < |calls| && UsesUp(quota, calls, j)
  }

  lemma NothingCalled(quota: seq<int>)
    requires |quota| == TABLE_SIZE
    ensures BelowQuota(quota, []) && !RefusedAtExit(quota, [])
  {
  }

  lemma NoneRefused(quota: seq<int>, calls: seq<int>)
    requires |quota| == TABLE_SIZE && AreCalls(calls) && BelowQuota(quota, calls)
    ensures !RefusedAtExit(quota, calls)
  {
    forall j | 0 <= j < |calls|
      ensures !UsesUp(quota, calls, j)
    {
      assert calls == calls[..j + 1] + calls[j + 1..];
      CountConcat(calls[..j + 1], calls[j + 1..], calls[j]);
    }
  }

  lemma RefusedSnoc(quota: seq<int>, front: seq<int>, k: int)
    requires |quota| == TABLE_SIZE && AreCalls(front) && 0 < k < TABLE_SIZE
    ensures !BelowQuota(quota, front) ==> !BelowQuota(quota, front + [k])
    ensures RefusedAtExit(quota, front + [k]) <==> if BelowQuota(quota, front) then Count(front, k) + 1 == quota[k] else RefusedAtExit(quota, front)
  {
    hide BelowQuota;
    var calls, n := front + [k], |front|;
    if !BelowQuota(quota, front) {
      ExceededLate(quota, front, k);
    }
    CountSnoc(front, k, k);
    assert UsesUp(quota, calls, n) <==> BelowQuota(quota, front) && Count(front, k) + 1 == quota[k] by {
      assert calls[..n] == front && calls[..n + 1] == calls && calls[n] == k;
    }
    forall j | 0 <= j < n
      ensures UsesUp(quota, calls, j) <==> UsesUp(quota, front, j)
    {
      assert calls[..j] == front[..j] && calls[..j + 1] == front[..j + 1] && calls[j] == front[j];
    }
    if BelowQuota(quota, front) {
      NoneRefused(quota, front);
    }
    hide UsesUp;
  }

  lemma ExceededLate(quota: seq<int>, front: seq<int>, k: int)
    requires |quota| == TABLE_SIZE && AreCalls(front) && 0 < k < TABLE_SIZE
    requires !BelowQuota(quota, front)
    ensures !BelowQuota(quota, front + [k])
  {
    var j :| j in front && quota[j] >= 0 && Count(front, j) >= quota[j];
    CountSnoc(front, k, j);
    assert j in front + [k];
  }

  // What a program may do that is started in the wrong phase.
  ghost predicate WithinLateQuota(quota: seq<int>, exec: int, calls: seq<int>, pending: Option<int>)
    requires |quota| == TABLE_SIZE && 0 < exec < TABLE_SIZE && AreCalls(calls)
    requires pending.Some? ==> 0 < pending.value < TABLE_SIZE
  {
    && quota[exec] != 0
    && BelowQuota(quota, calls)
    && (pending.Some? && quota[pending.value] >= 0 ==> Count(calls, pending.value) < quota[pending.value])
  }

  // The phase bit stays wrong after such a program, unless the program ends in a call.  After a refusal it is set
  // exactly if the exec or the exit of a call was refused.
  lemma AdmittedInWrongPhase(f: Filter, ids: seq<int>, exec: int, calls: seq<int>, pending: Option<int>)
    requires |f.quota| == TABLE_SIZE && !f.inSyscall && StopsOf(ids, exec, calls, pending)
    ensures Traps(f, ids).1 <==> WithinLateQuota(f.quota, exec, calls, pending)
    ensures Traps(f, ids).1 ==> Traps(f, ids).0.inSyscall == pending.None?
    ensures !Traps(f, ids).1 ==> Traps(f, ids).0.inSyscall == (f.quota[exec] == 0 || RefusedAtExit(f.quota, calls))
  {
    hide Charged, Traps, BelowQuota, RefusedAtExit;
    SkippedStops(f, ids);
    var stops := [exec] + Doubled(calls);
    DoubledAreCalls(calls);
    TrapsConcat(f, [exec], Doubled(calls));
    OneStop(f, exec);
    if f.quota[exec] != 0 {
      WrongPhase(f, exec, calls);
    }
    var (g, ok) := Traps(f, stops);
    if pending.Some? {
      var k := pending.value;
      TrapsConcat(f, stops, [k]);
      OneStop(g, k);
      if ok {
        LateEntry(f.quota, calls, g.quota, k);
        NoneRefused(f.quota, calls);
      }
    } else {
      assert Positive(ids) == stops;
    }
  }

  lemma LateEntry(quota: seq<int>, calls: seq<int>, left: seq<int>, k: int)
    requires |quota| == TABLE_SIZE && 0 < k < TABLE_SIZE && AreCalls(calls)
    requires Charged(quota, calls, left) && BelowQuota(quota, calls)
    ensures left[k] != 0 <==> quota[k] < 0 || Count(calls, k) < quota[k]
  {
    Counted(calls, k);
  }

  // Of the programs within their quota, the wrong phase refuses exactly those in which a completed call was the
  // last one that its quota allows.
  lemma RefusedInWrongPhase(quota: seq<int>, exec: int, calls: seq<int>, pending: Option<int>)
    requires |quota| == TABLE_SIZE && 0 < exec < TABLE_SIZE && AreCalls(calls)
    requires pending.Some? ==> 0 < pending.value < TABLE_SIZE
    requires WithinQuota(quota, CallsOf(exec, calls, pending))
    ensures !WithinLateQuota(quota, exec, calls, pending) <==> exists k :: k in calls && Count(calls, k) == quota[k]
  {
    CallsCounted(exec, calls, pending);
  }

  // Of the programs that the wrong phase admits, exactly those are over their quota that enter the exec once more and
  // would use up its quota with that: the wrong phase does not charge the first exec.
  lemma AdmittedOverQuota(quota: seq<int>, exec: int, calls: seq<int>, pending: Option<int>)
    requires |quota| == TABLE_SIZE && 0 < exec < TABLE_SIZE && AreCalls(calls)
    requires pending.Some? ==> 0 < pending.value < TABLE_SIZE
    requires WithinLateQuota(quota, exec, calls, pending)
    ensures !WithinQuota(quota, CallsOf(exec, calls, pending)) <==> pending == Some(exec) && Count(calls, exec) + 1 == quota[exec]
  {
    CallsCounted(exec, calls, pending);
    forall k
      ensures Count(calls, k) > 0 <==> k in calls
    {
      Counted(calls, k);
    }
  }

  lemma CallsCounted(exec: int, calls: seq<int>, pending: Option<int>)
    ensures forall k :: Count(CallsOf(exec, calls, pending), k) == Count(calls, k) + (if exec == k then 1 else 0) + if pending == Some(k) then 1 else 0
  {
    forall k
      ensures Count(CallsOf(exec, calls, pending), k) == Count(calls, k) + (if exec == k then 1 else 0) + if pending == Some(k) then 1 else 0
    {
      CountConcat([exec] + calls, if pending.Some? then [pending.value] else [], k);
      CountConcat([exec], calls, k);
    }
  }

  lemma LateCharge(quota: seq<int>, calls: seq<int>, left: seq<int>, k: int)
    requires |quota| == TABLE_SIZE && 0 < k < TABLE_SIZE && AreCalls(calls)
    requires Charged(quota, calls, left) && BelowQuota(quota, calls)
    ensures BelowQuota(quota, calls + [k]) <==> left[k] < 0 || left[k] > 1
    ensures Count(calls, k) + 1 == quota[k] <==> left[k] == 1
    ensures left[k] < 0 || left[k] > 1 ==> Charged(quota, calls + [k], Charge(left, k))
  {
    forall j
      ensures Count(calls + [k], j) == Count(calls, j) + if k == j then 1 else 0
    {
      CountSnoc(calls, k, j);
    }
    assert k in calls + [k];
    if k !in calls {
      Counted(calls, k);
    }
  }

  lemma OneLateCall(g: Filter, k: int)
    requires |g.quota| == TABLE_SIZE && g.inSyscall && 0 < k < TABLE_SIZE
    ensures InTable([k, k])
    ensures
      var (h, ok) := Traps(g, [k, k]);
      && (ok <==> g.quota[k] < 0 || g.quota[k] > 1)
      && (!ok ==> h.inSyscall == (g.quota[k] == 1))
      && (ok ==> h == Filter(Charge(g.quota, k), true))
  {
    var (h, ok) := Stop(g, k);
    assert [k, k][1..] == [k];
    OneStop(h, k);
  }
}
