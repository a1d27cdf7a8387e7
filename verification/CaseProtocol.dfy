// What the verdict on one case means, for programs whose stops follow the protocol of ptrace.

module CaseProtocol {
  import opened CaseEnds
  import opened Comparator
  import opened Judge
  import opened JudgeCore
  import opened JudgeRuns
  import opened Sequences
  import opened SyscallQuota
  import opened Syscalls
  import opened Wrappers

  // The stops of the program: the exec, calls that complete, possibly a pending one, and then the end.  Stops
  // that are not at system calls may be mixed in.
  ghost predicate FollowsProtocol(c: Case, exec: int, calls: seq<int>, pending: Option<int>) {
    && ValidCase(c) && c.trace != []
    && var n := |c.trace| - 1;
    && (forall k :: 0 <= k < n ==> c.trace[k].IsTraced())
    && !c.trace[n].IsTrap()
    && StopsOf(TrapIds(c.trace[..n]), exec, calls, pending)
  }

  function Final(c: Case): Status
    requires c.trace != []
  {
    c.trace[|c.trace| - 1].status
  }

  ghost predicate WithinLimits(cfg: Config, c: Case) {
    forall k :: 0 <= k < |c.trace| ==> c.trace[k].maxrss <= cfg.memoryLimit && c.trace[k].Time() <= cfg.timeLimit
  }

  // A program that exits does so in a call that never returns, and leaves the phase bit as it found it.
  lemma ProtocolIsEven(c: Case, exec: int, calls: seq<int>, pending: Option<int>)
    requires FollowsProtocol(c, exec, calls, pending)
    ensures EvenAtSuccess(c) <==> (MaySucceed(Final(c)) ==> pending.Some?)
  {
    DoubledAreCalls(calls);
    var n := |c.trace| - 1;
    assert forall k :: 0 <= k < n ==> !MaySucceed(c.trace[k].status);
  }

  // The verdict that the end of a program stands for.
  ghost predicate EndsAs(cfg: Config, c: Case, result: Result)
    requires c.trace != []
  {
    StandsFor(cfg, c, Final(c), result)
  }

  lemma {:induction false} TracedToTheEnd(cfg: Config, s: Solution, c: Case, i: nat)
    requires |s.filter.quota| == TABLE_SIZE && ValidCase(c) && i < |c.trace|
    requires forall k :: i <= k < |c.trace| - 1 ==> c.trace[k].IsTraced()
    requires !c.trace[|c.trace| - 1].IsTrap()
    ensures Trace(cfg, s, c, i).Ended?
    decreases |c.trace| - i
  {
    hide OutputResult, Merge;
    if i < |c.trace| - 1 {
      var t := s.(memoryUsage := Max(s.memoryUsage, c.trace[i].maxrss));
      TracedToTheEnd(cfg, t.(filter := Trap(t.filter, c.trace[i].status.syscallId).0), c, i + 1);
    }
  }

  // A case within its limits gets the verdict that its end stands for if the filter admits all its stops, and is
  // stopped for a restricted function otherwise.
  lemma CaseIn(cfg: Config, inSyscall: bool, c: Case, exec: int, calls: seq<int>, pending: Option<int>)
    requires cfg.Valid() && FollowsProtocol(c, exec, calls, pending) && WithinLimits(cfg, c)
    ensures
      var ids := TrapIds(c.trace[..|c.trace| - 1]);
      var one := JudgeAloneIn(cfg, inSyscall, c);
      && StopsOf(ids, exec, calls, pending) && one.Some?
      && var (filter, ok) := Traps(Filter(cfg.CaseQuota(), inSyscall), ids);
      && (if ok then EndsAs(cfg, c, one.value.result) else one.value.result == RestrictedFunction)
      && one.value.filter == filter
  {
    hide OutputResult, FixedResult, FinalResult, StopsOf, Traps, TrapIds, Positive, IsPeak, Trace, Settle, FixUp, EndsAs, Quota;
    var n := |c.trace| - 1;
    var f := Filter(cfg.CaseQuota(), inSyscall);
    TracedToTheEnd(cfg, Start(cfg, AloneIn(cfg, inSyscall)), c, 0);
    var e := CaseEndsAt(cfg, inSyscall, c);
    if e < n {
      assert c.trace[..n] == c.trace[0..e + 1] + c.trace[e + 1..n];
      TrapIdsConcat(c.trace[0..e + 1], c.trace[e + 1..n]);
      RestInTable(c, exec, calls, pending, TrapIds(c.trace[0..e + 1]), TrapIds(c.trace[e + 1..n]));
      TrapsConcat(f, TrapIds(c.trace[0..e + 1]), TrapIds(c.trace[e + 1..n]));
      RefusedIsFinal(cfg, c, c.trace[e]);
    } else {
      assert c.trace[0..e] == c.trace[..n];
      EndIsFinal(cfg, c);
    }
  }

  lemma RestInTable(c: Case, exec: int, calls: seq<int>, pending: Option<int>, a: seq<int>, b: seq<int>)
    requires FollowsProtocol(c, exec, calls, pending) && TrapIds(c.trace[..|c.trace| - 1]) == a + b
    ensures InTable(b)
  {
    assert forall k :: 0 <= k < |b| ==> b[k] == (a + b)[|a| + k];
  }

  lemma RefusedIsFinal(cfg: Config, c: Case, ev: Event)
    requires ev.IsTrap() && ev.maxrss <= cfg.memoryLimit && ev.Time() <= cfg.timeLimit
    ensures FinalResult(cfg, c, ev) == RestrictedFunction
  {
  }

  lemma EndIsFinal(cfg: Config, c: Case)
    requires c.trace != [] && WithinLimits(cfg, c) && !c.trace[|c.trace| - 1].IsTrap()
    ensures EndsAs(cfg, c, FinalResult(cfg, c, c.trace[|c.trace| - 1]))
  {
    hide StandsFor, FixedResult, EventResult;
    EndStandsFor(cfg, c, c.trace[|c.trace| - 1]);
  }

  // In the right phase, the filter admits exactly the programs of which no call exceeds its quota.
  lemma CaseMeaning(cfg: Config, c: Case, exec: int, calls: seq<int>, pending: Option<int>)
    requires cfg.Valid() && FollowsProtocol(c, exec, calls, pending) && WithinLimits(cfg, c)
    ensures JudgeAlone(cfg, c).Some?
    ensures
      var one, quota := JudgeAlone(cfg, c).value, cfg.CaseQuota();
      if WithinQuota(quota, CallsOf(exec, calls, pending)) then EndsAs(cfg, c, one.result) && one.filter.inSyscall == pending.Some?
      else one.result == RestrictedFunction && one.filter.inSyscall == (quota[exec] != 0)
  {
    hide WithinQuota, Traps, JudgeCase, EndsAs;
    CaseIn(cfg, true, c, exec, calls, pending);
    AdmittedIffWithinQuota(Filter(cfg.CaseQuota(), true), TrapIds(c.trace[..|c.trace| - 1]), exec, calls, pending);
  }

  // In the wrong phase, which an earlier case may leave behind, it goes by another rule, and the phase stays wrong
  // unless the program ends in a call, or is refused its exec or the exit of a call.
  lemma CaseInWrongPhase(cfg: Config, c: Case, exec: int, calls: seq<int>, pending: Option<int>)
    requires cfg.Valid() && FollowsProtocol(c, exec, calls, pending) && WithinLimits(cfg, c)
    ensures JudgeAloneIn(cfg, false, c).Some?
    ensures
      var one, quota := JudgeAloneIn(cfg, false, c).value, cfg.CaseQuota();
      if WithinLateQuota(quota, exec, calls, pending) then EndsAs(cfg, c, one.result) && one.filter.inSyscall == pending.None?
      else one.result == RestrictedFunction && one.filter.inSyscall == (quota[exec] == 0 || RefusedAtExit(quota, calls))
  {
    hide WithinLateQuota, RefusedAtExit, Traps, JudgeCase, EndsAs;
    CaseIn(cfg, false, c, exec, calls, pending);
    AdmittedInWrongPhase(Filter(cfg.CaseQuota(), false), TrapIds(c.trace[..|c.trace| - 1]), exec, calls, pending);
  }

  // The wrong phase refuses a program within its quota of which a completed call is the last one that its quota allows.
  ghost predicate WronglyRefused(quota: seq<int>, exec: int, calls: seq<int>, pending: Option<int>)
    requires |quota| == TABLE_SIZE && AreCalls(calls)
  {
    WithinQuota(quota, CallsOf(exec, calls, pending)) && exists k :: k in calls && Count(calls, k) == quota[k]
  }

  // It admits a program over its quota that enters the exec once too often and is otherwise admitted.
  ghost predicate WronglyAdmitted(quota: seq<int>, exec: int, calls: seq<int>, pending: Option<int>)
    requires |quota| == TABLE_SIZE && 0 < exec < TABLE_SIZE && AreCalls(calls)
    requires pending.Some? ==> 0 < pending.value < TABLE_SIZE
  {
    WithinLateQuota(quota, exec, calls, pending) && pending == Some(exec) && Count(calls, exec) + 1 == quota[exec]
  }

  // The phase matters to these programs and to no others.
  lemma PhaseMatters(cfg: Config, c: Case, exec: int, calls: seq<int>, pending: Option<int>)
    requires cfg.Valid() && FollowsProtocol(c, exec, calls, pending) && WithinLimits(cfg, c)
    ensures JudgeAlone(cfg, c).Some? && JudgeAloneIn(cfg, false, c).Some?
    ensures
      var right, wrong, quota := JudgeAlone(cfg, c).value.result, JudgeAloneIn(cfg, false, c).value.result, cfg.CaseQuota();
      && (right != wrong <==> WronglyRefused(quota, exec, calls, pending) || WronglyAdmitted(quota, exec, calls, pending))
      && (WronglyRefused(quota, exec, calls, pending) <==> right != RestrictedFunction && wrong == RestrictedFunction)
      && (WronglyAdmitted(quota, exec, calls, pending) <==> right == RestrictedFunction && wrong != RestrictedFunction)
      && (right == RestrictedFunction <==> !WithinQuota(quota, CallsOf(exec, calls, pending)))
      && (wrong == RestrictedFunction <==> !WithinLateQuota(quota, exec, calls, pending))
  {
    hide WithinQuota, WithinLateQuota, JudgeCase, EndsAs;
    CaseMeaning(cfg, c, exec, calls, pending);
    CaseInWrongPhase(cfg, c, exec, calls, pending);
    var right, wrong, quota := JudgeAlone(cfg, c).value.result, JudgeAloneIn(cfg, false, c).value.result, cfg.CaseQuota();
    if WithinQuota(quota, CallsOf(exec, calls, pending)) {
      RefusedInWrongPhase(quota, exec, calls, pending);
      VerdictOfEnd(cfg, c, right, wrong);
    }
    if WithinLateQuota(quota, exec, calls, pending) {
      AdmittedOverQuota(quota, exec, calls, pending);
      VerdictOfEnd(cfg, c, wrong, right);
    }
  }

  lemma VerdictOfEnd(cfg: Config, c: Case, a: Result, b: Result)
    requires c.trace != [] && EndsAs(cfg, c, a)
    ensures a != RestrictedFunction
    ensures EndsAs(cfg, c, b) ==> a == b
  {
    hide StandsFor;
    VerdictIsUnique(cfg, c, Final(c), a, b);
  }

  // A program that exits is accepted exactly if no call exceeds its quota, what it wrote is accepted, and, where
  // the exit code counts, that is zero.
  lemma AcceptedMeans(cfg: Config, c: Case, exec: int, calls: seq<int>, pending: Option<int>)
    requires cfg.Valid() && FollowsProtocol(c, exec, calls, pending) && WithinLimits(cfg, c)
    requires Final(c).Exited?
    ensures AcceptedAlone(cfg, c) <==>
            && WithinQuota(cfg.CaseQuota(), CallsOf(exec, calls, pending))
            && (cfg.lang in {LANG_JAVA, LANG_KOTLIN} ==> Final(c).code == 0)
            && (if cfg.spj then c.spjEnd == SpjExited(0)
                else NonSpace(DropCR(c.expected)) == NonSpace(DropCR(c.actual)) && SameUpToTail(DropCR(c.expected), DropCR(c.actual)))
  {
    hide WithinQuota, NonSpace, SameUpToTail, DropCR, JudgeCase, StopsOf;
    CaseMeaning(cfg, c, exec, calls, pending);
  }

  // A program that ends by SIGCHLD is accepted whatever it printed.
  lemma ChildSignalIsAccepted(cfg: Config, c: Case, exec: int, calls: seq<int>, pending: Option<int>)
    requires cfg.Valid() && FollowsProtocol(c, exec, calls, pending) && WithinLimits(cfg, c)
    requires WithinQuota(cfg.CaseQuota(), CallsOf(exec, calls, pending))
    requires !Final(c).Exited? && Final(c).signo == SIGCHLD
    ensures AcceptedAlone(cfg, c)
  {
    hide WithinQuota, JudgeCase;
    CaseMeaning(cfg, c, exec, calls, pending);
  }
}
