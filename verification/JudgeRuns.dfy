// What holds of every run of the judge.

module JudgeRuns {
  import opened Syscalls
  import opened SyscallQuota
  import opened Comparator
  import opened Judge
  import opened JudgeCore
  import opened Wrappers

  ghost predicate ValidCases(cases: seq<Case>) {
    forall i :: 0 <= i < |cases| ==> ValidCase(cases[i])
  }

  // ---------- resource accounting, in every judge mode ----------

  // The reported usage agrees with the verdict.
  ghost predicate Accounts(cfg: Config, s: Solution) {
    && s.timeUsage <= cfg.timeLimit
    && (s.result == TimeLimit ==> s.timeUsage == cfg.timeLimit)
    && (s.result == MemoryLimit ==> s.memoryUsage > cfg.memoryLimit)
    && (s.memoryUsage > cfg.memoryLimit ==> s.result == MemoryLimit || s.result == TimeLimit)
  }

  // A Java program that runs out of memory is charged 1024 times the memory limit, which is above the limit
  // unless the limit is 0.
  predicate Measured(cfg: Config) {
    cfg.memoryLimit > 0 || cfg.lang != LANG_JAVA
  }

  ghost predicate Grows(s: Solution, t: Solution) {
    s.timeUsage <= t.timeUsage && s.memoryUsage <= t.memoryUsage
  }

  lemma {:induction false} TraceAccounts(cfg: Config, s: Solution, c: Case, i: nat)
    requires |s.filter.quota| == TABLE_SIZE && ValidCase(c) && i <= |c.trace|
    ensures Trace(cfg, s, c, i).Ended? ==>
              var t := Trace(cfg, s, c, i).s;
              && t.timeUsage == s.timeUsage && s.memoryUsage <= t.memoryUsage
              && (t.result == MemoryLimit ==> t.memoryUsage > cfg.memoryLimit)
    decreases |c.trace| - i
  {
    if i < |c.trace| && c.trace[i].IsTrap() {
      var t := s.(memoryUsage := Max(s.memoryUsage, c.trace[i].maxrss));
      var (filter, valid) := Trap(t.filter, c.trace[i].status.syscallId);
      if t.memoryUsage <= cfg.memoryLimit && valid {
        TraceAccounts(cfg, t.(filter := filter), c, i + 1);
      }
    }
  }

  lemma CaseAccounts(cfg: Config, s: Solution, c: Case)
    requires cfg.Valid() && ValidCase(c) && Measured(cfg)
    requires s.timeUsage <= cfg.timeLimit && JudgeCase(cfg, s, c).Some?
    ensures Accounts(cfg, JudgeCase(cfg, s, c).value)
    ensures Grows(s, JudgeCase(cfg, s, c).value)
  {
    TraceAccounts(cfg, Start(cfg, s), c, 0);
  }

  // Cases that break the accounts whenever the condition does not hold: with a memory limit of 0, a wrong answer
  // of a Java program that reports a lack of memory gets a memory limit verdict with a usage of 0.
  predicate LacksMemory(c: Case) {
    && |c.trace| == 1 && c.trace[0].status == Exited(0) && c.trace[0].maxrss == c.trace[0].Time() == 0
    && c.expected == [] && c.actual == [65] && c.spjEnd == SpjExited(2)
    && c.java.outOfMemoryInStderr
  }

  lemma UnmeasuredCase(cfg: Config, s: Solution, c: Case)
    requires cfg.Valid() && s.memoryUsage == 0 && s.timeUsage <= cfg.timeLimit && LacksMemory(c)
    ensures ValidCase(c) && JudgeCase(cfg, s, c).Some?
    ensures Accounts(cfg, JudgeCase(cfg, s, c).value) <==> Measured(cfg)
  {
    hide OutputResult;
    OneByteTooMany(cfg, c);
    if Measured(cfg) {
      CaseAccounts(cfg, s, c);
    }
  }

  lemma OneByteTooMany(cfg: Config, c: Case)
    requires LacksMemory(c)
    ensures OutputResult(cfg, c) == WrongAnswer
  {
    assert c.actual[1..] == [];
    assert NonSpace(DropCR(c.actual)) == [65];
  }

  // Every state of a history accounts for its usage, and usage never decreases.
  ghost predicate Steady(cfg: Config, s: Solution, h: seq<Solution>) {
    && (forall i :: 0 <= i < |h| ==> Accounts(cfg, h[i]) && Grows(s, h[i]))
    && (forall i, j :: 0 <= i <= j < |h| ==> Grows(h[i], h[j]))
  }

  lemma SteadyCons(cfg: Config, s: Solution, t: Solution, h: seq<Solution>)
    requires Accounts(cfg, t) && Grows(s, t) && Steady(cfg, t, h)
    ensures Steady(cfg, s, [t] + h)
  {
  }

  lemma {:induction false} RunIsSteady(cfg: Config, s: Solution, cases: seq<Case>)
    requires cfg.Valid() && ValidCases(cases) && Measured(cfg)
    requires s.timeUsage <= cfg.timeLimit
    ensures Steady(cfg, s, RunCases(cfg, s, cases).history)
    decreases cases
  {
    if cases != [] && JudgeCase(cfg, s, cases[0]).Some? {
      hide JudgeCase, Steady, Accounts, Grows;
      CaseAccounts(cfg, s, cases[0]);
      var t := JudgeCase(cfg, s, cases[0]).value;
      TimeWithinLimit(cfg, t);
      RunIsSteady(cfg, t, cases[1..]);
      SteadyCons(cfg, s, t, RunCases(cfg, t, cases[1..]).history);
      SteadyCons(cfg, s, t, []) by { EmptyIsSteady(cfg, t); }
      assert [t] + [] == [t];
    } else {
      EmptyIsSteady(cfg, s);
    }
  }

  lemma EmptyIsSteady(cfg: Config, s: Solution)
    ensures Steady(cfg, s, [])
  {
  }

  lemma TimeWithinLimit(cfg: Config, s: Solution)
    requires Accounts(cfg, s)
    ensures s.timeUsage <= cfg.timeLimit
  {
  }

  // Usage never decreases and stays consistent with the verdict; a time limit verdict pins the time,
  // and after a memory limit verdict no later case ends with any other verdict but these two.
  lemma RunAccounts(cfg: Config, s: Solution, cases: seq<Case>, i: nat, j: nat)
    requires cfg.Valid() && ValidCases(cases) && Measured(cfg)
    requires s.timeUsage <= cfg.timeLimit
    requires i <= j < |RunCases(cfg, s, cases).history|
    ensures
      var h := RunCases(cfg, s, cases).history;
      && Accounts(cfg, h[i]) && Grows(s, h[i]) && Grows(h[i], h[j])
      && (h[i].result == TimeLimit ==> h[j].timeUsage == cfg.timeLimit)
      && (h[i].result == MemoryLimit ==> h[j].result == MemoryLimit || h[j].result == TimeLimit)
  {
    RunIsSteady(cfg, s, cases);
  }

  // ---------- what a case takes over from the cases before it ----------

  // A state at the start of a case: nothing is over its limit and the next stop is taken for an exit.
  ghost predicate Ready(cfg: Config, s: Solution) {
    s.timeUsage <= cfg.timeLimit && s.memoryUsage <= cfg.memoryLimit && s.filter.inSyscall
  }

  // The state in which a case is judged when it is the only one, with the phase bit as it is found.
  ghost function AloneIn(cfg: Config, inSyscall: bool): Solution
    requires cfg.Valid()
  {
    Solution(Accepted, 0, 0, Filter(cfg.CaseQuota(), inSyscall))
  }

  ghost function JudgeAloneIn(cfg: Config, inSyscall: bool, c: Case): Option<Solution>
    requires cfg.Valid() && ValidCase(c)
  {
    JudgeCase(cfg, AloneIn(cfg, inSyscall), c)
  }

  // The judge starts with the phase bit set.
  ghost function JudgeAlone(cfg: Config, c: Case): Option<Solution>
    requires cfg.Valid() && ValidCase(c)
  {
    JudgeAloneIn(cfg, true, c)
  }

  ghost predicate AcceptedAlone(cfg: Config, c: Case)
    requires cfg.Valid() && ValidCase(c)
  {
    JudgeAlone(cfg, c).Some? && JudgeAlone(cfg, c).value.result == Accepted
  }

  function Raise(s: Solution, timeUsage: nat, memoryUsage: nat): Solution {
    s.(timeUsage := Max(s.timeUsage, timeUsage), memoryUsage := Max(s.memoryUsage, memoryUsage))
  }

  predicate NormalExit(cfg: Config, ev: Event) {
    ev.status.Exited? && (!cfg.Managed() || ev.status.code == EXIT_SUCCESS)
  }

  // The tracer's loop run twice on one trace, the second time with an earlier verdict and earlier usage.
  lemma {:induction false} SameTrace(cfg: Config, s: Solution, c: Case, i: nat, sofar: Result, time: nat, memory: nat)
    requires |s.filter.quota| == TABLE_SIZE && ValidCase(c) && i <= |c.trace|
    requires memory <= cfg.memoryLimit
    ensures
      var one, two := Trace(cfg, s, c, i), Trace(cfg, Raise(s, time, memory).(result := sofar), c, i);
      && (two.Ended? <==> one.Ended?)
      && (one.Ended? ==>
            && two.last == one.last
            && two.s == Raise(one.s, time, memory).(result :=
                 if NormalExit(cfg, one.last) then Merge(sofar, OutputResult(cfg, c)) else one.s.result))
    decreases |c.trace| - i
  {
    hide OutputResult, Merge;
    if i < |c.trace| && c.trace[i].IsTrap() {
      var t := s.(memoryUsage := Max(s.memoryUsage, c.trace[i].maxrss));
      var (filter, valid) := Trap(t.filter, c.trace[i].status.syscallId);
      if t.memoryUsage <= cfg.memoryLimit && valid {
        var u := t.(filter := filter);
        var t' := Raise(s, time, memory).(result := sofar);
        assert Raise(u, time, memory).(result := sofar) == t'.(memoryUsage := Max(t'.memoryUsage, c.trace[i].maxrss), filter := filter);
        SameTrace(cfg, u, c, i + 1, sofar, time, memory);
      }
    }
  }

  // The case ends by a normal exit and within its limits, when the phase bit is as given.
  ghost predicate ExitsNormally(cfg: Config, inSyscall: bool, c: Case)
    requires cfg.Valid() && ValidCase(c)
  {
    match Trace(cfg, AloneIn(cfg, inSyscall), c, 0)
    case JudgeExits => false
    case Ended(t, last) => NormalExit(cfg, last) && last.Time() <= cfg.timeLimit && Max(t.memoryUsage, last.maxrss) <= cfg.memoryLimit
  }

  // The verdict on such a case is merged into the verdict so far, unless a fix-up has changed it.
  ghost predicate IsMerged(cfg: Config, inSyscall: bool, c: Case)
    requires cfg.Valid() && ValidCase(c)
  {
    ExitsNormally(cfg, inSyscall, c) && FixedResult(cfg, OutputResult(cfg, c), c) == OutputResult(cfg, c)
  }

  lemma OutputVerdicts(cfg: Config, c: Case)
    ensures OutputResult(cfg, c) in {Accepted, PresentationError, WrongAnswer, ValidatorError}
  {
    hide Compare;
  }

  // All that a case takes over, while nothing is over its limit, is the phase bit, the peak usage, and the verdict
  // to be merged with.
  lemma CaseAfter(cfg: Config, s: Solution, c: Case)
    requires cfg.Valid() && ValidCase(c)
    requires s.timeUsage <= cfg.timeLimit && s.memoryUsage <= cfg.memoryLimit
    ensures
      var one, two := JudgeAloneIn(cfg, s.filter.inSyscall, c), JudgeCase(cfg, s, c);
      && (two.Some? <==> one.Some?)
      && (one.Some? ==>
            two.value == Raise(one.value, s.timeUsage, s.memoryUsage).(result :=
              if IsMerged(cfg, s.filter.inSyscall, c) then Merge(s.result, OutputResult(cfg, c)) else one.value.result))
  {
    hide OutputResult, Merge, Settle, FixUp, FixedResult;
    var a := AloneIn(cfg, s.filter.inSyscall);
    assert Start(cfg, a) == a;
    assert Start(cfg, s) == Raise(a, s.timeUsage, s.memoryUsage).(result := s.result);
    SameTrace(cfg, a, c, 0, s.result, s.timeUsage, s.memoryUsage);
    TraceAccounts(cfg, a, c, 0);
    OutputAlone(cfg, a, c);
    var one := Trace(cfg, a, c, 0);
    if one.Ended? {
      FinishAfter(cfg, c, one.s, one.last, s.result, s.timeUsage, s.memoryUsage);
    }
  }

  lemma OutputAlone(cfg: Config, s: Solution, c: Case)
    requires |s.filter.quota| == TABLE_SIZE && ValidCase(c) && s.result == Accepted
    ensures Trace(cfg, s, c, 0).Ended? && NormalExit(cfg, Trace(cfg, s, c, 0).last) ==> Trace(cfg, s, c, 0).s.result == OutputResult(cfg, c)
  {
    hide OutputResult;
    assert Raise(s, 0, 0).(result := Accepted) == s;
    SameTrace(cfg, s, c, 0, Accepted, 0, 0);
  }

  // What follows the tracer's loop, run twice in the same way.
  lemma FinishAfter(cfg: Config, c: Case, s: Solution, last: Event, sofar: Result, time: nat, memory: nat)
    requires s.timeUsage == 0 && time <= cfg.timeLimit && memory <= cfg.memoryLimit
    requires NormalExit(cfg, last) ==> s.result == OutputResult(cfg, c)
    ensures
      var t := Raise(s, time, memory).(result := if NormalExit(cfg, last) then Merge(sofar, OutputResult(cfg, c)) else s.result);
      var one, two := FixUp(cfg, Settle(cfg, s, last), c), FixUp(cfg, Settle(cfg, t, last), c);
      var merged := NormalExit(cfg, last) && last.Time() <= cfg.timeLimit && Max(s.memoryUsage, last.maxrss) <= cfg.memoryLimit
                    && FixedResult(cfg, OutputResult(cfg, c), c) == OutputResult(cfg, c);
      two == Raise(one, time, memory).(result := if merged then Merge(sofar, OutputResult(cfg, c)) else one.result)
  {
    hide OutputResult;
    OutputVerdicts(cfg, c);
  }

  // After accepted cases, all that they leave behind is their peak usage.
  lemma CaseAfterAccepted(cfg: Config, s: Solution, c: Case)
    requires cfg.Valid() && ValidCase(c)
    requires Ready(cfg, s) && s.result == Accepted
    ensures JudgeCase(cfg, s, c).Some? <==> JudgeAlone(cfg, c).Some?
    ensures JudgeCase(cfg, s, c).Some? ==> JudgeCase(cfg, s, c).value == Raise(JudgeAlone(cfg, c).value, s.timeUsage, s.memoryUsage)
  {
    hide JudgeCase, OutputResult;
    CaseAfter(cfg, s, c);
    if JudgeAlone(cfg, c).Some? && IsMerged(cfg, true, c) {
      MergedAlone(cfg, true, c);
    }
  }

  lemma MergedAlone(cfg: Config, inSyscall: bool, c: Case)
    requires cfg.Valid() && ValidCase(c) && IsMerged(cfg, inSyscall, c)
    ensures JudgeAloneIn(cfg, inSyscall, c).Some? && JudgeAloneIn(cfg, inSyscall, c).value.result == OutputResult(cfg, c)
    ensures JudgeAloneIn(cfg, inSyscall, c).value.memoryUsage <= cfg.memoryLimit
  {
    hide OutputResult;
    var a := AloneIn(cfg, inSyscall);
    assert Start(cfg, a) == a;
    OutputAlone(cfg, a, c);
    TraceAccounts(cfg, a, c, 0);
    OutputVerdicts(cfg, c);
  }

  // ---------- peaks ----------

  // m is the highest of `base` and the values.
  ghost predicate IsPeak(m: nat, base: nat, values: seq<nat>) {
    && base <= m && (forall k :: 0 <= k < |values| ==> values[k] <= m)
    && (m == base || exists k :: 0 <= k < |values| && m == values[k])
  }

  lemma PeakCons(m: nat, base: nat, value: nat, rest: seq<nat>)
    requires IsPeak(m, if base < value then value else base, rest)
    ensures IsPeak(m, base, [value] + rest)
  {
    var values := [value] + rest;
    assert forall k :: 0 <= k < |rest| ==> values[k + 1] == rest[k];
    assert values[0] == value;
    if k :| 0 <= k < |rest| && m == rest[k] {
      assert m == values[k + 1];
    }
  }

  function Maxrss(events: seq<Event>): seq<nat> {
    seq(|events|, k requires 0 <= k < |events| => events[k].maxrss)
  }

  // A case that starts with memory usage over the limit is over at its first event.
  lemma CaseOverLimit(cfg: Config, s: Solution, c: Case)
    requires cfg.Valid() && ValidCase(c)
    requires s.timeUsage <= cfg.timeLimit && s.memoryUsage > cfg.memoryLimit
    ensures JudgeCase(cfg, s, c).Some? <==> c.trace != []
    ensures c.trace != [] ==>
              var t := JudgeCase(cfg, s, c).value;
              && t.result == (if c.trace[0].Time() > cfg.timeLimit then TimeLimit else MemoryLimit)
              && t.filter.inSyscall == s.filter.inSyscall
              && t.timeUsage <= cfg.timeLimit && t.memoryUsage > cfg.memoryLimit
              && IsPeak(t.memoryUsage, s.memoryUsage, [c.trace[0].maxrss])
              && IsPeak(t.timeUsage, s.timeUsage, [if t.result == TimeLimit then cfg.timeLimit else c.trace[0].Time()])
  {
    hide OutputResult, IsPeak;
    if c.trace != [] {
      var t := JudgeCase(cfg, s, c).value;
      OnePeak(s.memoryUsage, c.trace[0].maxrss);
      OnePeak(s.timeUsage, if t.result == TimeLimit then cfg.timeLimit else c.trace[0].Time());
    }
  }

  lemma OnePeak(base: nat, value: nat)
    ensures IsPeak(Max(base, value), base, [value])
  {
    assert [value][0] == value;
  }

  // ---------- the phase bit between cases ----------

  function TrapIds(trace: seq<Event>): seq<int> {
    if trace == [] then []
    else (if trace[0].IsTrap() then [trace[0].status.syscallId] else []) + TrapIds(trace[1..])
  }

  // The tracer's loop, started before event i with the filter f, ends at event e: the first one that is no trap, at
  // which the memory limit is exceeded, or at which the filter refuses a call.
  ghost predicate LoopEndsAt(cfg: Config, f: Filter, c: Case, i: nat, e: nat) {
    && |f.quota| == TABLE_SIZE && i <= e < |c.trace|
    && (forall k :: i <= k < e ==> c.trace[k].IsTraced() && c.trace[k].maxrss <= cfg.memoryLimit)
    && InTable(TrapIds(c.trace[i..e])) && Traps(f, TrapIds(c.trace[i..e])).1
    && (c.trace[e].IsTrap() && c.trace[e].maxrss <= cfg.memoryLimit ==>
          && c.trace[e].status.ptrace != GetRegsFails
          && InTable(TrapIds(c.trace[i..e + 1])) && !Traps(f, TrapIds(c.trace[i..e + 1])).1)
  }

  // The events up to the end that are shown to the filter.
  function Shown(cfg: Config, c: Case, i: nat, e: nat): seq<Event>
    requires i <= e < |c.trace|
  {
    if c.trace[e].IsTrap() && c.trace[e].maxrss <= cfg.memoryLimit then c.trace[i..e + 1] else c.trace[i..e]
  }

  // The verdict when the loop ends, before the checks that follow it.
  function EventResult(cfg: Config, sofar: Result, c: Case, ev: Event): Result {
    if ev.IsTrap() then if ev.maxrss > cfg.memoryLimit then MemoryLimit else RestrictedFunction
    else
      match ev.status
      case Exited(_) => if NormalExit(cfg, ev) then Merge(sofar, OutputResult(cfg, c)) else RuntimeError
      case Signaled(signo) => SignalResult(signo)
      case Stopped(signo, _, _) => SignalResult(signo)
  }

  lemma {:induction false} TraceEndsAt(cfg: Config, s: Solution, c: Case, i: nat) returns (e: nat)
    requires |s.filter.quota| == TABLE_SIZE && ValidCase(c) && i <= |c.trace| && s.memoryUsage <= cfg.memoryLimit
    requires Trace(cfg, s, c, i).Ended?
    ensures i <= e < |c.trace| && LoopEndsAt(cfg, s.filter, c, i, e) && InTable(TrapIds(Shown(cfg, c, i, e)))
    ensures
      var end := Trace(cfg, s, c, i);
      && end.last == c.trace[e] && end.s.result == EventResult(cfg, s.result, c, c.trace[e])
      && end.s.filter == Traps(s.filter, TrapIds(Shown(cfg, c, i, e))).0
      && end.s.timeUsage == s.timeUsage && (end.s.memoryUsage > cfg.memoryLimit ==> end.last.maxrss > cfg.memoryLimit)
      && IsPeak(Max(end.s.memoryUsage, end.last.maxrss), s.memoryUsage, Maxrss(c.trace[i..e + 1]))
    decreases |c.trace| - i
  {
    hide OutputResult, Merge, LoopEndsAt, IsPeak, Traps, TrapIds, Shown;
    e := i;
    if c.trace[i].IsTrap() && c.trace[i].maxrss <= cfg.memoryLimit {
      var id := c.trace[i].status.syscallId;
      var t := s.(memoryUsage := Max(s.memoryUsage, c.trace[i].maxrss));
      var (filter, valid) := Trap(t.filter, id);
      if valid {
        e := TraceEndsAt(cfg, t.(filter := filter), c, i + 1);
        EndsLater(cfg, s.filter, c, i, e);
        var end := Trace(cfg, s, c, i);
        PeakCons(Max(end.s.memoryUsage, end.last.maxrss), s.memoryUsage, c.trace[i].maxrss, Maxrss(c.trace[i + 1..e + 1]));
        assert Maxrss(c.trace[i..e + 1]) == [c.trace[i].maxrss] + Maxrss(c.trace[i + 1..e + 1]);
        return;
      }
    }
    EndsHere(cfg, s.filter, c, i);
    OnePeak(s.memoryUsage, c.trace[i].maxrss);
    assert Maxrss(c.trace[i..i + 1]) == [c.trace[i].maxrss];
  }

  lemma EndsHere(cfg: Config, f: Filter, c: Case, i: nat)
    requires |f.quota| == TABLE_SIZE && ValidCase(c) && i < |c.trace|
    requires
      var ev := c.trace[i];
      ev.IsTrap() && ev.maxrss <= cfg.memoryLimit ==> ev.status.ptrace != GetRegsFails && !Trap(f, ev.status.syscallId).1
    ensures LoopEndsAt(cfg, f, c, i, i) && InTable(TrapIds(Shown(cfg, c, i, i)))
    ensures
      var ev := c.trace[i];
      Traps(f, TrapIds(Shown(cfg, c, i, i))).0 == if ev.IsTrap() && ev.maxrss <= cfg.memoryLimit then Trap(f, ev.status.syscallId).0 else f
  {
    assert c.trace[i..i] == [];
    if c.trace[i].IsTrap() {
      assert c.trace[i..i + 1][1..] == [];
      assert TrapIds(c.trace[i..i + 1]) == [c.trace[i].status.syscallId];
    }
  }

  lemma EndsLater(cfg: Config, f: Filter, c: Case, i: nat, e: nat)
    requires |f.quota| == TABLE_SIZE && ValidCase(c) && i < e < |c.trace|
    requires c.trace[i].IsTraced() && c.trace[i].maxrss <= cfg.memoryLimit && Trap(f, c.trace[i].status.syscallId).1
    requires LoopEndsAt(cfg, Trap(f, c.trace[i].status.syscallId).0, c, i + 1, e) && InTable(TrapIds(Shown(cfg, c, i + 1, e)))
    ensures LoopEndsAt(cfg, f, c, i, e) && InTable(TrapIds(Shown(cfg, c, i, e)))
    ensures Traps(f, TrapIds(Shown(cfg, c, i, e))) == Traps(Trap(f, c.trace[i].status.syscallId).0, TrapIds(Shown(cfg, c, i + 1, e)))
  {
    hide Trap, Traps, TrapIds;
    OneMoreTrap(f, c.trace[i], c.trace[i + 1..e]);
    assert c.trace[i..e] == [c.trace[i]] + c.trace[i + 1..e];
    if c.trace[e].IsTrap() && c.trace[e].maxrss <= cfg.memoryLimit {
      OneMoreTrap(f, c.trace[i], c.trace[i + 1..e + 1]);
      assert c.trace[i..e + 1] == [c.trace[i]] + c.trace[i + 1..e + 1];
    }
  }

  lemma OneMoreTrap(f: Filter, ev: Event, rest: seq<Event>)
    requires |f.quota| == TABLE_SIZE && ev.IsTrap() && ev.status.syscallId < TABLE_SIZE && InTable(TrapIds(rest))
    requires Trap(f, ev.status.syscallId).1
    ensures InTable(TrapIds([ev] + rest))
    ensures Traps(f, TrapIds([ev] + rest)) == Traps(Trap(f, ev.status.syscallId).0, TrapIds(rest))
  {
    hide Trap;
    assert ([ev] + rest)[1..] == rest;
    assert TrapIds([ev] + rest) == [ev.status.syscallId] + TrapIds(rest);
    assert TrapIds([ev] + rest)[1..] == TrapIds(rest);
  }

  // What the checks after the loop make of it.
  function FinalResult(cfg: Config, c: Case, ev: Event): Result {
    if ev.Time() > cfg.timeLimit then TimeLimit
    else if ev.maxrss > cfg.memoryLimit then MemoryLimit
    else FixedResult(cfg, EventResult(cfg, Accepted, c, ev), c)
  }

  // A case judged alone: the event that ends it decides the verdict, and the phase bit tells the parity of the stops
  // that were shown to the filter.
  lemma CaseEndsAt(cfg: Config, inSyscall: bool, c: Case) returns (e: nat)
    requires cfg.Valid() && ValidCase(c) && JudgeAloneIn(cfg, inSyscall, c).Some?
    ensures e < |c.trace| && LoopEndsAt(cfg, Filter(cfg.CaseQuota(), inSyscall), c, 0, e) && InTable(TrapIds(Shown(cfg, c, 0, e)))
    ensures Trace(cfg, AloneIn(cfg, inSyscall), c, 0).Ended? && Trace(cfg, AloneIn(cfg, inSyscall), c, 0).last == c.trace[e]
    ensures
      var one, ids := JudgeAloneIn(cfg, inSyscall, c).value, TrapIds(Shown(cfg, c, 0, e));
      && one.result == FinalResult(cfg, c, c.trace[e])
      && one.filter == Traps(Filter(cfg.CaseQuota(), inSyscall), ids).0
      && one.filter.inSyscall == (if |Positive(ids)| % 2 == 0 then inSyscall else !inSyscall)
      && one.timeUsage == (if one.result == TimeLimit then cfg.timeLimit else c.trace[e].Time())
      && (if one.result == MemoryLimit && c.trace[e].maxrss <= cfg.memoryLimit then one.memoryUsage == cfg.memoryLimit * 1024
          else IsPeak(one.memoryUsage, 0, Maxrss(c.trace[..e + 1])))
  {
    hide OutputResult, FixedResult, Traps, IsPeak, Trace;
    var a := AloneIn(cfg, inSyscall);
    assert Start(cfg, a) == a;
    e := TraceEndsAt(cfg, a, c, 0);
    var shown, f := Shown(cfg, c, 0, e), a.filter;
    if shown != c.trace[0..e] {
      assert shown == c.trace[0..e] + [c.trace[e]];
      TrapIdsSnoc(c.trace[0..e], c.trace[e]);
      assert TrapIds(shown)[..|TrapIds(shown)| - 1] == TrapIds(c.trace[0..e]);
    }
    TrapsParity(f, TrapIds(shown));
    assert c.trace[0..e + 1] == c.trace[..e + 1];
    FinalOf(cfg, c, Trace(cfg, a, c, 0).s, c.trace[e]);
  }

  lemma FinalOf(cfg: Config, c: Case, s: Solution, last: Event)
    requires s.timeUsage == 0 && (s.memoryUsage > cfg.memoryLimit ==> last.maxrss > cfg.memoryLimit)
    requires s.result == EventResult(cfg, Accepted, c, last)
    ensures FixUp(cfg, Settle(cfg, s, last), c).result == FinalResult(cfg, c, last)
    ensures
      var t := FixUp(cfg, Settle(cfg, s, last), c);
      && t.filter == s.filter
      && t.timeUsage == (if t.result == TimeLimit then cfg.timeLimit else last.Time())
      && t.memoryUsage == if t.result == MemoryLimit && last.maxrss <= cfg.memoryLimit then cfg.memoryLimit * 1024 else Max(s.memoryUsage, last.maxrss)
  {
    hide OutputResult;
    OutputVerdicts(cfg, c);
  }

  lemma {:induction false} TrapIdsSnoc(trace: seq<Event>, ev: Event)
    ensures TrapIds(trace + [ev]) == TrapIds(trace) + if ev.IsTrap() then [ev.status.syscallId] else []
  {
    if trace == [] {
      assert trace + [ev] == [ev];
      assert [ev][1..] == [];
    } else {
      var first := if trace[0].IsTrap() then [trace[0].status.syscallId] else [];
      assert (trace + [ev])[0] == trace[0] && (trace + [ev])[1..] == trace[1..] + [ev];
      assert TrapIds(trace + [ev]) == first + TrapIds(trace[1..] + [ev]);
      TrapIdsSnoc(trace[1..], ev);
    }
  }

  lemma {:induction false} TrapIdsConcat(a: seq<Event>, b: seq<Event>)
    ensures TrapIds(a + b) == TrapIds(a) + TrapIds(b)
  {
    if b == [] {
      assert a + b == a;
    } else {
      var front, ev := b[..|b| - 1], b[|b| - 1];
      assert a + b == (a + front) + [ev] && b == front + [ev];
      TrapIdsSnoc(a + front, ev);
      TrapIdsSnoc(front, ev);
      TrapIdsConcat(a, front);
    }
  }

  // Ends that the tracer can take for a success: an exit, and SIGCHLD.
  predicate MaySucceed(status: Status) {
    match status
    case Exited(_) => true
    case Signaled(signo) => signo == SIGCHLD
    case Stopped(signo, _, _) => signo == SIGCHLD
  }

  // At such an end, an even number of stops has been shown to the filter.
  ghost predicate EvenAtSuccess(c: Case) {
    forall n :: 0 <= n < |c.trace| && MaySucceed(c.trace[n].status) && (forall k :: 0 <= k < n ==> c.trace[k].IsTrap()) ==>
                  |Positive(TrapIds(c.trace[..n]))| % 2 == 0
  }

  lemma AcceptedPhase(cfg: Config, inSyscall: bool, c: Case)
    requires cfg.Valid() && ValidCase(c) && EvenAtSuccess(c)
    requires JudgeAloneIn(cfg, inSyscall, c).Some? && JudgeAloneIn(cfg, inSyscall, c).value.result == Accepted
    ensures JudgeAloneIn(cfg, inSyscall, c).value.filter.inSyscall == inSyscall
  {
    hide OutputResult, JudgeCase, Traps, Merge;
    var e := CaseEndsAt(cfg, inSyscall, c);
    assert MaySucceed(c.trace[e].status);
    assert c.trace[0..e] == c.trace[..e];
  }

  lemma AcceptedWithin(cfg: Config, s: Solution, c: Case)
    requires cfg.Valid() && ValidCase(c) && s.timeUsage <= cfg.timeLimit
    requires JudgeCase(cfg, s, c).Some? && JudgeCase(cfg, s, c).value.result == Accepted
    ensures JudgeCase(cfg, s, c).value.timeUsage <= cfg.timeLimit && JudgeCase(cfg, s, c).value.memoryUsage <= cfg.memoryLimit
  {
    hide Trace, Quota;
  }

  lemma AcceptedCaseIsReady(cfg: Config, s: Solution, c: Case)
    requires cfg.Valid() && ValidCase(c) && EvenAtSuccess(c)
    requires Ready(cfg, s) && s.result == Accepted && JudgeCase(cfg, s, c).Some? && JudgeCase(cfg, s, c).value.result == Accepted
    ensures Ready(cfg, JudgeCase(cfg, s, c).value)
  {
    hide JudgeCase;
    AcceptedWithin(cfg, s, c);
    CaseAfterAccepted(cfg, s, c);
    AcceptedPhase(cfg, true, c);
  }
}
