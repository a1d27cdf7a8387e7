// What the end of a case stands for, language by language and number by number.

module CaseEnds {
  import opened Comparator
  import opened Judge
  import opened JudgeCore
  import opened JudgeRuns
  import opened SyscallQuota
  import opened Syscalls

  // The verdict on what a program wrote: by the exit code of the special judge, or by comparison.
  ghost predicate OutputIs(cfg: Config, c: Case, result: Result) {
    if cfg.spj then
      && (result == Accepted <==> c.spjEnd == SpjExited(0))
      && (result == PresentationError <==> c.spjEnd == SpjExited(1))
      && (result == WrongAnswer <==> c.spjEnd == SpjExited(2))
      && (result == ValidatorError <==> c.spjEnd !in {SpjExited(0), SpjExited(1), SpjExited(2)})
    else
      var s, t := DropCR(c.expected), DropCR(c.actual);
      && (result == WrongAnswer <==> NonSpace(s) != NonSpace(t))
      && (result == Accepted <==> NonSpace(s) == NonSpace(t) && SameUpToTail(s, t))
      && (result == PresentationError <==> NonSpace(s) == NonSpace(t) && !SameUpToTail(s, t))
  }

  // The verdict on a wrong answer once the files have been searched.
  ghost predicate WrongAnswerIs(lang: int, c: Case, result: Result) {
    if lang == LANG_JAVA then
      var memory, exception := c.java.outOfMemoryInStderr || c.java.outOfMemoryInStdout, c.java.exceptionInStderr || c.java.couldNotCreateInStderr;
      && (result == MemoryLimit <==> memory)
      && (result == RuntimeError <==> !memory && exception)
      && (result == WrongAnswer <==> !memory && !exception)
    else
      && (result == RuntimeError <==> lang in {LANG_PYTHON27, LANG_PYTHON3} && c.stderrNonEmpty)
      && (result == WrongAnswer <==> !(lang in {LANG_PYTHON27, LANG_PYTHON3} && c.stderrNonEmpty))
  }

  // The exit code counts for Java and Kotlin, and for no other language.
  ghost predicate ExitIs(cfg: Config, c: Case, code: nat, result: Result) {
    if cfg.lang in {LANG_JAVA, LANG_KOTLIN} && code != 0 then result == RuntimeError
    else if OutputIs(cfg, c, WrongAnswer) then WrongAnswerIs(cfg.lang, c, result)
    else OutputIs(cfg, c, result)
  }

  // The numbers of the signals: 14 is SIGALRM, 17 is SIGCHLD, 24 is SIGXCPU, 25 is SIGXFSZ, 26 is SIGVTALRM.
  predicate SignalIs(signo: nat, result: Result) {
    && (result == TimeLimit <==> signo in {14, 24, 26})
    && (result == OutputLimit <==> signo == 25)
    && (result == Accepted <==> signo == 17)
    && (result == RuntimeError <==> signo !in {14, 17, 24, 25, 26})
  }

  // A stop for signal 5, SIGTRAP, is no end.
  ghost predicate StandsFor(cfg: Config, c: Case, status: Status, result: Result) {
    match status
    case Exited(code) => ExitIs(cfg, c, code, result)
    case Signaled(signo) => SignalIs(signo, result)
    case Stopped(signo, _, _) => signo != 5 && SignalIs(signo, result)
  }

  lemma EndStandsFor(cfg: Config, c: Case, ev: Event)
    requires !ev.IsTrap()
    ensures StandsFor(cfg, c, ev.status, FixedResult(cfg, EventResult(cfg, Accepted, c, ev), c))
  {
    hide NonSpace, DropCR, SameUpToTail;
  }

  lemma VerdictIsUnique(cfg: Config, c: Case, status: Status, a: Result, b: Result)
    requires StandsFor(cfg, c, status, a)
    ensures a != RestrictedFunction
    ensures StandsFor(cfg, c, status, b) ==> a == b
  {
    hide NonSpace, DropCR, SameUpToTail;
  }

  // ---------- whether there is an end ----------

  lemma {:induction false} EndsIfAt(cfg: Config, s: Solution, c: Case, i: nat, e: nat)
    requires |s.filter.quota| == TABLE_SIZE && ValidCase(c) && s.memoryUsage <= cfg.memoryLimit
    requires LoopEndsAt(cfg, s.filter, c, i, e)
    ensures Trace(cfg, s, c, i).Ended?
    decreases e - i
  {
    hide OutputResult, Merge, Traps, TrapIds;
    if i < e {
      var t := s.(memoryUsage := Max(s.memoryUsage, c.trace[i].maxrss));
      EndsSooner(cfg, s.filter, c, i, e);
      EndsIfAt(cfg, t.(filter := Trap(s.filter, c.trace[i].status.syscallId).0), c, i + 1, e);
    } else {
      RefusedHere(cfg, s.filter, c, i);
    }
  }

  lemma RefusedHere(cfg: Config, f: Filter, c: Case, i: nat)
    requires ValidCase(c) && LoopEndsAt(cfg, f, c, i, i)
    ensures c.trace[i].IsTrap() && c.trace[i].maxrss <= cfg.memoryLimit ==> c.trace[i].status.ptrace != GetRegsFails && !Trap(f, c.trace[i].status.syscallId).1
  {
    if c.trace[i].IsTrap() && c.trace[i].maxrss <= cfg.memoryLimit {
      assert c.trace[i..i + 1] == [c.trace[i]] + [];
      FirstTrap(f, c.trace[i], []);
    }
  }

  lemma EndsSooner(cfg: Config, f: Filter, c: Case, i: nat, e: nat)
    requires |f.quota| == TABLE_SIZE && ValidCase(c) && i < e && LoopEndsAt(cfg, f, c, i, e)
    ensures Trap(f, c.trace[i].status.syscallId).1
    ensures LoopEndsAt(cfg, Trap(f, c.trace[i].status.syscallId).0, c, i + 1, e)
  {
    FirstTrap(f, c.trace[i], c.trace[i + 1..e]);
    assert c.trace[i..e] == [c.trace[i]] + c.trace[i + 1..e];
    if c.trace[e].IsTrap() && c.trace[e].maxrss <= cfg.memoryLimit {
      FirstTrap(f, c.trace[i], c.trace[i + 1..e + 1]);
      assert c.trace[i..e + 1] == [c.trace[i]] + c.trace[i + 1..e + 1];
    }
  }

  lemma FirstTrap(f: Filter, ev: Event, rest: seq<Event>)
    requires |f.quota| == TABLE_SIZE && ev.IsTrap() && InTable(TrapIds([ev] + rest))
    ensures InTable(TrapIds(rest)) && ev.status.syscallId < TABLE_SIZE
    ensures
      var (g, ok) := Trap(f, ev.status.syscallId);
      Traps(f, TrapIds([ev] + rest)) == if ok then Traps(g, TrapIds(rest)) else (g, false)
  {
    hide Trap;
    var ids := TrapIds([ev] + rest);
    assert ([ev] + rest)[1..] == rest;
    assert ids == [ev.status.syscallId] + TrapIds(rest);
    assert ids[0] == ev.status.syscallId && ids[1..] == TrapIds(rest);
    assert forall k :: 0 <= k < |TrapIds(rest)| ==> TrapIds(rest)[k] == ids[k + 1];
  }

  // The judge survives a case exactly if an event ends it: otherwise wait4 fails, or ptrace at a stop that has to go on.
  lemma SurvivesIff(cfg: Config, inSyscall: bool, c: Case)
    requires cfg.Valid() && ValidCase(c)
    ensures JudgeAloneIn(cfg, inSyscall, c).Some? <==> exists e :: LoopEndsAt(cfg, Filter(cfg.CaseQuota(), inSyscall), c, 0, e)
  {
    hide LoopEndsAt, Trace, IsPeak, FinalResult;
    var a := AloneIn(cfg, inSyscall);
    assert Start(cfg, a) == a;
    if JudgeAloneIn(cfg, inSyscall, c).Some? {
      var e := CaseEndsAt(cfg, inSyscall, c);
    }
    if e: nat :| LoopEndsAt(cfg, a.filter, c, 0, e) {
      EndsIfAt(cfg, a, c, 0, e);
    }
  }

  // There is at most one such event.
  lemma EndIsUnique(cfg: Config, f: Filter, c: Case, e: nat, e': nat)
    requires ValidCase(c) && LoopEndsAt(cfg, f, c, 0, e) && LoopEndsAt(cfg, f, c, 0, e')
    ensures e == e'
  {
    if e < e' {
      EndIsFirst(cfg, f, c, e, e');
    } else if e' < e {
      EndIsFirst(cfg, f, c, e', e);
    }
  }

  lemma {:induction false} EndIsFirst(cfg: Config, f: Filter, c: Case, e: nat, e': nat)
    requires ValidCase(c) && LoopEndsAt(cfg, f, c, 0, e) && LoopEndsAt(cfg, f, c, 0, e')
    ensures e >= e'
  {
    if e < e' {
      LaterRefused(f, c, e + 1, e');
    }
  }

  lemma LaterRefused(f: Filter, c: Case, m: nat, n: nat)
    requires |f.quota| == TABLE_SIZE && m <= n <= |c.trace| && InTable(TrapIds(c.trace[0..n])) && Traps(f, TrapIds(c.trace[0..n])).1
    ensures InTable(TrapIds(c.trace[0..m])) && Traps(f, TrapIds(c.trace[0..m])).1
  {
    hide Traps;
    var a, b := TrapIds(c.trace[0..m]), TrapIds(c.trace[m..n]);
    assert c.trace[0..n] == c.trace[0..m] + c.trace[m..n];
    TrapIdsConcat(c.trace[0..m], c.trace[m..n]);
    assert forall k :: 0 <= k < |a| ==> a[k] == (a + b)[k];
    assert forall k :: 0 <= k < |b| ==> b[k] == (a + b)[|a| + k];
    TrapsConcat(f, a, b);
  }

  // User time is rounded down to milliseconds.
  lemma TimeOfEvent(ev: Event)
    ensures 1000 * ev.Time() <= 1000000 * ev.utimeSec + ev.utimeUsec < 1000 * (ev.Time() + 1)
  {
  }

  // The verdict on a case judged alone, in either phase: the event that ends it decides.
  lemma CaseVerdict(cfg: Config, inSyscall: bool, c: Case) returns (e: nat)
    requires cfg.Valid() && ValidCase(c) && JudgeAloneIn(cfg, inSyscall, c).Some?
    ensures e < |c.trace| && LoopEndsAt(cfg, Filter(cfg.CaseQuota(), inSyscall), c, 0, e)
    ensures
      var result, ev := JudgeAloneIn(cfg, inSyscall, c).value.result, c.trace[e];
      if ev.Time() > cfg.timeLimit then result == TimeLimit
      else if ev.maxrss > cfg.memoryLimit then result == MemoryLimit
      else if ev.status.Stopped? && ev.status.signo == 5 then result == RestrictedFunction
      else StandsFor(cfg, c, ev.status, result)
  {
    hide JudgeCase, StandsFor, LoopEndsAt, FixedResult, EventResult, OutputResult;
    e := CaseEndsAt(cfg, inSyscall, c);
    var ev := c.trace[e];
    if !ev.IsTrap() {
      EndStandsFor(cfg, c, ev);
    } else if ev.maxrss <= cfg.memoryLimit {
      Refused(cfg, c, ev);
    }
  }

  lemma Refused(cfg: Config, c: Case, ev: Event)
    requires ev.IsTrap() && ev.maxrss <= cfg.memoryLimit
    ensures FixedResult(cfg, EventResult(cfg, Accepted, c, ev), c) == RestrictedFunction
  {
  }

  // What the usage of a case judged alone is.  A Java program that a fix-up finds to lack memory is charged 1024 times
  // its limit; the peak of all other cases goes up to the event that ends them, that event included.
  lemma CaseUsage(cfg: Config, inSyscall: bool, c: Case) returns (e: nat)
    requires cfg.Valid() && ValidCase(c) && JudgeAloneIn(cfg, inSyscall, c).Some?
    ensures e < |c.trace| && LoopEndsAt(cfg, Filter(cfg.CaseQuota(), inSyscall), c, 0, e)
    ensures
      var one := JudgeAloneIn(cfg, inSyscall, c).value;
      && one.timeUsage == (if one.result == TimeLimit then cfg.timeLimit else c.trace[e].Time())
      && (if one.result == MemoryLimit && c.trace[e].maxrss <= cfg.memoryLimit then
            one.memoryUsage == 1024 * cfg.memoryLimit && cfg.lang == LANG_JAVA && c.trace[e].status.Exited?
          else
            && (forall k :: 0 <= k <= e ==> c.trace[k].maxrss <= one.memoryUsage)
            && (exists k :: 0 <= k <= e && c.trace[k].maxrss == one.memoryUsage))
  {
    e := CaseEndsAt(cfg, inSyscall, c);
    hide JudgeCase, LoopEndsAt, FinalResult, Trace, Traps, TrapIds, Shown, Positive, IsPeak, Maxrss;
    var one := JudgeAloneIn(cfg, inSyscall, c).value;
    if one.result == MemoryLimit && c.trace[e].maxrss <= cfg.memoryLimit {
      ChargedForJava(cfg, c, c.trace[e]);
    } else {
      PeakOfTrace(one.memoryUsage, c, e);
    }
  }

  lemma ChargedForJava(cfg: Config, c: Case, ev: Event)
    requires FinalResult(cfg, c, ev) == MemoryLimit && ev.maxrss <= cfg.memoryLimit
    ensures cfg.lang == LANG_JAVA && ev.status.Exited?
  {
    hide OutputResult;
    OutputVerdicts(cfg, c);
  }

  lemma PeakOfTrace(m: nat, c: Case, e: nat)
    requires e < |c.trace| && IsPeak(m, 0, Maxrss(c.trace[..e + 1]))
    ensures forall k :: 0 <= k <= e ==> c.trace[k].maxrss <= m
    ensures exists k :: 0 <= k <= e && c.trace[k].maxrss == m
  {
    var values := Maxrss(c.trace[..e + 1]);
    assert forall k :: 0 <= k <= e ==> values[k] == c.trace[k].maxrss;
    assert m == 0 ==> c.trace[0].maxrss == m;
    assert m > 0 ==> exists k :: 0 <= k < |values| && m == values[k];
  }

  // An earlier verdict matters to a case only if it is a presentation error, and the case exits normally with an
  // output that is not wrong.
  lemma EarlierVerdict(cfg: Config, s: Solution, c: Case) returns (e: nat)
    requires cfg.Valid() && ValidCase(c) && JudgeAloneIn(cfg, s.filter.inSyscall, c).Some?
    requires s.timeUsage <= cfg.timeLimit && s.memoryUsage <= cfg.memoryLimit
    ensures e < |c.trace| && LoopEndsAt(cfg, Filter(cfg.CaseQuota(), s.filter.inSyscall), c, 0, e)
    ensures JudgeCase(cfg, s, c).Some?
    ensures
      var alone, status := JudgeAloneIn(cfg, s.filter.inSyscall, c).value.result, c.trace[e].status;
      JudgeCase(cfg, s, c).value.result ==
      if s.result == PresentationError && status.Exited? && alone in {Accepted, PresentationError, ValidatorError} then PresentationError else alone
  {
    hide JudgeCase, LoopEndsAt, OutputResult;
    CaseAfter(cfg, s, c);
    OutputVerdicts(cfg, c);
    e := CaseEndsAt(cfg, s.filter.inSyscall, c);
    if IsMerged(cfg, s.filter.inSyscall, c) {
      MergedAlone(cfg, s.filter.inSyscall, c);
    }
    MemoryAtEnd(cfg, s.filter.inSyscall, c);
  }

  lemma MemoryAtEnd(cfg: Config, inSyscall: bool, c: Case)
    requires cfg.Valid() && ValidCase(c) && Trace(cfg, AloneIn(cfg, inSyscall), c, 0).Ended?
    ensures
      var end := Trace(cfg, AloneIn(cfg, inSyscall), c, 0);
      end.s.memoryUsage > cfg.memoryLimit ==> end.last.maxrss > cfg.memoryLimit
  {
    hide Trace, LoopEndsAt, EventResult, IsPeak;
    var e := TraceEndsAt(cfg, AloneIn(cfg, inSyscall), c, 0);
  }
}
