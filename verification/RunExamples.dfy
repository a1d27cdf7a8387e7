// Concrete runs outside ACM mode in which a later case hides a failed one, or is failed by it.

module RunExamples {
  import opened CaseProtocol
  import opened Comparator
  import opened Judge
  import opened JudgeCore
  import opened JudgeRuns
  import opened RunVerdicts
  import opened Sequences
  import opened SyscallQuota
  import opened Syscalls
  import opened Wrappers

  const NOTHING_FOUND := JavaOutput(false, false, false, false)

  // A program that ends at its first event, with no memory used.
  function Ends(status: Status, utimeSec: nat, expected: seq<Byte>, actual: seq<Byte>): Case {
    Case([Event(status, 0, utimeSec, 0)], expected, actual, SpjOther, NOTHING_FOUND, false)
  }

  lemma EndsAtOnce(cfg: Config, s: Solution, c: Case)
    requires cfg.Valid() && ValidCase(c) && |c.trace| == 1 && c.trace[0].maxrss == 0 && !c.trace[0].IsTrap()
    requires c.java == NOTHING_FOUND && !c.stderrNonEmpty
    requires s.memoryUsage == 0 && s.timeUsage <= cfg.timeLimit
    ensures
      var ev := c.trace[0];
      JudgeCase(cfg, s, c) == Some(s.(
        result :=
          if ev.Time() > cfg.timeLimit then TimeLimit
          else if !ev.status.Exited? then SignalResult(ev.status.signo)
          else if NormalExit(cfg, ev) then Merge(s.result, OutputResult(cfg, c))
          else RuntimeError,
        timeUsage :=
          if ev.Time() > cfg.timeLimit || (!ev.status.Exited? && SignalResult(ev.status.signo) == TimeLimit) then cfg.timeLimit
          else Max(s.timeUsage, ev.Time()),
        filter := Filter(cfg.CaseQuota(), s.filter.inSyscall)))
  {
    hide OutputResult, Quota;
    OutputVerdicts(cfg, c);
  }

  const A: Byte := 65
  const B: Byte := 66
  const GOOD := Ends(Exited(EXIT_SUCCESS), 0, [A], [A])
  const WRONG := Ends(Exited(EXIT_SUCCESS), 0, [A], [B])
  const MISFORMATTED := Ends(Exited(EXIT_SUCCESS), 0, [A], [SPACE, A])
  const CRASHED := Ends(Signaled(11), 0, [A], [])

  lemma Outputs(cfg: Config)
    requires !cfg.spj
    ensures OutputResult(cfg, GOOD) == Accepted && OutputResult(cfg, WRONG) == WrongAnswer && OutputResult(cfg, MISFORMATTED) == PresentationError
  {
    Visible(A);
    Visible(B);
    assert [SPACE, A][1..] == [A];
    assert NonSpace([SPACE, A]) == NonSpace([A]);
    assert DropCR([SPACE, A]) == [SPACE] + DropCR([A]) == [SPACE, A];
    assert [SPACE, A][0] != [A][0];
    assert [A][|[A]|..] == [];
  }

  lemma Visible(b: Byte)
    requires b == A || b == B
    ensures DropCR([b]) == NonSpace([b]) == [b]
  {
    assert [b][1..] == [];
  }

  lemma Prints(cfg: Config, s: Solution, expected: seq<Byte>, actual: seq<Byte>)
    requires cfg.Valid() && s.memoryUsage == 0 && s.timeUsage <= cfg.timeLimit
    ensures
      var c := Ends(Exited(EXIT_SUCCESS), 0, expected, actual);
      ValidCase(c) && JudgeCase(cfg, s, c) == Some(s.(result := Merge(s.result, OutputResult(cfg, c)), filter := Filter(cfg.CaseQuota(), s.filter.inSyscall)))
  {
    hide OutputResult, JudgeCase, Quota;
    EndsAtOnce(cfg, s, Ends(Exited(EXIT_SUCCESS), 0, expected, actual));
  }

  lemma Crashes(cfg: Config, s: Solution)
    requires cfg.Valid() && s.memoryUsage == 0 && s.timeUsage <= cfg.timeLimit
    ensures ValidCase(CRASHED) && JudgeCase(cfg, s, CRASHED) == Some(s.(result := RuntimeError, filter := Filter(cfg.CaseQuota(), s.filter.inSyscall)))
  {
    hide OutputResult, JudgeCase, Quota;
    EndsAtOnce(cfg, s, CRASHED);
  }

  lemma FirstOf(cfg: Config, s: Solution, c: Case, rest: seq<Case>)
    requires cfg.Valid() && ValidCase(c) && ValidCases(rest) && cfg.judgeType != ACM && JudgeCase(cfg, s, c).Some?
    ensures ValidCases([c] + rest)
    ensures
      var t := JudgeCase(cfg, s, c).value;
      RunCases(cfg, s, [c] + rest) == Run([t] + RunCases(cfg, t, rest).history, RunCases(cfg, t, rest).aborted)
  {
    hide JudgeCase;
    assert ([c] + rest)[1..] == rest;
  }

  // A wrong answer, and then an accepted case: the run is reported as accepted.
  lemma WrongAnswerHidden(cfg: Config)
    requires cfg.Valid() && cfg.judgeType != ACM && !cfg.spj
    ensures ValidCase(WRONG) && ValidCase(GOOD)
    ensures ReportOn(AloneIn(cfg, true), RunCases(cfg, AloneIn(cfg, true), [WRONG, GOOD])) == Some(Report(Accepted, 0, 0, 1))
  {
    hide OutputResult, JudgeCase, RunCases, Quota;
    var s := AloneIn(cfg, true);
    Outputs(cfg);
    Prints(cfg, s, [A], [B]);
    Prints(cfg, s.(result := WrongAnswer), [A], [A]);
    RunOfTwo(cfg, s, WRONG, GOOD);
  }

  // A case over its time limit, and then an accepted one: only the time tells.
  lemma TimeLimitHidden(cfg: Config)
    requires cfg.Valid() && cfg.judgeType != ACM && !cfg.spj
    ensures
      var slow := Ends(Exited(EXIT_SUCCESS), cfg.timeLimit + 1, [A], [A]);
      && ValidCase(slow) && ValidCase(GOOD)
      && ReportOn(AloneIn(cfg, true), RunCases(cfg, AloneIn(cfg, true), [slow, GOOD])) == Some(Report(Accepted, cfg.timeLimit, 0, 1))
  {
    hide OutputResult, JudgeCase, RunCases, Quota;
    var s, slow := AloneIn(cfg, true), Ends(Exited(EXIT_SUCCESS), cfg.timeLimit + 1, [A], [A]);
    Outputs(cfg);
    assert slow.trace[0].Time() > cfg.timeLimit;
    EndsAtOnce(cfg, s, slow);
    Prints(cfg, s.(result := TimeLimit, timeUsage := cfg.timeLimit), [A], [A]);
    RunOfTwo(cfg, s, slow, GOOD);
  }

  // A presentation error, a crash, and then an accepted case: no wrong answer, and yet the run is accepted.
  lemma PresentationErrorHidden(cfg: Config)
    requires cfg.Valid() && cfg.judgeType != ACM && !cfg.spj
    ensures ValidCases([MISFORMATTED, CRASHED, GOOD])
    ensures ReportOn(AloneIn(cfg, true), RunCases(cfg, AloneIn(cfg, true), [MISFORMATTED, CRASHED, GOOD])) == Some(Report(Accepted, 0, 0, 1))
  {
    hide OutputResult, JudgeCase, RunCases, Quota;
    var s := AloneIn(cfg, true);
    Outputs(cfg);
    Prints(cfg, s, [A], [SPACE, A]);
    var t := s.(result := PresentationError);
    Crashes(cfg, t);
    Prints(cfg, s.(result := RuntimeError), [A], [A]);
    RunOfTwo(cfg, t, CRASHED, GOOD);
    FirstOf(cfg, s, MISFORMATTED, [CRASHED, GOOD]);
    assert [MISFORMATTED] + [CRASHED, GOOD] == [MISFORMATTED, CRASHED, GOOD];
  }

  // ---------- the phase bit with a concrete table ----------

  const SYS_EXECVE := 59
  const SYS_UNAME := 63
  const SYS_EXIT_GROUP := 231

  function StopAt(id: int): Event {
    Event(Stopped(SIGTRAP, id, Works), 0, 0, 0)
  }

  function Program(stops: seq<int>, end: Status): Case {
    Case(seq(|stops|, i requires 0 <= i < |stops| => StopAt(stops[i])) + [Event(end, 0, 0, 0)], [A], [A], SpjOther, NOTHING_FOUND, false)
  }

  lemma {:induction false} IdsOf(stops: seq<int>)
    ensures TrapIds(seq(|stops|, i requires 0 <= i < |stops| => StopAt(stops[i]))) == stops
  {
    if stops != [] {
      var events := seq(|stops|, i requires 0 <= i < |stops| => StopAt(stops[i]));
      var rest := stops[1..];
      assert events[1..] == seq(|rest|, i requires 0 <= i < |rest| => StopAt(rest[i]));
      IdsOf(rest);
    }
  }

  lemma ProgramTrace(stops: seq<int>, end: Status)
    requires forall i :: 0 <= i < |stops| ==> stops[i] < TABLE_SIZE
    requires !end.Stopped?
    ensures
      var c, n := Program(stops, end), |stops|;
      && |c.trace| == n + 1 && c.trace[n].status == end && ValidCase(c) && TrapIds(c.trace[..n]) == stops
      && (forall k :: 0 <= k < n ==> c.trace[k].IsTraced())
      && forall k :: 0 <= k <= n ==> c.trace[k].Time() == c.trace[k].maxrss == 0
  {
    hide TrapIds;
    IdsOf(stops);
    var c := Program(stops, end);
    assert c.trace[..|stops|] == seq(|stops|, i requires 0 <= i < |stops| => StopAt(stops[i]));
  }

  lemma ProgramFollows(cfg: Config, exec: int, calls: seq<int>, pending: Option<int>, end: Status)
    requires 0 < exec < TABLE_SIZE && AreCalls(calls) && (pending.Some? ==> 0 < pending.value < TABLE_SIZE)
    requires !end.Stopped?
    ensures
      var c := Program([exec] + Doubled(calls) + (if pending.Some? then [pending.value] else []), end);
      FollowsProtocol(c, exec, calls, pending) && WithinLimits(cfg, c) && Final(c) == end
  {
    hide TrapIds, Positive, Doubled, Program;
    DoubledAreCalls(calls);
    var stops := [exec] + Doubled(calls) + (if pending.Some? then [pending.value] else []);
    ProgramTrace(stops, end);
    AllPositive(stops);
  }

  lemma {:induction false} AllPositive(ids: seq<int>)
    requires forall i :: 0 <= i < |ids| ==> ids[i] > 0
    ensures Positive(ids) == ids
  {
    if ids != [] {
      AllPositive(ids[1..]);
    }
  }

  // The exec, `calls`, and the end.
  function Simple(calls: seq<int>, end: Status): Case {
    Program([SYS_EXECVE] + Doubled(calls) + (if end.Exited? then [SYS_EXIT_GROUP] else []), end)
  }

  // A table that allows one exec, one uname and any number of exits.
  ghost predicate HasSmallTable(cfg: Config) {
    cfg.lang == LANG_C99 && cfg.tables.c == [SYS_EXECVE, 1, SYS_UNAME, 1, SYS_EXIT_GROUP, SYSCALLS_INFINITE, SYSCALLS_END]
  }

  lemma SmallTable(cfg: Config)
    requires HasSmallTable(cfg)
    ensures cfg.Valid()
    ensures cfg.CaseQuota()[SYS_EXECVE] == cfg.CaseQuota()[SYS_UNAME] == 1 && cfg.CaseQuota()[SYS_EXIT_GROUP] < 0
  {
    var p := cfg.tables.c;
    assert EndsAt(p, 3);
    assert p[2 * 0] == SYS_EXECVE && p[2 * 1] == SYS_UNAME && p[2 * 2] == SYS_EXIT_GROUP;
    assert p[2 * 0 + 1] == p[2 * 1 + 1] == 1 && p[2 * 2 + 1] < 0;
    LastPairWins(p, 3, SYS_EXECVE);
    LastPairWins(p, 3, SYS_UNAME);
    LastPairWins(p, 3, SYS_EXIT_GROUP);
  }

  lemma SimpleFollows(cfg: Config, calls: seq<int>, end: Status)
    requires HasSmallTable(cfg) && !end.Stopped? && (calls == [] || calls == [SYS_UNAME])
    ensures
      var pending := if end.Exited? then Some(SYS_EXIT_GROUP) else None;
      && cfg.Valid()
      && FollowsProtocol(Simple(calls, end), SYS_EXECVE, calls, pending) && WithinLimits(cfg, Simple(calls, end)) && Final(Simple(calls, end)) == end
      && WithinQuota(cfg.CaseQuota(), CallsOf(SYS_EXECVE, calls, pending))
  {
    hide FollowsProtocol, WithinLimits;
    SmallTable(cfg);
    var pending := if end.Exited? then Some(SYS_EXIT_GROUP) else None;
    ProgramFollows(cfg, SYS_EXECVE, calls, pending, end);
    OneOfEach(calls, pending);
  }

  lemma OneOfEach(calls: seq<int>, pending: Option<int>)
    requires (calls == [] || calls == [SYS_UNAME]) && (pending == None || pending == Some(SYS_EXIT_GROUP))
    ensures
      var all := CallsOf(SYS_EXECVE, calls, pending);
      && Count(all, SYS_EXECVE) == 1 && Count(all, SYS_UNAME) <= 1
      && forall k :: k !in {SYS_EXECVE, SYS_UNAME, SYS_EXIT_GROUP} ==> Count(all, k) == 0
  {
    var last := if pending.Some? then [pending.value] else [];
    forall k: int
      ensures Count(CallsOf(SYS_EXECVE, calls, pending), k) == Count([SYS_EXECVE], k) + Count(calls, k) + Count(last, k)
    {
      CountConcat([SYS_EXECVE] + calls, last, k);
      CountConcat([SYS_EXECVE], calls, k);
    }
    assert [SYS_EXECVE][..0] == [] && [SYS_UNAME][..0] == [] && [SYS_EXIT_GROUP][..0] == [];
  }

  // A program that is killed by a signal outside its calls leaves the phase bit wrong.
  lemma KilledProgram(cfg: Config)
    requires HasSmallTable(cfg)
    ensures cfg.Valid() && ValidCase(Simple([], Signaled(11)))
    ensures
      var one := JudgeAlone(cfg, Simple([], Signaled(11)));
      one.Some? && !one.value.filter.inSyscall && one.value.memoryUsage <= cfg.memoryLimit
  {
    hide JudgeCase, FollowsProtocol, WithinLimits, WithinQuota, Program, HasSmallTable, Quota;
    var killed := Simple([], Signaled(11));
    SimpleFollows(cfg, [], Signaled(11));
    StopsInTable(killed, SYS_EXECVE, [], None);
    CaseMeaning(cfg, killed, SYS_EXECVE, [], None);
    MemoryWithin(cfg, killed);
  }

  // A program that then makes one call with a quota of one is stopped for it, though it is accepted alone.
  lemma LastCallRefused(cfg: Config, s: Solution)
    requires HasSmallTable(cfg) && cfg.judgeType != ACM && !cfg.spj && Ready(cfg, s)
    ensures
      var killed, good := Simple([], Signaled(11)), Simple([SYS_UNAME], Exited(EXIT_SUCCESS));
      && cfg.Valid() && ValidCase(killed) && ValidCase(good)
      && AcceptedAlone(cfg, good)
      && var history := RunCases(cfg, s, [killed, good]).history;
      |history| == 2 && history[1].result == RestrictedFunction
  {
    hide JudgeCase, RunCases, FollowsProtocol, WithinLimits, WithinQuota, WithinLateQuota, Program, HasSmallTable, Quota;
    var killed, good := Simple([], Signaled(11)), Simple([SYS_UNAME], Exited(EXIT_SUCCESS));
    KilledProgram(cfg);
    SimpleFollows(cfg, [SYS_UNAME], Exited(EXIT_SUCCESS));
    SmallTable(cfg);
    StopsInTable(good, SYS_EXECVE, [SYS_UNAME], Some(SYS_EXIT_GROUP));
    GoodProgram(cfg, good);
    assert SYS_UNAME in [SYS_UNAME] && Count([SYS_UNAME], SYS_UNAME) == 1;
    assert WronglyRefused(cfg.CaseQuota(), SYS_EXECVE, [SYS_UNAME], Some(SYS_EXIT_GROUP));
    NextCaseInWrongPhase(cfg, s, killed, good, SYS_EXECVE, [SYS_UNAME], Some(SYS_EXIT_GROUP));
  }

  // A program that enters a second exec and is killed in it: forbidden alone, and not noticed after the killed program.
  lemma SecondExecAdmitted(cfg: Config, s: Solution)
    requires HasSmallTable(cfg) && cfg.judgeType != ACM && Ready(cfg, s)
    ensures
      var killed, twice := Simple([], Signaled(11)), Program([SYS_EXECVE] + Doubled([]) + [SYS_EXECVE], Signaled(9));
      && cfg.Valid() && ValidCase(killed) && ValidCase(twice)
      && JudgeAlone(cfg, twice).Some? && JudgeAlone(cfg, twice).value.result == RestrictedFunction
      && JudgeAloneIn(cfg, false, twice).Some? && JudgeAloneIn(cfg, false, twice).value.result == RuntimeError
      && var history := RunCases(cfg, s, [killed, twice]).history;
      |history| == 2 && history[1].result != RestrictedFunction
  {
    hide JudgeCase, RunCases, FollowsProtocol, WithinLimits, WithinQuota, Program, HasSmallTable, Quota;
    var killed, twice := Simple([], Signaled(11)), Program([SYS_EXECVE] + Doubled([]) + [SYS_EXECVE], Signaled(9));
    var pending := Some(SYS_EXECVE);
    KilledProgram(cfg);
    SmallTable(cfg);
    ProgramFollows(cfg, SYS_EXECVE, [], pending, Signaled(9));
    StopsInTable(twice, SYS_EXECVE, [], pending);
    assert WithinLateQuota(cfg.CaseQuota(), SYS_EXECVE, [], pending);
    assert WronglyAdmitted(cfg.CaseQuota(), SYS_EXECVE, [], pending);
    NextCaseInWrongPhase(cfg, s, killed, twice, SYS_EXECVE, [], pending);
    CaseInWrongPhase(cfg, twice, SYS_EXECVE, [], pending);
  }

  lemma StopsInTable(c: Case, exec: int, calls: seq<int>, pending: Option<int>)
    requires FollowsProtocol(c, exec, calls, pending)
    ensures ValidCase(c) && c.trace != []
  {
  }

  lemma GoodProgram(cfg: Config, c: Case)
    requires HasSmallTable(cfg) && !cfg.spj && c == Simple([SYS_UNAME], Exited(EXIT_SUCCESS))
    ensures cfg.Valid() && ValidCase(c) && AcceptedAlone(cfg, c)
  {
    hide JudgeCase, WithinLimits, WithinQuota, TrapIds, StopsOf;
    SimpleFollows(cfg, [SYS_UNAME], Exited(EXIT_SUCCESS));
    Visible(A);
    assert [A][|[A]|..] == [];
    AcceptedMeans(cfg, c, SYS_EXECVE, [SYS_UNAME], Some(SYS_EXIT_GROUP));
  }
}
