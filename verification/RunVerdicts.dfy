// The verdicts of a run from the ends of its cases, in every judge mode.  Outside ACM mode the judge goes on after
// a failed case, and each case inherits what the ones before it left behind: the verdict, the phase bit of the
// system call filter, and memory usage over the limit.

module RunVerdicts {
  import opened CaseProtocol
  import opened Judge
  import opened JudgeCore
  import opened JudgeRuns
  import opened SyscallQuota
  import opened Syscalls
  import opened Wrappers

  // ---------- the end of one case ----------

  // How a case enters the verdict of the run: the verdict on its output is merged, all others replace what was there.
  datatype Ending = Merged(result: Result) | Forced(result: Result)

  function WithEnding(sofar: Result, e: Ending): Result {
    match e
    case Merged(result) => Merge(sofar, result)
    case Forced(result) => result
  }

  // What a case inherits beside the verdict and the peak usage.
  datatype Inherited = Inherited(inSyscall: bool, overLimit: bool)

  function LeftBy(cfg: Config, s: Solution): Inherited {
    Inherited(s.filter.inSyscall, s.memoryUsage > cfg.memoryLimit)
  }

  // The end of a case, from the case alone and what it inherits; None if the judge exits.
  ghost function EndingOf(cfg: Config, from: Inherited, c: Case): Option<Ending>
    requires cfg.Valid() && ValidCase(c)
  {
    if from.overLimit then
      if c.trace == [] then None else Some(Forced(if c.trace[0].Time() > cfg.timeLimit then TimeLimit else MemoryLimit))
    else if IsMerged(cfg, from.inSyscall, c) then
      Some(Merged(OutputResult(cfg, c)))
    else
      match JudgeAloneIn(cfg, from.inSyscall, c)
      case None => None
      case Some(one) => Some(Forced(one.result))
  }

  ghost function LeftAfter(cfg: Config, from: Inherited, c: Case): Inherited
    requires cfg.Valid() && ValidCase(c) && EndingOf(cfg, from, c).Some?
  {
    if from.overLimit then from
    else
      MergedIsJudged(cfg, from.inSyscall, c);
      LeftBy(cfg, JudgeAloneIn(cfg, from.inSyscall, c).value)
  }

  lemma MergedIsJudged(cfg: Config, inSyscall: bool, c: Case)
    requires cfg.Valid() && ValidCase(c)
    ensures IsMerged(cfg, inSyscall, c) ==> JudgeAloneIn(cfg, inSyscall, c).Some?
  {
    if IsMerged(cfg, inSyscall, c) {
      MergedAlone(cfg, inSyscall, c);
    }
  }

  // Whatever happened before, a case of a run ends as this says.
  lemma CaseEnds(cfg: Config, s: Solution, c: Case)
    requires cfg.Valid() && ValidCase(c) && s.timeUsage <= cfg.timeLimit
    ensures
      var from := LeftBy(cfg, s);
      match EndingOf(cfg, from, c)
      case None => JudgeCase(cfg, s, c) == None
      case Some(e) =>
        && JudgeCase(cfg, s, c).Some?
        && var t := JudgeCase(cfg, s, c).value;
        && t.result == WithEnding(s.result, e) && t.timeUsage <= cfg.timeLimit
        && LeftBy(cfg, t) == LeftAfter(cfg, from, c)
  {
    hide JudgeCase, OutputResult, Merge, IsMerged;
    if s.memoryUsage > cfg.memoryLimit {
      CaseOverLimit(cfg, s, c);
    } else {
      CaseAfter(cfg, s, c);
      MergedIsJudged(cfg, s.filter.inSyscall, c);
      TimeStaysWithin(cfg, AloneIn(cfg, s.filter.inSyscall), c);
    }
  }

  lemma TimeStaysWithin(cfg: Config, s: Solution, c: Case)
    requires cfg.Valid() && ValidCase(c) && s.timeUsage <= cfg.timeLimit
    ensures JudgeCase(cfg, s, c).Some? ==> JudgeCase(cfg, s, c).value.timeUsage <= cfg.timeLimit
  {
    hide Trace, Quota;
  }

  // ---------- a whole run ----------

  datatype Story = Story(endings: seq<Ending>, aborted: bool)

  ghost function StoryOf(cfg: Config, from: Inherited, cases: seq<Case>): Story
    requires cfg.Valid() && ValidCases(cases)
    decreases cases
  {
    if cases == [] then Story([], false)
    else
      match EndingOf(cfg, from, cases[0])
      case None => Story([], true)
      case Some(e) =>
        if e.result != Accepted && cfg.judgeType == ACM then Story([e], false)
        else
          var rest := StoryOf(cfg, LeftAfter(cfg, from, cases[0]), cases[1..]);
          Story([e] + rest.endings, rest.aborted)
  }

  function VerdictAfter(sofar: Result, endings: seq<Ending>): Result {
    if endings == [] then sofar
    else WithEnding(VerdictAfter(sofar, endings[..|endings| - 1]), endings[|endings| - 1])
  }

  lemma {:induction false} VerdictCons(sofar: Result, e: Ending, rest: seq<Ending>)
    ensures VerdictAfter(sofar, [e] + rest) == VerdictAfter(WithEnding(sofar, e), rest)
  {
    hide WithEnding;
    var all := [e] + rest;
    if rest == [] {
      assert all[..0] == [] && all[0] == e;
    } else {
      assert all[..|all| - 1] == [e] + rest[..|rest| - 1];
      VerdictCons(sofar, e, rest[..|rest| - 1]);
    }
  }

  // The verdict after each case of any run in any mode.
  lemma {:induction false} RunFollowsStory(cfg: Config, s: Solution, cases: seq<Case>)
    requires cfg.Valid() && ValidCases(cases)
    requires s.timeUsage <= cfg.timeLimit && (cfg.judgeType == ACM ==> s.result == Accepted)
    ensures
      var run, story := RunCases(cfg, s, cases), StoryOf(cfg, LeftBy(cfg, s), cases);
      && run.aborted == story.aborted && |run.history| == |story.endings|
      && forall i :: 0 <= i < |run.history| ==> run.history[i].result == VerdictAfter(s.result, story.endings[..i + 1])
    decreases cases
  {
    hide JudgeCase, LeftBy, EndingOf, LeftAfter, WithEnding, VerdictAfter;
    if cases != [] {
      CaseEnds(cfg, s, cases[0]);
      if JudgeCase(cfg, s, cases[0]).Some? {
        var t, e := JudgeCase(cfg, s, cases[0]).value, EndingOf(cfg, LeftBy(cfg, s), cases[0]).value;
        OneVerdict(s.result, e);
        if cfg.judgeType == ACM {
          AcceptedSoFar(e);
        }
        if t.result == Accepted || cfg.judgeType != ACM {
          RunFollowsStory(cfg, t, cases[1..]);
          VerdictsShift(s.result, e, StoryOf(cfg, LeftBy(cfg, t), cases[1..]).endings);
        }
      }
    }
  }

  lemma OneVerdict(sofar: Result, e: Ending)
    ensures VerdictAfter(sofar, [e]) == VerdictAfter(sofar, [e][..0 + 1]) == WithEnding(sofar, e)
  {
    assert [e][..1] == [e];
  }

  lemma AcceptedSoFar(e: Ending)
    ensures WithEnding(Accepted, e) == e.result
  {
  }

  lemma VerdictsShift(sofar: Result, e: Ending, rest: seq<Ending>)
    ensures VerdictAfter(sofar, ([e] + rest)[..0 + 1]) == WithEnding(sofar, e)
    ensures forall i :: 0 < i < |rest| + 1 ==> VerdictAfter(sofar, ([e] + rest)[..i + 1]) == VerdictAfter(WithEnding(sofar, e), rest[..i])
  {
    hide WithEnding;
    assert ([e] + rest)[..1] == [e];
    forall i | 0 < i < |rest| + 1
      ensures VerdictAfter(sofar, ([e] + rest)[..i + 1]) == VerdictAfter(WithEnding(sofar, e), rest[..i])
    {
      assert ([e] + rest)[..i + 1] == [e] + rest[..i];
      VerdictCons(sofar, e, rest[..i]);
    }
  }

  // ---------- the usage of a run ----------

  datatype Usage = Usage(time: nat, memory: nat)

  // What a case adds to the peaks: what it uses alone, or what its first event reports if memory is over the limit.
  ghost function UsageOf(cfg: Config, from: Inherited, c: Case): Usage
    requires cfg.Valid() && ValidCase(c) && EndingOf(cfg, from, c).Some?
  {
    if from.overLimit then
      Usage(if c.trace[0].Time() > cfg.timeLimit then cfg.timeLimit else c.trace[0].Time(), c.trace[0].maxrss)
    else
      MergedIsJudged(cfg, from.inSyscall, c);
      var one := JudgeAloneIn(cfg, from.inSyscall, c).value;
      Usage(one.timeUsage, one.memoryUsage)
  }

  // In the order of the cases, as far as they are judged.
  ghost function UsagesOf(cfg: Config, from: Inherited, cases: seq<Case>): seq<Usage>
    requires cfg.Valid() && ValidCases(cases)
    decreases cases
  {
    if cases == [] || EndingOf(cfg, from, cases[0]).None? then []
    else
      var first := [UsageOf(cfg, from, cases[0])];
      if EndingOf(cfg, from, cases[0]).value.result != Accepted && cfg.judgeType == ACM then first
      else first + UsagesOf(cfg, LeftAfter(cfg, from, cases[0]), cases[1..])
  }

  ghost predicate IsUsage(t: Solution, s: Solution, usages: seq<Usage>) {
    && IsPeak(t.timeUsage, s.timeUsage, seq(|usages|, k requires 0 <= k < |usages| => usages[k].time))
    && IsPeak(t.memoryUsage, s.memoryUsage, seq(|usages|, k requires 0 <= k < |usages| => usages[k].memory))
  }

  lemma OneUsage(cfg: Config, s: Solution, c: Case)
    requires cfg.Valid() && ValidCase(c) && s.timeUsage <= cfg.timeLimit && JudgeCase(cfg, s, c).Some?
    ensures EndingOf(cfg, LeftBy(cfg, s), c).Some?
    ensures
      var t, u := JudgeCase(cfg, s, c).value, UsageOf(cfg, LeftBy(cfg, s), c);
      IsPeak(t.timeUsage, s.timeUsage, [u.time]) && IsPeak(t.memoryUsage, s.memoryUsage, [u.memory])
  {
    hide JudgeCase, IsPeak, IsMerged, OutputResult;
    CaseEnds(cfg, s, c);
    if s.memoryUsage > cfg.memoryLimit {
      CaseOverLimit(cfg, s, c);
    } else {
      CaseAfter(cfg, s, c);
      var one := JudgeAloneIn(cfg, s.filter.inSyscall, c).value;
      OnePeak(s.timeUsage, one.timeUsage);
      OnePeak(s.memoryUsage, one.memoryUsage);
    }
  }

  lemma UsageCons(t: Solution, s: Solution, s': Solution, u: Usage, rest: seq<Usage>)
    requires IsPeak(s'.timeUsage, s.timeUsage, [u.time]) && IsPeak(s'.memoryUsage, s.memoryUsage, [u.memory])
    requires IsUsage(t, s', rest)
    ensures IsUsage(t, s, [u] + rest)
  {
    var times, memories := seq(|rest|, k requires 0 <= k < |rest| => rest[k].time), seq(|rest|, k requires 0 <= k < |rest| => rest[k].memory);
    OneIsMax(s'.timeUsage, s.timeUsage, u.time);
    OneIsMax(s'.memoryUsage, s.memoryUsage, u.memory);
    var all := [u] + rest;
    assert seq(|all|, k requires 0 <= k < |all| => all[k].time) == [u.time] + times;
    assert seq(|all|, k requires 0 <= k < |all| => all[k].memory) == [u.memory] + memories;
    hide IsPeak;
    PeakCons(t.timeUsage, s.timeUsage, u.time, times);
    PeakCons(t.memoryUsage, s.memoryUsage, u.memory, memories);
  }

  lemma OneIsMax(m: nat, base: nat, value: nat)
    requires IsPeak(m, base, [value])
    ensures m == if base < value then value else base
  {
    assert [value][0] == value;
  }

  // After each case of any run in any mode, time and memory are the highest of what the run started with and what the
  // cases add.
  lemma {:induction false} RunUsage(cfg: Config, s: Solution, cases: seq<Case>, i: nat)
    requires cfg.Valid() && ValidCases(cases)
    requires s.timeUsage <= cfg.timeLimit && (cfg.judgeType == ACM ==> s.result == Accepted)
    ensures |UsagesOf(cfg, LeftBy(cfg, s), cases)| == |RunCases(cfg, s, cases).history|
    ensures i < |RunCases(cfg, s, cases).history| ==> IsUsage(RunCases(cfg, s, cases).history[i], s, UsagesOf(cfg, LeftBy(cfg, s), cases)[..i + 1])
    decreases cases
  {
    hide JudgeCase, LeftBy, EndingOf, LeftAfter, UsageOf, IsUsage, IsPeak, WithEnding;
    if cases != [] {
      CaseEnds(cfg, s, cases[0]);
      if JudgeCase(cfg, s, cases[0]).Some? {
        OneUsage(cfg, s, cases[0]);
        var t, e, u := JudgeCase(cfg, s, cases[0]).value, EndingOf(cfg, LeftBy(cfg, s), cases[0]).value, UsageOf(cfg, LeftBy(cfg, s), cases[0]);
        if cfg.judgeType == ACM {
          AcceptedSoFar(e);
        }
        NoUsage(t);
        UsageCons(t, s, t, u, []);
        assert [u] + [] == [u];
        if t.result == Accepted || cfg.judgeType != ACM {
          RunUsage(cfg, t, cases[1..], if i == 0 then 0 else i - 1);
          var rest := UsagesOf(cfg, LeftBy(cfg, t), cases[1..]);
          if i == 0 {
            assert ([u] + rest)[..1] == [u];
          } else if i < |rest| + 1 {
            assert ([u] + rest)[..i + 1] == [u] + rest[..i];
            UsageCons(RunCases(cfg, t, cases[1..]).history[i - 1], s, t, u, rest[..i]);
          }
        } else {
          assert [u][..0 + 1] == [u];
        }
      }
    }
  }

  lemma NoUsage(t: Solution)
    ensures IsUsage(t, t, [])
  {
  }

  // ---------- when a run is accepted ----------

  predicate Replaces(e: Ending) {
    e.Forced? || e.result == WrongAnswer
  }

  // A verdict from before case i is replaced by a later one, whatever it was.
  ghost predicate Overruled(endings: seq<Ending>, i: nat) {
    exists j :: i <= j < |endings| && Replaces(endings[j])
  }

  // A presentation error is never replaced by a merged verdict, other than a wrong answer; all others are.
  ghost predicate EndsAccepted(sofar: Result, endings: seq<Ending>) {
    if endings == [] then sofar == Accepted
    else
      && endings[|endings| - 1].result == Accepted
      && (sofar == PresentationError ==> Overruled(endings, 0))
      && forall i :: 0 <= i < |endings| && endings[i].result == PresentationError ==> Overruled(endings, i + 1)
  }

  ghost predicate EndsMisformatted(sofar: Result, endings: seq<Ending>) {
    || (sofar == PresentationError && !Overruled(endings, 0))
    || (exists i :: 0 <= i < |endings| && endings[i].result == PresentationError && !Overruled(endings, i + 1))
  }

  lemma OverruledSnoc(front: seq<Ending>, e: Ending, i: nat)
    requires i <= |front|
    ensures Overruled(front + [e], i) <==> Overruled(front, i) || Replaces(e)
  {
    hide Replaces;
    var all := front + [e];
    assert forall j :: 0 <= j < |front| ==> all[j] == front[j];
    if Overruled(front, i) {
      var j :| i <= j < |front| && Replaces(front[j]);
      assert Replaces(all[j]);
    }
    if Replaces(e) {
      assert Replaces(all[|front|]);
    }
  }

  lemma {:induction false} MisformattedVerdict(sofar: Result, endings: seq<Ending>)
    ensures VerdictAfter(sofar, endings) == PresentationError <==> EndsMisformatted(sofar, endings)
  {
    hide Overruled;
    if endings == [] {
      assert !Overruled(endings, 0) by { NothingOverruled(); }
    } else {
      var front, e := endings[..|endings| - 1], endings[|endings| - 1];
      assert endings == front + [e];
      MisformattedVerdict(sofar, front);
      forall i: nat | i <= |front|
        ensures Overruled(endings, i) <==> Overruled(front, i) || Replaces(e)
      {
        OverruledSnoc(front, e, i);
      }
      assert !Overruled(endings, |front| + 1) by { NothingLeft(endings); }
      assert endings[|front|] == e;
      if i :| 0 <= i < |front| && front[i].result == PresentationError && !Overruled(front, i + 1) {
        assert endings[i].result == PresentationError;
      }
    }
  }

  lemma NothingOverruled()
    ensures !Overruled([], 0)
  {
  }

  lemma NothingLeft(endings: seq<Ending>)
    ensures !Overruled(endings, |endings|)
  {
  }

  lemma EndsAcceptedSnoc(sofar: Result, front: seq<Ending>, e: Ending)
    ensures EndsAccepted(sofar, front + [e]) <==> e.result == Accepted && (Replaces(e) || !EndsMisformatted(sofar, front))
  {
    var all := front + [e];
    forall i: nat | i <= |front|
      ensures Overruled(all, i) <==> Overruled(front, i) || Replaces(e)
    {
      OverruledSnoc(front, e, i);
    }
    hide Overruled, Replaces;
    assert forall i :: 0 <= i < |front| ==> all[i] == front[i];
    if i :| 0 <= i < |front| && front[i].result == PresentationError && !Overruled(front, i + 1) {
      assert all[i].result == PresentationError;
    }
  }

  // The run is accepted if and only if its last case ends as accepted and every presentation error is replaced.
  lemma AcceptedVerdict(sofar: Result, endings: seq<Ending>)
    ensures VerdictAfter(sofar, endings) == Accepted <==> EndsAccepted(sofar, endings)
  {
    if endings != [] {
      var front, e := endings[..|endings| - 1], endings[|endings| - 1];
      assert endings == front + [e];
      hide EndsAccepted, EndsMisformatted;
      MisformattedVerdict(sofar, front);
      EndsAcceptedSnoc(sofar, front, e);
    }
  }

  lemma RunAccepted(cfg: Config, s: Solution, cases: seq<Case>)
    requires cfg.Valid() && ValidCases(cases)
    requires s.timeUsage <= cfg.timeLimit && (cfg.judgeType == ACM ==> s.result == Accepted)
    ensures
      var report, story := ReportOn(s, RunCases(cfg, s, cases)), StoryOf(cfg, LeftBy(cfg, s), cases);
      && (report == None <==> story.aborted)
      && (report.Some? ==> (report.value.result == Accepted <==> EndsAccepted(s.result, story.endings)))
  {
    hide EndsAccepted, WithEnding, FirstFailed;
    RunFollowsStory(cfg, s, cases);
    var story := StoryOf(cfg, LeftBy(cfg, s), cases);
    var n := |story.endings|;
    AcceptedVerdict(s.result, story.endings);
    if n > 0 {
      assert story.endings[..n - 1 + 1] == story.endings;
    }
  }

  // ---------- independence of the cases outside ACM mode ----------

  // A case that leaves nothing behind: on its own, it keeps the phase bit and its memory usage within the limit.
  ghost predicate LeavesNothing(cfg: Config, c: Case)
    requires cfg.Valid() && ValidCase(c)
  {
    JudgeAlone(cfg, c).Some? ==> JudgeAlone(cfg, c).value.filter.inSyscall && JudgeAlone(cfg, c).value.memoryUsage <= cfg.memoryLimit
  }

  // Among such cases, each one ends as it does alone: the verdict on its output is merged if it exits normally and
  // within its limits, and its lone verdict counts otherwise.
  lemma {:induction false} CaseIndependence(cfg: Config, s: Solution, cases: seq<Case>, i: nat)
    requires cfg.Valid() && ValidCases(cases) && cfg.judgeType != ACM && Ready(cfg, s)
    requires forall k :: 0 <= k < |cases| ==> LeavesNothing(cfg, cases[k])
    ensures
      var run := RunCases(cfg, s, cases);
      && |run.history| <= |cases|
      && (run.aborted <==> |run.history| < |cases|)
      && (i < |run.history| ==>
            var sofar, one := if i == 0 then s.result else run.history[i - 1].result, JudgeAlone(cfg, cases[i]);
            one.Some? && run.history[i].result == if IsMerged(cfg, true, cases[i]) then Merge(sofar, OutputResult(cfg, cases[i])) else one.value.result)
      && (i == |run.history| < |cases| ==> JudgeAlone(cfg, cases[i]) == None)
    decreases cases
  {
    hide JudgeCase, IsMerged, OutputResult, Merge;
    if cases != [] {
      CaseEnds(cfg, s, cases[0]);
      CaseAfter(cfg, s, cases[0]);
      if JudgeCase(cfg, s, cases[0]).Some? {
        var t := JudgeCase(cfg, s, cases[0]).value;
        CaseIndependence(cfg, t, cases[1..], if i == 0 then 0 else i - 1);
      }
    }
  }

  lemma {:induction false} StoryOfIndependent(cfg: Config, cases: seq<Case>)
    requires cfg.Valid() && ValidCases(cases) && cfg.judgeType != ACM
    requires forall k :: 0 <= k < |cases| ==> LeavesNothing(cfg, cases[k])
    ensures
      var nothing := Inherited(true, false);
      var story := StoryOf(cfg, nothing, cases);
      && |story.endings| <= |cases|
      && forall i :: 0 <= i < |story.endings| ==> EndingOf(cfg, nothing, cases[i]) == Some(story.endings[i])
    decreases cases
  {
    hide JudgeCase, IsMerged;
    if cases != [] {
      MergedIsJudged(cfg, true, cases[0]);
      StoryOfIndependent(cfg, cases[1..]);
    }
  }

  // What the condition asks of a program that follows the protocol.
  lemma LeavesNothingIff(cfg: Config, c: Case, exec: int, calls: seq<int>, pending: Option<int>)
    requires cfg.Valid() && FollowsProtocol(c, exec, calls, pending) && WithinLimits(cfg, c)
    ensures JudgeAlone(cfg, c).Some?
    ensures
      var quota := cfg.CaseQuota();
      LeavesNothing(cfg, c) <==>
      && (if WithinQuota(quota, CallsOf(exec, calls, pending)) then pending.Some? else quota[exec] != 0)
      && (JudgeAlone(cfg, c).value.result == MemoryLimit ==> cfg.memoryLimit == 0)
  {
    hide WithinQuota, Traps, JudgeCase, EndsAs, Quota;
    CaseMeaning(cfg, c, exec, calls, pending);
    MemoryWithin(cfg, c);
  }

  lemma MemoryWithin(cfg: Config, c: Case)
    requires cfg.Valid() && ValidCase(c) && WithinLimits(cfg, c) && JudgeAlone(cfg, c).Some?
    ensures
      var one := JudgeAlone(cfg, c).value;
      if one.result == MemoryLimit then one.memoryUsage == cfg.memoryLimit * STD_KB else one.memoryUsage <= cfg.memoryLimit
  {
    hide OutputResult, Quota;
    var a := AloneIn(cfg, true);
    assert Start(cfg, a) == a;
    OutputVerdicts(cfg, c);
    var e := TraceEndsAt(cfg, a, c, 0);
  }

  // ---------- what a run outside ACM mode can hide ----------

  // A failed case that leaves nothing behind is hidden by an accepted one, unless it is a presentation error.  Only
  // the number of the first failed case tells, and the usage; a time limit verdict leaves the time at the limit.
  lemma LaterCaseHides(cfg: Config, s: Solution, failed: Case, good: Case)
    requires cfg.Valid() && ValidCase(failed) && ValidCase(good) && cfg.judgeType != ACM
    requires Ready(cfg, s) && s.result == Accepted
    requires JudgeAlone(cfg, failed).Some? && JudgeAlone(cfg, failed).value.result !in {Accepted, PresentationError}
    requires LeavesNothing(cfg, failed) && AcceptedAlone(cfg, good)
    ensures
      var report, one, two := ReportOn(s, RunCases(cfg, s, [failed, good])), JudgeAlone(cfg, failed).value, JudgeAlone(cfg, good).value;
      && report == Some(Report(Accepted, Max(Max(one.timeUsage, s.timeUsage), two.timeUsage), Max(Max(one.memoryUsage, s.memoryUsage), two.memoryUsage), 1))
      && (one.result == TimeLimit ==> report.value.timeUsage == cfg.timeLimit)
  {
    hide JudgeCase, IsMerged, OutputResult;
    CaseAfterAccepted(cfg, s, failed);
    var t := JudgeCase(cfg, s, failed).value;
    TimeStaysWithin(cfg, s, failed);
    CaseAfter(cfg, t, good);
    if IsMerged(cfg, true, good) {
      MergedAlone(cfg, true, good);
    }
    RunOfTwo(cfg, s, failed, good);
    if JudgeAlone(cfg, failed).value.result == TimeLimit {
      TimeLimitPins(cfg, AloneIn(cfg, true), failed);
    }
    TimeStaysWithin(cfg, AloneIn(cfg, true), good);
  }

  lemma TimeLimitPins(cfg: Config, s: Solution, c: Case)
    requires cfg.Valid() && ValidCase(c) && JudgeCase(cfg, s, c).Some? && JudgeCase(cfg, s, c).value.result == TimeLimit
    ensures JudgeCase(cfg, s, c).value.timeUsage == cfg.timeLimit
  {
    hide Trace, Quota;
  }

  lemma RunOfTwo(cfg: Config, s: Solution, c: Case, d: Case)
    requires cfg.Valid() && ValidCase(c) && ValidCase(d) && JudgeCase(cfg, s, c).Some?
    requires cfg.judgeType != ACM || JudgeCase(cfg, s, c).value.result == Accepted
    ensures
      var t := JudgeCase(cfg, s, c).value;
      RunCases(cfg, s, [c, d]) ==
      match JudgeCase(cfg, t, d)
      case None => Run([t], true)
      case Some(u) => Run([t, u], false)
  {
    hide JudgeCase;
    var t := JudgeCase(cfg, s, c).value;
    assert [c, d][1..] == [d] && [d][1..] == [];
    assert RunCases(cfg, s, [c, d]) == Run([t] + RunCases(cfg, t, [d]).history, RunCases(cfg, t, [d]).aborted);
    if JudgeCase(cfg, t, d).Some? {
      var u := JudgeCase(cfg, t, d).value;
      assert RunCases(cfg, u, []) == Run([], false);
      assert RunCases(cfg, t, [d]) == Run([u] + [], false);
    }
  }

  // A case that leaves the phase bit wrong, as one does that is killed between two calls, and a case after it: the
  // latter is judged by the rule of the wrong phase.  In ACM mode the first case must be accepted for this.
  lemma NextCaseInWrongPhase(cfg: Config, s: Solution, first: Case, next: Case, exec: int, calls: seq<int>, pending: Option<int>)
    requires cfg.Valid() && Ready(cfg, s) && ValidCase(first) && JudgeAlone(cfg, first).Some?
    requires !JudgeAlone(cfg, first).value.filter.inSyscall && JudgeAlone(cfg, first).value.memoryUsage <= cfg.memoryLimit
    requires cfg.judgeType == ACM ==> s.result == Accepted && AcceptedAlone(cfg, first)
    requires FollowsProtocol(next, exec, calls, pending) && WithinLimits(cfg, next)
    ensures
      var history, quota := RunCases(cfg, s, [first, next]).history, cfg.CaseQuota();
      && |history| == 2 && JudgeAlone(cfg, next).Some?
      && (history[1].result == RestrictedFunction <==> !WithinLateQuota(quota, exec, calls, pending))
      && var alone := JudgeAlone(cfg, next).value.result;
      && (WronglyRefused(quota, exec, calls, pending) <==> alone != RestrictedFunction && history[1].result == RestrictedFunction)
      && (WronglyAdmitted(quota, exec, calls, pending) <==> alone == RestrictedFunction && history[1].result != RestrictedFunction)
  {
    hide JudgeCase, OutputResult, Merge, WithinQuota, WithinLateQuota, StopsOf, IsMerged, Quota, WithinLimits, EndsAs, WronglyRefused, WronglyAdmitted;
    CaseAfter(cfg, s, first);
    if cfg.judgeType == ACM {
      CaseAfterAccepted(cfg, s, first);
    }
    TimeStaysWithin(cfg, s, first);
    var t := JudgeCase(cfg, s, first).value;
    CaseAfter(cfg, t, next);
    NotRestricted(cfg, t.result, next);
    PhaseMatters(cfg, next, exec, calls, pending);
    if IsMerged(cfg, false, next) {
      MergedAlone(cfg, false, next);
    }
    RunOfTwo(cfg, s, first, next);
  }

  lemma NotRestricted(cfg: Config, sofar: Result, c: Case)
    ensures OutputResult(cfg, c) != RestrictedFunction && Merge(sofar, OutputResult(cfg, c)) != RestrictedFunction
  {
    hide OutputResult;
    OutputVerdicts(cfg, c);
  }
}
