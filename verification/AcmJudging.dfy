// ACM mode: a run reports the verdict that its first failing case has on its own.

module AcmJudging {
  import opened Judge
  import opened JudgeRuns
  import opened Wrappers

  // The index of the first case that is not accepted on its own.
  ghost function FirstFailing(cfg: Config, cases: seq<Case>): (n: nat)
    requires cfg.Valid() && ValidCases(cases)
    ensures n <= |cases|
    ensures forall i :: 0 <= i < n ==> AcceptedAlone(cfg, cases[i])
    ensures n < |cases| ==> !AcceptedAlone(cfg, cases[n])
  {
    if cases == [] || !AcceptedAlone(cfg, cases[0]) then 0 else 1 + FirstFailing(cfg, cases[1..])
  }

  // The highest usage among cases judged on their own.
  ghost function Peak(cfg: Config, s: Solution, cases: seq<Case>): Solution
    requires cfg.Valid() && ValidCases(cases)
    decreases cases
  {
    if cases == [] || JudgeAlone(cfg, cases[0]).None? then s
    else Peak(cfg, Raise(JudgeAlone(cfg, cases[0]).value, s.timeUsage, s.memoryUsage), cases[1..])
  }

  // The report of a run, from the cases on their own.
  ghost function ExpectedReport(cfg: Config, s: Solution, cases: seq<Case>): Option<Report>
    requires cfg.Valid() && ValidCases(cases)
  {
    var n := FirstFailing(cfg, cases);
    if n == |cases| then
      var peak := Peak(cfg, s, cases);
      Some(Report(Accepted, peak.timeUsage, peak.memoryUsage, 0))
    else
      match JudgeAlone(cfg, cases[n])
      case None => None
      case Some(t) =>
        var peak := Peak(cfg, s, cases[..n + 1]);
        Some(Report(t.result, peak.timeUsage, peak.memoryUsage, n + 1))
  }

  lemma {:induction false} AcmRun(cfg: Config, s: Solution, cases: seq<Case>)
    requires cfg.Valid() && ValidCases(cases) && cfg.judgeType == ACM
    requires forall i :: 0 <= i < FirstFailing(cfg, cases) ==> EvenAtSuccess(cases[i])
    requires Ready(cfg, s) && s.result == Accepted
    ensures ReportOn(s, RunCases(cfg, s, cases)) == ExpectedReport(cfg, s, cases)
    ensures |RunCases(cfg, s, cases).history| <= FirstFailing(cfg, cases) + 1
    decreases cases
  {
    hide JudgeCase, Ready;
    if cases != [] {
      var c, rest := cases[0], cases[1..];
      CaseAfterAccepted(cfg, s, c);
      if JudgeCase(cfg, s, c).Some? {
        var t := JudgeCase(cfg, s, c).value;
        if t.result == Accepted {
          AcceptedCaseIsReady(cfg, s, c);
          AcmRun(cfg, t, rest);
          ReportAfterAccepted(s, t, RunCases(cfg, t, rest));
          var n := FirstFailing(cfg, rest);
          PeakAfter(cfg, s, t, cases, if n < |rest| then n + 1 else n);
        } else {
          var first := cases[..0 + 1];
          assert first[0] == c && first[1..] == [];
          assert Peak(cfg, s, first) == Peak(cfg, t, first[1..]) == t;
        }
      }
    }
  }

  lemma ReportAfterAccepted(s: Solution, t: Solution, rest: Run)
    requires t.result == Accepted
    ensures ReportOn(s, Run([t] + rest.history, rest.aborted)) ==
            match ReportOn(t, rest)
            case None => None
            case Some(r) => Some(r.(firstFailed := if r.firstFailed == 0 then 0 else r.firstFailed + 1))
  {
  }

  lemma PeakAfter(cfg: Config, s: Solution, t: Solution, cases: seq<Case>, n: nat)
    requires cfg.Valid() && ValidCases(cases) && n < |cases|
    requires AcceptedAlone(cfg, cases[0]) && t == Raise(JudgeAlone(cfg, cases[0]).value, s.timeUsage, s.memoryUsage)
    ensures Peak(cfg, s, cases) == Peak(cfg, t, cases[1..])
    ensures Peak(cfg, s, cases[..n + 1]) == Peak(cfg, t, cases[1..][..n])
  {
    hide JudgeAlone, Raise;
    assert cases[..n + 1][1..] == cases[1..][..n];
  }
}
