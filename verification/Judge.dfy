// Judging one solution: judge and run_solution in src/judge.cpp.
//
// The kernel's side of a case is its trace: what each wait4 reports about the traced program.

module Judge {
  import opened Syscalls
  import opened SyscallQuota
  import opened Comparator
  import opened JudgeCore
  import opened Wrappers

  // The OJ_* codes that a case can end with.
  datatype Result = Accepted | PresentationError | TimeLimit | MemoryLimit | WrongAnswer | RuntimeError | OutputLimit | RestrictedFunction | ValidatorError

  datatype JudgeType = ACM | OI | TC | CF

  // Linux signal numbers.
  const SIGTRAP := 5
  const SIGALRM := 14
  const SIGCHLD := 17
  const SIGXCPU := 24
  const SIGXFSZ := 25
  const SIGVTALRM := 26

  // What becomes of the two ptrace calls at a stop: reading the registers, and letting the program go on.
  datatype Ptrace = Works | GetRegsFails | ResumeFails

  // What wait4 reports: the status, and the resource usage so far.
  datatype Status = Exited(code: nat) | Signaled(signo: nat) | Stopped(signo: nat, syscallId: int, ptrace: Ptrace)
  datatype Event = Event(status: Status, maxrss: nat, utimeSec: nat, utimeUsec: nat) {
    // User time in milliseconds.
    function Time(): nat {
      utimeSec * 1000 + utimeUsec / 1000
    }

    predicate IsTrap() {
      status.Stopped? && status.signo == SIGTRAP
    }

    // A trap at which ptrace does what it is asked to.
    predicate IsTraced() {
      IsTrap() && status.ptrace == Works
    }
  }

  // How the special judge ended.
  datatype SpjEnd = SpjExited(code: nat) | SpjOther

  // What grep finds in the output of a Java program.
  datatype JavaOutput = JavaOutput(outOfMemoryInStderr: bool, outOfMemoryInStdout: bool, exceptionInStderr: bool, couldNotCreateInStderr: bool)

  // The last two fields are what is found in the files of a run at the end of this case, if it is looked for;
  // the one for the standard error is not emptied between cases.
  datatype Case = Case(trace: seq<Event>, expected: seq<Byte>, actual: seq<Byte>, spjEnd: SpjEnd, java: JavaOutput, stderrNonEmpty: bool)

  datatype Config = Config(lang: int, judgeType: JudgeType, timeLimit: nat, memoryLimit: nat, spj: bool, tables: Tables) {
    // check_arguments refuses other languages.
    ghost predicate Valid() {
      TableFor(lang, tables).Some? && WellFormed(TableFor(lang, tables).value)
    }

    ghost function CaseQuota(): seq<int>
      requires Valid()
    {
      Quota(TableFor(lang, tables).value)
    }

    predicate Managed() {
      lang == LANG_JAVA || lang == LANG_KOTLIN
    }

    predicate Python() {
      lang == LANG_PYTHON27 || lang == LANG_PYTHON3
    }
  }

  ghost predicate ValidCase(c: Case) {
    forall i :: 0 <= i < |c.trace| && c.trace[i].status.Stopped? ==> c.trace[i].status.syscallId < TABLE_SIZE
  }

  // ---------- the judge as a function ----------

  datatype Solution = Solution(result: Result, timeUsage: nat, memoryUsage: nat, filter: Filter)

  function Max(a: nat, b: nat): nat {
    if a < b then b else a
  }

  function SpjResult(end: SpjEnd): Result {
    if end == SpjExited(0) then Accepted
    else if end == SpjExited(1) then PresentationError
    else if end == SpjExited(2) then WrongAnswer
    else ValidatorError
  }

  function OfVerdict(v: Verdict): Result {
    match v
    case AC => Accepted
    case PE => PresentationError
    case WA => WrongAnswer
  }

  // The verdict on the output of a case.
  function OutputResult(cfg: Config, c: Case): Result {
    if cfg.spj then SpjResult(c.spjEnd) else OfVerdict(Compare(c.expected, c.actual))
  }

  // The verdict so far, combined with the verdict on the output of one more case.
  function Merge(sofar: Result, result: Result): Result {
    if result == WrongAnswer then WrongAnswer
    else if sofar != PresentationError then result
    else PresentationError
  }

  function SignalResult(signo: nat): Result {
    if signo == SIGCHLD then Accepted
    else if signo == SIGALRM || signo == SIGVTALRM || signo == SIGXCPU then TimeLimit
    else if signo == SIGXFSZ then OutputLimit
    else RuntimeError
  }

  // Where the tracer's loop leaves off: after `last`, or because wait4 or ptrace fails, which ends the judge.
  datatype TraceEnd = Ended(s: Solution, last: Event) | JudgeExits

  function Trace(cfg: Config, s: Solution, c: Case, i: nat): TraceEnd
    requires |s.filter.quota| == TABLE_SIZE && ValidCase(c) && i <= |c.trace|
    decreases |c.trace| - i
  {
    if i == |c.trace| then
      JudgeExits
    else
      var ev := c.trace[i];
      match ev.status
      case Exited(code) =>
        var result := if !cfg.Managed() || code == EXIT_SUCCESS then Merge(s.result, OutputResult(cfg, c)) else RuntimeError;
        Ended(s.(result := result), ev)
      case Signaled(signo) =>
        Ended(s.(result := SignalResult(signo)), ev)
      case Stopped(signo, id, ptrace) =>
        if signo != SIGTRAP then
          Ended(s.(result := SignalResult(signo)), ev)
        else
          var t := s.(memoryUsage := Max(s.memoryUsage, ev.maxrss));
          if t.memoryUsage > cfg.memoryLimit then
            Ended(t.(result := MemoryLimit), ev)
          else if ptrace == GetRegsFails then
            JudgeExits
          else
            var (filter, valid) := Trap(t.filter, id);
            var u := t.(filter := filter);
            if !valid then Ended(u.(result := RestrictedFunction), ev)
            else if ptrace == ResumeFails then JudgeExits
            else Trace(cfg, u, c, i + 1)
  }

  // The checks after the loop.
  function Settle(cfg: Config, s: Solution, last: Event): Solution {
    var memoryUsage := Max(s.memoryUsage, last.maxrss);
    var timeUsage := Max(s.timeUsage, last.Time());
    var result := if timeUsage > cfg.timeLimit then TimeLimit else if memoryUsage > cfg.memoryLimit then MemoryLimit else s.result;
    s.(result := result, timeUsage := if result == TimeLimit then cfg.timeLimit else timeUsage, memoryUsage := memoryUsage)
  }

  // A wrong answer may be due to an error that the program reported.
  function FixedResult(cfg: Config, result: Result, c: Case): Result {
    if result != WrongAnswer then result
    else if cfg.lang == LANG_JAVA then
      if c.java.outOfMemoryInStderr || c.java.outOfMemoryInStdout then MemoryLimit
      else if c.java.exceptionInStderr || c.java.couldNotCreateInStderr then RuntimeError
      else WrongAnswer
    else if cfg.Python() && c.stderrNonEmpty then RuntimeError
    else WrongAnswer
  }

  function FixUp(cfg: Config, s: Solution, c: Case): Solution {
    var result := FixedResult(cfg, s.result, c);
    s.(result := result, memoryUsage := if s.result == WrongAnswer && result == MemoryLimit then cfg.memoryLimit * STD_KB else s.memoryUsage)
  }

  // The state in which a case is judged: fresh quotas, everything else carried over.
  ghost function Start(cfg: Config, s: Solution): Solution
    requires cfg.Valid()
  {
    s.(filter := s.filter.(quota := cfg.CaseQuota()))
  }

  // One case; None means that the judge exits with EXIT_JUDGE.
  ghost function JudgeCase(cfg: Config, s: Solution, c: Case): Option<Solution>
    requires cfg.Valid() && ValidCase(c)
  {
    match Trace(cfg, Start(cfg, s), c, 0)
    case JudgeExits => None
    case Ended(t, last) => Some(FixUp(cfg, Settle(cfg, t, last), c))
  }

  // A run: the state after each case that was judged, and whether the judge survived.
  datatype Run = Run(history: seq<Solution>, aborted: bool)

  ghost function RunCases(cfg: Config, s: Solution, cases: seq<Case>): Run
    requires cfg.Valid() && forall i :: 0 <= i < |cases| ==> ValidCase(cases[i])
    decreases cases
  {
    if cases == [] then Run([], false)
    else
      match JudgeCase(cfg, s, cases[0])
      case None => Run([], true)
      case Some(t) =>
        if t.result != Accepted && cfg.judgeType == ACM then Run([t], false)
        else
          var rest := RunCases(cfg, t, cases[1..]);
          Run([t] + rest.history, rest.aborted)
  }

  // What output_acm_result prints.
  datatype Report = Report(result: Result, timeUsage: nat, memoryUsage: nat, firstFailed: nat)

  // The number of the first case after which the verdict is not AC; 0 if there is none.
  function FirstFailed(history: seq<Solution>): nat {
    if history == [] then 0
    else if history[0].result != Accepted then 1
    else
      var k := FirstFailed(history[1..]);
      if k == 0 then 0 else k + 1
  }

  function Last(s: Solution, history: seq<Solution>): Solution {
    if history == [] then s else history[|history| - 1]
  }

  function ReportOn(s: Solution, run: Run): Option<Report> {
    var t := Last(s, run.history);
    if run.aborted then None else Some(Report(t.result, t.timeUsage, t.memoryUsage, FirstFailed(run.history)))
  }

  // ---------- the judge as a program ----------

  class Judger {
    const cfg: Config
    const filter: SyscallFilter
    var result: Result
    var timeUsage: nat
    var memoryUsage: nat

    constructor (cfg: Config)
      ensures this.cfg == cfg && Valid() && fresh(filter) && fresh(filter.syscalls)
      ensures Value().result == Accepted && timeUsage == memoryUsage == 0 && filter.inSyscall
    {
      this.cfg := cfg;
      filter := new SyscallFilter();
      result, timeUsage, memoryUsage := Accepted, 0, 0;
    }

    ghost predicate Valid() {
      filter.syscalls.Length == TABLE_SIZE
    }

    ghost function Value(): Solution
      reads this, filter, filter.syscalls
    {
      Solution(result, timeUsage, memoryUsage, filter.Value())
    }

    method CompareOutput(c: Case) returns (r: Result)
      ensures r == OutputResult(cfg, c)
    {
      if cfg.spj {
        return SpjResult(c.spjEnd);
      }
      var std := new Stream(c.expected);
      var exe := new Stream(c.actual);
      var verdict := OjCompareOutput(std, exe);
      return OfVerdict(verdict);
    }

    method JudgeOne(c: Case) returns (ok: Option<bool>)
      requires Valid() && cfg.Valid() && ValidCase(c)
      modifies this, filter, filter.syscalls
      ensures JudgeCase(cfg, old(Value()), c) == if ok.Some? then Some(Value()) else None
      ensures ok.Some? ==> ok.value == (result == Accepted)
    {
      var rc := filter.InitSyscalls(cfg.lang, cfg.tables);
      ghost var start := Value();
      assert start == Start(cfg, old(Value()));

      var i := 0;
      var last: Event;
      while true
        invariant 0 <= i <= |c.trace|
        invariant Trace(cfg, start, c, 0) == Trace(cfg, Value(), c, i)
        decreases |c.trace| - i
      {
        if i == |c.trace| {
          return None;  // wait4 fails: exit(EXIT_JUDGE)
        }
        last := c.trace[i];
        if last.status.Exited? {
          if !cfg.Managed() || last.status.code == EXIT_SUCCESS {
            var output := CompareOutput(c);
            if output == WrongAnswer {
              result := WrongAnswer;
            } else if result != PresentationError {
              result := output;
            }
          } else {
            result := RuntimeError;
          }
          break;
        }
        if last.status.Signaled? || !last.IsTrap() {
          result := SignalResult(last.status.signo);
          break;
        }
        memoryUsage := Max(memoryUsage, last.maxrss);
        if memoryUsage > cfg.memoryLimit {
          result := MemoryLimit;
          break;
        }
        if last.status.ptrace == GetRegsFails {
          return None;  // the same
        }
        var valid := true;
        if last.status.syscallId > 0 {
          valid := filter.IsValidSyscall(last.status.syscallId);
        }
        if !valid {
          result := RestrictedFunction;
          break;
        }
        if last.status.ptrace == ResumeFails {
          return None;  // the same
        }
        i := i + 1;
      }
      assert Trace(cfg, start, c, 0) == Ended(Value(), last);
      ghost var traced := Value();
      Finish(c, last);
      assert Value() == FixUp(cfg, Settle(cfg, traced, last), c);
      return Some(result == Accepted);
    }

    // The part of judge after the tracer's loop.
    method Finish(c: Case, last: Event)
      modifies this
      ensures Value() == FixUp(cfg, Settle(cfg, old(Value()), last), c)
    {
      memoryUsage := Max(memoryUsage, last.maxrss);
      if memoryUsage > cfg.memoryLimit {
        result := MemoryLimit;
      }
      timeUsage := Max(timeUsage, last.Time());
      if timeUsage > cfg.timeLimit {
        result := TimeLimit;
      }
      if result != Accepted {
        if result == TimeLimit {
          timeUsage := cfg.timeLimit;
        } else if result == WrongAnswer {
          if cfg.lang == LANG_JAVA {
            FixJavaResult(c.java);
          } else if cfg.Python() && c.stderrNonEmpty {
            result := RuntimeError;
          }
        }
      }
    }

    method FixJavaResult(java: JavaOutput)
      modifies this
      ensures timeUsage == old(timeUsage)
      ensures java.outOfMemoryInStderr || java.outOfMemoryInStdout ==> result == MemoryLimit && memoryUsage == cfg.memoryLimit * STD_KB
      ensures !java.outOfMemoryInStderr && !java.outOfMemoryInStdout ==>
        && memoryUsage == old(memoryUsage)
        && result == if java.exceptionInStderr || java.couldNotCreateInStderr then RuntimeError else old(result)
    {
      if java.outOfMemoryInStderr || java.outOfMemoryInStdout {
        result := MemoryLimit;
        memoryUsage := cfg.memoryLimit * STD_KB;
        return;
      }
      if java.exceptionInStderr {
        result := RuntimeError;
        return;
      }
      if java.couldNotCreateInStderr {
        result := RuntimeError;
        return;
      }
    }

    method RunSolution(cases: seq<Case>) returns (report: Option<Report>)
      requires Valid() && cfg.Valid() && forall i :: 0 <= i < |cases| ==> ValidCase(cases[i])
      modifies this, filter, filter.syscalls
      ensures report == ReportOn(old(Value()), RunCases(cfg, old(Value()), cases))
    {
      hide RunCases, JudgeCase, FirstFailed, Resume;
      var firstFailed := 0;
      ghost var run := RunCases(cfg, Value(), cases);
      ghost var done: seq<Solution> := [];
      NoCases(cfg, Value());
      assert cases[0..] == cases;
      ResumeNone(run);
      var i := 0;
      while i < |cases|
        invariant 0 <= i <= |cases| && |done| == i
        invariant Last(old(Value()), done) == Value()
        invariant firstFailed == FirstFailed(done)
        invariant run == Resume(done, RunCases(cfg, Value(), cases[i..]))
      {
        OneMoreCase(cfg, done, Value(), cases, i);
        var ok := JudgeOne(cases[i]);
        if ok.None? {
          return None;
        }
        if result != Accepted && firstFailed == 0 {
          firstFailed := i + 1;
        }
        FirstFailedSnoc(done, Value());
        done := done + [Value()];
        i := i + 1;
        if !ok.value && cfg.judgeType == ACM {
          return Some(Report(result, timeUsage, memoryUsage, firstFailed));
        }
      }
      assert cases[i..] == [];
      NoCases(cfg, Value());
      ResumeEnd(done);
      return Some(Report(result, timeUsage, memoryUsage, firstFailed));
    }
  }

  // A run of which the cases in `done` are over.
  ghost function Resume(done: seq<Solution>, rest: Run): Run {
    Run(done + rest.history, rest.aborted)
  }

  lemma NoCases(cfg: Config, s: Solution)
    requires cfg.Valid()
    ensures RunCases(cfg, s, []) == Run([], false) && FirstFailed([]) == 0
  {
  }

  lemma ResumeNone(run: Run)
    ensures Resume([], run) == run
  {
  }

  lemma ResumeEnd(done: seq<Solution>)
    ensures Resume(done, Run([], false)) == Run(done, false)
  {
  }

  lemma OneMoreCase(cfg: Config, done: seq<Solution>, s: Solution, cases: seq<Case>, i: nat)
    requires cfg.Valid() && i < |cases| && forall k :: 0 <= k < |cases| ==> ValidCase(cases[k])
    ensures
      Resume(done, RunCases(cfg, s, cases[i..])) ==
      match JudgeCase(cfg, s, cases[i])
      case None => Run(done, true)
      case Some(t) =>
        if t.result != Accepted && cfg.judgeType == ACM then Run(done + [t], false)
        else Resume(done + [t], RunCases(cfg, t, cases[i + 1..]))
  {
  }

  lemma {:induction false} FirstFailedSnoc(history: seq<Solution>, t: Solution)
    ensures FirstFailed(history + [t]) == if FirstFailed(history) == 0 && t.result != Accepted then |history| + 1 else FirstFailed(history)
  {
    if history == [] {
      assert history + [t] == [t];
    } else {
      assert (history + [t])[1..] == history[1..] + [t];
      FirstFailedSnoc(history[1..], t);
    }
  }
}
