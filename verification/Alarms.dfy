// The real-time alarms, in milliseconds: main and data_filter in src/judge.cpp, and the limits in src/judge.h.

module Alarms {
  import opened Sequences

  const JUDGE_TIME_LIMIT := 15347
  const COMPILE_TIME_LIMIT := 5347
  const SPJ_TIME_LIMIT := 10347
  const TIME_LIMIT_ADDITION := 347

  // An input file in the data directory.
  datatype InputFile = InputFile(hasOutputFile: bool)

  // With a special judge, a case needs no output file.
  predicate DataFilter(spj: bool, file: InputFile) {
    spj || file.hasOutputFile
  }

  // What a scan of the directory counts.
  function Scan(spj: bool, files: seq<InputFile>): (n: nat)
    ensures n <= |files|
  {
    if files == [] then 0 else (if DataFilter(spj, files[0]) then 1 else 0) + Scan(spj, files[1..])
  }

  // The alarm of the judge is set before it looks for a special judge, and so from the cases with an output file.
  function JudgeAlarm(timeLimit: nat, files: seq<InputFile>): nat {
    (JUDGE_TIME_LIMIT + timeLimit) * Scan(false, files)
  }

  // The alarms of one case: it runs the program, and then perhaps the special judge.
  function CaseAlarm(timeLimit: nat, spj: bool): nat {
    timeLimit + TIME_LIMIT_ADDITION + if spj then SPJ_TIME_LIMIT else 0
  }

  // The longest time that the alarms of its children allow.
  function CaseAlarms(timeLimit: nat, spj: bool, files: seq<InputFile>): nat {
    if files == [] then 0
    else (if DataFilter(spj, files[0]) then CaseAlarm(timeLimit, spj) else 0) + CaseAlarms(timeLimit, spj, files[1..])
  }

  lemma {:induction false} CaseAlarmsOfScan(timeLimit: nat, spj: bool, files: seq<InputFile>)
    ensures CaseAlarms(timeLimit, spj, files) == CaseAlarm(timeLimit, spj) * Scan(spj, files)
  {
    hide CaseAlarm;
    if files != [] {
      CaseAlarmsOfScan(timeLimit, spj, files[1..]);
      Distribute(CaseAlarm(timeLimit, spj), Scan(spj, files[1..]));
    }
  }

  lemma Distribute(a: nat, n: nat)
    ensures a * (1 + n) == a + a * n
  {
  }

  lemma {:induction false} AllHaveOutput(spj: bool, files: seq<InputFile>)
    requires forall i :: 0 <= i < |files| ==> files[i].hasOutputFile
    ensures Scan(spj, files) == |files|
  {
    if files != [] {
      AllHaveOutput(spj, files[1..]);
    }
  }

  // The first scan counts the cases with an output file, the second one the same or, with a special judge, all.
  lemma {:induction false} ScanCounts(files: seq<InputFile>)
    ensures Scan(false, files) == Count(files, InputFile(true)) && Scan(true, files) == |files|
  {
    if files != [] {
      ScanCounts(files[1..]);
      CountHead(files, InputFile(true));
    }
  }

  // The judge's alarm leaves time for `before` and all cases.
  predicate Fits(before: nat, timeLimit: nat, spj: bool, files: seq<InputFile>) {
    before + CaseAlarms(timeLimit, spj, files) <= JudgeAlarm(timeLimit, files)
  }

  // Without a special judge there is always time for the cases, and for a compiler as well if there is any case.
  lemma AlarmsFitPlain(timeLimit: nat, files: seq<InputFile>)
    ensures Fits(0, timeLimit, false, files)
    ensures Fits(COMPILE_TIME_LIMIT, timeLimit, false, files) <==> Scan(false, files) > 0
    ensures JudgeAlarm(timeLimit, files) - CaseAlarms(timeLimit, false, files) == 15000 * Scan(false, files)
  {
    CaseAlarmsOfScan(timeLimit, false, files);
    Difference(timeLimit, JUDGE_TIME_LIMIT, TIME_LIMIT_ADDITION, Scan(false, files));
  }

  // With a special judge it depends on how many cases lack an output file.
  lemma AlarmsFitSpecial(before: nat, timeLimit: nat, files: seq<InputFile>)
    ensures
      var n1, n2 := Count(files, InputFile(true)), |files|;
      && (Fits(before, timeLimit, true, files) <==> before + (timeLimit + 10694) * n2 <= (15347 + timeLimit) * n1)
      && (Fits(before, timeLimit, true, files) <==> before + (timeLimit + 10694) * (n2 - n1) <= 4653 * n1)
  {
    hide CaseAlarms, JudgeAlarm, Count;
    SpecialAlarms(timeLimit, files);
    Missing(before, timeLimit, Count(files, InputFile(true)), |files|);
  }

  lemma SpecialAlarms(timeLimit: nat, files: seq<InputFile>)
    ensures CaseAlarms(timeLimit, true, files) == (timeLimit + 10694) * |files|
    ensures JudgeAlarm(timeLimit, files) == (15347 + timeLimit) * Count(files, InputFile(true))
  {
    hide CaseAlarms, Scan, Count;
    ScanCounts(files);
    CaseAlarmsOfScan(timeLimit, true, files);
  }

  lemma Missing(before: nat, timeLimit: nat, n1: nat, n2: nat)
    ensures before + (timeLimit + 10694) * n2 <= (15347 + timeLimit) * n1 <==> before + (timeLimit + 10694) * (n2 - n1) <= 4653 * n1
  {
    assert (timeLimit + 10694) * (n2 - n1) == (timeLimit + 10694) * n2 - (timeLimit + 10694) * n1;
    assert (15347 + timeLimit) * n1 == (timeLimit + 10694) * n1 + 4653 * n1;
  }

  // If no case does, there is time for the cases, and for a compiler as well if there are two cases or more.
  lemma AlarmsFit(timeLimit: nat, files: seq<InputFile>)
    requires forall i :: 0 <= i < |files| ==> files[i].hasOutputFile
    ensures Fits(0, timeLimit, true, files)
    ensures Fits(COMPILE_TIME_LIMIT, timeLimit, true, files) <==> |files| >= 2
    ensures JudgeAlarm(timeLimit, files) - (COMPILE_TIME_LIMIT + CaseAlarms(timeLimit, true, files)) == 4653 * |files| - 5347
  {
    CaseAlarmsOfScan(timeLimit, true, files);
    AllHaveOutput(false, files);
    AllHaveOutput(true, files);
    Difference(timeLimit, JUDGE_TIME_LIMIT, TIME_LIMIT_ADDITION + SPJ_TIME_LIMIT, |files|);
  }

  lemma Difference(timeLimit: nat, a: nat, b: nat, n: nat)
    ensures (a + timeLimit) * n - (timeLimit + b) * n == (a - b) * n
  {
  }

  // An alarm of 0 is no alarm: the timer is off exactly if no case has an output file.
  lemma AlarmIsOff(timeLimit: nat, files: seq<InputFile>)
    ensures JudgeAlarm(timeLimit, files) == 0 <==> Scan(false, files) == 0
  {
    var n := Scan(false, files);
    if n > 0 {
      assert JudgeAlarm(timeLimit, files) == JUDGE_TIME_LIMIT * n + timeLimit * n;
    }
  }

  // Two cases, one of them without an output file, a special judge and a time limit of one second.
  lemma AlarmTooShort()
    ensures
      var files := [InputFile(true), InputFile(false)];
      JudgeAlarm(1000, files) == 16347 && CaseAlarms(1000, true, files) == 23388 && !Fits(0, 1000, true, files)
  {
    var files := [InputFile(true), InputFile(false)];
    assert files[1..] == [InputFile(false)] && files[1..][1..] == [];
    assert Scan(false, files) == 1 && Scan(true, files) == 2;
    CaseAlarmsOfScan(1000, true, files);
  }
}
