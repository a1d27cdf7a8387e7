# PowerJudge, verified

A Dafny model of the parts of PowerJudge where the reasoning is hard, with proofs of what they promise.

**The judge.** `Comparator` is the two-stream output comparator with its one-byte push-back; `ComparatorLaws` says what its verdict means for every pair of files. `Syscalls` is the system call filter, a table of quotas and one phase bit that is flipped at every stop; `SyscallQuota` proves that charging one of the two phases gives exactly the quota per call. `Judge` is the tracer's loop, the merging of verdicts and the loop over the cases; `JudgeRuns` proves the accounting of time and memory for every run, and what a case takes over from those before it. `CaseEnds` says what the end of a case stands for, language by language and number by number, and what usage is reported. `CaseProtocol` says what the verdict on one case means, in the right phase and in the wrong one. `AcmJudging` ties the report of a run in ACM mode to the cases judged one by one; `RunVerdicts` does so for runs in any mode, whatever ends their cases, and `RunExamples` has concrete runs in which one case hides or spoils another. `Alarms` is the arithmetic of the timers.

**The daemon.** `QueueMonitor` is the blocking queue as a state machine with an explicit mutex, sleepers, woken threads and chance wake-ups; `ThreadSafeQueue` is its code, section by section. `Daemon` is the acceptor, any number of workers and the sender over two such queues, with SIGTERM at any moment. `Pipeline` is what submissions see of this; `DaemonSafety` proves that the daemon refines it, `DaemonProgress` keeps program counters and queues in agreement, `DaemonDrain` proves liveness with a rank, and `DaemonShutdown` says what the threads still do after SIGTERM.

**The lint tool** in `bin/`. `Brackets` and `TextInside` are the scanners for matching brackets, `BracketLaws` relates them. `Nesting` is the nesting of blocks and preprocessor branches on values, `NestingLaws` and `NestingTrees` prove that discarded branches do not matter, `NestingBraces` says what the depth of the stack counts, `NestingParentheses` that open parentheses add up and keep arguments from being taken for blocks, and `NestingObjects` is the same with block objects that change in place and are copied. `Comments` removes comments of several lines, `IncludeOrder` checks the order of headers.

Methods are proved against functions on values, and the promises are lemmas about these functions. Assumptions of the model: numbers do not wrap (limits come from 32-bit arguments and are multiplied by at most 3 * 1024, which fits the 64-bit `unsigned long` of the platforms named in the repository's README), system call ids fit the table, and signal numbers are those of Linux on x86.

The file for the standard error of the programs is not emptied between cases (`src/judge.cpp:754`). What the fix-ups for Java and Python find in it is therefore given with each case of a run, and for these languages "alone" means "alone, with what was found in the run".

`Wrappers`, `Sequences` and `JudgeCore` hold what several modules share.

Where the code and its own words differ, the model follows the code:

- `src/judge.cpp:658` logs that a run stops for anything but AC and PE, but a PE stops it as well.
- `src/judge.cpp:543` takes a verdict that is not PE for AC; outside ACM mode it can be anything, so a later AC hides earlier failures (`RunVerdicts.RunAccepted` says exactly when, `RunVerdicts.LaterCaseHides` what is left of them).
- `src/syscalls.cpp:22` sets the phase bit once; a case that ends between two calls leaves it wrong, and the next case is charged at the other phase, which can refuse what is allowed and admit what is not (`CaseProtocol.PhaseMatters` says exactly when this changes a verdict).
- `src/judge.cpp:45` counts the cases before the special judge is looked for, and so leaves out those without an output file, which `src/judge.cpp:714` lets a special judge run; the judge's alarm can then be too short, or off (`Alarms.AlarmsFitSpecial` says exactly when, `Alarms.AlarmTooShort` is an input).
- `src/judge.cpp:905` admits a wrong PE for files with classic Mac line endings (`ComparatorLaws.MacFileVerdict` says exactly when, `ComparatorLaws.MacFileMisjudged` is the shortest one).
- `src/judged.cpp:237` logs a failed `waitpid` and goes on with status 0, which reads as a normal exit.
- `bin/cpplint.py:545` announces an exception for headers out of order, but a message is returned.

## Model

| member | source | states |
|---|---|---|
| Comparator.Stream.Ungetc | src/judge.cpp:954-959 | pushing a byte back makes it the next unread one, so after `\r` is skipped the unread text has it in front again |
| Comparator.Stream.GetcSkippingCR | src/judge.cpp:907-908 | the byte that is read is the first of the unread text without `\r`, and end of file is seen exactly if there is none |
| Comparator.ReadTail | src/judge.cpp:917-946 | once one file has ended, the verdict so far stands if only white space and `\r` are left in the other, and is WA otherwise |
| Comparator.OjCompareOutput | src/judge.cpp:879-976 | the loop with push-back terminates; without `\r`, the verdict is WA iff the visible bytes differ, AC iff one text is the other followed by white space only, PE otherwise |
| ComparatorLaws.CompareByNumber | src/judge.cpp:900-966 | by the numbers of the bytes: WA iff the bytes other than 9, 10, 13 and 32 differ, AC iff without 13 one text is the other followed by 9, 10 and 32 only |
| ComparatorLaws.Symmetric | src/judge.cpp:900-966 | the verdict does not depend on which of the two files is the expected one |
| ComparatorLaws.NotWrongIsEquivalence | src/judge.cpp:949-965 | a file is accepted against itself, and "not WA" is symmetric and transitive |
| ComparatorLaws.CarriageReturnIgnored | src/judge.cpp:907-908 | a `\r` inserted anywhere in either file changes no verdict |
| ComparatorLaws.WhiteSpaceIsNeverWrong | src/judge.cpp:949-960 | white space inserted anywhere never makes or removes a WA |
| ComparatorLaws.TrailingWhiteSpaceAccepted | src/judge.cpp:917-946 | white space added at the end is accepted |
| ComparatorLaws.ExtraByteIsWrong | src/judge.cpp:960-964 | one visible byte inserted anywhere is WA |
| ComparatorLaws.AcceptedWithCommonFile | src/judge.cpp:915-965 | two files accepted against a common one are accepted against each other iff one is a prefix of the other up to `\r` |
| ComparatorLaws.AcceptedNotTransitive | src/judge.cpp:949-953 | AC is not transitive: a concrete triple |
| ComparatorLaws.DosFileAccepted | src/judge.cpp:901-908 | the same text with DOS line endings is always accepted |
| ComparatorLaws.MacFileVerdict | src/judge.cpp:901-908 | the same text with classic Mac line endings is accepted iff nothing but line feeds follows its first line feed, and gets PE otherwise |
| ComparatorLaws.MacFileMisjudged | src/judge.cpp:901-905 | a file of two lines gets PE against itself with classic Mac line endings |
| Syscalls.SyscallFilter.InitSyscalls | src/syscalls.cpp:498-534 | an unknown language changes nothing; otherwise the table is the one the array describes, whatever it held before, and the phase bit is untouched |
| Syscalls.SyscallFilter.IsValidSyscall | src/syscalls.cpp:536-554 | one stop: flips the phase, refuses id with quota 0, charges a positive quota at one phase only |
| Syscalls.LastPairWins | src/syscalls.cpp:529-532 | the last pair of a key decides its quota, and a key without a pair gets 0 |
| Syscalls.TableByNumber | src/syscalls.cpp:501-528 | which table each language number has, and that no other number has one |
| SyscallQuota.SkippedStops | src/judge.cpp:620-631 | stops with ids that are not positive are invisible to the filter and do not disturb its phase |
| SyscallQuota.CompletedCalls | src/syscalls.cpp:536-554 | after the exec stop and any completed calls: all stops are admitted iff no call exceeds its quota, and what is left of each quota is exact, the exec counting once |
| SyscallQuota.AdmittedIffWithinQuota | src/syscalls.cpp:536-554 | any trace with the exec, completed calls and perhaps a pending one, other stops mixed in, is admitted iff no call exceeds its quota; the phase bit is back at its start value iff a call is pending, and after a refusal iff it was not the exec that was refused |
| SyscallQuota.RefusedEntry | src/syscalls.cpp:536-554 | an entry is refused iff exactly as many calls of its id as the quota have completed |
| SyscallQuota.ExitIsNeverRefused | src/syscalls.cpp:537-542 | the exit stop of an admitted call is always admitted |
| SyscallQuota.TrapsParity | src/syscalls.cpp:537-543 | the phase bit tells the parity of the stops shown to the filter, the refused one included |
| SyscallQuota.WrongPhase | src/syscalls.cpp:22-22 | with the phase bit wrong at the start, calls are charged at their entries and are admitted iff every limited call is made less often than its quota |
| SyscallQuota.AdmittedInWrongPhase | src/syscalls.cpp:536-554 | started in the wrong phase, a trace is admitted iff the exec is allowed at all, every completed call is made less often than its quota and the pending one is still allowed; the phase stays wrong unless a call is pending, or the exec or the exit of a call is refused |
| SyscallQuota.RefusedInWrongPhase | src/syscalls.cpp:536-554 | of the traces within the quota, the wrong phase refuses exactly those in which some completed calls use up a quota |
| SyscallQuota.AdmittedOverQuota | src/syscalls.cpp:536-554 | of the traces that the wrong phase admits, exactly those are over the quota that end by entering the exec once more than it allows |
| Judge.Judger.JudgeOne | src/judge.cpp:517-674 | one case: the tracer's loop, the merge of the verdict and the resource checks change result, time, memory, quotas and phase as the function JudgeCase says; a wait4 or ptrace call that fails ends the judge |
| Judge.Judger.Finish | src/judge.cpp:641-673 | after the loop: peak usage, limits, and the fix-up of a wrong answer |
| Judge.Judger.FixJavaResult | src/judge.cpp:978-1005 | what grep finds in a Java program's output decides between MLE, RE and WA |
| Judge.Judger.RunSolution | src/judge.cpp:395-439 | the loop over the cases reports what RunCases says, including the number of the first failing case; ACM mode stops at the first case that is not AC |
| Judge.FirstFailedSnoc | src/judge.cpp:418-420 | the number of the first failing case is set once, at the first case after which the verdict is not AC |
| JudgeRuns.CaseAccounts | src/judge.cpp:606-666 | after a case: time is within its limit and a TLE pins it there; memory is above its limit iff the verdict is MLE, unless it is TLE; usage never decreases |
| JudgeRuns.UnmeasuredCase | src/judge.cpp:978-991 | for every configuration, a wrong answer that reports a lack of memory has consistent accounts iff the language is not Java or the memory limit is positive, so the condition in CaseAccounts is exact |
| JudgeRuns.RunAccounts | src/judge.cpp:606-662 | for any two cases of a run in any mode: usage grows, a TLE pins the time for good, and after an MLE every case ends MLE or TLE |
| JudgeRuns.SameTrace | src/judge.cpp:519-638 | an earlier verdict and earlier usage within limits change nothing in the tracer's loop but the merge at a normal exit and the peaks |
| JudgeRuns.CaseAfter | src/judge.cpp:517-673 | from any state within limits, in either phase and with any verdict so far, a case gives what it gives alone in that phase, with usage raised to the peak; the verdict on its output is merged if it exits normally within its limits and no fix-up changes it |
| JudgeRuns.CaseOverLimit | src/judge.cpp:606-654 | once memory usage is above the limit, every case is over at its first event, with MLE, or TLE if the time is exceeded by then |
| JudgeRuns.CaseAfterAccepted | src/judge.cpp:517-673 | after accepted cases, a case gets the verdict it gets alone, and usage is the peak of both |
| JudgeRuns.CaseEndsAt | src/judge.cpp:519-654 | a case ends at the first event that is no trap, exceeds the memory limit or is refused; its verdict is TLE if the time is exceeded by then, else MLE if the memory is, else what the event stands for; the phase bit tells the parity of the stops shown to the filter, whatever ended the case |
| CaseEnds.CaseVerdict | src/judge.cpp:519-670 | the verdict on a case judged alone, for every configuration: TLE, MLE, RF, or by its end: the exit code counts for Java and Kotlin only; the output by the special judge's code or by comparison; a wrong answer is looked into for Java and Python only, with the findings that decide; each signal by its number |
| CaseEnds.CaseUsage | src/judge.cpp:606-661 | the usage of a case judged alone: memory is the highest of all events up to the one that ends it, that one included, or 1024 times the limit where Java's fix-up charges it; time is the limit after a TLE and the user time of the last event otherwise |
| CaseEnds.SurvivesIff | src/judge.cpp:519-638 | the judge survives a case iff there is an event that ends it; otherwise wait4 fails, or ptrace at a stop that is within its limits and not refused |
| CaseEnds.EndIsUnique | src/judge.cpp:519-638 | at most one event ends a case |
| CaseEnds.TimeOfEvent | src/judge.cpp:648-649 | user time is rounded down to milliseconds |
| CaseEnds.EarlierVerdict | src/judge.cpp:541-547 | from any state within limits a case gets its lone verdict, except that a PE stays if the case exits with an output that is not wrong |
| JudgeRuns.AcceptedPhase | src/syscalls.cpp:536-543 | the phase bit, never reset between cases, is as before after every accepted case whose exit or SIGCHLD comes after an even number of counted stops |
| AcmJudging.AcmRun | src/judge.cpp:409-438 | ACM mode, where each case before the first failing one can only be accepted after an even number of counted stops: the report is AC iff every case is AC alone; otherwise it is the lone verdict of the first failing case, with its number and the peak usage up to it, and it is the last case judged |
| CaseProtocol.ProtocolIsEven | src/syscalls.cpp:537-542 | a program that follows the stop protocol meets the parity that AcmRun asks for iff it ends neither by an exit nor by SIGCHLD, or does so in a pending call |
| CaseProtocol.CaseMeaning | src/judge.cpp:519-604 | within its limits, a case that follows the protocol is RF iff a call exceeds its quota, and else gets the verdict of its exit or signal, fix-ups included; the phase bit afterwards is exact |
| CaseProtocol.CaseInWrongPhase | src/syscalls.cpp:22-22 | the same for a case that starts in the wrong phase, with the quota rule of that phase and the phase bit after it in both outcomes |
| CaseProtocol.PhaseMatters | src/syscalls.cpp:536-554 | for every case within its limits that follows the protocol, the verdicts in the two phases differ iff it is within its quota and some completed calls use one up (then it is RF in the wrong phase only), or the wrong phase admits it and it ends by entering the exec once too often (then it is RF in the right phase only) |
| CaseProtocol.AcceptedMeans | src/judge.cpp:526-548 | an exiting program is accepted iff no call exceeds its quota, its exit code is 0 where that counts, and the special judge accepts it or, without one, its visible output is right and white space differs only at the end |
| CaseProtocol.ChildSignalIsAccepted | src/judge.cpp:567-571 | a case ended by SIGCHLD is accepted whatever it printed |
| RunVerdicts.CaseEnds | src/judge.cpp:517-673 | in any run, after any cases, the verdict after a case follows from the verdict so far, the case alone, the phase bit and whether memory was over the limit, and so does what it leaves to the next case |
| RunVerdicts.RunFollowsStory | src/judge.cpp:409-425 | the verdict after each case of any run in any mode (in ACM mode one that starts with AC, as runs do) is the fold of the ends of the cases: merged for an output, replaced for a signal, a limit, a refused call, an abnormal exit or a fix-up; the run is cut short as its cases say |
| RunVerdicts.RunUsage | src/judge.cpp:606-661 | after each case of any run in any mode, time and memory are the highest of what the run started with and what its cases add |
| RunVerdicts.AcceptedVerdict | src/judge.cpp:540-547 | the fold is AC iff the last case ends as AC and every PE is followed by a WA or by a case whose verdict replaces what was there |
| RunVerdicts.RunAccepted | src/judge.cpp:409-438 | any run in any mode, whatever ends its cases, reports AC iff the judge survives, its last case ends as AC and every PE is so replaced |
| RunVerdicts.CaseIndependence | src/judge.cpp:409-425 | outside ACM mode, if each case alone keeps the phase bit and stays within the memory limit, the verdict after a case is its output merged into the verdict so far if it exits normally within its limits, and its lone verdict otherwise; the judge exits at the first case at which it exits alone |
| RunVerdicts.StoryOfIndependent | src/judge.cpp:409-425 | the ends of such cases in a run are their ends alone, so that RunAccepted speaks of each case on its own |
| RunVerdicts.LeavesNothingIff | src/syscalls.cpp:536-543 | a case within its limits that follows the protocol meets that condition iff it ends in a pending call, or is refused a call that is not the exec, and no fix-up charges it with memory |
| RunVerdicts.LaterCaseHides | src/judge.cpp:541-547 | outside ACM mode any failed case but a PE, if alone it keeps the phase bit and stays within the memory limit, is hidden by a following accepted one: AC is reported, with the peak usage and the number of the failed case; after a TLE the time stays at the limit |
| RunVerdicts.NextCaseInWrongPhase | src/syscalls.cpp:22-22 | after a case that leaves the phase bit wrong, a case is RF iff the rule of the wrong phase refuses it; it is RF there and not alone, or alone and not there, exactly in the two cases of PhaseMatters |
| RunExamples.WrongAnswerHidden | src/judge.cpp:541-547 | a run of two cases, a wrong answer and a right one, reports AC |
| RunExamples.TimeLimitHidden | src/judge.cpp:648-662 | a run of two cases, one over its time limit and one accepted, reports AC with the time at the limit |
| RunExamples.PresentationErrorHidden | src/judge.cpp:541-547 | a run of three cases, a PE, a crash and an accepted one, reports AC without any WA |
| RunExamples.KilledProgram | src/syscalls.cpp:22-22 | with a concrete table: a case killed by signal 11 after its exec leaves the phase wrong |
| RunExamples.LastCallRefused | src/syscalls.cpp:22-22 | after it, a case that makes one call with quota 1 and is accepted alone gets RF |
| RunExamples.SecondExecAdmitted | src/syscalls.cpp:22-22 | after it, a case that enters a second exec and is killed there is not RF, though alone it is; judged alone in the wrong phase it is RE |
| Alarms.AlarmsFitPlain | src/judge.cpp:44-47 | without a special judge, the judge's alarm covers the alarms of all cases, and that of the compiler as well iff there is any case |
| Alarms.AlarmsFitSpecial | src/judge.cpp:709-727 | with a special judge, it covers them iff n2 * (T + 10694) <= n1 * (T + 15347), where n1 counts the cases with an output file and n2 all cases; the same with a compiler's alarm added |
| Alarms.AlarmsFit | src/judge.cpp:44-47 | with a special judge and an output file for every case, it covers them for any number of cases, and that of the compiler as well iff there are at least two |
| Alarms.AlarmIsOff | src/judge.cpp:44-47 | the alarm is 0, which switches the timer off, iff no case has an output file |
| Alarms.AlarmTooShort | src/judge.cpp:709-727 | two cases, one of them without an output file, a special judge and a limit of one second: 16347 ms for 23388 ms |
| QueueMonitor.InvKept | src/thread_safe_queue.hpp:19-31 | every step of every thread, and every chance wake-up, keeps the invariant behind the wake-up guarantee |
| QueueMonitor.NoLostWakeUp | src/thread_safe_queue.hpp:19-31 | in every reachable state with the mutex free, if a consumer sleeps then the queue holds at most as many items as there are woken consumers |
| QueueMonitor.ItemIsNeverStranded | src/thread_safe_queue.hpp:19-31 | with an item queued and a consumer asleep, some thread already inside a call can step without a new caller or chance |
| QueueMonitor.FirstInFirstOut | src/thread_safe_queue.hpp:19-31 | over any run and across all threads, what was taken followed by what is queued is what was pushed, in order |
| ThreadSafeQueue.Queue.Lock | src/thread_safe_queue.hpp:20-28 | the free mutex is taken on entry by a running thread, or inside wait by a woken one, which is then no longer counted as woken |
| ThreadSafeQueue.Queue.GetFrontAndPop | src/thread_safe_queue.hpp:19-25 | with the mutex held: an empty queue puts the thread to sleep and frees the mutex, otherwise the front is removed and returned |
| ThreadSafeQueue.Queue.Push | src/thread_safe_queue.hpp:27-31 | with the mutex held: appends, wakes one sleeper if there is one, frees the mutex |
| ThreadSafeQueue.PushWakes | src/thread_safe_queue.hpp:27-31 | a whole push keeps the invariant and wakes exactly one sleeper if there is any |
| Daemon.ReportedAsResult | src/judged.cpp:215-272 | of all ways in which a judge process can end, a result is reported for exit codes 0 and 6 and a failed waitpid, and a system error for all others |
| Daemon.CodeByNumber | src/judged.cpp:215-272 | the code that is queued for each way in which a judge process can end, by number |
| Pipeline.PlacesAfterStep | src/judged.cpp:31-51 | a step moves submissions between places and changes the number of places of none but a newly accepted one |
| Pipeline.SendOvertakesFew | src/judged.cpp:31-38 | a result overtakes only what other workers hold, so at most N - 1 earlier submissions |
| DaemonSafety.Refines | src/judged.cpp:31-51 | every step of the daemon, SIGTERM and chance wake-ups included, is one move of a submission or none |
| DaemonSafety.ExactlyOnePlace | src/judged.cpp:28-51 | in every reachable state each accepted submission is in exactly one of acceptor, process queue, one worker, send queue, sender, reported; nothing else is anywhere |
| DaemonSafety.BoundedOvertaking | src/judged.cpp:31-51 | with N workers a result enters the send queue ahead of at most N - 1 submissions accepted earlier |
| DaemonSafety.OneWorkerIsFifo | src/judged.cpp:31-51 | with one worker, results are sent and reported exactly in the order of acceptance |
| DaemonSafety.OneResultPerRun | src/judged.cpp:203-273 | over any history, each result has been queued or is about to be as often as a run has found it out |
| DaemonSafety.RunsAreDistinct | src/judged.cpp:31-38 | no submission is judged twice |
| DaemonSafety.ResultOfItsRun | src/judged.cpp:203-273 | each result in the send queue, with the sender or reported carries the code that follows from how the judge process of its own submission ended, in the one run of that submission |
| DaemonSafety.QueuesLoseNoWakeUp | src/judged.cpp:28-29 | neither queue of the running daemon loses a wake-up, with any number of workers |
| DaemonProgress.AgreesKept | src/judged.cpp:31-51 | sleepers, woken threads and mutex owners always match what the threads are doing |
| DaemonDrain.RankDrops | src/judged.cpp:31-51 | every step of acceptor's push, workers and sender lowers one rank while the daemon runs |
| DaemonDrain.WorkIsNeverStuck | src/judged.cpp:31-51 | while the daemon runs and a result is missing, some thread that is not asleep can step |
| DaemonDrain.EverythingIsReported | src/judged.cpp:31-51 | without further submissions, signals or chance wake-ups, every schedule ends within a bounded number of steps, with every accepted submission reported |
| DaemonShutdown.WorkerWindsDown | src/judged.cpp:31-38 | after SIGTERM a worker takes at most one more submission, and only if it is already waiting for one |
| DaemonShutdown.WorkerStops | src/judged.cpp:31-38 | after SIGTERM a worker that comes back to its test stops for good |
| DaemonShutdown.SenderWindsDown | src/judged.cpp:40-51 | the same for the sender and results |
| DaemonShutdown.AcceptorWindsDown | src/judged.cpp:134-149 | after SIGTERM the acceptor comes back from accept at most once more, with a submission or without, and its next test ends the process |
| Brackets.FindEndOfExpressionInLine | bin/cpplint.py:1218-1239 | the place after the first closer that brings the depth to zero, or the depth at the end of the line |
| Brackets.FindStartOfExpressionInLine | bin/cpplint.py:1288-1312 | the same from right to left |
| Brackets.CloseExpression | bin/cpplint.py:1242-1285 | at `(`, `[`, `{` and `<`: over the joined lines, the place after the first character where the depth of this bracket and `)`, `]`, `}` and `>`, counted from the opener, is zero; -1 iff there is none or another character stands here |
| Brackets.ReverseCloseExpression | bin/cpplint.py:1315-1357 | the same back from `)`, `]`, `}` and `>` to `(`, `[`, `{` and `<` |
| Brackets.CloseIffOpen | bin/cpplint.py:1218-1312 | forward from an opener and backward from a closer find the same pairs |
| BracketLaws.DepthCounts | bin/cpplint.py:1231-1237 | the depth is the number of openers minus the number of closers |
| BracketLaws.ReverseUndoesClose | bin/cpplint.py:1242-1357 | where CloseExpression succeeds, ReverseCloseExpression at the closer answers with the opener's place and nothing else, for all four kinds and all splits into lines |
| BracketLaws.CloseUndoesReverse | bin/cpplint.py:1242-1357 | the converse |
| BracketLaws.CloseAnswerIsUnique | bin/cpplint.py:1253-1257 | the contract of CloseExpression admits one answer only |
| BracketLaws.LineBreaksDoNotMatter | bin/cpplint.py:1275-1285 | moving line breaks, empty lines included, leaves the answer at the same character of the joined text |
| BracketLaws.ReverseLineBreaksDoNotMatter | bin/cpplint.py:1347-1357 | the same backward |
| TextInside.GetTextInside | bin/cpplint.py:3640-3693 | returns a text iff a balanced word over `()`, `[]` and `{}`, then the matching closer, follow the opening bracket, and that word is the text; None in all other cases |
| TextInside.InsideIsUnique | bin/cpplint.py:3677-3693 | there is at most one such word |
| BracketLaws.InsideIsClosed | bin/cpplint.py:3680-3693 | where the stack matcher succeeds, the depth counter closes at the same bracket |
| BracketLaws.ClosedIsNotAlwaysInside | bin/cpplint.py:3683-3685 | the converse fails for mismatched brackets of other kinds: a concrete text |
| NestingLaws.DiscardedLinesDoNotMatter | bin/cpplint.py:1846-2046 | for every text, however its directives are nested, the stack to be kept after it is what the lines outside later branches produce as ordinary text |
| NestingLaws.FileErasure | bin/cpplint.py:1846-1852 | from the start of a file, outside later branches, the live stack is the one of the text without them |
| NestingBraces.OutlineOfText | bin/cpplint.py:1906-2046 | the kinds of the blocks and whether they have seen their braces follow from heads, braces, semicolons and closing parentheses alone; all else in the text does not show |
| NestingBraces.BalancedText | bin/cpplint.py:1906-2046 | behind a block that has seen its brace, a text whose braces match and whose heads get theirs or are dropped leaves the same stack: all blocks but the innermost untouched, that one of the same kind and open |
| NestingBraces.OpenBraces | bin/cpplint.py:1932-2046 | if each head gets its brace or is dropped, the depth reached from nothing is the number of opening braces that nothing closes, plus one for a head that still waits; each brace is as deep as its rank from the end |
| NestingBraces.DepthOfFile | bin/cpplint.py:1892-2046 | the same for the stack after a whole file, outside later branches, and the lines that are kept |
| NestingBraces.NoHeads | bin/cpplint.py:1932-1979 | in a file without namespaces and classes the condition on heads holds |
| NestingBraces.HeadWithoutBrace | bin/cpplint.py:1932-1950 | the condition is needed: two heads before one brace give depth two |
| NestingParentheses.ParenthesesAddUp | bin/cpplint.py:1906-2010 | over lines without namespaces and tokens, with parentheses open at each class head, nothing is pushed and the count of the innermost block is the old one plus the sum; its access is the last specifier, and it is derived iff a colon comes before its brace |
| NestingParentheses.ClassIffClosed | bin/cpplint.py:1970-1990 | a class head is pushed iff no parenthesis of the innermost block is open at the end of its line, as a block that waits for its brace, public for a struct and private for a class |
| NestingParentheses.ClassBehindArguments | bin/cpplint.py:1906-1979 | however many lines the arguments of a function take, a struct among them is no block, and one behind them is |
| NestingParentheses.StructArgument | bin/cpplint.py:1906-1979 | three lines with a struct argument leave one block open |
| NestingParentheses.AssemblyBlock | bin/cpplint.py:1916-1930 | from the line that starts an assembly block up to the one that closes its parenthesis the innermost block is inside, and then at its end |
| NestingParentheses.AssemblyLine | bin/cpplint.py:1916-1930 | one line enters, stays in or ends an assembly block exactly by its start, its parentheses and where the block was |
| NestingParentheses.OpenedBlocks | bin/cpplint.py:2022-2029 | braces behind a block that has seen its own push plain blocks, marked where an assembly block starts |
| NestingTrees.Erasure | bin/cpplint.py:1836-2046 | for well nested text, the stack after it is the one of the text with every branch after the first removed, and the preprocessor stack is as before |
| NestingTrees.BranchSeesStackBeforeIf | bin/cpplint.py:1871-1872 | every `#else` and `#elif` line is read from the stack before its `#if`, whatever the earlier branches did |
| NestingTrees.KeptIsErasure | bin/cpplint.py:1846-1852 | for well nested text both notions of erasure agree |
| NestingTrees.StrayDirective | bin/cpplint.py:1873-1890 | an `#else` or `#endif` without an `#if` does nothing beyond its own text |
| NestingObjects.DeepCopy | bin/cpplint.py:1860-1872 | the copy has the values of the stack and shares no object with any older stack |
| NestingObjects.NestingState.OnElse | bin/cpplint.py:1861-1875 | the first `#else` saves a copy of the live stack, and each one restores a copy of the stack before `#if` |
| NestingObjects.NestingState.OnEndif | bin/cpplint.py:1876-1890 | the saved stack is restored without a copy and still shares nothing |
| NestingObjects.NestingState.UpdateResidual | bin/cpplint.py:1906-2046 | parentheses, assembly blocks, namespaces, classes, access and tokens change the live objects as the function Residual says |
| NestingObjects.NestingState.UpdateText | bin/cpplint.py:1906-2046 | changing live blocks in place alters no saved stack |
| NestingObjects.NestingState.UpdateLine | bin/cpplint.py:1892-2046 | one line updates objects as the function Update says, and keeps every block in one stack only |
| NestingObjects.NestingState.NothingIsShared | bin/cpplint.py:1857-1890 | between any two lines of any file, the live stack and all saved ones share no block object |
| NestingObjects.ProcessFile | bin/cpplint.py:4549-4563 | after the lines of a file, outside later branches, the block objects are those of the text without these branches |
| Comments.RemoveMultiLineComments | bin/cpplint.py:1139-1152 | a line is cleared iff it belongs to a comment that ends; the line reported, if any, is the first of a comment that does not |
| Comments.OpensMeans | bin/cpplint.py:1114-1117 | a line starts a comment that goes on iff it is white space, `/*` and a text without `*/` |
| Comments.ClosesMeans | bin/cpplint.py:1125-1126 | a line ends a comment iff it is any text, `*/` and white space |
| Comments.BlankByNumber | bin/cpplint.py:1114-1126 | the characters that count as white space, by number |
| Comments.OneLineComment | bin/cpplint.py:1114-1117 | a comment that ends on its own line is not reported |
| Comments.SecondRun | bin/cpplint.py:1139-1152 | a second run changes no line and reports the same |
| Comments.OpenersLeft | bin/cpplint.py:1143-1150 | without a report no opener is left, and a reported line is the first opener left |
| IncludeOrder.IncludeState.CheckNextIncludeOrder | bin/cpplint.py:621-672 | a C header is out of order iff a C++, other or late own header came before, a C++ header iff an other or late own one did; sections never go back and a rejected header changes none |
| IncludeOrder.IncludeState.ResetSection | bin/cpplint.py:576-580 | no header seen before a reset has any influence after it |
| IncludeOrder.SectionStep | bin/cpplint.py:639-672 | the section is a closed function of the headers since the last reset |

## Left out

- Forking, exec, ptrace, wait4, setrlimit, chroot and signal delivery: the model starts from the stops and exits they report, and from whether wait4 and ptrace succeed.
- Opening the two output files, which can end the judge with its own exit code, and writing the difference file.
- The special judge and the programs run by grep: what they find is an input of a case.
- AcmJudging.AcmRun: leaves out runs in which a case before the first failing one can be accepted after an odd number of counted stops, which spoils the next case (RunVerdicts.NextCaseInWrongPhase); RunVerdicts.RunFollowsStory and RunVerdicts.RunAccepted cover them.
- How the files that the fix-ups read grow from case to case: what is found in them is an input of each case.
- NestingBraces.DepthOfFile: leaves out texts in which a head is followed by another head or by a closing brace; it is false of some of them (NestingBraces.HeadWithoutBrace).
- CaseProtocol.CaseMeaning: states the verdict within the limits only; what exceeding them means is in JudgeRuns.CaseEndsAt.
- SyscallQuota.AdmittedIffWithinQuota: covers programs of one thread of which no second exec succeeds, whose stops alternate between entry and exit.
- DaemonDrain.EverythingIsReported: promises nothing after SIGTERM, when threads leave their loops and the process ends with items still queued.
- DaemonSafety.OneResultPerRun: leaves out an `execl` that fails in the child process, which pushes into the child's own copy of the queue.
- ThreadSafeQueue.Queue.Push: blocking is the business of the state machine in QueueMonitor; the methods cover the code between two points where the mutex can be lost.
- The daemon's threads are a state machine and not code: a method cannot express their interleaving.
- Pipeline tickets stand for submissions; the fields of a submission and what `update_result` and `update_system_error` send over the network are not modelled.
- Regular expressions of the lint tool: a line of Nesting is given by what they find in it, and the pattern match of GetTextInside by where it ends.
- Lint messages, and what the computed fields of a class block (indentation, last line) are: they are given with the class head.
- IncludeOrder leaves out the alphabetical order of headers and which kind a header is.
- The contents of the SC_* arrays: their numbers come from the system's headers.
- Configuration, logging, directory scanning, sockets, curl and MySQL: easy members or I/O.
