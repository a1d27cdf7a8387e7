// Constants that the judge and the daemon share: src/judge_core.h, and the exit status of the C library.

module JudgeCore {
  const EXIT_SUCCESS := 0

  const OJ_SE := 9

  const EXIT_OK := 0
  const EXIT_COMPILE_ERROR := 6
  const EXIT_FORK_ERROR := 13
  const EXIT_JUDGE := 21
  const EXIT_UNKNOWN := 127

  const STD_KB := 1024

  const LANG_C11 := 1
  const LANG_CPP11 := 2
  const LANG_PASCAL := 3
  const LANG_JAVA := 4
  const LANG_PYTHON27 := 5
  const LANG_C99 := 6
  const LANG_CPP98 := 7
  const LANG_CPP14 := 8
  const LANG_CPP17 := 9
  const LANG_PYTHON3 := 10
  const LANG_KOTLIN := 11
}
