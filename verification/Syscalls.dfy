// The system call filter: src/syscalls.cpp.
//
// A table says how often each system call may be made.  The tracer sees every call twice, at its entry
// and at its exit, and cannot tell the two stops apart; the filter keeps one phase bit, flips it at every
// stop, and charges the table at one of the two phases only.

module Syscalls {
  import opened JudgeCore
  import opened Wrappers

  const TABLE_SIZE := 1024
  const SYSCALLS_INFINITE := -1
  const SYSCALLS_END := -2

  // The SC_* arrays: a list of key/value pairs closed by SYSCALLS_END.
  datatype Tables = Tables(c: seq<int>, cpp: seq<int>, pascal: seq<int>, java: seq<int>, python: seq<int>, kotlin: seq<int>)

  function TableFor(lang: int, tables: Tables): Option<seq<int>> {
    if lang == LANG_C11 || lang == LANG_C99 then Some(tables.c)
    else if lang == LANG_CPP98 || lang == LANG_CPP11 || lang == LANG_CPP14 || lang == LANG_CPP17 then Some(tables.cpp)
    else if lang == LANG_PASCAL then Some(tables.pascal)
    else if lang == LANG_JAVA then Some(tables.java)
    else if lang == LANG_PYTHON27 || lang == LANG_PYTHON3 then Some(tables.python)
    else if lang == LANG_KOTLIN then Some(tables.kotlin)
    else None
  }

  // The table by the number of the language.
  lemma TableByNumber(lang: int, tables: Tables)
    ensures lang in {1, 6} ==> TableFor(lang, tables) == Some(tables.c)
    ensures lang in {2, 7, 8, 9} ==> TableFor(lang, tables) == Some(tables.cpp)
    ensures lang == 3 ==> TableFor(lang, tables) == Some(tables.pascal)
    ensures lang == 4 ==> TableFor(lang, tables) == Some(tables.java)
    ensures lang in {5, 10} ==> TableFor(lang, tables) == Some(tables.python)
    ensures lang == 11 ==> TableFor(lang, tables) == Some(tables.kotlin)
    ensures TableFor(lang, tables) == None <==> lang < 1 || lang > 11
  {
  }

  // The sentinel -2 stands at index 2 * n and each key before it is one of 1024 system call numbers.
  predicate EndsAt(p: seq<int>, n: nat) {
    && 2 * n < |p| && p[2 * n] == -2
    && forall i :: 0 <= i < n ==> 0 <= p[2 * i] < 1024
  }

  ghost predicate WellFormed(p: seq<int>) {
    exists n: nat :: EndsAt(p, n)
  }

  // The value that the first n pairs give to key k: the last one wins.
  ghost function ValueAfter(p: seq<int>, n: nat, k: int): int
    requires 2 * n <= |p|
  {
    if n == 0 then 0
    else if p[2 * (n - 1)] == k then p[2 * (n - 1) + 1]
    else ValueAfter(p, n - 1, k)
  }

  // The table that a well formed array describes.
  ghost function Quota(p: seq<int>): (quota: seq<int>)
    requires WellFormed(p)
    ensures |quota| == TABLE_SIZE
  {
    var n: nat :| EndsAt(p, n);
    seq(TABLE_SIZE, k => ValueAfter(p, n, k))
  }

  // ---------- the filter as a value ----------

  datatype Filter = Filter(quota: seq<int>, inSyscall: bool)

  // One call of is_valid_syscall.
  function Stop(f: Filter, id: int): (Filter, bool)
    requires |f.quota| == TABLE_SIZE && 0 <= id < TABLE_SIZE
  {
    var phase := !f.inSyscall;
    if f.quota[id] == 0 then (Filter(f.quota, phase), false)
    else if f.quota[id] > 0 && !phase then (Filter(f.quota[id := f.quota[id] - 1], phase), true)
    else (Filter(f.quota, phase), true)
  }

  // ---------- the filter as global variables ----------

  class SyscallFilter {
    const syscalls: array<int>
    var inSyscall: bool

    constructor ()
      ensures syscalls.Length == TABLE_SIZE && fresh(syscalls)
      ensures Value() == Filter(seq(TABLE_SIZE, _ => 0), true)
    {
      syscalls := new int[TABLE_SIZE](_ => 0);
      inSyscall := true;
    }

    ghost function Value(): Filter
      reads this, syscalls
    {
      Filter(syscalls[..], inSyscall)
    }

    // The phase bit keeps its value: it is set once, when the judge starts.
    method InitSyscalls(lang: int, tables: Tables) returns (rc: int)
      requires syscalls.Length == TABLE_SIZE
      requires TableFor(lang, tables).Some? ==> WellFormed(TableFor(lang, tables).value)
      modifies syscalls
      ensures rc == (if TableFor(lang, tables).Some? then 0 else 1)
      ensures rc == 1 ==> syscalls[..] == old(syscalls[..])
      ensures rc == 0 ==> syscalls[..] == Quota(TableFor(lang, tables).value)
    {
      var table := TableFor(lang, tables);
      if table.None? {
        return 1;
      }
      var p := table.value;
      for k := 0 to TABLE_SIZE
        invariant forall j :: 0 <= j < k ==> syscalls[j] == 0
      {
        syscalls[k] := 0;
      }
      ghost var n: nat :| EndsAt(p, n) && Quota(p) == seq(TABLE_SIZE, k => ValueAfter(p, n, k));
      var i := 0;
      while p[i] != SYSCALLS_END
        invariant 0 <= i <= 2 * n && i % 2 == 0
        invariant forall k :: 0 <= k < TABLE_SIZE ==> syscalls[k] == ValueAfter(p, i / 2, k)
        decreases 2 * n - i
      {
        assert p[2 * (i / 2)] == p[i];
        syscalls[p[i]] := p[i + 1];
        i := i + 2;
      }
      return 0;
    }

    method IsValidSyscall(id: int) returns (valid: bool)
      requires syscalls.Length == TABLE_SIZE && 0 <= id < TABLE_SIZE
      modifies syscalls, this
      ensures (Value(), valid) == Stop(old(Value()), id)
    {
      inSyscall := !inSyscall;
      if syscalls[id] == 0 {
        return false;
      } else if syscalls[id] > 0 {
        if !inSyscall {
          syscalls[id] := syscalls[id] - 1;
        }
      }
      return true;
    }
  }

  lemma EndIsUnique(p: seq<int>, n: nat, m: nat)
    requires EndsAt(p, n) && EndsAt(p, m)
    ensures n == m
  {
  }

  // An id that no pair lists is forbidden; otherwise its last pair counts, whatever earlier pairs say.
  lemma {:induction false} LastPairWins(p: seq<int>, n: nat, k: int)
    requires EndsAt(p, n) && 0 <= k < TABLE_SIZE
    ensures (forall i :: 0 <= i < n ==> p[2 * i] != k) ==> Quota(p)[k] == 0
    ensures forall i :: 0 <= i < n && p[2 * i] == k && (forall j :: i < j < n ==> p[2 * j] != k) ==> Quota(p)[k] == p[2 * i + 1]
  {
    LastPairOfFirst(p, n, k);
    var m: nat :| EndsAt(p, m) && Quota(p) == seq(TABLE_SIZE, k => ValueAfter(p, m, k));
    EndIsUnique(p, n, m);
  }

  lemma {:induction false} LastPairOfFirst(p: seq<int>, n: nat, k: int)
    requires 2 * n <= |p|
    ensures (forall i :: 0 <= i < n ==> p[2 * i] != k) ==> ValueAfter(p, n, k) == 0
    ensures forall i :: 0 <= i < n && p[2 * i] == k && (forall j :: i < j < n ==> p[2 * j] != k) ==> ValueAfter(p, n, k) == p[2 * i + 1]
  {
    if n > 0 {
      LastPairOfFirst(p, n - 1, k);
    }
  }
}
