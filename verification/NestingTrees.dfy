// Well nested conditionals: a text as a tree, and what its branches see.

module NestingTrees {
  import opened Nesting
  import opened NestingLaws

  // Ordinary lines, and conditionals with a first branch and any number of #else and #elif branches.
  datatype Text =
    | End
    | Ordinary(line: Line, rest: Text)
    | Conditional(open: Line, body: Text, branches: Branches, close: Line, rest: Text)

  datatype Branches = NoBranch | Branch(head: Line, body: Text, more: Branches)

  predicate WellNested(t: Text) {
    match t
    case End => true
    case Ordinary(line, rest) => line.directive == NoDirective && WellNested(rest)
    case Conditional(open, body, branches, close, rest) =>
      open.directive == If && WellNested(body) && WellNestedBranches(branches) && close.directive == Endif && WellNested(rest)
  }

  predicate WellNestedBranches(b: Branches) {
    match b
    case NoBranch => true
    case Branch(head, body, more) => head.directive == Else && WellNested(body) && WellNestedBranches(more)
  }

  function Lines(t: Text): seq<Line> {
    match t
    case End => []
    case Ordinary(line, rest) => [line] + Lines(rest)
    case Conditional(open, body, branches, close, rest) => [open] + Lines(body) + BranchLines(branches) + [close] + Lines(rest)
  }

  function BranchLines(b: Branches): seq<Line> {
    match b
    case NoBranch => []
    case Branch(head, body, more) => [head] + Lines(body) + BranchLines(more)
  }

  // The text with every branch after the first one removed, and the other directives' own text kept.
  function Erase(t: Text): seq<Line> {
    match t
    case End => []
    case Ordinary(line, rest) => [line] + Erase(rest)
    case Conditional(open, body, branches, close, rest) => [open] + Erase(body) + [close] + Erase(rest)
  }

  lemma {:induction false} RunConcat(s: State, a: seq<Line>, b: seq<Line>)
    ensures Run(s, a + b) == Run(Run(s, a), b)
    decreases a
  {
    if a == [] {
      assert a + b == b;
    } else {
      assert (a + b)[1..] == a[1..] + b;
      RunConcat(Update(s, a[0]), a[1..], b);
    }
  }

  lemma {:induction false} RunTextConcat(stack: Stack, a: seq<Line>, b: seq<Line>)
    ensures RunText(stack, a + b) == RunText(RunText(stack, a), b)
    decreases a
  {
    if a == [] {
      assert a + b == b;
    } else {
      assert (a + b)[1..] == a[1..] + b;
      RunTextConcat(Residual(stack, a[0]), a[1..], b);
    }
  }

  lemma RunOne(s: State, line: Line)
    ensures Run(s, [line]) == Update(s, line)
    ensures RunText(s.stack, [line]) == Residual(s.stack, line)
  {
    assert [line][1..] == [];
  }

  // Erasure: a well nested text does to the stack what its erasure does as ordinary text, and leaves the
  // preprocessor stack as it was.
  lemma {:induction false} Erasure(s: State, t: Text)
    requires WellNested(t)
    ensures Run(s, Lines(t)) == State(RunText(s.stack, Erase(t)), s.pp)
    decreases t, 1
  {
    match t
    case End =>
    case Ordinary(line, rest) =>
      hide Residual;
      RunConcat(s, [line], Lines(rest));
      RunTextConcat(s.stack, [line], Erase(rest));
      RunOne(s, line);
      Erasure(Update(s, line), rest);
    case Conditional(open, body, branches, close, rest) =>
      hide Residual, Update;
      ConditionalErasure(s, t);
      var u := Run(s, [open] + Lines(body) + BranchLines(branches) + [close]);
      Erasure(u, rest);
      RunConcat(s, [open] + Lines(body) + BranchLines(branches) + [close], Lines(rest));
      RunTextConcat(s.stack, [open] + Erase(body) + [close], Erase(rest));
  }

  lemma {:induction false} ConditionalErasure(s: State, t: Text)
    requires WellNested(t) && t.Conditional?
    ensures Run(s, [t.open] + Lines(t.body) + BranchLines(t.branches) + [t.close]) == State(RunText(s.stack, [t.open] + Erase(t.body) + [t.close]), s.pp)
    decreases t, 0
  {
    hide Residual;
    var entered := Update(s, t.open);
    var inside := Run(entered, Lines(t.body));
    RunOne(s, t.open);
    RunConcat(s, [t.open], Lines(t.body));
    Erasure(entered, t.body);
    RunTextConcat(s.stack, [t.open], Erase(t.body));
    assert inside.pp == s.pp + [Preprocessor(s.stack, [], false)];

    var after := Run(inside, BranchLines(t.branches));
    BranchesErasure(inside, t.branches);
    RunConcat(s, [t.open] + Lines(t.body), BranchLines(t.branches));
    RunConcat(s, [t.open] + Lines(t.body) + BranchLines(t.branches), [t.close]);
    RunOne(after, t.close);
    RunTextConcat(s.stack, [t.open] + Erase(t.body), [t.close]);
    RunOne(inside, t.close);
    assert inside.pp[..|s.pp|] == s.pp && after.pp[..|s.pp|] == s.pp;
  }

  // Between the end of a first branch, s, and a point in a further branch, t (or at s itself): what is saved
  // for #endif is the stack at the end of the first branch.
  ghost predicate InBranches(s: State, further: bool, t: State)
    requires s.pp != []
  {
    var n := |s.pp| - 1;
    if !further then t == s
    else
      var p := s.pp[n];
      t.pp == s.pp[n := Preprocessor(p.stackBeforeIf, if p.seenElse then p.stackBeforeElse else s.stack, true)]
  }

  lemma HeadErasure(s: State, head: Line)
    requires s.pp != [] && head.directive == Else
    ensures InBranches(s, true, Update(s, head))
  {
  }

  lemma BranchesCompose(s: State, t: State, further: bool, u: State)
    requires s.pp != [] && InBranches(s, true, t) && InBranches(t, further, u)
    ensures InBranches(s, true, u)
  {
  }

  lemma {:induction false} BranchesErasure(s: State, b: Branches)
    requires WellNestedBranches(b) && s.pp != []
    ensures InBranches(s, b.Branch?, Run(s, BranchLines(b)))
    decreases b, 0
  {
    match b
    case NoBranch =>
    case Branch(head, body, more) =>
      var u := Update(s, head);
      HeadErasure(s, head);
      RunOne(s, head);
      hide Residual, Update;
      Erasure(u, body);
      var v := Run(u, Lines(body));
      BranchesErasure(v, more);
      BranchesCompose(s, v, more.Branch?, Run(v, BranchLines(more)));
      RunConcat(s, [head], Lines(body));
      RunConcat(s, [head] + Lines(body), BranchLines(more));
  }

  // Every further branch is read from the stack that was live just before the #if line.
  lemma BranchSeesStackBeforeIf(s: State, open: Line, body: Text, earlier: Branches, head: Line)
    requires WellNested(body) && WellNestedBranches(earlier) && open.directive == If && head.directive == Else
    ensures Run(s, [open] + Lines(body) + BranchLines(earlier) + [head]).stack == Residual(s.stack, head)
  {
    hide Residual;
    var entered := Update(s, open);
    RunOne(s, open);
    RunConcat(s, [open], Lines(body));
    Erasure(entered, body);
    var inside := Run(entered, Lines(body));
    BranchesErasure(inside, earlier);
    RunConcat(s, [open] + Lines(body), BranchLines(earlier));
    var after := Run(inside, BranchLines(earlier));
    RunConcat(s, [open] + Lines(body) + BranchLines(earlier), [head]);
    RunOne(after, head);
  }

  // An #else or #endif without an #if does nothing beyond its own text.
  lemma StrayDirective(stack: Stack, line: Line)
    requires line.directive == Else || line.directive == Endif
    ensures Update(State(stack, []), line) == State(Residual(stack, line), [])
  {
  }

  // ---------- both notions of erasure agree ----------

  lemma {:induction false} KeptConcat(flags: seq<bool>, a: seq<Line>, b: seq<Line>)
    ensures Kept(flags, a + b) == Kept(flags, a) + Kept(FlagsAfter(flags, a), b)
    decreases a
  {
    if a == [] {
      assert a + b == b;
    } else {
      assert (a + b)[1..] == a[1..] + b;
      KeptConcat(NextFlags(flags, a[0].directive), a[1..], b);
    }
  }

  function FlagsAfter(flags: seq<bool>, lines: seq<Line>): seq<bool>
    decreases lines
  {
    if lines == [] then flags else FlagsAfter(NextFlags(flags, lines[0].directive), lines[1..])
  }

  lemma {:induction false} FlagsConcat(flags: seq<bool>, a: seq<Line>, b: seq<Line>)
    ensures FlagsAfter(flags, a + b) == FlagsAfter(FlagsAfter(flags, a), b)
    decreases a
  {
    if a == [] {
      assert a + b == b;
    } else {
      assert (a + b)[1..] == a[1..] + b;
      FlagsConcat(NextFlags(flags, a[0].directive), a[1..], b);
    }
  }

  lemma KeptOne(flags: seq<bool>, line: Line)
    ensures FlagsAfter(flags, [line]) == NextFlags(flags, line.directive)
    ensures Kept(flags, [line]) == if true in NextFlags(flags, line.directive) then [] else [line]
  {
    assert [line][1..] == [];
  }

  lemma TwoParts(flags: seq<bool>, a: seq<Line>, b: seq<Line>)
    ensures Kept(flags, a + b) == Kept(flags, a) + Kept(FlagsAfter(flags, a), b)
    ensures FlagsAfter(flags, a + b) == FlagsAfter(FlagsAfter(flags, a), b)
  {
    KeptConcat(flags, a, b);
    FlagsConcat(flags, a, b);
  }

  // Of a well nested text, the kept lines are its erasure, or nothing within a discarded branch.
  lemma {:induction false} KeptIsErasure(flags: seq<bool>, t: Text)
    requires WellNested(t)
    ensures Kept(flags, Lines(t)) == if true in flags then [] else Erase(t)
    ensures FlagsAfter(flags, Lines(t)) == flags
    decreases t, 1
  {
    hide Kept, FlagsAfter;
    match t
    case End =>
      NothingKept(flags);
    case Ordinary(line, rest) =>
      TwoParts(flags, [line], Lines(rest));
      KeptOne(flags, line);
      KeptIsErasure(flags, rest);
    case Conditional(open, body, branches, close, rest) =>
      KeptConditional(flags, t);
      TwoParts(flags, [open] + Lines(body) + BranchLines(branches) + [close], Lines(rest));
      KeptIsErasure(flags, rest);
  }

  lemma {:induction false} KeptConditional(flags: seq<bool>, t: Text)
    requires WellNested(t) && t.Conditional?
    ensures
      var lines := [t.open] + Lines(t.body) + BranchLines(t.branches) + [t.close];
      && Kept(flags, lines) == (if true in flags then [] else [t.open] + Erase(t.body) + [t.close])
      && FlagsAfter(flags, lines) == flags
    decreases t, 0
  {
    hide Kept, FlagsAfter;
    var first := [t.open] + Lines(t.body);
    var inner := flags + [false];
    assert inner[..|flags|] == flags && inner[|flags| := true][..|flags|] == flags;
    TwoParts(flags, [t.open], Lines(t.body));
    KeptOne(flags, t.open);
    KeptIsErasure(inner, t.body);
    TwoParts(flags, first, BranchLines(t.branches));
    KeptInBranches(inner, t.branches);
    TwoParts(flags, first + BranchLines(t.branches), [t.close]);
    KeptOne(FlagsAfter(flags, first + BranchLines(t.branches)), t.close);
  }

  lemma NothingKept(flags: seq<bool>)
    ensures Kept(flags, []) == [] && FlagsAfter(flags, []) == flags
  {
  }

  lemma {:induction false} KeptInBranches(flags: seq<bool>, b: Branches)
    requires WellNestedBranches(b) && flags != []
    ensures Kept(flags, BranchLines(b)) == []
    ensures FlagsAfter(flags, BranchLines(b)) == if b.Branch? then flags[|flags| - 1 := true] else flags
    decreases b, 0
  {
    hide Kept, FlagsAfter;
    match b
    case NoBranch =>
      NothingKept(flags);
    case Branch(head, body, more) =>
      var next := flags[|flags| - 1 := true];
      assert next[|flags| - 1] && next[|flags| - 1 := true] == next;
      TwoParts(flags, [head], Lines(body));
      KeptOne(flags, head);
      KeptIsErasure(next, body);
      TwoParts(flags, [head] + Lines(body), BranchLines(more));
      KeptInBranches(next, more);
  }
}
