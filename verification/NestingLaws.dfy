// Lines in discarded preprocessor branches do not affect nesting.

module NestingLaws {
  import opened Nesting

  // ---------- every text, however its directives are nested ----------

  // The stack that the discarded branches must not touch: the one saved at the outermost conditional whose
  // first branch is over, or the live one if there is none.
  function Base(s: State): Stack {
    FirstSaved(s.pp, s.stack)
  }

  function FirstSaved(pp: seq<Preprocessor>, live: Stack): Stack {
    if pp == [] then live
    else if pp[0].seenElse then pp[0].stackBeforeElse
    else FirstSaved(pp[1..], live)
  }

  // For each open conditional, whether its first branch is over.
  function Flags(pp: seq<Preprocessor>): seq<bool> {
    if pp == [] then [] else [pp[0].seenElse] + Flags(pp[1..])
  }

  function NextFlags(flags: seq<bool>, directive: Directive): seq<bool> {
    match directive
    case NoDirective => flags
    case If => flags + [false]
    case Else => if flags == [] then flags else flags[|flags| - 1 := true]
    case Endif => if flags == [] then flags else flags[..|flags| - 1]
  }

  // The lines that count: those in no branch but the first ones, including the text of #if and #endif lines,
  // and of #else and #endif lines without an #if.
  function Kept(flags: seq<bool>, lines: seq<Line>): seq<Line>
    decreases lines
  {
    if lines == [] then []
    else
      var next := NextFlags(flags, lines[0].directive);
      (if true in next then [] else [lines[0]]) + Kept(next, lines[1..])
  }

  lemma {:induction false} FlagsShape(pp: seq<Preprocessor>, p: Preprocessor)
    ensures |Flags(pp)| == |pp|
    ensures Flags(pp + [p]) == Flags(pp) + [p.seenElse]
  {
    if pp == [] {
      assert pp + [p] == [p];
      assert [p][1..] == [];
    } else {
      assert (pp + [p])[1..] == pp[1..] + [p];
      FlagsShape(pp[1..], p);
    }
  }

  lemma {:induction false} SavedShape(pp: seq<Preprocessor>, p: Preprocessor, live: Stack)
    ensures FirstSaved(pp + [p], live) == FirstSaved(pp, if p.seenElse then p.stackBeforeElse else live)
    ensures true !in Flags(pp) ==> FirstSaved(pp, live) == live
    ensures true in Flags(pp) ==> FirstSaved(pp, live) == FirstSaved(pp, [])
  {
    if pp == [] {
      assert pp + [p] == [p];
      assert [p][1..] == [];
    } else {
      assert (pp + [p])[1..] == pp[1..] + [p];
      SavedShape(pp[1..], p, live);
    }
  }

  // One line: it acts on the base if it is kept, and leaves the base alone if not.
  lemma LineActsOnBase(s: State, line: Line)
    ensures Flags(Update(s, line).pp) == NextFlags(Flags(s.pp), line.directive)
    ensures Base(Update(s, line)) == if true in NextFlags(Flags(s.pp), line.directive) then Base(s) else Residual(Base(s), line)
  {
    hide Residual;
    var t := UpdatePreprocessor(s, line.directive);
    var u := Update(s, line);
    var p := Preprocessor(s.stack, [], false);
    FlagsShape(s.pp, p);
    SavedShape(s.pp, p, s.stack);
    SavedShape(s.pp, p, u.stack);
    if s.pp != [] && (line.directive == Else || line.directive == Endif) {
      var n := |s.pp| - 1;
      var front := s.pp[..n];
      assert s.pp == front + [s.pp[n]];
      FlagsShape(front, s.pp[n]);
      SavedShape(front, s.pp[n], s.stack);
      SavedShape(front, s.pp[n], t.stack);
      SavedShape(front, s.pp[n], u.stack);
      SavedShape(front, s.pp[n], s.pp[n].stackBeforeElse);
      if line.directive == Else {
        assert t.pp == front + [t.pp[n]];
        FlagsShape(front, t.pp[n]);
        SavedShape(front, t.pp[n], u.stack);
      }
    }
  }

  // Whatever the text, balanced or not: the base after it is what the kept lines alone, read as ordinary
  // text, make of the base before it.
  lemma {:induction false} DiscardedLinesDoNotMatter(s: State, lines: seq<Line>)
    ensures Base(Run(s, lines)) == RunText(Base(s), Kept(Flags(s.pp), lines))
    decreases lines
  {
    if lines != [] {
      hide Update, Residual, Base, Flags, NextFlags;
      LineActsOnBase(s, lines[0]);
      DiscardedLinesDoNotMatter(Update(s, lines[0]), lines[1..]);
      var next := NextFlags(Flags(s.pp), lines[0].directive);
      var rest := Kept(next, lines[1..]);
      assert true in next ==> Kept(Flags(s.pp), lines) == rest;
      if true !in next {
        assert Kept(Flags(s.pp), lines)[1..] == rest;
      }
    }
  }

  // From the start of a file: outside discarded branches, the live stack is what the kept lines produce.
  lemma FileErasure(lines: seq<Line>)
    ensures
      var s := Run(State([], []), lines);
      true !in Flags(s.pp) ==> s.stack == RunText([], Kept([], lines))
  {
    DiscardedLinesDoNotMatter(State([], []), lines);
    var s := Run(State([], []), lines);
    SavedShape(s.pp, Preprocessor([], [], false), s.stack);
  }
}
