// What the stack of blocks counts: braces, and heads that wait for theirs.

module NestingBraces {
  import opened Nesting
  import opened NestingLaws
  import opened Wrappers

  // ---------- the outline of the stack ----------

  // What matters for the depth in a text: the heads of namespaces and classes, and the tokens.
  datatype Mark = Head(kind: Kind) | Tok(token: Token)

  // What matters for the depth in a block.
  datatype Outline = Outline(kind: Kind, seenOpenBrace: bool)

  function OutlineOf(stack: Stack): seq<Outline> {
    seq(|stack|, i requires 0 <= i < |stack| => Outline(stack[i].kind, stack[i].seenOpenBrace))
  }

  predicate TopSeen(o: seq<Outline>) {
    o == [] || o[|o| - 1].seenOpenBrace
  }

  function OneMark(o: seq<Outline>, m: Mark): seq<Outline> {
    match m
    case Head(kind) => o + [Outline(kind, false)]
    case Tok(OpenBrace(_)) => if TopSeen(o) then o + [Outline(Plain, true)] else o[|o| - 1 := o[|o| - 1].(seenOpenBrace := true)]
    case Tok(CloseBrace) => if o == [] then o else o[..|o| - 1]
    case Tok(_) => if TopSeen(o) then o else o[..|o| - 1]
  }

  function AllMarks(o: seq<Outline>, marks: seq<Mark>): seq<Outline> {
    if marks == [] then o else OneMark(AllMarks(o, marks[..|marks| - 1]), marks[|marks| - 1])
  }

  function TokenMarks(tokens: seq<Token>): seq<Mark> {
    seq(|tokens|, i requires 0 <= i < |tokens| => Tok(tokens[i]))
  }

  function NamespaceMarks(heads: seq<NamespaceHead>): seq<Mark> {
    if heads == [] then []
    else
      var head := heads[|heads| - 1];
      NamespaceMarks(heads[..|heads| - 1]) + [Head(Namespace(head.name, head.linenum))] + (if head.brace then [Tok(OpenBrace(false))] else [])
  }

  function WithNamespaces(stack: Stack, line: Line): Stack {
    PushNamespaces(CountParentheses(stack, line), line.namespaces)
  }

  // The stack when the tokens of the line are reached.
  function BeforeTokens(stack: Stack, line: Line): Stack {
    var s := WithNamespaces(stack, line);
    SetAccess(CheckBegin(PushClass(s, line), line.bareColon), TailOf(s, line).access)
  }

  // Whether a class head is taken for one depends on the parentheses that are open.
  function HeadMarks(stack: Stack, line: Line): seq<Mark> {
    NamespaceMarks(line.namespaces)
    + if ConsumesClass(WithNamespaces(stack, line), line) then [Head(ClassBlock(line.classHead.value).kind)] else []
  }

  function LineMarks(stack: Stack, line: Line): seq<Mark> {
    HeadMarks(stack, line) + TokenMarks(TailOf(WithNamespaces(stack, line), line).tokens)
  }

  function TextMarks(stack: Stack, lines: seq<Line>): seq<Mark>
    decreases lines
  {
    if lines == [] then [] else LineMarks(stack, lines[0]) + TextMarks(Residual(stack, lines[0]), lines[1..])
  }

  lemma {:induction false} MarksConcat(o: seq<Outline>, a: seq<Mark>, b: seq<Mark>)
    ensures AllMarks(o, a + b) == AllMarks(AllMarks(o, a), b)
  {
    if b == [] {
      assert a + b == a;
    } else {
      assert (a + b)[..|a + b| - 1] == a + b[..|b| - 1];
      MarksConcat(o, a, b[..|b| - 1]);
    }
  }

  lemma OutlineSnoc(o: seq<Outline>, m: Mark)
    ensures AllMarks(o, [m]) == OneMark(o, m)
  {
    assert [m][..0] == [];
  }

  lemma {:induction false} OutlineOfTokens(stack: Stack, tokens: seq<Token>)
    ensures OutlineOf(ConsumeAll(stack, tokens)) == AllMarks(OutlineOf(stack), TokenMarks(tokens))
  {
    if tokens != [] {
      var n := |tokens| - 1;
      OutlineOfTokens(stack, tokens[..n]);
      assert TokenMarks(tokens)[..n] == TokenMarks(tokens[..n]);
      OutlineOfToken(ConsumeAll(stack, tokens[..n]), tokens[n]);
    }
  }

  lemma OutlineOfToken(stack: Stack, token: Token)
    ensures OutlineOf(Consume(stack, token)) == OneMark(OutlineOf(stack), Tok(token))
  {
  }

  lemma {:induction false} OutlineOfNamespaces(stack: Stack, heads: seq<NamespaceHead>)
    ensures OutlineOf(PushNamespaces(stack, heads)) == AllMarks(OutlineOf(stack), NamespaceMarks(heads))
  {
    if heads != [] {
      var front, head := heads[..|heads| - 1], heads[|heads| - 1];
      OutlineOfNamespaces(stack, front);
      var m, o := Head(Namespace(head.name, head.linenum)), AllMarks(OutlineOf(stack), NamespaceMarks(front));
      MarksConcat(OutlineOf(stack), NamespaceMarks(front), [m]);
      OutlineSnoc(o, m);
      assert OutlineOf(PushNamespaces(stack, heads)) == o + [Outline(Namespace(head.name, head.linenum), head.brace)];
      if !head.brace {
        assert NamespaceMarks(heads) == NamespaceMarks(front) + [m];
      } else {
        MarksConcat(OutlineOf(stack), NamespaceMarks(front) + [m], [Tok(OpenBrace(false))]);
        OutlineSnoc(OneMark(o, m), Tok(OpenBrace(false)));
      }
    }
  }

  // Parentheses, assembly blocks, access specifiers and base classes do not show in the outline.
  lemma OutlineOfHeads(stack: Stack, line: Line)
    ensures OutlineOf(BeforeTokens(stack, line)) == AllMarks(OutlineOf(stack), HeadMarks(stack, line))
  {
    hide AllMarks, NamespaceMarks, PushNamespaces;
    var s := WithNamespaces(stack, line);
    var o, names := OutlineOf(stack), NamespaceMarks(line.namespaces);
    assert OutlineOf(CountParentheses(stack, line)) == o;
    OutlineOfNamespaces(CountParentheses(stack, line), line.namespaces);
    assert OutlineOf(BeforeTokens(stack, line)) == OutlineOf(PushClass(s, line));
    if ConsumesClass(s, line) {
      var head := Head(ClassBlock(line.classHead.value).kind);
      MarksConcat(o, names, [head]);
      OutlineSnoc(OutlineOf(s), head);
      assert OutlineOf(PushClass(s, line)) == OutlineOf(s) + [Outline(head.kind, false)];
    } else {
      assert HeadMarks(stack, line) == names;
    }
  }

  lemma OutlineOfLine(stack: Stack, line: Line)
    ensures Residual(stack, line) == ConsumeAll(BeforeTokens(stack, line), TailOf(WithNamespaces(stack, line), line).tokens)
    ensures OutlineOf(Residual(stack, line)) == AllMarks(OutlineOf(stack), LineMarks(stack, line))
  {
    hide AllMarks, ConsumeAll, HeadMarks;
    var tokens := TailOf(WithNamespaces(stack, line), line).tokens;
    OutlineOfHeads(stack, line);
    OutlineOfTokens(BeforeTokens(stack, line), tokens);
    MarksConcat(OutlineOf(stack), HeadMarks(stack, line), TokenMarks(tokens));
  }

  lemma {:induction false} OutlineOfText(stack: Stack, lines: seq<Line>)
    ensures OutlineOf(RunText(stack, lines)) == AllMarks(OutlineOf(stack), TextMarks(stack, lines))
    decreases lines
  {
    if lines != [] {
      hide Residual, LineMarks, AllMarks;
      OutlineOfLine(stack, lines[0]);
      OutlineOfText(Residual(stack, lines[0]), lines[1..]);
      MarksConcat(OutlineOf(stack), LineMarks(stack, lines[0]), TextMarks(Residual(stack, lines[0]), lines[1..]));
    } else {
      assert AllMarks(OutlineOf(stack), []) == OutlineOf(stack);
    }
  }

  // ---------- counting braces ----------

  predicate IsOpening(m: Mark) {
    m.Tok? && m.token.OpenBrace?
  }

  predicate IsClosing(m: Mark) {
    m.Tok? && m.token.CloseBrace?
  }

  // Opening minus closing braces in marks[i..j].
  function Surplus(marks: seq<Mark>, i: nat, j: nat): int
    requires i <= j <= |marks|
  {
    if i == j then 0 else Surplus(marks, i, j - 1) + if IsOpening(marks[j - 1]) then 1 else if IsClosing(marks[j - 1]) then -1 else 0
  }

  lemma {:induction false} SurplusOfPrefix(marks: seq<Mark>, n: nat, i: nat, j: nat)
    requires i <= j <= n <= |marks|
    ensures Surplus(marks[..n], i, j) == Surplus(marks, i, j)
  {
    if i < j {
      SurplusOfPrefix(marks, n, i, j - 1);
    }
  }

  // Each head is followed by its brace, or it is dropped at a semicolon or a closing parenthesis.
  ghost predicate HeadsFollowed(marks: seq<Mark>) {
    forall i :: 0 <= i < |marks| - 1 && marks[i].Head? ==> marks[i + 1].Tok? && !IsClosing(marks[i + 1])
  }

  function Waiting(marks: seq<Mark>): nat {
    if marks != [] && marks[|marks| - 1].Head? then 1 else 0
  }

  // All blocks have seen their braces, except for the one of a head that waits for its own.
  ghost predicate SeenFrom(o: seq<Outline>, from: nat, waiting: nat) {
    && (forall k :: from <= k < |o| - waiting ==> o[k].seenOpenBrace)
    && (waiting == 1 ==> |o| > from && !o[|o| - 1].seenOpenBrace)
  }

  // ---------- text with balanced braces ----------

  ghost predicate NeverBelow(marks: seq<Mark>) {
    forall j :: 0 <= j <= |marks| ==> Surplus(marks, 0, j) >= 0
  }

  lemma {:induction false} Above(o: seq<Outline>, marks: seq<Mark>)
    requires TopSeen(o) && HeadsFollowed(marks) && NeverBelow(marks)
    ensures
      var a := AllMarks(o, marks);
      && |a| == |o| + Surplus(marks, 0, |marks|) + Waiting(marks)
      && a[..|o|] == o && SeenFrom(a, |o|, Waiting(marks))
  {
    if marks != [] {
      var n := |marks| - 1;
      forall j | 0 <= j <= n
        ensures Surplus(marks[..n], 0, j) == Surplus(marks, 0, j)
      {
        SurplusOfPrefix(marks, n, 0, j);
      }
      Above(o, marks[..n]);
      OneAbove(o, AllMarks(o, marks[..n]), marks);
    }
  }

  lemma OneAbove(o: seq<Outline>, a: seq<Outline>, marks: seq<Mark>)
    requires marks != [] && TopSeen(o) && HeadsFollowed(marks)
    requires
      var n := |marks| - 1;
      && Surplus(marks, 0, n + 1) >= 0 && Surplus(marks, 0, n) >= 0
      && |a| == |o| + Surplus(marks, 0, n) + Waiting(marks[..n]) && a[..|o|] == o && SeenFrom(a, |o|, Waiting(marks[..n]))
    ensures
      var b := OneMark(a, marks[|marks| - 1]);
      && |b| == |o| + Surplus(marks, 0, |marks|) + Waiting(marks)
      && b[..|o|] == o && SeenFrom(b, |o|, Waiting(marks))
  {
    var n := |marks| - 1;
    assert Waiting(marks[..n]) == 1 ==> marks[n - 1].Head?;
  }

  // The first m blocks are out of reach of a text that never leaves fewer than m + 1.
  lemma {:induction false} TokensKeepBelow(stack: Stack, tokens: seq<Token>, m: nat)
    requires forall j :: 0 <= j <= |tokens| ==> |ConsumeAll(stack, tokens[..j])| > m
    ensures |stack| > m && ConsumeAll(stack, tokens)[..m] == stack[..m]
  {
    assert tokens[..|tokens|] == tokens && tokens[..0] == [];
    if tokens != [] {
      var n := |tokens| - 1;
      forall j | 0 <= j <= n
        ensures tokens[..n][..j] == tokens[..j]
      {
      }
      TokensKeepBelow(stack, tokens[..n], m);
    }
  }

  ghost predicate StaysAbove(o: seq<Outline>, marks: seq<Mark>, m: nat) {
    forall j :: 0 <= j <= |marks| ==> |AllMarks(o, marks[..j])| > m
  }

  lemma StaysAboveSplit(o: seq<Outline>, a: seq<Mark>, b: seq<Mark>, m: nat)
    requires StaysAbove(o, a + b, m)
    ensures StaysAbove(o, a, m) && StaysAbove(AllMarks(o, a), b, m) && |o| > m
  {
    hide AllMarks;
    forall j | 0 <= j <= |a|
      ensures |AllMarks(o, a[..j])| > m
    {
      assert (a + b)[..j] == a[..j];
    }
    forall j | 0 <= j <= |b|
      ensures |AllMarks(AllMarks(o, a), b[..j])| > m
    {
      assert (a + b)[..|a| + j] == a + b[..j];
      MarksConcat(o, a, b[..j]);
    }
    assert (a + b)[..0] == [];
    NoMarks(o);
  }

  lemma NoMarks(o: seq<Outline>)
    ensures AllMarks(o, []) == o
  {
  }

  lemma {:induction false} PushedOnTop(stack: Stack, heads: seq<NamespaceHead>)
    ensures |PushNamespaces(stack, heads)| >= |stack| && PushNamespaces(stack, heads)[..|stack|] == stack
  {
    if heads != [] {
      PushedOnTop(stack, heads[..|heads| - 1]);
    }
  }

  lemma HeadsKeepBelow(stack: Stack, line: Line, m: nat)
    requires |stack| > m
    ensures |BeforeTokens(stack, line)| > m && BeforeTokens(stack, line)[..m] == stack[..m]
  {
    var s := CountParentheses(stack, line);
    PushedOnTop(s, line.namespaces);
    assert s[..m] == stack[..m];
    assert WithNamespaces(stack, line)[..m] == s[..m];
  }

  lemma LineKeepsBelow(stack: Stack, line: Line, m: nat)
    requires StaysAbove(OutlineOf(stack), LineMarks(stack, line), m)
    ensures |stack| > m && |Residual(stack, line)| > m && Residual(stack, line)[..m] == stack[..m]
  {
    hide AllMarks, StaysAbove, ConsumeAll, HeadMarks, Residual;
    var t, tokens := BeforeTokens(stack, line), TailOf(WithNamespaces(stack, line), line).tokens;
    StaysAboveSplit(OutlineOf(stack), HeadMarks(stack, line), TokenMarks(tokens), m);
    HeadsKeepBelow(stack, line, m);
    OutlineOfHeads(stack, line);
    OutlineOfLine(stack, line);
    TokensStayAbove(t, tokens, m);
    assert tokens[..|tokens|] == tokens;
    TokensKeepBelow(t, tokens, m);
  }

  lemma TokensStayAbove(stack: Stack, tokens: seq<Token>, m: nat)
    requires StaysAbove(OutlineOf(stack), TokenMarks(tokens), m)
    ensures forall j :: 0 <= j <= |tokens| ==> |ConsumeAll(stack, tokens[..j])| > m
  {
    hide AllMarks, ConsumeAll;
    forall j | 0 <= j <= |tokens|
      ensures |ConsumeAll(stack, tokens[..j])| > m
    {
      assert TokenMarks(tokens)[..j] == TokenMarks(tokens[..j]);
      OutlineOfTokens(stack, tokens[..j]);
    }
  }

  lemma {:induction false} TextKeepsBelow(stack: Stack, lines: seq<Line>, m: nat)
    requires StaysAbove(OutlineOf(stack), TextMarks(stack, lines), m)
    ensures |stack| > m && |RunText(stack, lines)| > m && RunText(stack, lines)[..m] == stack[..m]
    decreases lines
  {
    hide AllMarks, StaysAbove, LineMarks, Residual;
    if lines == [] {
      assert TextMarks(stack, lines) == TextMarks(stack, lines) + [];
      StaysAboveSplit(OutlineOf(stack), TextMarks(stack, lines), [], m);
    } else {
      var rest := Residual(stack, lines[0]);
      StaysAboveSplit(OutlineOf(stack), LineMarks(stack, lines[0]), TextMarks(rest, lines[1..]), m);
      LineKeepsBelow(stack, lines[0], m);
      OutlineOfLine(stack, lines[0]);
      TextKeepsBelow(rest, lines[1..], m);
    }
  }

  // Braces match and each head gets its brace or is dropped, so that nothing is left open at the end.
  ghost predicate LeavesNothingOpen(marks: seq<Mark>) {
    HeadsFollowed(marks) && NeverBelow(marks) && Surplus(marks, 0, |marks|) == 0 && Waiting(marks) == 0
  }

  // After such a text, behind a block that has seen its brace, the stack has the same blocks: all but the innermost
  // one are untouched, and that one is of the same kind and has seen its brace.
  lemma BalancedText(stack: Stack, lines: seq<Line>)
    requires SeenOpenBrace(stack) && LeavesNothingOpen(TextMarks(stack, lines))
    ensures
      var t := RunText(stack, lines);
      && |t| == |stack|
      && (stack != [] ==> Pop(t) == Pop(stack) && Top(t).kind == Top(stack).kind && Top(t).seenOpenBrace)
  {
    hide AllMarks, TextMarks, RunText, Surplus;
    var o, marks := OutlineOf(stack), TextMarks(stack, lines);
    OutlineOfText(stack, lines);
    Above(o, marks);
    if stack != [] {
      var t, n := RunText(stack, lines), |stack| - 1;
      forall j | 0 <= j <= |marks|
        ensures |AllMarks(o, marks[..j])| > n
      {
        PrefixAbove(o, marks, j);
      }
      TextKeepsBelow(stack, lines, n);
      assert OutlineOf(t)[n] == o[n];
    }
  }

  lemma PrefixAbove(o: seq<Outline>, marks: seq<Mark>, j: nat)
    requires TopSeen(o) && HeadsFollowed(marks) && NeverBelow(marks) && j <= |marks|
    ensures |AllMarks(o, marks[..j])| >= |o|
  {
    forall k | 0 <= k <= j
      ensures Surplus(marks[..j], 0, k) == Surplus(marks, 0, k)
    {
      SurplusOfPrefix(marks, j, 0, k);
    }
    Above(o, marks[..j]);
  }

  // ---------- the depth of the stack ----------

  // No closing brace closes the one at i.
  ghost predicate StaysOpen(marks: seq<Mark>, i: nat) {
    && i < |marks| && IsOpening(marks[i])
    && forall j :: i < j <= |marks| ==> Surplus(marks, i, j) > 0
  }

  ghost predicate Increasing(p: seq<nat>) {
    forall a, b :: 0 <= a < b < |p| ==> p[a] < p[b]
  }

  // The positions of the unmatched opening braces, in order.
  ghost predicate AreOpen(marks: seq<Mark>, p: seq<nat>) {
    && Increasing(p)
    && forall i: nat :: i in p <==> StaysOpen(marks, i)
  }

  // The a-th of them has all later ones inside.
  ghost predicate AreNested(marks: seq<Mark>, p: seq<nat>) {
    forall a :: 0 <= a < |p| ==> p[a] <= |marks| && Surplus(marks, p[a], |marks|) == |p| - a
  }

  lemma StaysOpenSnoc(marks: seq<Mark>, i: nat)
    requires marks != []
    ensures
      var n := |marks| - 1;
      StaysOpen(marks, i) <==> if i < n then StaysOpen(marks[..n], i) && Surplus(marks, i, n + 1) > 0 else i == n && IsOpening(marks[n])
  {
    var n := |marks| - 1;
    if i < n {
      forall j | i < j <= n
        ensures Surplus(marks[..n], i, j) == Surplus(marks, i, j)
      {
        SurplusOfPrefix(marks, n, i, j);
      }
      assert marks[..n][i] == marks[i];
    } else if i == n {
      assert Surplus(marks, i, i) == 0;
    }
  }

  // The unmatched braces after one more mark.
  function NextOpen(open: seq<nat>, n: nat, m: Mark): seq<nat> {
    if IsOpening(m) then open + [n]
    else if IsClosing(m) && open != [] then open[..|open| - 1]
    else open
  }

  lemma NestedStep(marks: seq<Mark>, open: seq<nat>)
    requires marks != [] && AreNested(marks[..|marks| - 1], open)
    ensures AreNested(marks, NextOpen(open, |marks| - 1, marks[|marks| - 1]))
  {
    var n := |marks| - 1;
    var p := NextOpen(open, n, marks[n]);
    forall a | 0 <= a < |p|
      ensures p[a] <= |marks| && Surplus(marks, p[a], |marks|) == |p| - a
    {
      if a < |open| {
        SurplusOfPrefix(marks, n, open[a], n);
      } else {
        assert Surplus(marks, n, n) == 0;
      }
    }
  }

  lemma OpenStep(marks: seq<Mark>, open: seq<nat>)
    requires marks != [] && AreNested(marks[..|marks| - 1], open) && AreOpen(marks[..|marks| - 1], open)
    ensures AreOpen(marks, NextOpen(open, |marks| - 1, marks[|marks| - 1]))
  {
    var n := |marks| - 1;
    var p := NextOpen(open, n, marks[n]);
    assert forall a :: 0 <= a < |open| ==> open[a] in open && StaysOpen(marks[..n], open[a]);
    NestedStep(marks, open);
    forall i: nat
      ensures i in p <==> StaysOpen(marks, i)
    {
      StaysOpenSnoc(marks, i);
      hide StaysOpen;
      if i in open {
        var a :| 0 <= a < |open| && open[a] == i;
        SurplusOfPrefix(marks, n, i, n);
        assert a < |p| ==> p[a] == i;
      }
    }
  }

  // If each head gets its brace or is dropped, the depth reached from nothing is the number of unmatched opening braces,
  // plus one for a head that still waits; each of these braces is as deep as its rank from the end.
  lemma {:induction false} OpenBraces(marks: seq<Mark>) returns (p: seq<nat>)
    ensures AreOpen(marks, p) && AreNested(marks, p)
    ensures
      var o := AllMarks([], marks);
      HeadsFollowed(marks) ==> |o| == |p| + Waiting(marks) && SeenFrom(o, 0, Waiting(marks))
  {
    p := [];
    if marks != [] {
      var n := |marks| - 1;
      p := OpenBraces(marks[..n]);
      NestedStep(marks, p);
      OpenStep(marks, p);
      hide AreNested, AreOpen;
      assert Waiting(marks[..n]) == 1 ==> marks[n - 1].Head?;
      p := NextOpen(p, n, marks[n]);
    }
  }

  // The depth of the stack after a file: the number of unmatched opening braces among the lines that are kept, plus one
  // for a head that waits for its brace.
  lemma DepthOfFile(lines: seq<Line>) returns (p: seq<nat>)
    requires HeadsFollowed(TextMarks([], Kept([], lines)))
    ensures AreOpen(TextMarks([], Kept([], lines)), p)
    ensures
      var s := Run(State([], []), lines);
      true !in Flags(s.pp) ==> |s.stack| == |p| + Waiting(TextMarks([], Kept([], lines)))
  {
    hide AreOpen, AreNested, Kept, TextMarks, AllMarks, HeadsFollowed, SeenFrom;
    FileErasure(lines);
    OutlineOfText([], Kept([], lines));
    assert OutlineOf([]) == [];
    p := OpenBraces(TextMarks([], Kept([], lines)));
  }

  // Without heads the condition holds.
  lemma NoHeads(lines: seq<Line>, stack: Stack)
    requires forall i :: 0 <= i < |lines| ==> lines[i].namespaces == [] && lines[i].classHead == None
    ensures HeadsFollowed(TextMarks(stack, lines)) && Waiting(TextMarks(stack, lines)) == 0
  {
    OnlyTokens(stack, lines);
  }

  lemma {:induction false} OnlyTokens(stack: Stack, lines: seq<Line>)
    requires forall i :: 0 <= i < |lines| ==> lines[i].namespaces == [] && lines[i].classHead == None
    ensures forall i :: 0 <= i < |TextMarks(stack, lines)| ==> TextMarks(stack, lines)[i].Tok?
    decreases lines
  {
    if lines != [] {
      OnlyTokens(Residual(stack, lines[0]), lines[1..]);
    }
  }

  // Two heads in a row and one brace: the depth is two, though only one brace is open.
  lemma HeadWithoutBrace()
    ensures
      var line := Line(NoDirective, 0, false, [NamespaceHead("a", 1, false), NamespaceHead("b", 1, true)], None, false, Tail(None, []));
      && |Run(State([], []), [line]).stack| == 2
      && TextMarks([], [line]) == [Head(Namespace("a", 1)), Head(Namespace("b", 1)), Tok(OpenBrace(false))]
  {
    var a, b := NamespaceHead("a", 1, false), NamespaceHead("b", 1, true);
    var line := Line(NoDirective, 0, false, [a, b], None, false, Tail(None, []));
    assert [a, b][..1] == [a] && [a][..0] == [];
    assert PushNamespaces([], [a]) == PushNamespaces([], []) + [NamespaceBlock(a)];
    assert PushNamespaces([], [a, b]) == PushNamespaces([], [a]) + [NamespaceBlock(b)];
    assert NamespaceMarks([a, b]) == NamespaceMarks([a]) + [Head(Namespace("b", 1))] + [Tok(OpenBrace(false))];
    assert [line][1..] == [];
  }
}
