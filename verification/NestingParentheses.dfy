// Open parentheses are counted in the innermost block; while they are open, no class head is taken for one.

module NestingParentheses {
  import opened Nesting
  import opened Wrappers

  function Sum(lines: seq<Line>): int {
    if lines == [] then 0 else lines[0].depthChange + Sum(lines[1..])
  }

  // Neither namespaces nor braces, semicolons and closing parentheses that count as tokens.
  predicate IsQuiet(line: Line) {
    line.namespaces == [] && line.tail.tokens == []
  }

  predicate AreQuiet(lines: seq<Line>) {
    forall i :: 0 <= i < |lines| ==> IsQuiet(lines[i])
  }

  // Parentheses are open at each line that looks like a class head.
  ghost predicate OpenAtHeads(open: int, lines: seq<Line>) {
    forall i :: 0 <= i < |lines| && lines[i].classHead.Some? ==> open + Sum(lines[..i + 1]) != 0
  }

  lemma OpenAtHeadsTail(open: int, lines: seq<Line>)
    requires lines != [] && OpenAtHeads(open, lines)
    ensures OpenAtHeads(open + lines[0].depthChange, lines[1..])
    ensures lines[0].classHead.Some? ==> open + lines[0].depthChange != 0
  {
    assert lines[1..][..0] == [] && Sum(lines[1..][..0]) == 0;
    hide Sum;
    SumOfPrefix(lines, 0);
    forall i | 0 <= i < |lines| - 1 && lines[1..][i].classHead.Some?
      ensures open + lines[0].depthChange + Sum(lines[1..][..i + 1]) != 0
    {
      assert lines[1..][i] == lines[i + 1];
      SumOfPrefix(lines, i + 1);
    }
  }

  lemma SumOfPrefix(lines: seq<Line>, i: nat)
    requires i < |lines|
    ensures Sum(lines[..i + 1]) == lines[0].depthChange + Sum(lines[1..][..i])
  {
    assert lines[..i + 1][1..] == lines[1..][..i];
  }

  // The last access specifier.
  function LastAccess(lines: seq<Line>, access: string): string {
    if lines == [] then access
    else LastAccess(lines[1..], if lines[0].tail.access.Some? then lines[0].tail.access.value else access)
  }

  // One quiet line, with parentheses open or no class head on it, changes the innermost block only.
  lemma QuietLine(stack: Stack, line: Line)
    requires stack != [] && IsQuiet(line)
    requires line.classHead.Some? ==> Top(stack).openParentheses + line.depthChange != 0
    ensures
      var t, old' := Residual(stack, line), Top(stack);
      && t != [] && Pop(t) == Pop(stack)
      && Top(t).kind == old'.kind && Top(t).seenOpenBrace == old'.seenOpenBrace
      && Top(t).openParentheses == old'.openParentheses + line.depthChange
      && Top(t).isDerived == (old'.isDerived || (old'.kind.Class? && !old'.seenOpenBrace && line.bareColon))
      && Top(t).access == if old'.kind.Class? && line.tail.access.Some? then line.tail.access.value else old'.access
  {
    assert PushNamespaces(CountParentheses(stack, line), line.namespaces) == CountParentheses(stack, line);
    assert Residual(stack, line) == SetAccess(CheckBegin(CountParentheses(stack, line), line.bareColon), line.tail.access);
  }

  // Over such lines nothing is pushed, and the parentheses add up; a class has the access of the last specifier, and is
  // derived if a colon comes before its brace.
  lemma {:induction false} ParenthesesAddUp(stack: Stack, lines: seq<Line>)
    requires stack != [] && AreQuiet(lines) && OpenAtHeads(Top(stack).openParentheses, lines)
    ensures
      var t, old' := RunText(stack, lines), Top(stack);
      && t != [] && Pop(t) == Pop(stack)
      && Top(t).kind == old'.kind && Top(t).seenOpenBrace == old'.seenOpenBrace
      && Top(t).openParentheses == old'.openParentheses + Sum(lines)
      && (Top(t).isDerived <==> old'.isDerived || (old'.kind.Class? && !old'.seenOpenBrace && exists i :: 0 <= i < |lines| && lines[i].bareColon))
      && Top(t).access == if old'.kind.Class? then LastAccess(lines, old'.access) else old'.access
    decreases lines
  {
    if lines != [] {
      hide Residual;
      OpenAtHeadsTail(Top(stack).openParentheses, lines);
      QuietLine(stack, lines[0]);
      var s, rest := Residual(stack, lines[0]), lines[1..];
      ParenthesesAddUp(s, rest);
      assert forall i :: 0 <= i < |rest| ==> rest[i] == lines[i + 1];
      assert (exists i :: 0 <= i < |lines| && lines[i].bareColon) <==> lines[0].bareColon || exists i :: 0 <= i < |rest| && rest[i].bareColon by {
        if i :| 0 <= i < |lines| && lines[i].bareColon {
          assert i > 0 ==> rest[i - 1].bareColon;
        }
        if i :| 0 <= i < |rest| && rest[i].bareColon {
          assert lines[i + 1].bareColon;
        }
      }
    }
  }

  // A class head is taken for one exactly if no parenthesis of the innermost block is open at the end of its line.  The
  // new block then waits for its brace.
  lemma ClassIffClosed(stack: Stack, line: Line)
    requires IsQuiet(line) && line.classHead.Some? && line.classHead.value.tail.tokens == []
    ensures
      var t, head := Residual(stack, line), line.classHead.value;
      if stack == [] || Top(stack).openParentheses + line.depthChange == 0 then
        && |t| == |stack| + 1
        && (stack != [] ==> t[..|stack| - 1] == Pop(stack))
        && Top(t) == BlockValue(
             Class(head.name, head.isStruct, head.linenum, head.indent, head.lastLine), false, 0, NoAsm, line.bareColon,
             if head.tail.access.Some? then head.tail.access.value else if head.isStruct then "public" else "private")
      else
        |t| == |stack|
  {
    var s, head := CountParentheses(stack, line), line.classHead.value;
    assert PushNamespaces(s, line.namespaces) == s;
    var t := SetAccess(CheckBegin(PushClass(s, line), line.bareColon), TailOf(s, line).access);
    assert ConsumeAll(t, TailOf(s, line).tokens) == t;
    assert Residual(stack, line) == t;
    hide Residual, ConsumeAll, PushNamespaces;
    if ConsumesClass(s, line) {
      assert PushClass(s, line) == s + [ClassBlock(head)];
    } else {
      QuietLine(stack, line);
    }
  }

  // So a struct in the arguments of a function is no block, however many lines the arguments take; behind them it is.
  lemma ClassBehindArguments(stack: Stack, lines: seq<Line>, line: Line)
    requires stack != [] && AreQuiet(lines) && OpenAtHeads(Top(stack).openParentheses, lines)
    requires IsQuiet(line) && line.classHead.Some? && line.classHead.value.tail.tokens == []
    ensures |RunText(stack, lines)| == |stack|
    ensures |Residual(RunText(stack, lines), line)| == |stack| + if Top(stack).openParentheses + Sum(lines) + line.depthChange == 0 then 1 else 0
  {
    hide Residual, RunText;
    ParenthesesAddUp(stack, lines);
    ClassIffClosed(RunText(stack, lines), line);
  }

  // The lines "namespace n {", "void Foo(int a," and "struct Bar* c,": one block is open.
  lemma StructArgument()
    ensures
      var none := Tail(None, []);
      var first := Line(NoDirective, 0, false, [NamespaceHead("n", 1, true)], None, false, none);
      var second := Line(NoDirective, 1, false, [], None, false, none);
      var third := Line(NoDirective, 0, false, [], Some(ClassHead("Bar", true, 3, 0, 3, none)), false, none);
      |RunText([], [first, second, third])| == 1
  {
    hide ConsumeAll;
    var none := Tail(None, []);
    var head := NamespaceHead("n", 1, true);
    var first := Line(NoDirective, 0, false, [head], None, false, none);
    var second := Line(NoDirective, 1, false, [], None, false, none);
    var third := Line(NoDirective, 0, false, [], Some(ClassHead("Bar", true, 3, 0, 3, none)), false, none);
    var all, stack := [first, second, third], Residual([], first);
    NamespaceLine(first, head);
    assert all[1..] == [second, third];
    assert RunText([], all) == RunText(stack, [second, third]);
    hide Residual;
    var rest := [second, third];
    assert rest[..1] == [second] && rest[..2] == rest && rest[1..] == [third] && [second][1..] == [] && [third][1..] == [];
    assert Sum([second]) == 1 && Sum([third]) == 0 && Sum(rest) == 1;
    ParenthesesAddUp(stack, rest);
  }

  lemma NamespaceLine(line: Line, head: NamespaceHead)
    requires line.namespaces == [head] && head.brace && line.classHead == None && line.tail == Tail(None, [])
    ensures Residual([], line) == [BlockValue(Namespace(head.name, head.linenum), true, 0, NoAsm, false, "")]
  {
    assert [head][..0] == [];
    assert PushNamespaces([], [head]) == PushNamespaces([], []) + [NamespaceBlock(head)];
  }

  // ---------- inline assembly ----------

  // From a line that starts an assembly block and opens its parenthesis, up to the line that closes it.
  lemma AssemblyBlock(stack: Stack, first: Line, lines: seq<Line>, last: Line)
    requires stack != [] && Top(stack).inlineAsm in {NoAsm, EndAsm}
    requires IsQuiet(first) && AreQuiet(lines) && IsQuiet(last) && forall i :: 0 <= i < |lines| ==> lines[i].classHead == None
    requires first.classHead == None && last.classHead == None
    requires first.startsAsm && first.depthChange != 0 && Top(stack).openParentheses + first.depthChange == 1
    requires forall j :: 0 < j <= |lines| ==> 1 + Sum(lines[..j]) != 0
    requires 1 + Sum(lines) + last.depthChange == 0
    ensures
      var s := RunText(Residual(stack, first), lines);
      && s != [] && Top(s).inlineAsm == InsideAsm
      && Residual(s, last) != [] && Top(Residual(s, last)).inlineAsm == EndAsm
  {
    hide Residual, RunText, Sum, LastAccess;
    QuietLine(stack, first);
    AssemblyLine(stack, first);
    var s := Residual(stack, first);
    ParenthesesAddUp(s, lines);
    AssemblyGoesOn(s, lines);
    QuietLine(RunText(s, lines), last);
    AssemblyLine(RunText(s, lines), last);
  }

  // One line, whether it belongs to an assembly block or not.
  lemma AssemblyLine(stack: Stack, line: Line)
    requires stack != [] && IsQuiet(line) && line.classHead == None
    ensures
      var t, old', open := Residual(stack, line), Top(stack).inlineAsm, Top(stack).openParentheses + line.depthChange;
      && t != []
      && (Top(t).inlineAsm == InsideAsm <==> if old' == InsideAsm then open != 0 else old' != BlockAsm && line.startsAsm && line.depthChange != 0 && open == 1)
      && (Top(t).inlineAsm == EndAsm <==> old' == InsideAsm && open == 0)
      && (Top(t).inlineAsm == BlockAsm <==> old' == BlockAsm)
  {
    assert PushNamespaces(CountParentheses(stack, line), line.namespaces) == CountParentheses(stack, line);
    assert Residual(stack, line) == SetAccess(CheckBegin(CountParentheses(stack, line), line.bareColon), line.tail.access);
  }

  lemma {:induction false} AssemblyGoesOn(stack: Stack, lines: seq<Line>)
    requires stack != [] && AreQuiet(lines) && forall i :: 0 <= i < |lines| ==> lines[i].classHead == None
    requires Top(stack).inlineAsm == InsideAsm
    requires forall j :: 0 < j <= |lines| ==> Top(stack).openParentheses + Sum(lines[..j]) != 0
    ensures RunText(stack, lines) != [] && Top(RunText(stack, lines)).inlineAsm == InsideAsm
    decreases lines
  {
    if lines != [] {
      hide Residual;
      AssemblyLine(stack, lines[0]);
      QuietLine(stack, lines[0]);
      SumOfPrefix(lines, 0);
      forall j | 0 < j <= |lines| - 1
        ensures Sum(lines[..j + 1]) == lines[0].depthChange + Sum(lines[1..][..j])
      {
        SumOfPrefix(lines, j);
      }
      AssemblyGoesOn(Residual(stack, lines[0]), lines[1..]);
    }
  }

  // Braces behind a block that has seen its own open plain blocks, or assembly blocks.
  lemma {:induction false} OpenedBlocks(stack: Stack, asms: seq<bool>)
    requires SeenOpenBrace(stack)
    ensures
      var tokens := seq(|asms|, i requires 0 <= i < |asms| => OpenBrace(asms[i]));
      ConsumeAll(stack, tokens) == stack + seq(|asms|, i requires 0 <= i < |asms| => BlockValue(Plain, true, 0, if asms[i] then BlockAsm else NoAsm, false, ""))
  {
    if asms != [] {
      var n := |asms| - 1;
      OpenedBlocks(stack, asms[..n]);
      var tokens := seq(|asms|, i requires 0 <= i < |asms| => OpenBrace(asms[i]));
      assert tokens[..n] == seq(n, i requires 0 <= i < n => OpenBrace(asms[..n][i]));
    }
  }
}
