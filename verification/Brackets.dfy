// Matching brackets across lines: CloseExpression and ReverseCloseExpression in bin/cpplint.py.

module Brackets {
  import opened Wrappers

  // ---------- bracket depth in one text ----------

  function Delta(c: char, start: char, end: char): int {
    if c == start then 1 else if c == end then -1 else 0
  }

  // Openers minus closers in text[i..j].
  function Depth(text: string, i: nat, j: nat, start: char, end: char): int
    requires i <= j <= |text|
  {
    if i == j then 0 else Depth(text, i, j - 1, start, end) + Delta(text[j - 1], start, end)
  }

  // Counted forward from i, the depth returns to zero for the first time just before j.
  ghost predicate ClosesAt(text: string, i: nat, j: nat, start: char, end: char) {
    && i < j <= |text|
    && Depth(text, i, j, start, end) == 0
    && forall k :: i < k < j ==> Depth(text, i, k, start, end) != 0
  }

  // Counted backward from j, the depth returns to zero for the first time at i.
  ghost predicate OpensAt(text: string, j: nat, i: nat, start: char, end: char) {
    && i < j <= |text|
    && Depth(text, i, j, start, end) == 0
    && forall k :: i < k < j ==> Depth(text, k, j, start, end) != 0
  }

  lemma {:induction false} DepthAdds(text: string, i: nat, k: nat, j: nat, start: char, end: char)
    requires i <= k <= j <= |text|
    ensures Depth(text, i, j, start, end) == Depth(text, i, k, start, end) + Depth(text, k, j, start, end)
  {
    if k < j {
      DepthAdds(text, i, k, j - 1, start, end);
    }
  }

  // After an opener, the depth stays positive until it is zero ...
  lemma {:induction false} PositiveBeforeClose(text: string, i: nat, k: nat, start: char, end: char)
    requires i < k <= |text| && text[i] == start
    requires forall m :: i < m <= k ==> Depth(text, i, m, start, end) != 0
    ensures Depth(text, i, k, start, end) > 0
  {
    if k > i + 1 {
      PositiveBeforeClose(text, i, k - 1, start, end);
    } else {
      assert Depth(text, i, i, start, end) == 0;
    }
  }

  // ... and counted backward from a closer, it stays negative.
  lemma {:induction false} NegativeBeforeOpen(text: string, k: nat, j: nat, start: char, end: char)
    requires k < j <= |text| && text[j - 1] == end && start != end
    requires forall m :: k <= m < j ==> Depth(text, m, j, start, end) != 0
    ensures Depth(text, k, j, start, end) < 0
    decreases j - k
  {
    DepthOne(text, k, start, end);
    if k < j - 1 {
      NegativeBeforeOpen(text, k + 1, j, start, end);
      DepthAdds(text, k, k + 1, j, start, end);
    }
  }

  lemma DepthOne(text: string, k: nat, start: char, end: char)
    requires k < |text|
    ensures Depth(text, k, k + 1, start, end) == Delta(text[k], start, end)
  {
    assert Depth(text, k, k, start, end) == 0;
  }

  // The two directions find the same pairs of brackets.
  lemma CloseIffOpen(text: string, i: nat, j: nat, start: char, end: char)
    requires i < j <= |text| && start != end
    ensures text[i] == start && ClosesAt(text, i, j, start, end) <==> text[j - 1] == end && OpensAt(text, j, i, start, end)
  {
    forall k | i < k < j
      ensures Depth(text, i, j, start, end) == 0 ==> Depth(text, i, k, start, end) == -Depth(text, k, j, start, end)
    {
      DepthAdds(text, i, k, j, start, end);
    }
    DepthOne(text, i, start, end);
    DepthOne(text, j - 1, start, end);
    if text[i] == start && ClosesAt(text, i, j, start, end) {
      if i + 1 < j {
        PositiveBeforeClose(text, i, j - 1, start, end);
      }
    }
    if text[j - 1] == end && OpensAt(text, j, i, start, end) {
      if i + 1 < j {
        NegativeBeforeOpen(text, i + 1, j, start, end);
        DepthAdds(text, i, i + 1, j, start, end);
      }
    }
  }

  // ---------- lines ----------

  function Flatten(lines: seq<string>): string {
    if lines == [] then "" else Flatten(lines[..|lines| - 1]) + lines[|lines| - 1]
  }

  // Where line l starts in the whole text.
  function Offset(lines: seq<string>, l: nat): nat
    requires l <= |lines|
  {
    |Flatten(lines[..l])|
  }

  lemma {:induction false} LineInText(lines: seq<string>, l: nat)
    requires l < |lines|
    ensures Offset(lines, l + 1) == Offset(lines, l) + |lines[l]| <= |Flatten(lines)|
    ensures Flatten(lines)[Offset(lines, l)..Offset(lines, l + 1)] == lines[l]
  {
    var front := lines[..|lines| - 1];
    if l < |front| {
      LineInText(front, l);
      assert front[..l] == lines[..l] && front[..l + 1] == lines[..l + 1];
    } else {
      assert lines[..l + 1] == lines;
    }
    assert lines[..l + 1][..l] == lines[..l];
  }

  lemma {:induction false} OffsetsIncrease(lines: seq<string>, l: nat, m: nat)
    requires l <= m <= |lines|
    ensures Offset(lines, l) <= Offset(lines, m)
    ensures Offset(lines, |lines|) == |Flatten(lines)|
  {
    assert lines[..|lines|] == lines;
    if l < m {
      OffsetsIncrease(lines, l, m - 1);
      LineInText(lines, m - 1);
    }
  }

  // Depth inside a line is depth inside the text.
  lemma {:induction false} DepthInLine(lines: seq<string>, l: nat, a: nat, b: nat, start: char, end: char)
    requires l < |lines| && a <= b <= |lines[l]|
    ensures Offset(lines, l) + b <= |Flatten(lines)|
    ensures Depth(Flatten(lines), Offset(lines, l) + a, Offset(lines, l) + b, start, end) == Depth(lines[l], a, b, start, end)
  {
    LineInText(lines, l);
    if a < b {
      DepthInLine(lines, l, a, b - 1, start, end);
      assert Flatten(lines)[Offset(lines, l)..Offset(lines, l + 1)][b - 1] == lines[l][b - 1];
    }
  }

  // ---------- scanning one line ----------

  // Entered with `depth` at `from`, no closer before `limit` brings the depth down to zero.
  ghost predicate NotClosedBefore(line: string, from: nat, limit: nat, depth: int, start: char, end: char)
    requires from <= |line| && limit <= |line| + 1
  {
    forall k :: from < k < limit && line[k - 1] == end ==> depth + Depth(line, from, k, start, end) != 0
  }

  // The same from right to left.
  ghost predicate NotOpenedAfter(line: string, limit: int, upto: nat, depth: int, start: char, end: char)
    requires -1 <= limit && upto <= |line|
  {
    forall k :: limit < k < upto && line[k] == start ==> depth + Depth(line, k, upto, start, end) != 0
  }

  // The place after the first closer that brings the depth down to zero, or -1 and the depth at the end of the line.
  ghost predicate EndsInLine(line: string, from: nat, depth: int, start: char, end: char, pos: int, newDepth: int)
    requires from <= |line|
  {
    && (pos == -1 || from < pos <= |line|)
    && NotClosedBefore(line, from, if pos == -1 then |line| + 1 else pos, depth, start, end)
    && if pos == -1 then newDepth == depth + Depth(line, from, |line|, start, end)
       else newDepth == 0 == depth + Depth(line, from, pos, start, end) && line[pos - 1] == end
  }

  ghost predicate StartsInLine(line: string, upto: nat, depth: int, start: char, end: char, pos: int, newDepth: int)
    requires upto <= |line|
  {
    && -1 <= pos < upto
    && NotOpenedAfter(line, pos, upto, -depth, start, end)
    && if pos == -1 then newDepth == depth - Depth(line, 0, upto, start, end)
       else newDepth == 0 == depth - Depth(line, pos, upto, start, end) && line[pos] == start
  }

  method FindEndOfExpressionInLine(line: string, startpos: nat, depth: int, startchar: char, endchar: char) returns (pos: int, newDepth: int)
    requires startpos <= |line| && startchar != endchar
    ensures EndsInLine(line, startpos, depth, startchar, endchar, pos, newDepth)
  {
    newDepth := depth;
    for i := startpos to |line|
      invariant newDepth == depth + Depth(line, startpos, i, startchar, endchar)
      invariant forall k :: startpos < k <= i && line[k - 1] == endchar ==>
                              depth + Depth(line, startpos, k, startchar, endchar) != 0
    {
      if line[i] == startchar {
        newDepth := newDepth + 1;
      } else if line[i] == endchar {
        newDepth := newDepth - 1;
        if newDepth == 0 {
          return i + 1, 0;
        }
      }
    }
    return -1, newDepth;
  }

  method FindStartOfExpressionInLine(line: string, endpos: int, depth: int, startchar: char, endchar: char) returns (pos: int, newDepth: int)
    requires -1 <= endpos < |line| && startchar != endchar
    ensures StartsInLine(line, endpos + 1, depth, startchar, endchar, pos, newDepth)
  {
    newDepth := depth;
    var i := endpos;
    while i > -1
      invariant -1 <= i <= endpos
      invariant newDepth == depth - Depth(line, i + 1, endpos + 1, startchar, endchar)
      invariant forall k :: i < k <= endpos && line[k] == startchar ==>
                              depth - Depth(line, k, endpos + 1, startchar, endchar) != 0
    {
      DepthAdds(line, i, i + 1, endpos + 1, startchar, endchar);
      DepthOne(line, i, startchar, endchar);
      if line[i] == endchar {
        newDepth := newDepth + 1;
      } else if line[i] == startchar {
        newDepth := newDepth - 1;
        if newDepth == 0 {
          return i, 0;
        }
      }
      i := i - 1;
    }
    return -1, newDepth;
  }

  // ---------- scanning across lines ----------

  function CloserOf(c: char): Option<char> {
    if c == '(' then Some(')') else if c == '[' then Some(']') else if c == '{' then Some('}') else if c == '<' then Some('>') else None
  }

  function OpenerOf(c: char): Option<char> {
    if c == ')' then Some('(') else if c == ']' then Some('[') else if c == '}' then Some('{') else if c == '>' then Some('<') else None
  }

  ghost predicate OnLine(lines: seq<string>, l: int, p: int) {
    0 <= l < |lines| && 0 <= p < |lines[l]|
  }

  // Where the bracket at (l, p) is closed by `end`: the place just past the closer, or (|lines|, -1).
  ghost predicate IsClosedBy(lines: seq<string>, l: nat, p: nat, end: char, endl: int, endp: int)
    requires OnLine(lines, l, p)
  {
    var start, i := lines[l][p], Offset(lines, l) + p;
    if endp == -1 then
      endl == |lines| && forall j :: !ClosesAt(Flatten(lines), i, j, start, end)
    else
      && OnLine(lines, endl, endp - 1)
      && ClosesAt(Flatten(lines), i, Offset(lines, endl) + endp, start, end)
  }

  // What CloseExpression answers at (l, p).
  ghost predicate IsCloseAnswer(lines: seq<string>, l: nat, p: nat, endl: int, endp: int)
    requires OnLine(lines, l, p)
  {
    match lines[l][p]
    case '(' => IsClosedBy(lines, l, p, ')', endl, endp)
    case '[' => IsClosedBy(lines, l, p, ']', endl, endp)
    case '{' => IsClosedBy(lines, l, p, '}', endl, endp)
    case '<' => IsClosedBy(lines, l, p, '>', endl, endp)
    case _ => endl == |lines| && endp == -1
  }

  // Where the bracket at (l, p) is opened by `start`: the place of the opener, or (0, -1).
  ghost predicate IsOpenedBy(lines: seq<string>, l: nat, p: nat, start: char, startl: int, startp: int)
    requires OnLine(lines, l, p)
  {
    var end, j := lines[l][p], Offset(lines, l) + p + 1;
    if startp == -1 then
      startl == 0 && forall i: nat :: !OpensAt(Flatten(lines), j, i, start, end)
    else
      && OnLine(lines, startl, startp)
      && OpensAt(Flatten(lines), j, Offset(lines, startl) + startp, start, end)
  }

  // What ReverseCloseExpression answers at (l, p).
  ghost predicate IsOpenAnswer(lines: seq<string>, l: nat, p: nat, startl: int, startp: int)
    requires OnLine(lines, l, p)
  {
    match lines[l][p]
    case ')' => IsOpenedBy(lines, l, p, '(', startl, startp)
    case ']' => IsOpenedBy(lines, l, p, '[', startl, startp)
    case '}' => IsOpenedBy(lines, l, p, '{', startl, startp)
    case '>' => IsOpenedBy(lines, l, p, '<', startl, startp)
    case _ => startl == 0 && startp == -1
  }

  // The scan from i has passed position e of the text without coming to a close.
  ghost predicate OpenUpTo(text: string, i: nat, e: nat, start: char, end: char) {
    i <= e <= |text| && forall k :: i < k <= e ==> Depth(text, i, k, start, end) > 0
  }

  lemma ScanStart(text: string, i: nat, start: char, end: char)
    requires i <= |text|
    ensures OpenUpTo(text, i, i, start, end) && Depth(text, i, i, start, end) == 0
  {
  }

  lemma ScanEnd(text: string, i: nat, start: char, end: char)
    requires OpenUpTo(text, i, |text|, start, end)
    ensures forall j :: !ClosesAt(text, i, j, start, end)
  {
  }

  // One line, entered with everything open.
  lemma ScanLine(lines: seq<string>, i: nat, l: nat, from: nat, start: char, end: char, pos: int)
    requires l < |lines| && from <= |lines[l]| && start != end
    requires i <= Offset(lines, l) + from
    requires OpenUpTo(Flatten(lines), i, Offset(lines, l) + from, start, end)
    requires i == Offset(lines, l) + from ==> from < |lines[l]| && lines[l][from] == start
    requires pos == -1 || from < pos <= |lines[l]|
    requires
      var depth := Depth(Flatten(lines), i, Offset(lines, l) + from, start, end);
      && (pos != -1 ==> depth + Depth(lines[l], from, pos, start, end) == 0)
      && NotClosedBefore(lines[l], from, if pos == -1 then |lines[l]| + 1 else pos, depth, start, end)
    ensures i <= Offset(lines, l + 1) == Offset(lines, l) + |lines[l]| <= |Flatten(lines)|
    ensures pos != -1 ==> ClosesAt(Flatten(lines), i, Offset(lines, l) + pos, start, end)
    ensures pos == -1 ==> i < Offset(lines, l + 1) && OpenUpTo(Flatten(lines), i, Offset(lines, l + 1), start, end)
    ensures Depth(Flatten(lines), i, Offset(lines, l + 1), start, end) ==
            Depth(Flatten(lines), i, Offset(lines, l) + from, start, end) + Depth(lines[l], from, |lines[l]|, start, end)
  {
    LineInText(lines, l);
    DepthOfPrefix(lines, i, l, from, |lines[l]|, start, end);
    var text, off := Flatten(lines), Offset(lines, l);
    var last := if pos == -1 then |lines[l]| else pos - 1;
    var k := from;
    while k < last
      invariant from <= k <= last
      invariant OpenUpTo(text, i, off + k, start, end)
    {
      DepthOfPrefix(lines, i, l, from, k, start, end);
      DepthOfPrefix(lines, i, l, from, k + 1, start, end);
      assert Depth(lines[l], from, k + 1, start, end) == Depth(lines[l], from, k, start, end) + Delta(lines[l][k], start, end);
      assert i == off + k ==> k == from;
      k := k + 1;
    }
    if pos != -1 {
      DepthOfPrefix(lines, i, l, from, pos, start, end);
    }
  }

  lemma DepthOfPrefix(lines: seq<string>, i: nat, l: nat, from: nat, k: nat, start: char, end: char)
    requires l < |lines| && from <= k <= |lines[l]| && i <= Offset(lines, l) + from
    ensures Offset(lines, l) + k <= |Flatten(lines)|
    ensures Depth(Flatten(lines), i, Offset(lines, l) + k, start, end) ==
            Depth(Flatten(lines), i, Offset(lines, l) + from, start, end) + Depth(lines[l], from, k, start, end)
  {
    DepthInLine(lines, l, from, k, start, end);
    DepthAdds(Flatten(lines), i, Offset(lines, l) + from, Offset(lines, l) + k, start, end);
  }

  // The lines before line l have been scanned from (m, p), and `open` brackets are still open.
  ghost predicate Scanned(lines: seq<string>, m: nat, p: nat, l: nat, open: int, end: char)
    requires OnLine(lines, m, p)
  {
    var i := Offset(lines, m) + p;
    && l <= |lines| && i < Offset(lines, l) <= |Flatten(lines)|
    && OpenUpTo(Flatten(lines), i, Offset(lines, l), lines[m][p], end)
    && open == Depth(Flatten(lines), i, Offset(lines, l), lines[m][p], end)
  }

  lemma ScanFirst(lines: seq<string>, m: nat, p: nat, end: char, pos: int, open: int)
    requires OnLine(lines, m, p) && lines[m][p] != end
    requires EndsInLine(lines[m], p, 0, lines[m][p], end, pos, open)
    ensures pos == -1 ==> Scanned(lines, m, p, m + 1, open, end)
    ensures pos != -1 ==> IsClosedBy(lines, m, p, end, m, pos)
  {
    hide Depth, ClosesAt, OpenUpTo, Flatten, Offset, NotClosedBefore;
    var i := Offset(lines, m) + p;
    LineInText(lines, m);
    ScanStart(Flatten(lines), i, lines[m][p], end);
    ScanLine(lines, i, m, p, lines[m][p], end, pos);
  }

  lemma ScanNext(lines: seq<string>, m: nat, p: nat, l: nat, before: int, end: char, pos: int, open: int)
    requires OnLine(lines, m, p) && lines[m][p] != end && l < |lines| && Scanned(lines, m, p, l, before, end)
    requires EndsInLine(lines[l], 0, before, lines[m][p], end, pos, open)
    ensures pos == -1 ==> Scanned(lines, m, p, l + 1, open, end)
    ensures pos != -1 ==> IsClosedBy(lines, m, p, end, l, pos)
  {
    hide Depth, ClosesAt, OpenUpTo, Flatten, Offset, NotClosedBefore;
    ScanLine(lines, Offset(lines, m) + p, l, 0, lines[m][p], end, pos);
  }

  lemma ScanOver(lines: seq<string>, m: nat, p: nat, open: int, end: char)
    requires OnLine(lines, m, p) && Scanned(lines, m, p, |lines|, open, end)
    ensures IsClosedBy(lines, m, p, end, |lines|, -1)
  {
    hide Depth, ClosesAt, OpenUpTo, Flatten, Offset;
    OffsetsIncrease(lines, |lines|, |lines|);
    ScanEnd(Flatten(lines), Offset(lines, m) + p, lines[m][p], end);
  }

  // The code's choice of a closer is the one of the specification.
  lemma CloserByKind(lines: seq<string>, l: nat, p: nat)
    requires OnLine(lines, l, p)
    ensures
      match CloserOf(lines[l][p])
      case None => IsCloseAnswer(lines, l, p, |lines|, -1) && lines[l][p] !in {'(', '[', '{', '<'}
      case Some(end) =>
        && lines[l][p] in {'(', '[', '{', '<'} && lines[l][p] != end
        && forall endl, endp :: IsClosedBy(lines, l, p, end, endl, endp) ==> IsCloseAnswer(lines, l, p, endl, endp)
  {
  }

  method CloseExpression(lines: seq<string>, linenum: nat, pos: nat) returns (line: string, endl: int, endp: int)
    requires OnLine(lines, linenum, pos)
    ensures IsCloseAnswer(lines, linenum, pos, endl, endp)
    ensures endp != -1 ==> OnLine(lines, endl, endp - 1) && line == lines[endl]
    ensures endp == -1 ==> line == if lines[linenum][pos] !in {'(', '[', '{', '<'} then lines[linenum] else lines[|lines| - 1]
  {
    hide CloserOf, IsCloseAnswer, IsClosedBy, Scanned, EndsInLine;
    line := lines[linenum];
    var startchar := line[pos];
    var closer := CloserOf(startchar);
    CloserByKind(lines, linenum, pos);
    if closer == None {
      return line, |lines|, -1;
    }
    var endchar := closer.value;

    var l := linenum;
    var end, open := FindEndOfExpressionInLine(line, pos, 0, startchar, endchar);
    ScanFirst(lines, linenum, pos, endchar, end, open);
    EndOnLine(line, pos, 0, startchar, endchar, end, open);
    if end > -1 {
      return line, l, end;
    }
    while l < |lines| - 1
      invariant linenum <= l < |lines| && line == lines[l]
      invariant Scanned(lines, linenum, pos, l + 1, open, endchar)
    {
      l := l + 1;
      line := lines[l];
      ghost var before := open;
      end, open := FindEndOfExpressionInLine(line, 0, open, startchar, endchar);
      ScanNext(lines, linenum, pos, l, before, endchar, end, open);
      EndOnLine(line, 0, before, startchar, endchar, end, open);
      if end > -1 {
        return line, l, end;
      }
    }
    ScanOver(lines, linenum, pos, open, endchar);
    return line, |lines|, -1;
  }

  lemma EndOnLine(line: string, from: nat, depth: int, start: char, end: char, pos: int, newDepth: int)
    requires from <= |line| && EndsInLine(line, from, depth, start, end, pos, newDepth)
    ensures pos == -1 || 0 < pos <= |line|
  {
  }

  // The scan down from j has passed position e of the text without coming to an opener that matches.
  ghost predicate OpenDownTo(text: string, e: nat, j: nat, start: char, end: char) {
    e <= j <= |text| && forall k :: e <= k < j ==> Depth(text, k, j, start, end) < 0
  }

  lemma ReverseScanStart(text: string, j: nat, start: char, end: char)
    requires j <= |text|
    ensures OpenDownTo(text, j, j, start, end) && Depth(text, j, j, start, end) == 0
  {
  }

  lemma ReverseScanEnd(text: string, j: nat, start: char, end: char)
    requires OpenDownTo(text, 0, j, start, end)
    ensures forall i: nat :: !OpensAt(text, j, i, start, end)
  {
  }

  lemma DepthOfSuffix(lines: seq<string>, j: nat, l: nat, k: nat, upto: nat, start: char, end: char)
    requires l < |lines| && k <= upto <= |lines[l]| && Offset(lines, l) + upto <= j <= |Flatten(lines)|
    ensures Depth(Flatten(lines), Offset(lines, l) + k, j, start, end) ==
            Depth(Flatten(lines), Offset(lines, l) + upto, j, start, end) + Depth(lines[l], k, upto, start, end)
  {
    DepthInLine(lines, l, k, upto, start, end);
    DepthAdds(Flatten(lines), Offset(lines, l) + k, Offset(lines, l) + upto, j, start, end);
  }

  // One line, entered from its end with everything open.
  lemma ReverseScanLine(lines: seq<string>, j: nat, l: nat, upto: nat, start: char, end: char, pos: int)
    requires l < |lines| && upto <= |lines[l]| && start != end
    requires Offset(lines, l) + upto <= j <= |Flatten(lines)|
    requires OpenDownTo(Flatten(lines), Offset(lines, l) + upto, j, start, end)
    requires j == Offset(lines, l) + upto ==> 0 < upto && lines[l][upto - 1] == end
    requires -1 <= pos < upto
    requires
      var depth := Depth(Flatten(lines), Offset(lines, l) + upto, j, start, end);
      && (pos != -1 ==> depth + Depth(lines[l], pos, upto, start, end) == 0)
      && NotOpenedAfter(lines[l], pos, upto, depth, start, end)
    ensures pos != -1 ==> OpensAt(Flatten(lines), j, Offset(lines, l) + pos, start, end)
    ensures pos == -1 ==> OpenDownTo(Flatten(lines), Offset(lines, l), j, start, end) && Offset(lines, l) < j
    ensures Depth(Flatten(lines), Offset(lines, l), j, start, end) ==
            Depth(Flatten(lines), Offset(lines, l) + upto, j, start, end) + Depth(lines[l], 0, upto, start, end)
  {
    DepthOfSuffix(lines, j, l, 0, upto, start, end);
    var text, off := Flatten(lines), Offset(lines, l);
    var k := upto;
    while k > pos + 1
      invariant pos + 1 <= k <= upto
      invariant OpenDownTo(text, off + k, j, start, end)
    {
      DepthOfSuffix(lines, j, l, k, upto, start, end);
      DepthOfSuffix(lines, j, l, k - 1, upto, start, end);
      DepthAdds(lines[l], k - 1, k, upto, start, end);
      DepthOne(lines[l], k - 1, start, end);
      assert j == off + k ==> k == upto;
      k := k - 1;
    }
    if pos != -1 {
      DepthOfSuffix(lines, j, l, pos, upto, start, end);
    }
  }

  // Line l and the lines after it have been scanned from (m, p), and `open` brackets are still open.
  ghost predicate ScannedDown(lines: seq<string>, m: nat, p: nat, l: nat, open: int, start: char)
    requires OnLine(lines, m, p)
  {
    var j := Offset(lines, m) + p + 1;
    && l <= |lines| && Offset(lines, l) < j <= |Flatten(lines)|
    && OpenDownTo(Flatten(lines), Offset(lines, l), j, start, lines[m][p])
    && open == -Depth(Flatten(lines), Offset(lines, l), j, start, lines[m][p])
  }

  lemma ReverseScanFirst(lines: seq<string>, m: nat, p: nat, start: char, pos: int, open: int)
    requires OnLine(lines, m, p) && lines[m][p] != start
    requires StartsInLine(lines[m], p + 1, 0, start, lines[m][p], pos, open)
    ensures pos == -1 ==> ScannedDown(lines, m, p, m, open, start)
    ensures pos != -1 ==> IsOpenedBy(lines, m, p, start, m, pos)
  {
    hide Depth, OpensAt, OpenDownTo, Flatten, Offset, NotOpenedAfter;
    var j := Offset(lines, m) + p + 1;
    LineInText(lines, m);
    ReverseScanStart(Flatten(lines), j, start, lines[m][p]);
    ReverseScanLine(lines, j, m, p + 1, start, lines[m][p], pos);
  }

  lemma ReverseScanNext(lines: seq<string>, m: nat, p: nat, l: nat, before: int, start: char, pos: int, open: int)
    requires OnLine(lines, m, p) && lines[m][p] != start && 0 < l <= |lines| && ScannedDown(lines, m, p, l, before, start)
    requires StartsInLine(lines[l - 1], |lines[l - 1]|, before, start, lines[m][p], pos, open)
    ensures pos == -1 ==> ScannedDown(lines, m, p, l - 1, open, start)
    ensures pos != -1 ==> IsOpenedBy(lines, m, p, start, l - 1, pos)
  {
    hide Depth, OpensAt, OpenDownTo, Flatten, Offset, NotOpenedAfter;
    LineInText(lines, l - 1);
    ReverseScanLine(lines, Offset(lines, m) + p + 1, l - 1, |lines[l - 1]|, start, lines[m][p], pos);
  }

  lemma ReverseScanOver(lines: seq<string>, m: nat, p: nat, open: int, start: char)
    requires OnLine(lines, m, p) && ScannedDown(lines, m, p, 0, open, start)
    ensures IsOpenedBy(lines, m, p, start, 0, -1)
  {
    hide Depth, OpensAt, OpenDownTo, Flatten, Offset;
    FirstOffset(lines);
    ReverseScanEnd(Flatten(lines), Offset(lines, m) + p + 1, start, lines[m][p]);
  }

  lemma OpenerByKind(lines: seq<string>, l: nat, p: nat)
    requires OnLine(lines, l, p)
    ensures
      match OpenerOf(lines[l][p])
      case None => IsOpenAnswer(lines, l, p, 0, -1) && lines[l][p] !in {')', ']', '}', '>'}
      case Some(start) =>
        && lines[l][p] in {')', ']', '}', '>'} && lines[l][p] != start
        && forall startl, startp :: IsOpenedBy(lines, l, p, start, startl, startp) ==> IsOpenAnswer(lines, l, p, startl, startp)
  {
  }

  method ReverseCloseExpression(lines: seq<string>, linenum: nat, pos: nat) returns (line: string, startl: int, startp: int)
    requires OnLine(lines, linenum, pos)
    ensures IsOpenAnswer(lines, linenum, pos, startl, startp)
    ensures startp != -1 ==> OnLine(lines, startl, startp) && line == lines[startl]
    ensures startp == -1 ==> line == if lines[linenum][pos] !in {')', ']', '}', '>'} then lines[linenum] else lines[0]
  {
    hide OpenerOf, IsOpenAnswer, IsOpenedBy, ScannedDown, StartsInLine;
    line := lines[linenum];
    var endchar := line[pos];
    var opener := OpenerOf(endchar);
    OpenerByKind(lines, linenum, pos);
    if opener == None {
      return line, 0, -1;
    }
    var startchar := opener.value;

    var l := linenum;
    var start, open := FindStartOfExpressionInLine(line, pos, 0, startchar, endchar);
    ReverseScanFirst(lines, linenum, pos, startchar, start, open);
    StartOnLine(line, pos + 1, 0, startchar, endchar, start, open);
    if start > -1 {
      return line, l, start;
    }
    while l > 0
      invariant l <= linenum && line == lines[l]
      invariant ScannedDown(lines, linenum, pos, l, open, startchar)
    {
      l := l - 1;
      line := lines[l];
      ghost var before := open;
      start, open := FindStartOfExpressionInLine(line, |line| - 1, open, startchar, endchar);
      ReverseScanNext(lines, linenum, pos, l + 1, before, startchar, start, open);
      StartOnLine(line, |line|, before, startchar, endchar, start, open);
      if start > -1 {
        return line, l, start;
      }
    }
    ReverseScanOver(lines, linenum, pos, open, startchar);
    return line, 0, -1;
  }

  lemma StartOnLine(line: string, upto: nat, depth: int, start: char, end: char, pos: int, newDepth: int)
    requires upto <= |line| && StartsInLine(line, upto, depth, start, end, pos, newDepth)
    ensures -1 <= pos < |line|
  {
  }

  lemma FirstOffset(lines: seq<string>)
    ensures Offset(lines, 0) == 0
  {
  }
}
