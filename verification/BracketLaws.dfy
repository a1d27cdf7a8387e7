// The forward and the backward scan undo each other, and neither depends on where lines are broken.

module BracketLaws {
  import opened Brackets
  import opened Sequences
  import TextInside
  import opened Wrappers

  // ---------- a character's place determines its line and column ----------

  lemma PlaceIsUnique(lines: seq<string>, l: nat, p: nat, m: nat, q: nat)
    requires OnLine(lines, l, p) && OnLine(lines, m, q)
    requires Offset(lines, l) + p == Offset(lines, m) + q
    ensures l == m && p == q
  {
    LineInText(lines, l);
    LineInText(lines, m);
    if l < m {
      OffsetsIncrease(lines, l + 1, m);
    } else if m < l {
      OffsetsIncrease(lines, m + 1, l);
    }
  }

  lemma CharAt(lines: seq<string>, l: nat, p: nat)
    requires OnLine(lines, l, p)
    ensures Offset(lines, l) + p < |Flatten(lines)|
    ensures Flatten(lines)[Offset(lines, l) + p] == lines[l][p]
  {
    LineInText(lines, l);
    assert Flatten(lines)[Offset(lines, l)..Offset(lines, l + 1)][p] == lines[l][p];
  }

  lemma CloseIsUnique(text: string, i: nat, j: nat, k: nat, start: char, end: char)
    requires ClosesAt(text, i, j, start, end) && ClosesAt(text, i, k, start, end)
    ensures j == k
  {
  }

  lemma OpenIsUnique(text: string, j: nat, i: nat, k: nat, start: char, end: char)
    requires OpensAt(text, j, i, start, end) && OpensAt(text, j, k, start, end)
    ensures i == k
  {
  }

  // The contracts leave no choice.
  lemma CloseAnswerIsUnique(lines: seq<string>, l: nat, p: nat, l1: int, p1: int, l2: int, p2: int)
    requires OnLine(lines, l, p) && IsCloseAnswer(lines, l, p, l1, p1) && IsCloseAnswer(lines, l, p, l2, p2)
    ensures l1 == l2 && p1 == p2
  {
    if CloserOf(lines[l][p]).Some? && p1 != -1 && p2 != -1 {
      CloseIsUnique(Flatten(lines), Offset(lines, l) + p, Offset(lines, l1) + p1, Offset(lines, l2) + p2, lines[l][p], CloserOf(lines[l][p]).value);
      PlaceIsUnique(lines, l1, p1 - 1, l2, p2 - 1);
    }
  }

  lemma OpenAnswerIsUnique(lines: seq<string>, l: nat, p: nat, l1: int, p1: int, l2: int, p2: int)
    requires OnLine(lines, l, p) && IsOpenAnswer(lines, l, p, l1, p1) && IsOpenAnswer(lines, l, p, l2, p2)
    ensures l1 == l2 && p1 == p2
  {
    if OpenerOf(lines[l][p]).Some? && p1 != -1 && p2 != -1 {
      OpenIsUnique(Flatten(lines), Offset(lines, l) + p + 1, Offset(lines, l1) + p1, Offset(lines, l2) + p2, OpenerOf(lines[l][p]).value, lines[l][p]);
      PlaceIsUnique(lines, l1, p1, l2, p2);
    }
  }

  // The depth is what its name says.
  lemma {:induction false} DepthCounts(text: string, i: nat, j: nat, start: char, end: char)
    requires i <= j <= |text| && start != end
    ensures Depth(text, i, j, start, end) == Count(text[i..j], start) - Count(text[i..j], end)
  {
    if i < j {
      DepthCounts(text, i, j - 1, start, end);
      assert text[i..j] == text[i..j - 1] + [text[j - 1]];
      CountSnoc(text[i..j - 1], text[j - 1], start);
      CountSnoc(text[i..j - 1], text[j - 1], end);
    }
  }

  // ---------- round trips ----------

  lemma Pairs(c: char)
    ensures CloserOf(c).Some? ==> OpenerOf(CloserOf(c).value) == Some(c) && CloserOf(c).value != c
    ensures OpenerOf(c).Some? ==> CloserOf(OpenerOf(c).value) == Some(c) && OpenerOf(c).value != c
  {
  }

  // If CloseExpression finds the place just past the character at (m, q), then ReverseCloseExpression at
  // (m, q) answers with the opener, and with nothing else.
  lemma ReverseUndoesClose(lines: seq<string>, l: nat, p: nat, m: nat, q: nat)
    requires OnLine(lines, l, p) && IsCloseAnswer(lines, l, p, m, q + 1)
    ensures OnLine(lines, m, q)
    ensures forall startl, startp :: IsOpenAnswer(lines, m, q, startl, startp) <==> startl == l && startp == p
  {
    hide Flatten, Depth, Offset;
    var start := lines[l][p];
    var end := CloserOf(start).value;
    Pairs(start);
    CharAt(lines, l, p);
    CharAt(lines, m, q);
    CloseIffOpen(Flatten(lines), Offset(lines, l) + p, Offset(lines, m) + q + 1, start, end);
    assert IsOpenAnswer(lines, m, q, l, p);
    forall startl, startp | IsOpenAnswer(lines, m, q, startl, startp)
      ensures startl == l && startp == p
    {
      OpenAnswerIsUnique(lines, m, q, startl, startp, l, p);
    }
  }

  // Conversely, from the opener that ReverseCloseExpression finds, CloseExpression leads back.
  lemma CloseUndoesReverse(lines: seq<string>, l: nat, p: nat, startl: int, startp: int)
    requires OnLine(lines, l, p) && IsOpenAnswer(lines, l, p, startl, startp) && startp != -1
    ensures OnLine(lines, startl, startp)
    ensures forall endl, endp :: IsCloseAnswer(lines, startl, startp, endl, endp) <==> endl == l && endp == p + 1
  {
    hide Flatten, Depth, Offset;
    var end := lines[l][p];
    var start := OpenerOf(end).value;
    Pairs(end);
    CharAt(lines, l, p);
    CharAt(lines, startl, startp);
    CloseIffOpen(Flatten(lines), Offset(lines, startl) + startp, Offset(lines, l) + p + 1, start, end);
    assert IsCloseAnswer(lines, startl, startp, l, p + 1);
    forall endl, endp | IsCloseAnswer(lines, startl, startp, endl, endp)
      ensures endl == l && endp == p + 1
    {
      CloseAnswerIsUnique(lines, startl, startp, endl, endp, l, p + 1);
    }
  }

  // ---------- line breaks ----------

  // Two ways of breaking one text into lines, with corresponding places.
  ghost predicate SamePlace(a: seq<string>, l: nat, p: nat, b: seq<string>, m: nat, q: nat) {
    Flatten(a) == Flatten(b) && OnLine(a, l, p) && OnLine(b, m, q) && Offset(a, l) + p == Offset(b, m) + q
  }

  // Moving line breaks moves no answer: it is the same character of the whole text, or -1 in both.
  lemma LineBreaksDoNotMatter(a: seq<string>, l: nat, p: nat, b: seq<string>, m: nat, q: nat, la: int, pa: int, lb: int, pb: int)
    requires SamePlace(a, l, p, b, m, q)
    requires IsCloseAnswer(a, l, p, la, pa) && IsCloseAnswer(b, m, q, lb, pb)
    ensures pa == -1 <==> pb == -1
    ensures pa != -1 ==> SamePlace(a, la, pa - 1, b, lb, pb - 1)
  {
    hide Flatten, Depth, Offset;
    CharAt(a, l, p);
    CharAt(b, m, q);
    if pa != -1 && pb != -1 {
      CloseIsUnique(Flatten(a), Offset(a, l) + p, Offset(a, la) + pa, Offset(b, lb) + pb, a[l][p], CloserOf(a[l][p]).value);
    }
  }

  lemma ReverseLineBreaksDoNotMatter(a: seq<string>, l: nat, p: nat, b: seq<string>, m: nat, q: nat, la: int, pa: int, lb: int, pb: int)
    requires SamePlace(a, l, p, b, m, q)
    requires IsOpenAnswer(a, l, p, la, pa) && IsOpenAnswer(b, m, q, lb, pb)
    ensures pa == -1 <==> pb == -1
    ensures pa != -1 ==> SamePlace(a, la, pa, b, lb, pb)
  {
    hide Flatten, Depth, Offset;
    CharAt(a, l, p);
    CharAt(b, m, q);
    if pa != -1 && pb != -1 {
      OpenIsUnique(Flatten(a), Offset(a, l) + p + 1, Offset(a, la) + pa, Offset(b, lb) + pb, OpenerOf(a[l][p]).value, a[l][p]);
    }
  }

  // ---------- the stack matcher and the depth counter agree ----------

  lemma DepthThrough(text: string, a: nat, m: nat, k: nat, start: char, end: char)
    requires a <= m < k <= |text|
    ensures Depth(text, a, k, start, end) == Depth(text, a, m, start, end) + Delta(text[m], start, end) + Depth(text, m + 1, k, start, end)
  {
    DepthAdds(text, a, m, k, start, end);
    DepthAdds(text, m, m + 1, k, start, end);
    DepthOne(text, m, start, end);
  }

  ghost predicate NeverBelowZero(text: string, a: nat, b: nat, start: char, end: char)
    requires a <= b <= |text|
  {
    forall k :: a <= k <= b ==> Depth(text, a, k, start, end) >= 0
  }

  // In a balanced word the depth of no kind of bracket drops below zero, and it ends at zero.
  lemma {:induction false} BalancedDepth(text: string, a: nat, b: nat, start: char, end: char)
    requires a <= b <= |text| && TextInside.IsPair(start, end)
    requires TextInside.Balanced(text[a..b])
    ensures Depth(text, a, b, start, end) == 0 && NeverBelowZero(text, a, b, start, end)
    decreases b - a
  {
    var w := text[a..b];
    if w != [] {
      assert w[0] == text[a] && w[1..] == text[a + 1..b];
      if TextInside.IsOrdinary(w[0]) && TextInside.Balanced(w[1..]) {
        BalancedDepth(text, a + 1, b, start, end);
        forall k | a < k <= b
          ensures Depth(text, a, k, start, end) == Depth(text, a + 1, k, start, end)
        {
          DepthThrough(text, a, a, k, start, end);
        }
      } else {
        var k :| 1 <= k < |w| && TextInside.Splits(w, k);
        TextInside.SubText(text, a, b, k);
        assert w[k] == text[a + k];
        BalancedDepth(text, a + 1, a + k, start, end);
        BalancedDepth(text, a + k + 1, b, start, end);
        PairDepth(text, a, a + k, b, start, end);
      }
    }
  }

  // A balanced word in brackets, followed by another one.
  lemma PairDepth(text: string, a: nat, m: nat, b: nat, start: char, end: char)
    requires a < m < b <= |text| && TextInside.IsPair(start, end)
    requires TextInside.IsPair(text[a], text[m])
    requires Depth(text, a + 1, m, start, end) == 0 && NeverBelowZero(text, a + 1, m, start, end)
    requires NeverBelowZero(text, m + 1, b, start, end)
    ensures NeverBelowZero(text, a, b, start, end)
    ensures Depth(text, a, b, start, end) == Depth(text, m + 1, b, start, end)
  {
    forall k | a <= k <= b
      ensures Depth(text, a, k, start, end) >= 0
      ensures m < k ==> Depth(text, a, k, start, end) == Depth(text, m + 1, k, start, end)
    {
      if a < k {
        DepthThrough(text, a, a, k, start, end);
        if m < k {
          DepthThrough(text, a + 1, m, k, start, end);
        }
      }
    }
  }

  // Where _GetTextInside finds the matching bracket, CloseExpression finds it too.
  lemma InsideIsClosed(text: string, start: nat, end: nat)
    requires TextInside.InsideIs(text, start, end)
    ensures ClosesAt(text, start - 1, end + 1, text[start - 1], text[end])
  {
    var i := start - 1;
    var o, c := text[i], text[end];
    BalancedDepth(text, start, end, o, c);
    forall k | i < k <= end
      ensures Depth(text, i, k, o, c) > 0
    {
      DepthThrough(text, i, i, k, o, c);
    }
    DepthThrough(text, i, i, end, o, c);
    DepthAdds(text, i, end, end + 1, o, c);
    DepthOne(text, end, o, c);
  }

  // Not the other way round: brackets of other kinds that do not match are no obstacle to counting.
  lemma ClosedIsNotAlwaysInside()
    ensures ClosesAt("([)", 0, 3, '(', ')')
    ensures forall end :: !TextInside.InsideIs("([)", 1, end)
  {
    var text := "([)";
    assert Depth(text, 0, 0, '(', ')') == 0;
    assert Depth(text, 0, 1, '(', ')') == 1;
    assert Depth(text, 0, 2, '(', ')') == 1;
    TextInside.ScanFindsInside(text, 1);
    assert TextInside.Scan(text, 2, [')', ']']) == None;
    assert [')'] + [']'] == [')', ']'];
  }
}
