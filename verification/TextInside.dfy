// The text between an opening bracket and the one that matches it: _GetTextInside in bin/cpplint.py.

module TextInside {
  import Brackets
  import opened Wrappers

  // Three of the four kinds of brackets count here; angle brackets are ordinary characters.
  function CloserFor(c: char): Option<char> {
    if c == '<' then None else Brackets.CloserOf(c)
  }

  predicate IsCloser(c: char) {
    c != '>' && Brackets.OpenerOf(c).Some?
  }

  // ---------- balanced words ----------

  predicate IsPair(start: char, end: char) {
    || (start == '(' && end == ')')
    || (start == '[' && end == ']')
    || (start == '{' && end == '}')
  }

  predicate IsOrdinary(c: char) {
    c !in {'(', ')', '[', ']', '{', '}'}
  }

  // w is empty, or an ordinary character and a balanced word, or a bracketed balanced word and another one.
  ghost predicate Balanced(w: string)
    decreases |w|, 1
  {
    || w == []
    || (IsOrdinary(w[0]) && Balanced(w[1..]))
    || (exists k :: 1 <= k < |w| && Splits(w, k))
  }

  // The bracket that w starts with is closed at k.
  ghost predicate Splits(w: string, k: nat)
    requires 1 <= k < |w|
    decreases |w|, 0
  {
    IsPair(w[0], w[k]) && Balanced(w[1..k]) && Balanced(w[k + 1..])
  }

  // The text from `start` to `end` is balanced, and then comes the closer of the bracket before it.
  ghost predicate InsideIs(text: string, start: nat, end: nat) {
    && 0 < start <= end < |text|
    && IsPair(text[start - 1], text[end])
    && Balanced(text[start..end])
  }

  // ---------- the stack machine ----------

  // Where the stack of expected closers becomes empty, counted from `position`; None if it never does.
  function Scan(text: string, position: nat, stack: seq<char>): Option<nat>
    requires position <= |text|
    decreases |text| - position
  {
    if stack == [] then Some(position)
    else if position == |text| then None
    else
      var c := text[position];
      var n := |stack| - 1;
      if c == stack[n] then Scan(text, position + 1, stack[..n])
      else if IsCloser(c) then None
      else if CloserFor(c).Some? then Scan(text, position + 1, stack + [CloserFor(c).value])
      else Scan(text, position + 1, stack)
  }

  ghost predicate AllClosers(stack: seq<char>) {
    forall i :: 0 <= i < |stack| ==> IsCloser(stack[i])
  }

  lemma SubText(text: string, position: nat, end: nat, k: nat)
    requires position < position + k < end <= |text| && 1 <= k
    ensures text[position..end][1..k] == text[position + 1..position + k]
    ensures text[position..end][k + 1..] == text[position + k + 1..end]
  {
    var w := text[position..end];
    assert forall i :: 1 <= i < |w| ==> w[i] == text[position + i];
  }

  // A balanced word leaves the stack as it was.
  lemma {:induction false} BalancedIsSkipped(text: string, position: nat, end: nat, stack: seq<char>)
    requires position <= end <= |text| && Balanced(text[position..end])
    requires stack != [] && AllClosers(stack)
    ensures Scan(text, position, stack) == Scan(text, end, stack)
    decreases end - position
  {
    var w := text[position..end];
    if position < end {
      assert w[0] == text[position];
      assert w[1..] == text[position + 1..end];
      if IsOrdinary(w[0]) && Balanced(w[1..]) {
        BalancedIsSkipped(text, position + 1, end, stack);
      } else {
        var k :| 1 <= k < |w| && Splits(w, k);
        var c := w[k];
        var pushed := stack + [c];
        SubText(text, position, end, k);
        BalancedIsSkipped(text, position + 1, position + k, pushed);
        assert text[position + k] == w[k] == c && pushed[..|pushed| - 1] == stack;
        BalancedIsSkipped(text, position + k + 1, end, stack);
      }
    }
  }

  lemma Bracketed(text: string, position: nat, k: nat, end: nat)
    requires position < k < end <= |text|
    requires IsPair(text[position], text[k])
    requires Balanced(text[position + 1..k]) && Balanced(text[k + 1..end])
    ensures Balanced(text[position..end])
  {
    SubText(text, position, end, k - position);
    assert Splits(text[position..end], k - position);
  }

  // If the machine empties its stack, its top was closed right after a balanced word.
  lemma {:induction false} TopIsClosed(text: string, position: nat, stack: seq<char>) returns (end: nat)
    requires position <= |text| && stack != [] && AllClosers(stack)
    requires Scan(text, position, stack).Some?
    ensures position <= end < |text| && Balanced(text[position..end])
    ensures text[end] == stack[|stack| - 1]
    ensures Scan(text, end + 1, stack[..|stack| - 1]) == Scan(text, position, stack)
    decreases |text| - position
  {
    var c, n := text[position], |stack| - 1;
    if c == stack[n] {
      end := position;
      assert text[position..end] == [];
    } else if CloserFor(c).Some? {
      var pushed := stack + [CloserFor(c).value];
      var k := TopIsClosed(text, position + 1, pushed);
      assert pushed[..|pushed| - 1] == stack;
      end := TopIsClosed(text, k + 1, stack);
      Bracketed(text, position, k, end);
    } else {
      end := TopIsClosed(text, position + 1, stack);
      assert text[position..end][1..] == text[position + 1..end];
    }
  }

  // At most one closer matches.
  lemma InsideIsUnique(text: string, start: nat, e: nat, f: nat)
    requires InsideIs(text, start, e) && InsideIs(text, start, f)
    ensures e == f
  {
    InsideIsScanned(text, start, e);
    InsideIsScanned(text, start, f);
  }

  lemma InsideIsScanned(text: string, start: nat, end: nat)
    requires InsideIs(text, start, end)
    ensures Scan(text, start, [text[end]]) == Some(end + 1)
  {
    var stack := [text[end]];
    BalancedIsSkipped(text, start, end, stack);
    assert stack[..0] == [];
  }

  lemma ScanFindsInside(text: string, start: nat)
    requires 0 < start <= |text| && CloserFor(text[start - 1]).Some?
    ensures
      match Scan(text, start, [CloserFor(text[start - 1]).value])
      case Some(end) => start < end && InsideIs(text, start, end - 1)
      case None => forall end :: !InsideIs(text, start, end)
  {
    var stack := [CloserFor(text[start - 1]).value];
    if Scan(text, start, stack).Some? {
      var end := TopIsClosed(text, start, stack);
      assert stack[..0] == [];
    }
    forall end | InsideIs(text, start, end)
      ensures Scan(text, start, stack) == Some(end + 1)
    {
      InsideIsScanned(text, start, end);
    }
  }

  // ---------- the program ----------

  // matchEnd is where the match of the start pattern ends, if it has one.
  method GetTextInside(text: string, matchEnd: Option<nat>) returns (inside: Option<string>)
    requires matchEnd.Some? ==> 0 < matchEnd.value <= |text| && text[matchEnd.value - 1] in {'(', '[', '{'}
    ensures matchEnd == None ==> inside == None
    ensures matchEnd.Some? ==> (inside == None <==> forall end :: !InsideIs(text, matchEnd.value, end))
    ensures matchEnd.Some? && inside.Some? ==>
              InsideIs(text, matchEnd.value, matchEnd.value + |inside.value|) && inside.value <= text[matchEnd.value..]
  {
    if matchEnd == None {
      return None;
    }
    var start := matchEnd.value;
    ScanFindsInside(text, start);
    var stack := [CloserFor(text[start - 1]).value];
    ghost var answer := Scan(text, start, stack);
    var position := start;
    while stack != [] && position < |text|
      invariant start <= position <= |text|
      invariant Scan(text, position, stack) == answer
      decreases |text| - position
    {
      if text[position] == stack[|stack| - 1] {
        stack := stack[..|stack| - 1];
      } else if IsCloser(text[position]) {
        return None;
      } else if CloserFor(text[position]).Some? {
        stack := stack + [CloserFor(text[position]).value];
      }
      position := position + 1;
    }
    if stack != [] {
      return None;
    }
    assert InsideIs(text, start, position - 1);
    return Some(text[start..position - 1]);
  }
}
