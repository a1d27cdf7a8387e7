// Removing comments of several lines: RemoveMultiLineComments in bin/cpplint.py.

module Comments {
  import opened Wrappers

  const DUMMY := "// dummy"

  // ---------- what the scan looks for in a line ----------

  // The characters that Python 2 strips from a unicode string.
  predicate IsWhite(c: char) {
    var n := c as int;
    || 0x09 <= n <= 0x0d || 0x1c <= n <= 0x20 || n == 0x85 || n == 0xa0
    || n == 0x1680 || n == 0x180e || 0x2000 <= n <= 0x200a || n == 0x2028 || n == 0x2029
    || n == 0x202f || n == 0x205f || n == 0x3000
  }

  function StripLeft(s: string): string {
    if s != [] && IsWhite(s[0]) then StripLeft(s[1..]) else s
  }

  function StripRight(s: string): string {
    if s != [] && IsWhite(s[|s| - 1]) then StripRight(s[..|s| - 1]) else s
  }

  function Strip(s: string): string {
    StripRight(StripLeft(s))
  }

  // A line that starts a comment and does not end it.
  predicate Opens(line: string) {
    var s := Strip(line);
    && "/*" <= s
    && forall k :: 2 <= k < |s| - 1 ==> !(s[k] == '*' && s[k + 1] == '/')
  }

  // A line that ends a comment.
  predicate Closes(line: string) {
    var s := Strip(line);
    |s| >= 2 && s[|s| - 2] == '*' && s[|s| - 1] == '/'
  }

  // ---------- the same without stripping ----------

  // The characters by number: white space of ASCII, the four separators, and white space beyond ASCII.
  predicate IsBlank(c: char) {
    (c as int) in {9, 10, 11, 12, 13, 28, 29, 30, 31, 32, 133, 160, 5760, 6158, 8192, 8193, 8194, 8195, 8196, 8197, 8198, 8199,
                   8200, 8201, 8202, 8232, 8233, 8239, 8287, 12288}
  }

  predicate AllBlank(s: string) {
    forall i :: 0 <= i < |s| ==> IsBlank(s[i])
  }

  predicate HasEnd(s: string) {
    exists k :: 0 <= k < |s| - 1 && s[k] == '*' && s[k + 1] == '/'
  }

  // Blanks, and the mark that starts a comment.
  ghost predicate StartsAt(line: string, w: string, rest: string) {
    line == w + ['/', '*'] + rest && AllBlank(w)
  }

  // The same, and no mark behind it that ends one.
  ghost predicate IsOpening(line: string, w: string, rest: string) {
    StartsAt(line, w, rest) && !HasEnd(rest)
  }

  // The mark that ends a comment, and blanks.
  ghost predicate IsClosing(line: string, front: string, w: string) {
    line == front + ['*', '/'] + w && AllBlank(w)
  }

  lemma BlankByNumber(c: char)
    ensures IsWhite(c) <==> IsBlank(c)
    ensures c == '*' || c == '/' ==> !IsBlank(c)
  {
  }

  lemma {:induction false} StripLeftIs(s: string) returns (a: nat)
    ensures a <= |s| && StripLeft(s) == s[a..] && AllBlank(s[..a])
    ensures a < |s| ==> !IsBlank(s[a])
  {
    a := 0;
    assert s[0..] == s;
    if s != [] {
      BlankByNumber(s[0]);
      if IsWhite(s[0]) {
        var b := StripLeftIs(s[1..]);
        a := b + 1;
        assert s[1..][b..] == s[a..];
        assert forall i :: 0 < i < a ==> s[i] == s[1..][..b][i - 1];
      }
    }
  }

  lemma {:induction false} StripRightIs(s: string) returns (b: nat)
    ensures b <= |s| && StripRight(s) == s[..b] && AllBlank(s[b..])
    ensures b > 0 ==> !IsBlank(s[b - 1])
  {
    b := |s|;
    assert s[..b] == s;
    if s != [] {
      BlankByNumber(s[|s| - 1]);
      if IsWhite(s[|s| - 1]) {
        var front := s[..|s| - 1];
        b := StripRightIs(front);
        assert front[..b] == s[..b];
        assert forall i :: b <= i < |front| ==> s[i] == front[b..][i - b];
      }
    }
  }

  lemma BlankSlices(line: string, a: nat, b: nat)
    requires a <= |line| && b <= |line|
    ensures AllBlank(line[..a]) <==> forall i :: 0 <= i < a ==> IsBlank(line[i])
    ensures AllBlank(line[b..]) <==> forall i :: b <= i < |line| ==> IsBlank(line[i])
  {
    var w := line[b..];
    assert forall i :: b <= i < |line| ==> line[i] == w[i - b];
    assert forall i :: 0 <= i < a ==> line[i] == line[..a][i];
  }

  lemma StripIs(line: string) returns (a: nat, b: nat)
    ensures a <= b <= |line| && Strip(line) == line[a..b] && AllBlank(line[..a]) && AllBlank(line[b..])
    ensures a < b ==> !IsBlank(line[a]) && !IsBlank(line[b - 1])
  {
    a := StripLeftIs(line);
    var n := StripRightIs(line[a..]);
    b := a + n;
    assert line[a..][..n] == line[a..b] && line[a..][n..] == line[b..];
  }

  // A line starts a comment that goes on if and only if it consists of blanks, the opening mark, and text without the
  // closing one.
  lemma OpensMeans(line: string)
    ensures Opens(line) <==> exists w, rest :: IsOpening(line, w, rest)
  {
    hide StripLeft, StripRight, IsBlank, AllBlank;
    BlankByNumber('*');
    BlankByNumber('/');
    var a, b := StripIs(line);
    var s := line[a..b];
    BlankSlices(line, a, b);
    if Opens(line) {
      var w, rest := line[..a], line[a + 2..];
      assert s[0] == '/' && s[1] == '*';
      assert line == w + ['/', '*'] + rest;
      forall k | 0 <= k < |rest| - 1 && rest[k] == '*'
        ensures rest[k + 1] != '/'
      {
        assert rest[k] == line[a + 2 + k] && rest[k + 1] == line[a + 3 + k];
        assert a + 3 + k < b ==> s[k + 2] == rest[k] && s[k + 3] == rest[k + 1];
      }
      assert IsOpening(line, w, rest);
    }
    if w, rest :| IsOpening(line, w, rest) {
      SameStart(line, a, b, w, rest);
      forall k | 2 <= k < |s| - 1
        ensures !(s[k] == '*' && s[k + 1] == '/')
      {
        assert s[k] == rest[k - 2] && s[k + 1] == rest[k - 1];
      }
      assert "/*" <= s;
    }
  }

  lemma SameStart(line: string, a: nat, b: nat, w: string, rest: string)
    requires a <= b <= |line| && AllBlank(line[..a]) && AllBlank(line[b..]) && (a < b ==> !IsBlank(line[a]))
    requires StartsAt(line, w, rest)
    ensures a == |w| && b >= a + 2 && line[a] == '/' && line[a + 1] == '*'
    ensures forall k :: 0 <= k < b - a - 2 ==> line[a..b][k + 2] == rest[k]
  {
    hide IsBlank, AllBlank;
    BlankByNumber('*');
    BlankByNumber('/');
    BlankSlices(line, a, b);
    BlankSlices(line, |w|, b);
    assert line[..|w|] == w && line[|w|] == '/' && line[|w| + 1] == '*';
    assert forall k :: 0 <= k < |rest| ==> rest[k] == line[|w| + 2 + k];
  }

  // A line ends a comment if and only if only blanks follow the last closing mark.
  lemma ClosesMeans(line: string)
    ensures Closes(line) <==> exists front, w :: IsClosing(line, front, w)
  {
    hide StripLeft, StripRight, IsBlank, AllBlank;
    BlankByNumber('*');
    BlankByNumber('/');
    var a, b := StripIs(line);
    var s := line[a..b];
    BlankSlices(line, a, b);
    if Closes(line) {
      var front, w := line[..b - 2], line[b..];
      assert s[|s| - 2] == line[b - 2] && s[|s| - 1] == line[b - 1];
      assert line == front + ['*', '/'] + w;
      assert IsClosing(line, front, w);
    }
    if front, w :| IsClosing(line, front, w) {
      var n := |front|;
      assert line[n..] == ['*', '/'] + w && line[n + 2..] == w;
      assert line[n] == '*' && line[n + 1] == '/';
      BlankSlices(line, a, n + 2);
      assert s[|s| - 2] == line[b - 2] && s[|s| - 1] == line[b - 1];
    }
  }

  lemma StartIsUnique(line: string, w: string, rest: string, w': string, rest': string)
    requires StartsAt(line, w, rest) && StartsAt(line, w', rest')
    ensures w == w' && rest == rest'
  {
    hide IsBlank, AllBlank;
    BlankByNumber('/');
    assert line[..|w|] == w && line[..|w'|] == w';
    BlankSlices(line, |w|, 0);
    BlankSlices(line, |w'|, 0);
    assert line[|w|] == '/' && line[|w'|] == '/';
    assert rest == line[|w| + 2..] && rest' == line[|w'| + 2..];
  }

  // A comment that ends on its own line is none of these.
  lemma EndsOnItsLine(line: string, w: string, rest: string)
    requires StartsAt(line, w, rest) && HasEnd(rest)
    ensures !Opens(line)
  {
    hide StartsAt, HasEnd, Opens;
    OpensMeans(line);
    forall w', rest' | StartsAt(line, w', rest')
      ensures HasEnd(rest')
    {
      StartIsUnique(line, w, rest, w', rest');
    }
  }

  lemma OtherText(line: string)
    requires line != [] && !IsBlank(line[0]) && line[0] != '/'
    ensures !Opens(line)
  {
    hide Opens, IsBlank;
    OpensMeans(line);
    forall w, rest
      ensures !StartsAt(line, w, rest)
    {
      var text := w + ['/', '*'] + rest;
      assert text[0] == if w == [] then '/' else w[0];
    }
  }

  lemma OneLineComment()
    ensures IsReport(["/* note */ int x;", "int y;"], None)
  {
    var lines := ["/* note */ int x;", "int y;"];
    hide Opens;
    var rest := lines[0][2..];
    assert lines[0] == [] + ['/', '*'] + rest;
    assert rest[6] == '*' && rest[7] == '/';
    EndsOnItsLine(lines[0], [], rest);
    assert lines[1][0] == 'i';
    OtherText(lines[1]);
  }

  lemma DummyIsNeither()
    ensures !Opens(DUMMY) && !Closes(DUMMY)
  {
    assert DUMMY[0] == '/' && DUMMY[1] == '/' && DUMMY[|DUMMY| - 1] == 'y';
    assert Strip(DUMMY) == DUMMY;
    assert "/*"[1] == '*';
  }

  // ---------- the comments of a file ----------

  // Line i starts a comment, or continues one.
  predicate InComment(lines: seq<string>, i: nat)
    requires i < |lines|
  {
    Opens(lines[i]) || (i > 0 && InComment(lines, i - 1) && !Closes(lines[i - 1]))
  }

  predicate ClosedFrom(lines: seq<string>, i: nat) {
    exists j :: i <= j < |lines| && Closes(lines[j])
  }

  // The lines that are cleared: those of a comment that has an end.
  predicate Cleared(lines: seq<string>, i: nat)
    requires i < |lines|
  {
    InComment(lines, i) && ClosedFrom(lines, i)
  }

  // The first line of a comment that has none.
  predicate Unclosed(lines: seq<string>, i: nat) {
    i < |lines| && InComment(lines, i) && !ClosedFrom(lines, i)
  }

  function Cleaned(lines: seq<string>): seq<string> {
    seq(|lines|, i requires 0 <= i < |lines| => if Cleared(lines, i) then "// dummy" else lines[i])
  }

  // The line number that is reported, counted from 1.
  ghost predicate IsReport(lines: seq<string>, report: Option<nat>) {
    match report
    case None => forall i :: !Unclosed(lines, i)
    case Some(n) => n > 0 && Unclosed(lines, n - 1) && forall i :: 0 <= i < n - 1 ==> !Unclosed(lines, i)
  }

  // ---------- the program ----------

  method FindNextMultiLineCommentStart(lines: array<string>, from: nat) returns (i: nat)
    requires from <= lines.Length
    ensures from <= i <= lines.Length
    ensures forall k :: from <= k < i ==> !Opens(lines[k])
    ensures i < lines.Length ==> Opens(lines[i])
  {
    i := from;
    while i < lines.Length
      invariant from <= i <= lines.Length
      invariant forall k :: from <= k < i ==> !Opens(lines[k])
    {
      if Opens(lines[i]) {
        return;
      }
      i := i + 1;
    }
  }

  method FindNextMultiLineCommentEnd(lines: array<string>, from: nat) returns (i: nat)
    requires from <= lines.Length
    ensures from <= i <= lines.Length
    ensures forall k :: from <= k < i ==> !Closes(lines[k])
    ensures i < lines.Length ==> Closes(lines[i])
  {
    i := from;
    while i < lines.Length
      invariant from <= i <= lines.Length
      invariant forall k :: from <= k < i ==> !Closes(lines[k])
    {
      if Closes(lines[i]) {
        return;
      }
      i := i + 1;
    }
  }

  method RemoveMultiLineCommentsFromRange(lines: array<string>, begin: nat, end: nat)
    requires begin <= end <= lines.Length
    modifies lines
    ensures forall k :: 0 <= k < lines.Length ==> lines[k] == if begin <= k < end then DUMMY else old(lines[k])
  {
    for i := begin to end
      invariant forall k :: 0 <= k < lines.Length ==> lines[k] == if begin <= k < i then DUMMY else old(lines[k])
    {
      lines[i] := DUMMY;
    }
  }

  // No comment is open at line i.
  predicate Outside(lines: seq<string>, i: nat)
    requires i <= |lines|
  {
    i == 0 || !InComment(lines, i - 1) || Closes(lines[i - 1])
  }

  method RemoveMultiLineComments(lines: array<string>) returns (report: Option<nat>)
    modifies lines
    ensures lines[..] == Cleaned(old(lines[..]))
    ensures IsReport(old(lines[..]), report)
  {
    hide Opens, Closes, InComment, ClosedFrom, Cleared, Outside, Unclosed;
    ghost var text := lines[..];
    NothingBefore(text);
    var i := 0;
    while i < lines.Length
      invariant 0 <= i <= lines.Length && Outside(text, i)
      invariant forall k :: 0 <= k < i ==> !Unclosed(text, k) && lines[k] == if Cleared(text, k) then DUMMY else text[k]
      invariant forall k :: i <= k < lines.Length ==> lines[k] == text[k]
    {
      var begin := FindNextMultiLineCommentStart(lines, i);
      NotInside(text, i, begin);
      if begin >= lines.Length {
        OnlyLines(text);
        return None;
      }
      var end := FindNextMultiLineCommentEnd(lines, begin);
      OneComment(text, begin, end);
      if end >= lines.Length {
        return Some(begin + 1);
      }
      RemoveMultiLineCommentsFromRange(lines, begin, end + 1);
      i := end + 1;
    }
    OnlyLines(text);
    return None;
  }

  lemma NothingBefore(text: seq<string>)
    ensures Outside(text, 0)
  {
  }

  lemma OnlyLines(text: seq<string>)
    ensures forall k :: k >= |text| ==> !Unclosed(text, k)
  {
  }

  // The lines from an opener to the first closer, or to the end of the file.
  lemma OneComment(text: seq<string>, begin: nat, end: nat)
    requires begin < |text| && begin <= end <= |text| && Opens(text[begin])
    requires forall k :: begin <= k < end ==> !Closes(text[k])
    requires end < |text| ==> Closes(text[end])
    ensures end < |text| ==> Outside(text, end + 1) && forall k :: begin <= k <= end ==> Cleared(text, k) && !Unclosed(text, k)
    ensures end == |text| ==> forall k :: begin <= k < |text| ==> Unclosed(text, k) && !Cleared(text, k)
  {
    hide Opens, Closes, InComment;
    AllInside(text, begin, end);
  }

  lemma {:induction false} NotInside(text: seq<string>, from: nat, to: nat)
    requires from <= to <= |text| && Outside(text, from)
    requires forall k :: from <= k < to ==> !Opens(text[k])
    ensures forall k :: from <= k < to ==> !Unclosed(text, k) && !Cleared(text, k)
    ensures Outside(text, to)
    decreases |text| - from
  {
    if from < to {
      NotInside(text, from + 1, to);
    }
  }

  lemma {:induction false} AllInside(text: seq<string>, begin: nat, end: nat)
    requires begin < |text| && begin <= end <= |text| && Opens(text[begin])
    requires forall k :: begin <= k < end ==> !Closes(text[k])
    ensures forall k :: begin <= k <= end && k < |text| ==> InComment(text, k)
    decreases end
  {
    if begin < end {
      AllInside(text, begin, end - 1);
    }
  }

  // ---------- running it again ----------

  // A comment line has an opener at or before it.
  lemma {:induction false} OpenedBefore(lines: seq<string>, i: nat) returns (b: nat)
    requires i < |lines| && InComment(lines, i)
    ensures b <= i && Opens(lines[b])
  {
    if Opens(lines[i]) {
      b := i;
    } else {
      b := OpenedBefore(lines, i - 1);
    }
  }

  // Any opener that is left starts a comment without an end.
  lemma LeftOpener(lines: seq<string>, i: nat)
    requires i < |lines| && Opens(Cleaned(lines)[i])
    ensures Unclosed(lines, i) && Cleaned(lines)[i] == lines[i]
  {
    DummyIsNeither();
  }

  // Nothing is left to clear: a second run changes no line and reports the same as the first.
  lemma SecondRun(lines: seq<string>, report: Option<nat>)
    requires IsReport(lines, report)
    ensures Cleaned(Cleaned(lines)) == Cleaned(lines)
    ensures IsReport(Cleaned(lines), report)
  {
    var result := Cleaned(lines);
    DummyIsNeither();
    forall i | 0 <= i < |result|
      ensures Unclosed(result, i) || !InComment(result, i)
    {
      if InComment(result, i) {
        var b := OpenedBefore(result, i);
        LeftOpener(lines, b);
      }
    }
    forall i | 0 <= i < |lines|
      ensures Unclosed(lines, i) <==> Unclosed(result, i)
    {
      if Unclosed(lines, i) {
        StaysInside(lines, i);
      }
      if Unclosed(result, i) {
        var b := OpenedBefore(result, i);
        LeftOpener(lines, b);
        UnclosedToTheEnd(lines, b, i);
      }
    }
  }

  lemma {:induction false} UnclosedToTheEnd(lines: seq<string>, b: nat, i: nat)
    requires b <= i < |lines| && Unclosed(lines, b)
    ensures Unclosed(lines, i)
  {
    if b < i {
      UnclosedToTheEnd(lines, b, i - 1);
    }
  }

  lemma {:induction false} StaysInside(lines: seq<string>, i: nat)
    requires i < |lines| && Unclosed(lines, i)
    ensures InComment(Cleaned(lines), i) && Cleaned(lines)[i] == lines[i]
  {
    if !Opens(lines[i]) {
      assert InComment(lines, i - 1) && !Closes(lines[i - 1]);
      assert !ClosedFrom(lines, i - 1);
      StaysInside(lines, i - 1);
    }
  }

  // Without a report no opener is left; with one, the reported line is the first opener that is left.
  lemma OpenersLeft(lines: seq<string>, report: Option<nat>)
    requires IsReport(lines, report)
    ensures report == None ==> forall i :: 0 <= i < |lines| ==> !Opens(Cleaned(lines)[i])
    ensures report.Some? ==>
              && Opens(Cleaned(lines)[report.value - 1])
              && forall i :: 0 <= i < report.value - 1 ==> !Opens(Cleaned(lines)[i])
  {
    forall i | 0 <= i < |lines| && Opens(Cleaned(lines)[i])
      ensures Unclosed(lines, i)
    {
      LeftOpener(lines, i);
    }
    if report.Some? {
      var b := report.value - 1;
      if !Opens(lines[b]) {
        assert !ClosedFrom(lines, b - 1);
        assert Unclosed(lines, b - 1);
      }
    }
  }
}
