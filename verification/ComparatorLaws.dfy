// What the comparator's verdict promises about all pairs of files.

module ComparatorLaws {
  import opened Comparator

  // ---------- filtering distributes over concatenation ----------

  lemma {:induction false} DropCRConcat(s: seq<Byte>, t: seq<Byte>)
    ensures DropCR(s + t) == DropCR(s) + DropCR(t)
  {
    if s == [] {
      assert s + t == t;
    } else {
      assert (s + t)[1..] == s[1..] + t;
      DropCRConcat(s[1..], t);
    }
  }

  lemma {:induction false} NonSpaceConcat(s: seq<Byte>, t: seq<Byte>)
    ensures NonSpace(s + t) == NonSpace(s) + NonSpace(t)
  {
    if s == [] {
      assert s + t == t;
    } else {
      assert (s + t)[1..] == s[1..] + t;
      NonSpaceConcat(s[1..], t);
    }
  }

  lemma OneByte(c: Byte)
    ensures DropCR([c]) == if c == CR then [] else [c]
    ensures NonSpace([c]) == if IsSpace(c) then [] else [c]
  {
  }

  // ---------- the verdict by the numbers of the bytes ----------

  // Tab, line feed, carriage return and space are not visible.
  function Visible(s: seq<Byte>): seq<Byte> {
    if s == [] then []
    else (if s[0] in {9, 10, 13, 32} then [] else [s[0]]) + Visible(s[1..])
  }

  function Without13(s: seq<Byte>): seq<Byte> {
    if s == [] then []
    else (if s[0] == 13 then [] else [s[0]]) + Without13(s[1..])
  }

  predicate IsFollowedByBlanks(s: seq<Byte>, t: seq<Byte>) {
    s <= t && forall i :: |s| <= i < |t| ==> t[i] in {9, 10, 32}
  }

  lemma CompareByNumber(s: seq<Byte>, t: seq<Byte>)
    ensures Compare(s, t) == WA <==> Visible(s) != Visible(t)
    ensures Compare(s, t) == AC <==> IsFollowedByBlanks(Without13(s), Without13(t)) || IsFollowedByBlanks(Without13(t), Without13(s))
  {
    ByNumber(s);
    ByNumber(t);
    var a, b := Without13(s), Without13(t);
    BlanksAreSpace(a, b);
    BlanksAreSpace(b, a);
  }

  lemma {:induction false} ByNumber(s: seq<Byte>)
    ensures Without13(s) == DropCR(s) && Visible(s) == NonSpace(DropCR(s))
  {
    if s != [] {
      ByNumber(s[1..]);
      if s[0] != 13 {
        assert DropCR(s)[1..] == DropCR(s[1..]);
      }
    }
  }

  lemma BlanksAreSpace(s: seq<Byte>, t: seq<Byte>)
    ensures IsFollowedByBlanks(s, t) <==> s <= t && AllSpace(t[|s|..])
    ensures IsFollowedByBlanks(s, t) ==> NonSpace(s) == NonSpace(t)
  {
    if s <= t {
      var tail := t[|s|..];
      assert t == s + tail;
      assert forall i :: |s| <= i < |t| ==> t[i] == tail[i - |s|];
      NonSpaceConcat(s, tail);
      NonSpaceEmpty(tail);
    }
  }

  // ---------- algebra of the verdict ----------

  lemma Symmetric(x: seq<Byte>, y: seq<Byte>)
    ensures Compare(x, y) == Compare(y, x)
  {
  }

  // "Not WA" relates exactly the files of one class: it is an equivalence relation.
  lemma NotWrongIsEquivalence(x: seq<Byte>, y: seq<Byte>, z: seq<Byte>)
    ensures Compare(x, x) == AC
    ensures Compare(x, y) != WA ==> Compare(y, x) != WA
    ensures Compare(x, y) != WA && Compare(y, z) != WA ==> Compare(x, z) != WA
  {
  }

  // Carriage returns anywhere in either file do not matter.
  lemma CarriageReturnIgnored(x: seq<Byte>, y: seq<Byte>, z: seq<Byte>)
    ensures Compare(x + [CR] + y, z) == Compare(x + y, z)
    ensures Compare(z, x + [CR] + y) == Compare(z, x + y)
  {
    DropCRConcat(x + [CR], y);
    DropCRConcat(x, [CR]);
    DropCRConcat(x, y);
    OneByte(CR);
    assert DropCR(x) + [] == DropCR(x);
  }

  // White space inserted anywhere never turns the verdict into WA ...
  lemma WhiteSpaceIsNeverWrong(x: seq<Byte>, w: seq<Byte>, y: seq<Byte>, z: seq<Byte>)
    requires AllBlank(w)
    ensures Compare(x + w + y, z) == WA <==> Compare(x + y, z) == WA
  {
    DropCRConcat(x + w, y);
    DropCRConcat(x, w);
    DropCRConcat(x, y);
    var a, b, c := DropCR(x), DropCR(w), DropCR(y);
    NonSpaceConcat(a + b, c);
    NonSpaceConcat(a, b);
    NonSpaceConcat(a, c);
    DropCRSpaces(w);
    NonSpaceEmpty(b);
    assert NonSpace(a) + [] == NonSpace(a);
    assert NonSpace(a + b + c) == NonSpace(a + c);
  }

  // ... and at the end of the file it is not even noticed ...
  lemma TrailingWhiteSpaceAccepted(x: seq<Byte>, w: seq<Byte>)
    requires AllBlank(w)
    ensures Compare(x + w, x) == AC
  {
    DropCRConcat(x, w);
    var a, b := DropCR(x), DropCR(w);
    NonSpaceConcat(a, b);
    DropCRSpaces(w);
    NonSpaceEmpty(b);
    assert (a + b)[|a|..] == b;
  }

  // ... while a single visible byte too many always does.
  lemma ExtraByteIsWrong(x: seq<Byte>, c: Byte, y: seq<Byte>)
    requires !BlankByte(c)
    ensures Compare(x + [c] + y, x + y) == WA
  {
    DropCRConcat(x + [c], y);
    DropCRConcat(x, [c]);
    DropCRConcat(x, y);
    var a, b := DropCR(x), DropCR(y);
    OneByte(c);
    NonSpaceConcat(a + [c], b);
    NonSpaceConcat(a, [c]);
    NonSpaceConcat(a, b);
    assert |NonSpace(a + [c] + b)| == |NonSpace(a + b)| + 1;
  }

  // AC alone is not transitive: two outputs accepted against the same file agree with each
  // other exactly when one of them is a prefix of the other.
  lemma AcceptedWithCommonFile(x: seq<Byte>, y: seq<Byte>, z: seq<Byte>)
    requires Compare(x, y) == AC && Compare(y, z) == AC
    ensures Compare(x, z) == AC <==> DropCR(x) <= DropCR(z) || DropCR(z) <= DropCR(x)
  {
  }

  lemma AcceptedNotTransitive()
    ensures Compare([SPACE], []) == AC && Compare([], [TAB]) == AC && Compare([SPACE], [TAB]) == PE
  {
    OneByte(SPACE);
    OneByte(TAB);
    assert [SPACE][0] != [TAB][0];
  }

  // ---------- line endings of other systems ----------

  // Every line feed of `s` replaced by `eol`.
  function WithLineEnding(s: seq<Byte>, eol: seq<Byte>): seq<Byte> {
    if s == [] then []
    else (if s[0] == LF then eol else [s[0]]) + WithLineEnding(s[1..], eol)
  }

  // Files with DOS line endings are accepted.
  lemma {:induction false} DosFileAccepted(s: seq<Byte>)
    ensures DropCR(WithLineEnding(s, [CR, LF])) == DropCR(s)
    ensures Compare(s, WithLineEnding(s, [CR, LF])) == AC
  {
    if s != [] {
      DosFileAccepted(s[1..]);
      var head := if s[0] == LF then [CR, LF] else [s[0]];
      DropCRConcat(head, WithLineEnding(s[1..], [CR, LF]));
      DropCRConcat([s[0]], s[1..]);
      assert s == [s[0]] + s[1..];
      assert DropCR(head) == DropCR([s[0]]) by {
        assert head[1..] == if s[0] == LF then [LF] else [];
      }
    }
    NotWrongIsEquivalence(s, s, s);
  }

  function WithoutLF(s: seq<Byte>): seq<Byte> {
    if s == [] then []
    else if s[0] == LF then WithoutLF(s[1..])
    else [s[0]] + WithoutLF(s[1..])
  }

  // The lines of `s` end only at the very end.
  predicate SingleLine(s: seq<Byte>) {
    forall i, j :: 0 <= i < j < |s| && s[i] == LF ==> s[j] == LF
  }

  // The comment at the top of the comparator's loop admits that a file with classic Mac line endings gets
  // PE.  This holds exactly when a line feed is followed by anything but line feeds: all lines but the last
  // are then glued together.  It is never WA.
  lemma {:induction false} MacFileVerdict(s: seq<Byte>)
    requires CR !in s
    ensures Compare(s, WithLineEnding(s, [CR])) == if SingleLine(s) then AC else PE
  {
    NoCR(s);
    MacText(s);
    GluedNonSpace(s);
    GluedPrefix(s);
  }

  // The shortest file with two lines gets the wrong verdict.
  lemma MacFileMisjudged()
    ensures WithLineEnding([97, LF, 98], [CR]) == [97, CR, 98] && Compare([97, LF, 98], [97, CR, 98]) == PE
  {
    var s := [97, LF, 98];
    assert s[1..] == [LF, 98] && s[2..] == [98] && s[3..] == [];
    assert s[1..][1..] == s[2..] && s[2..][1..] == s[3..];
    assert s[1] == LF && s[2] != LF && !SingleLine(s);
    assert WithLineEnding(s[2..], [CR]) == [98] + WithLineEnding([], [CR]) == [98];
    assert WithLineEnding(s[1..], [CR]) == [CR] + [98];
    assert WithLineEnding(s, [CR]) == [97] + [CR, 98];
    MacFileVerdict(s);
  }

  lemma {:induction false} NoCR(s: seq<Byte>)
    requires CR !in s
    ensures DropCR(s) == s
  {
    if s != [] {
      NoCR(s[1..]);
    }
  }

  lemma {:induction false} MacText(s: seq<Byte>)
    requires CR !in s
    ensures DropCR(WithLineEnding(s, [CR])) == WithoutLF(s)
  {
    if s != [] {
      MacText(s[1..]);
      var rest := WithLineEnding(s[1..], [CR]);
      assert WithLineEnding(s, [CR])[1..] == rest;
    }
  }

  lemma {:induction false} GluedNonSpace(s: seq<Byte>)
    ensures NonSpace(WithoutLF(s)) == NonSpace(s) && |WithoutLF(s)| <= |s|
    ensures LF !in s ==> WithoutLF(s) == s
    ensures LF in s ==> |WithoutLF(s)| < |s|
    ensures LF !in WithoutLF(s)
  {
    if s != [] {
      GluedNonSpace(s[1..]);
      assert s == [s[0]] + s[1..];
      if s[0] != LF {
        assert WithoutLF(s)[1..] == WithoutLF(s[1..]);
      }
    }
  }

  lemma {:induction false} GluedPrefix(s: seq<Byte>)
    ensures SameUpToTail(s, WithoutLF(s)) <==> SingleLine(s)
  {
    GluedNonSpace(s);
    if s == [] {
    } else if s[0] == LF {
      GluedNonSpace(s[1..]);
      GluedEmpty(s);
      if WithoutLF(s) == [] {
        assert s[0..] == s;
      }
    } else {
      GluedPrefix(s[1..]);
      GluedNonSpace(s[1..]);
      assert s == [s[0]] + s[1..];
      var g := WithoutLF(s);
      assert g[1..] == WithoutLF(s[1..]);
      PrefixOfTails(s, g);
      PrefixOfTails(g, s);
      SingleLineTail(s);
    }
  }

  lemma SingleLineTail(s: seq<Byte>)
    requires s != [] && s[0] != LF
    ensures SingleLine(s) <==> SingleLine(s[1..])
  {
  }

  lemma {:induction false} GluedEmpty(s: seq<Byte>)
    ensures WithoutLF(s) == [] <==> forall i :: 0 <= i < |s| ==> s[i] == LF
  {
    if s != [] {
      GluedEmpty(s[1..]);
      assert forall i :: 1 <= i < |s| ==> s[i] == s[1..][i - 1];
    }
  }
}
