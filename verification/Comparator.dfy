// The output comparator: oj_compare_output in src/judge.cpp.
//
// Two streams are read one byte at a time.  A mismatch that involves white space is
// forgiven (with verdict PE) by skipping the white space, which needs one byte of push-back.

module Comparator {

  type Byte = b: int | 0 <= b < 256

  const EOF: int := -1
  const TAB: Byte := 9
  const LF: Byte := 10
  const CR: Byte := 13
  const SPACE: Byte := 32

  datatype Verdict = AC | PE | WA

  // The macro is_space_char of src/misc.h.
  predicate IsSpace(c: int) {
    c == SPACE || c == TAB || c == LF
  }

  // ---------- what the verdict means ----------

  function DropCR(s: seq<Byte>): seq<Byte> {
    if s == [] then []
    else if s[0] == CR then DropCR(s[1..])
    else [s[0]] + DropCR(s[1..])
  }

  function NonSpace(s: seq<Byte>): seq<Byte> {
    if s == [] then []
    else if IsSpace(s[0]) then NonSpace(s[1..])
    else [s[0]] + NonSpace(s[1..])
  }

  predicate AllSpace(s: seq<Byte>) {
    forall i :: 0 <= i < |s| ==> IsSpace(s[i])
  }

  // One text is the other followed only by white space.
  predicate SameUpToTail(s: seq<Byte>, t: seq<Byte>) {
    || (s <= t && AllSpace(t[|s|..]))
    || (t <= s && AllSpace(s[|t|..]))
  }

  // The verdict on two texts without carriage returns.
  function Judgement(s: seq<Byte>, t: seq<Byte>): Verdict {
    if NonSpace(s) != NonSpace(t) then WA
    else if SameUpToTail(s, t) then AC
    else PE
  }

  // The verdict on two files.
  function Compare(expected: seq<Byte>, actual: seq<Byte>): Verdict {
    Judgement(DropCR(expected), DropCR(actual))
  }

  // The verdict once `status` has been recorded and `s` and `t` are still unread.
  ghost function Outlook(status: Verdict, s: seq<Byte>, t: seq<Byte>): Verdict {
    if status == PE && Judgement(s, t) == AC then PE else Judgement(s, t)
  }

  // ---------- a stdio stream opened for reading ----------

  class Stream {
    const data: seq<Byte>
    var pos: nat
    var eof: bool

    constructor (data: seq<Byte>)
      ensures this.data == data && pos == 0 && !eof
    {
      this.data := data;
      pos := 0;
      eof := false;
    }

    ghost predicate Valid()
      reads this
    {
      pos <= |data| && (eof ==> pos == |data|)
    }

    // The bytes not read yet.
    ghost function Rest(): seq<Byte>
      reads this
      requires Valid()
    {
      data[pos..]
    }

    method Getc() returns (c: int)
      requires Valid()
      modifies this
      ensures Valid()
      ensures old(pos) == |data| ==> c == EOF && eof && pos == old(pos)
      ensures old(pos) < |data| ==> c == data[old(pos)] && pos == old(pos) + 1 && eof == old(eof)
    {
      if pos < |data| {
        c := data[pos];
        pos := pos + 1;
      } else {
        c := EOF;
        eof := true;
      }
    }

    // Push back the byte that was read last.
    method Ungetc(c: int)
      requires Valid()
      requires 0 < pos && data[pos - 1] == c
      modifies this
      ensures Valid()
      ensures pos == old(pos) - 1 && !eof
      ensures c != CR ==> DropCR(Rest()) == [data[pos]] + DropCR(old(Rest()))
    {
      pos := pos - 1;
      eof := false;
      assert Rest()[1..] == old(Rest());
    }

    // The loop that reads past carriage returns.
    method GetcSkippingCR() returns (c: int)
      requires Valid() && !eof
      modifies this
      ensures Valid() && old(pos) <= pos
      ensures c == EOF <==> DropCR(old(Rest())) == []
      ensures c == EOF <==> eof
      ensures c == EOF ==> pos == |data|
      ensures c != EOF ==>
        && old(pos) < pos && data[pos - 1] == c && c != CR
        && DropCR(old(Rest())) == [data[pos - 1]] + DropCR(Rest())
    {
      c := Getc();
      while c == CR
        invariant Valid()
        invariant old(pos) <= pos
        invariant c == EOF ==> eof && pos == |data| && DropCR(old(Rest())) == []
        invariant c != EOF ==> old(pos) < pos && !eof && data[pos - 1] == c
        invariant c == CR ==> DropCR(old(Rest())) == DropCR(Rest())
        invariant c != EOF && c != CR ==> DropCR(old(Rest())) == [data[pos - 1]] + DropCR(Rest())
        decreases |data| - pos, c == CR
      {
        ghost var before := Rest();
        c := Getc();
        assert c != EOF ==> before[1..] == Rest();
      }
    }
  }

  // ---------- the comparator ----------

  method OjCompareOutput(std: Stream, exe: Stream) returns (status: Verdict)
    requires std != exe
    requires std.Valid() && exe.Valid() && std.pos == exe.pos == 0 && !std.eof && !exe.eof
    modifies std, exe
    ensures status == Compare(std.data, exe.data)
  {
    hide Outlook, DropCR;
    status := AC;
    ghost var verdict := Compare(std.data, exe.data);
    FromTheStart(std.data, exe.data);
    assert std.Rest() == std.data && exe.Rest() == exe.data;
    while true
      invariant std.Valid() && exe.Valid() && !std.eof && !exe.eof
      invariant status != WA
      invariant Outlook(status, DropCR(std.Rest()), DropCR(exe.Rest())) == verdict
      decreases |std.data| - std.pos + |exe.data| - exe.pos
    {
      ghost var s, t := DropCR(std.Rest()), DropCR(exe.Rest());
      var a := std.GetcSkippingCR();
      var b := exe.GetcSkippingCR();

      if std.eof && exe.eof {
        BothEnded(status);
        break;
      } else if std.eof || exe.eof {
        OneSideEnded(status, if std.eof then t else s);
        if std.eof {
          status := ReadTail(exe, b, status);
        } else {
          status := ReadTail(std, a, status);
        }
        break;
      }

      assert s == [a] + DropCR(std.Rest()) && t == [b] + DropCR(exe.Rest());
      BothRead(status, s, t);
      if a != b {
        status := PE;
        if IsSpace(a) && IsSpace(b) {
          continue;
        }
        if IsSpace(a) {
          exe.Ungetc(b);
        } else if IsSpace(b) {
          std.Ungetc(a);
        } else {
          status := WA;
          break;
        }
      }
    }
  }

  // One output has ended; what is left of the other one, from its byte `first` on, may only be
  // white space.
  method ReadTail(tmp: Stream, first: int, before: Verdict) returns (status: Verdict)
    requires tmp.Valid()
    modifies tmp
    ensures status == if IsSpace(first) && AllSpace(DropCR(old(tmp.Rest()))) then before else WA
  {
    status := before;
    if !IsSpace(first) {
      status := WA;
      return;
    }
    ghost var tail := tmp.Rest();
    DropCRSpaces(tail);
    var c := tmp.Getc();
    BlankHead(tail);
    assert c != EOF ==> tail[1..] == tmp.Rest();
    while c != EOF
      invariant tmp.Valid() && status == before
      invariant c == EOF ==> AllBlank(tail)
      invariant c != EOF ==> (AllBlank(tail) <==> (c == CR || IsSpace(c)) && AllBlank(tmp.Rest()))
      decreases |tmp.data| - tmp.pos, c != EOF
    {
      ghost var unread := tmp.Rest();
      if c == CR {
        c := LF;
      }
      if !IsSpace(c) {
        status := WA;
        break;
      }
      BlankHead(unread);
      c := tmp.Getc();
      assert c != EOF ==> unread[1..] == tmp.Rest();
    }
  }

  lemma BlankHead(s: seq<Byte>)
    ensures AllBlank(s) <==> s == [] || (BlankByte(s[0]) && AllBlank(s[1..]))
  {
  }

  predicate AllBlank(s: seq<Byte>) {
    forall i :: 0 <= i < |s| ==> BlankByte(s[i])
  }

  predicate BlankByte(b: Byte) {
    b == CR || IsSpace(b)
  }

  // ---------- steps of the loop ----------

  lemma {:induction false} NonSpaceEmpty(s: seq<Byte>)
    ensures NonSpace(s) == [] <==> AllSpace(s)
  {
    if s != [] {
      NonSpaceEmpty(s[1..]);
      assert forall i :: 1 <= i < |s| ==> s[i] == s[1..][i - 1];
    }
  }

  lemma {:induction false} DropCRSpaces(s: seq<Byte>)
    ensures AllSpace(DropCR(s)) <==> AllBlank(s)
  {
    if s != [] {
      DropCRSpaces(s[1..]);
      assert forall i :: 1 <= i < |s| ==> s[i] == s[1..][i - 1];
      if s[0] != CR {
        assert DropCR(s)[0] == s[0] && DropCR(s)[1..] == DropCR(s[1..]);
        assert forall i :: 1 <= i < |DropCR(s)| ==> DropCR(s)[i] == DropCR(s[1..])[i - 1];
      }
    }
  }

  lemma FromTheStart(expected: seq<Byte>, actual: seq<Byte>)
    ensures Outlook(AC, DropCR(expected), DropCR(actual)) == Compare(expected, actual)
  {
  }

  lemma BothEnded(status: Verdict)
    requires status != WA
    ensures Outlook(status, [], []) == status
  {
  }

  // One text ended while `s` was still unread in the other.
  lemma OneSideEnded(status: Verdict, s: seq<Byte>)
    requires status != WA && s != []
    ensures Outlook(status, [], s) == Outlook(status, s, []) == if IsSpace(s[0]) && AllSpace(s[1..]) then status else WA
  {
    hide AllSpace;
    NonSpaceEmpty(s[1..]);
    if NonSpace(s) == [] {
      NonSpaceEmpty(s);
      assert s[0..] == s;
      assert SameUpToTail([], s) && SameUpToTail(s, []);
    }
  }

  lemma SameHead(s: seq<Byte>, t: seq<Byte>)
    requires s != [] && t != [] && s[0] == t[0]
    ensures Judgement(s, t) == Judgement(s[1..], t[1..])
  {
    PrefixOfTails(s, t);
    PrefixOfTails(t, s);
    assert [s[0]] + NonSpace(s[1..]) == [s[0]] + NonSpace(t[1..]) ==> NonSpace(s[1..]) == NonSpace(t[1..]) by {
      assert ([s[0]] + NonSpace(s[1..]))[1..] == NonSpace(s[1..]);
      assert ([s[0]] + NonSpace(t[1..]))[1..] == NonSpace(t[1..]);
    }
  }

  lemma PrefixOfTails(s: seq<Byte>, t: seq<Byte>)
    requires s != [] && t != [] && s[0] == t[0]
    ensures s <= t <==> s[1..] <= t[1..]
    ensures s <= t ==> t[|s|..] == t[1..][|s[1..]|..]
  {
  }

  // What reading one byte of each text does to the verdict.
  lemma BothRead(status: Verdict, s: seq<Byte>, t: seq<Byte>)
    requires status != WA && s != [] && t != []
    ensures s[0] == t[0] ==> Outlook(status, s, t) == Outlook(status, s[1..], t[1..])
    ensures s[0] != t[0] && IsSpace(s[0]) && IsSpace(t[0]) ==> Outlook(status, s, t) == Outlook(PE, s[1..], t[1..])
    ensures s[0] != t[0] && IsSpace(s[0]) && !IsSpace(t[0]) ==> Outlook(status, s, t) == Outlook(PE, s[1..], t)
    ensures s[0] != t[0] && !IsSpace(s[0]) && IsSpace(t[0]) ==> Outlook(status, s, t) == Outlook(PE, s, t[1..])
    ensures s[0] != t[0] && !IsSpace(s[0]) && !IsSpace(t[0]) ==> Outlook(status, s, t) == WA
  {
    if s[0] == t[0] {
      SameHead(s, t);
    } else {
      MismatchIsNotAC(s, t);
    }
  }

  lemma MismatchIsNotAC(s: seq<Byte>, t: seq<Byte>)
    requires s != [] && t != [] && s[0] != t[0]
    ensures Judgement(s, t) != AC
    ensures !IsSpace(s[0]) && !IsSpace(t[0]) ==> Judgement(s, t) == WA
  {
  }
}
