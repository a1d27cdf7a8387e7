// The order of #include lines: _IncludeState.CheckNextIncludeOrder in bin/cpplint.py.

module IncludeOrder {
  import opened Wrappers

  datatype Header = CSys | CppSys | LikelyMy | PossibleMy | Other

  const INITIAL_SECTION := 0
  const MY_H_SECTION := 1
  const C_SECTION := 2
  const CPP_SECTION := 3
  const OTHER_H_SECTION := 4

  // "Found (header) after (section)."
  datatype Complaint = Complaint(header: Header, section: nat)

  predicate Own(h: Header) {
    h == LikelyMy || h == PossibleMy
  }

  // ---------- the headers since the last reset decide ----------

  // One of the headers was of another kind, or an own header that came too late.
  ghost predicate Late(headers: seq<Header>) {
    exists i :: 0 <= i < |headers| && LateAt(headers, i)
  }

  ghost predicate LateAt(headers: seq<Header>, i: nat)
    requires i < |headers|
  {
    headers[i] == Other || (Own(headers[i]) && exists j :: 0 <= j < i && !Own(headers[j]))
  }

  ghost predicate OutOfOrder(headers: seq<Header>, next: Header) {
    match next
    case CSys => CppSys in headers || Late(headers)
    case CppSys => Late(headers)
    case _ => false
  }

  ghost function SectionAfter(headers: seq<Header>): nat {
    if Late(headers) then OTHER_H_SECTION
    else if CppSys in headers then CPP_SECTION
    else if CSys in headers then C_SECTION
    else if headers != [] then MY_H_SECTION
    else INITIAL_SECTION
  }

  lemma LateSnoc(headers: seq<Header>, next: Header)
    ensures Late(headers + [next]) <==> Late(headers) || next == Other || (Own(next) && exists j :: 0 <= j < |headers| && !Own(headers[j]))
  {
    var all := headers + [next];
    forall i | 0 <= i < |headers|
      ensures LateAt(all, i) <==> LateAt(headers, i)
    {
      assert forall j :: 0 <= j < i ==> all[j] == headers[j];
    }
    assert LateAt(all, |headers|) <==> next == Other || (Own(next) && exists j :: 0 <= j < |headers| && !Own(headers[j])) by {
      assert forall j :: 0 <= j < |headers| ==> all[j] == headers[j];
    }
    if Late(headers) {
      var i :| 0 <= i < |headers| && LateAt(headers, i);
      assert LateAt(all, i);
    }
  }

  // A header that is not an own one and not late is a system header.
  lemma SystemHeaders(headers: seq<Header>)
    requires !Late(headers)
    ensures (exists j :: 0 <= j < |headers| && !Own(headers[j])) <==> CSys in headers || CppSys in headers
  {
    forall j | 0 <= j < |headers|
      ensures headers[j] != Other
    {
      assert !LateAt(headers, j);
    }
    if j :| 0 <= j < |headers| && !Own(headers[j]) {
      assert headers[j] == CSys || headers[j] == CppSys;
    }
  }

  // What one header does to the section, whatever came before it.
  lemma SectionStep(headers: seq<Header>, next: Header)
    ensures
      var old', new' := SectionAfter(headers), SectionAfter(headers + [next]);
      && old' <= new'
      && (OutOfOrder(headers, next) ==> new' == old')
      && (next == CSys ==> (OutOfOrder(headers, next) <==> old' > C_SECTION) && (old' <= C_SECTION ==> new' == C_SECTION))
      && (next == CppSys ==> (OutOfOrder(headers, next) <==> old' > CPP_SECTION) && (old' <= CPP_SECTION ==> new' == CPP_SECTION))
      && (Own(next) ==> new' == if old' <= MY_H_SECTION then MY_H_SECTION else OTHER_H_SECTION)
      && (next == Other ==> new' == OTHER_H_SECTION)
  {
    LateSnoc(headers, next);
    if !Late(headers) {
      SystemHeaders(headers);
    }
    assert next in headers + [next];
    assert forall h :: h in headers + [next] <==> h in headers || h == next;
  }

  class IncludeState {
    var section: nat
    var lastHeader: string
    ghost var headers: seq<Header>  // since the last reset

    ghost predicate Valid()
      reads this
    {
      section == SectionAfter(headers)
    }

    constructor ()
      ensures Valid() && headers == [] && lastHeader == ""
    {
      section := INITIAL_SECTION;
      lastHeader := "";
      headers := [];
    }

    method ResetSection()
      modifies this
      ensures Valid() && headers == [] && lastHeader == ""
    {
      section := INITIAL_SECTION;
      lastHeader := "";
      headers := [];
    }

    method CheckNextIncludeOrder(next: Header) returns (error: Option<Complaint>)
      requires Valid()
      modifies this
      ensures Valid() && headers == old(headers) + [next]
      ensures error == if OutOfOrder(old(headers), next) then Some(Complaint(next, old(section))) else None
      ensures old(section) <= section
      ensures error.Some? ==> section == old(section)
      ensures lastHeader == if error.Some? || section != old(section) then "" else old(lastHeader)
    {
      SectionStep(headers, next);
      headers := headers + [next];
      var complaint := Complaint(next, section);
      var lastSection := section;
      match next {
        case CSys =>
          if section <= C_SECTION {
            section := C_SECTION;
          } else {
            lastHeader := "";
            return Some(complaint);
          }
        case CppSys =>
          if section <= CPP_SECTION {
            section := CPP_SECTION;
          } else {
            lastHeader := "";
            return Some(complaint);
          }
        case LikelyMy =>
          if section <= MY_H_SECTION {
            section := MY_H_SECTION;
          } else {
            section := OTHER_H_SECTION;
          }
        case PossibleMy =>
          if section <= MY_H_SECTION {
            section := MY_H_SECTION;
          } else {
            section := OTHER_H_SECTION;
          }
        case Other =>
          section := OTHER_H_SECTION;
      }
      if lastSection != section {
        lastHeader := "";
      }
      return None;
    }
  }
}
