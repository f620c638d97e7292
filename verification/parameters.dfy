/**
 Parameter lists of RTPS (section 9.4.2.11 of DDSI-RTPS 2.3): the discovery walk that
 hands out every parameter, and the inline-QoS walks that skip a list or look for
 a disposal in it. `EncodeList` is an independent writer of such lists.
 */
module ParameterLists {
  import opened Basics

  const PID_SENTINEL: U16 := 0x0001
  const PID_STATUS_INFO: U16 := 0x0071

  datatype Parameter = Parameter(id: U16, value: seq<Byte>)

  /** What the consumer of the discovery walk does with a parameter: true to go on. */
  type Consumer = (U16, seq<Byte>) -> bool

  function Padded(length: nat): nat {
    (length + 3) / 4 * 4
  }

  function IdAt(b: seq<Byte>, at: nat, littleEndian: bool): U16
    requires at + 4 <= |b|
  {
    ReadU16(b[at], b[at + 1], littleEndian)
  }

  function LengthAt(b: seq<Byte>, at: nat, littleEndian: bool): U16
    requires at + 4 <= |b|
  {
    ReadU16(b[at + 2], b[at + 3], littleEndian)
  }

  // ---------- The three walks ----------

  /** The parameters handed out from an offset on, and whether the walk ended well. */
  function Visit(b: seq<Byte>, at: nat, littleEndian: bool, accept: Consumer): (seq<Parameter>, bool)
    decreases |b| - at
  {
    if at + 4 > |b| || IdAt(b, at, littleEndian) == PID_SENTINEL then ([], true)
    else
      var id, length := IdAt(b, at, littleEndian), LengthAt(b, at, littleEndian);
      if at + 4 + length > |b| then ([], false)
      else
        var value := b[at + 4..at + 4 + length];
        if !accept(id, value) then ([Parameter(id, value)], false)
        else
          var (rest, ok) := Visit(b, at + 4 + Padded(length), littleEndian, accept);
          ([Parameter(id, value)] + rest, ok)
  }

  /** The offset after a value, rounded up to four from the start of the submessage. */
  function AfterValue(b: seq<Byte>, at: nat, length: nat): Option<nat> {
    if Padded(at + length) <= |b| then Some(Padded(at + length)) else None
  }

  /** The offset after the sentinel of the list at an offset. */
  function Skip(b: seq<Byte>, at: nat, littleEndian: bool): Option<nat>
    decreases |b| - at
  {
    if at + 4 > |b| then None
    else if IdAt(b, at, littleEndian) == PID_SENTINEL then Some(at + 4)
    else
      match AfterValue(b, at + 4, LengthAt(b, at, littleEndian))
      case None => None
      case Some(next) => Skip(b, next, littleEndian)
  }

  /** The two low bits of the status word: disposed or unregistered. */
  function StatusBits(word: seq<Byte>, littleEndian: bool): nat
    requires |word| == 4
  {
    (if littleEndian then word[0] else word[3]) % 4
  }

  function Disposal(b: seq<Byte>, at: nat, littleEndian: bool): bool
    decreases |b| - at
  {
    if at + 4 > |b| || IdAt(b, at, littleEndian) == PID_SENTINEL then false
    else
      var id, length := IdAt(b, at, littleEndian), LengthAt(b, at, littleEndian);
      if id == PID_STATUS_INFO && length >= 4 && at + 8 <= |b|
          && StatusBits(b[at + 4..at + 8], littleEndian) != 0 then true
      else
        match AfterValue(b, at + 4, length)
        case None => false
        case Some(next) => Disposal(b, next, littleEndian)
  }

  // ---------- Writing ----------

  function U16Bytes(n: U16, littleEndian: bool): (b: seq<Byte>)
    ensures |b| == 2 && ReadU16(b[0], b[1], littleEndian) == n
  {
    if littleEndian then [n % 0x100, n / 0x100] else [n / 0x100, n % 0x100]
  }

  function Padding(length: nat): (z: seq<Byte>)
    ensures |z| == Padded(length) - length
  {
    seq(Padded(length) - length, _ => 0)
  }

  predicate Encodable(p: Parameter) {
    p.id != PID_SENTINEL && |p.value| < 0x1_0000
  }

  function EncodeParameter(p: Parameter, littleEndian: bool): (b: seq<Byte>)
    requires Encodable(p)
    ensures |b| == 4 + Padded(|p.value|)
  {
    U16Bytes(p.id, littleEndian) + U16Bytes(|p.value|, littleEndian) + p.value + Padding(|p.value|)
  }

  function Sentinel(littleEndian: bool): (b: seq<Byte>)
    ensures |b| == 4 && IdAt(b, 0, littleEndian) == PID_SENTINEL
  {
    U16Bytes(PID_SENTINEL, littleEndian) + [0, 0]
  }

  function EncodeList(ps: seq<Parameter>, littleEndian: bool): (b: seq<Byte>)
    requires forall i :: 0 <= i < |ps| ==> Encodable(ps[i])
    ensures |b| >= 4 && |b| % 4 == 0
  {
    if ps == [] then Sentinel(littleEndian)
    else EncodeParameter(ps[0], littleEndian) + EncodeList(ps[1..], littleEndian)
  }

  // ---------- Reading what was written ----------

  lemma ParameterShape(p: Parameter, littleEndian: bool)
    requires Encodable(p)
    ensures var b := EncodeParameter(p, littleEndian);
            && IdAt(b, 0, littleEndian) == p.id && LengthAt(b, 0, littleEndian) == |p.value|
            && b[4..4 + |p.value|] == p.value
  {
    hide ReadU16;
    var b := EncodeParameter(p, littleEndian);
    var id, length := U16Bytes(p.id, littleEndian), U16Bytes(|p.value|, littleEndian);
    assert b[0] == id[0] && b[1] == id[1] && b[2] == length[0] && b[3] == length[1];
  }

  /** The header and value of a parameter stand at an offset. */
  ghost predicate StandsAt(b: seq<Byte>, at: nat, p: Parameter, littleEndian: bool) {
    && p.id != PID_SENTINEL
    && at + 4 + Padded(|p.value|) <= |b| && |p.value| <= Padded(|p.value|)
    && IdAt(b, at, littleEndian) == p.id && LengthAt(b, at, littleEndian) == |p.value|
    && b[at + 4..at + 4 + |p.value|] == p.value
  }

  lemma ReadsParameter(before: seq<Byte>, p: Parameter, after: seq<Byte>, littleEndian: bool)
    requires Encodable(p)
    ensures var b := before + (EncodeParameter(p, littleEndian) + after);
            StandsAt(b, |before|, p, littleEndian) && b == (before + EncodeParameter(p, littleEndian)) + after
  {
    ParameterShape(p, littleEndian);
    var e := EncodeParameter(p, littleEndian);
    var b := before + (e + after);
    assert forall i :: 0 <= i < |e| ==> b[|before| + i] == e[i];
    assert b[|before| + 4..|before| + 4 + |p.value|] == e[4..4 + |p.value|];
    PaddedAtLeast(|p.value|);
    hide ReadU16, EncodeParameter;
  }

  lemma VisitStep(b: seq<Byte>, at: nat, p: Parameter, littleEndian: bool, accept: Consumer)
    requires StandsAt(b, at, p, littleEndian) && accept(p.id, p.value)
    ensures var rest := Visit(b, at + 4 + Padded(|p.value|), littleEndian, accept);
            Visit(b, at, littleEndian, accept) == ([p] + rest.0, rest.1)
  {
    hide IdAt, LengthAt, Padded;
  }

  lemma SkipStep(b: seq<Byte>, at: nat, p: Parameter, littleEndian: bool)
    requires StandsAt(b, at, p, littleEndian)
    ensures var next := Padded(at + 4 + |p.value|);
            Skip(b, at, littleEndian) == if next <= |b| then Skip(b, next, littleEndian) else None
  {
    hide IdAt, LengthAt, Padded;
  }

  lemma DisposalStep(b: seq<Byte>, at: nat, p: Parameter, littleEndian: bool)
    requires StandsAt(b, at, p, littleEndian)
    ensures var next := Padded(at + 4 + |p.value|);
            Disposal(b, at, littleEndian) <==>
            SaysDisposed(p, littleEndian) || (next <= |b| && Disposal(b, next, littleEndian))
  {
    hide IdAt, LengthAt, Padded, StatusBits;
    assert |p.value| >= 4 ==> b[at + 4..at + 8] == b[at + 4..at + 4 + |p.value|][..4];
  }

  lemma ReadsSentinel(before: seq<Byte>, after: seq<Byte>, littleEndian: bool)
    ensures var b := before + (Sentinel(littleEndian) + after);
            |before| + 4 <= |b| && IdAt(b, |before|, littleEndian) == PID_SENTINEL
  {
    var b := before + (Sentinel(littleEndian) + after);
    assert b[|before|] == Sentinel(littleEndian)[0] && b[|before| + 1] == Sentinel(littleEndian)[1];
  }

  /** All three walks at an empty list. */
  lemma EmptyList(before: seq<Byte>, after: seq<Byte>, littleEndian: bool, accept: Consumer)
    ensures var list := EncodeList([], littleEndian);
            var b := before + (list + after);
            && |list| == 4
            && Visit(b, |before|, littleEndian, accept) == ([], true)
            && Skip(b, |before|, littleEndian) == Some(|before| + 4)
            && !Disposal(b, |before|, littleEndian)
  {
    hide IdAt, Sentinel;
    ReadsSentinel(before, after, littleEndian);
  }

  /** An encoded list begins with its first parameter. */
  lemma ListAssociates(ps: seq<Parameter>, after: seq<Byte>, littleEndian: bool)
    requires ps != [] && forall i :: 0 <= i < |ps| ==> Encodable(ps[i])
    ensures EncodeList(ps, littleEndian) + after ==
            EncodeParameter(ps[0], littleEndian) + (EncodeList(ps[1..], littleEndian) + after)
    ensures |EncodeList(ps, littleEndian)| ==
            |EncodeParameter(ps[0], littleEndian)| + |EncodeList(ps[1..], littleEndian)|
  {
    hide EncodeParameter, Padded;
    var first, rest := EncodeParameter(ps[0], littleEndian), EncodeList(ps[1..], littleEndian);
    assert EncodeList(ps, littleEndian) == first + rest;
    Associates(first, rest, after);
  }

  lemma Associates(a: seq<Byte>, b: seq<Byte>, c: seq<Byte>)
    ensures (a + b) + c == a + (b + c)
  {
  }

  /** The walk of discovery hands out an encoded list, whatever stands before and after it. */
  lemma {:induction false} VisitsExactly(before: seq<Byte>, ps: seq<Parameter>, after: seq<Byte>, littleEndian: bool,
                                         accept: Consumer)
    requires forall i :: 0 <= i < |ps| ==> Encodable(ps[i]) && accept(ps[i].id, ps[i].value)
    ensures Visit(before + (EncodeList(ps, littleEndian) + after), |before|, littleEndian, accept) == (ps, true)
    decreases |ps|
  {
    hide IdAt, LengthAt, EncodeParameter, StandsAt, Visit, EncodeList, Padded;
    if ps == [] {
      EmptyList(before, after, littleEndian, accept);
    } else {
      var p := ps[0];
      var next := before + EncodeParameter(p, littleEndian);
      ListAssociates(ps, after, littleEndian);
      ReadsParameter(before, p, EncodeList(ps[1..], littleEndian) + after, littleEndian);
      VisitStep(before + (EncodeList(ps, littleEndian) + after), |before|, p, littleEndian, accept);
      VisitsExactly(next, ps[1..], after, littleEndian, accept);
      assert [p] + ps[1..] == ps;
    }
  }

  lemma PaddedAtLeast(length: nat)
    ensures length <= Padded(length) < length + 4 && Padded(length) % 4 == 0
  {
  }

  /**
   Rounding from the start of the submessage or of the value is the same where the value is aligned,
   and only there.
  */
  lemma PaddedFrom(at: nat, length: nat)
    ensures at % 4 == 0 ==> Padded(at + length) == at + Padded(length)
    ensures Padded(at + length) % 4 == 0 && Padded(at + length) >= at + length
  {
  }

  lemma {:induction false} SkipsAligned(before: seq<Byte>, ps: seq<Parameter>, after: seq<Byte>, littleEndian: bool)
    requires forall i :: 0 <= i < |ps| ==> Encodable(ps[i])
    requires |before| % 4 == 0 || ps == []
    ensures Skip(before + (EncodeList(ps, littleEndian) + after), |before|, littleEndian) ==
            Some(|before| + |EncodeList(ps, littleEndian)|)
    decreases |ps|
  {
    hide IdAt, LengthAt, EncodeParameter, StandsAt, Skip, Padded, EncodeList;
    if ps == [] {
      EmptyList(before, after, littleEndian, (_, _) => true);
    } else {
      var p := ps[0];
      var next := before + EncodeParameter(p, littleEndian);
      ListAssociates(ps, after, littleEndian);
      ReadsParameter(before, p, EncodeList(ps[1..], littleEndian) + after, littleEndian);
      SkipStep(before + (EncodeList(ps, littleEndian) + after), |before|, p, littleEndian);
      PaddedFrom(|before| + 4, |p.value|);
      PaddedAtLeast(|p.value|);
      SkipsAligned(next, ps[1..], after, littleEndian);
    }
  }

  /** From an aligned offset on, every offset the skip returns is aligned. */
  lemma {:induction false} SkipAligned(b: seq<Byte>, at: nat, littleEndian: bool)
    requires at % 4 == 0
    ensures Skip(b, at, littleEndian).Some? ==> Skip(b, at, littleEndian).value % 4 == 0
    decreases |b| - at
  {
    hide IdAt, LengthAt;
    if at + 4 <= |b| && IdAt(b, at, littleEndian) != PID_SENTINEL {
      var next := AfterValue(b, at + 4, LengthAt(b, at, littleEndian));
      if next.Some? {
        SkipAligned(b, next.value, littleEndian);
      }
    }
  }

  /** The skip ends just past the sentinel exactly when the list is aligned or empty. */
  lemma SkipExact(before: seq<Byte>, ps: seq<Parameter>, after: seq<Byte>, littleEndian: bool)
    requires forall i :: 0 <= i < |ps| ==> Encodable(ps[i])
    ensures Skip(before + (EncodeList(ps, littleEndian) + after), |before|, littleEndian) ==
            Some(|before| + |EncodeList(ps, littleEndian)|)
            <==> |before| % 4 == 0 || ps == []
  {
    hide IdAt, LengthAt, EncodeParameter, StandsAt, Skip, EncodeList, Padded, Encodable;
    if |before| % 4 == 0 || ps == [] {
      SkipsAligned(before, ps, after, littleEndian);
    } else {
      var p := ps[0];
      var b := before + (EncodeList(ps, littleEndian) + after);
      ListAssociates(ps, after, littleEndian);
      ReadsParameter(before, p, EncodeList(ps[1..], littleEndian) + after, littleEndian);
      SkipStep(b, |before|, p, littleEndian);
      PaddedFrom(|before| + 4, |p.value|);
      SkipAligned(b, Padded(|before| + 4 + |p.value|), littleEndian);
    }
  }

  /** A parameter that says that the instance is disposed of or unregistered. */
  predicate SaysDisposed(p: Parameter, littleEndian: bool) {
    p.id == PID_STATUS_INFO && |p.value| >= 4 && StatusBits(p.value[..4], littleEndian) != 0
  }

  /** A 32-bit word in the byte order of the submessage. */
  function U32Bytes(n: U32, littleEndian: bool): (b: seq<Byte>)
    ensures |b| == 4
  {
    var parts := [n % 0x100, n / 0x100 % 0x100, n / 0x1_0000 % 0x100, n / 0x100_0000];
    if littleEndian then parts else [parts[3], parts[2], parts[1], parts[0]]
  }

  /**
   A status parameter says so exactly when one of the two lowest bits of the word that
   was written, disposed and unregistered, is set; no other parameter does.
   */
  lemma StatusWordSays(word: U32, more: seq<Byte>, littleEndian: bool)
    ensures SaysDisposed(Parameter(0x0071, U32Bytes(word, littleEndian) + more), littleEndian) <==> word % 4 != 0
    ensures forall p: Parameter :: p.id != 0x0071 || |p.value| < 4 ==> !SaysDisposed(p, littleEndian)
  {
    var b := U32Bytes(word, littleEndian);
    assert (b + more)[..4] == b;
    assert word % 0x100 % 4 == word % 4;
  }

  /** In an aligned list, a disposal is reported exactly when some parameter says so. */
  lemma {:induction false} DisposalExact(before: seq<Byte>, ps: seq<Parameter>, after: seq<Byte>, littleEndian: bool)
    requires forall i :: 0 <= i < |ps| ==> Encodable(ps[i])
    requires |before| % 4 == 0
    ensures Disposal(before + (EncodeList(ps, littleEndian) + after), |before|, littleEndian) <==>
            exists i :: 0 <= i < |ps| && SaysDisposed(ps[i], littleEndian)
    decreases |ps|
  {
    hide IdAt, LengthAt, EncodeParameter, StandsAt, Disposal, Padded, SaysDisposed, EncodeList;
    if ps == [] {
      EmptyList(before, after, littleEndian, (_, _) => true);
    } else {
      var p := ps[0];
      var next := before + EncodeParameter(p, littleEndian);
      ListAssociates(ps, after, littleEndian);
      ReadsParameter(before, p, EncodeList(ps[1..], littleEndian) + after, littleEndian);
      DisposalStep(before + (EncodeList(ps, littleEndian) + after), |before|, p, littleEndian);
      PaddedFrom(|before| + 4, |p.value|);
      PaddedAtLeast(|p.value|);
      DisposalExact(next, ps[1..], after, littleEndian);
      SomeInTail(ps, littleEndian);
    }
  }

  lemma SomeInTail(ps: seq<Parameter>, littleEndian: bool)
    requires ps != []
    ensures (exists i :: 0 <= i < |ps| && SaysDisposed(ps[i], littleEndian)) <==>
            SaysDisposed(ps[0], littleEndian) ||
            exists i :: 0 <= i < |ps[1..]| && SaysDisposed(ps[1..][i], littleEndian)
  {
    if i :| 0 <= i < |ps| && SaysDisposed(ps[i], littleEndian) {
      if i > 0 {
        assert ps[1..][i - 1] == ps[i];
      }
    }
  }

  // ---------- The loops ----------

  method IterParameters(payload: seq<Byte>, littleEndian: bool, accept: Consumer)
    returns (visited: seq<Parameter>, ok: bool)
    ensures (visited, ok) == Visit(payload, 4, littleEndian, accept)
  {
    hide IdAt, LengthAt, Visit, Padded;
    visited, ok := [], true;
    var at := 4;
    assert [] + Visit(payload, 4, littleEndian, accept).0 == Visit(payload, 4, littleEndian, accept).0;
    while at + 4 <= |payload|
      invariant ok && Continues(payload, at, littleEndian, accept, visited)
      decreases |payload| - at
    {
      var id, length := IdAt(payload, at, littleEndian), LengthAt(payload, at, littleEndian);
      VisitOne(payload, at, littleEndian, accept, visited);
      if id == PID_SENTINEL {
        return;
      }
      if at + 4 + length > |payload| {
        return visited, false;
      }
      var value := payload[at + 4..at + 4 + length];
      visited := visited + [Parameter(id, value)];
      if !accept(id, value) {
        return visited, false;
      }
      PaddedAtLeast(length);
      at := at + 4 + Padded(length);
    }
    VisitNone(payload, at, littleEndian, accept, visited);
  }

  /** What was visited is what the whole walk visits before this offset. */
  ghost predicate Continues(b: seq<Byte>, at: nat, littleEndian: bool, accept: Consumer, visited: seq<Parameter>) {
    Visit(b, 4, littleEndian, accept) == (visited + Visit(b, at, littleEndian, accept).0,
                                          Visit(b, at, littleEndian, accept).1)
  }

  lemma VisitNone(b: seq<Byte>, at: nat, littleEndian: bool, accept: Consumer, visited: seq<Parameter>)
    requires Continues(b, at, littleEndian, accept, visited) && at + 4 > |b|
    ensures Visit(b, 4, littleEndian, accept) == (visited, true)
  {
    assert visited + [] == visited;
    hide IdAt, LengthAt;
  }

  lemma VisitOne(b: seq<Byte>, at: nat, littleEndian: bool, accept: Consumer, visited: seq<Parameter>)
    requires Continues(b, at, littleEndian, accept, visited) && at + 4 <= |b|
    ensures var id, length := IdAt(b, at, littleEndian), LengthAt(b, at, littleEndian);
            if id == PID_SENTINEL then Visit(b, 4, littleEndian, accept) == (visited, true)
            else if at + 4 + length > |b| then Visit(b, 4, littleEndian, accept) == (visited, false)
            else
              var longer := visited + [Parameter(id, b[at + 4..at + 4 + length])];
              if !accept(id, b[at + 4..at + 4 + length]) then Visit(b, 4, littleEndian, accept) == (longer, false)
              else Continues(b, at + 4 + Padded(length), littleEndian, accept, longer)
  {
    hide IdAt, LengthAt, Padded;
    assert visited + [] == visited;
    var id, length := IdAt(b, at, littleEndian), LengthAt(b, at, littleEndian);
    if id != PID_SENTINEL && at + 4 + length <= |b| {
      var p := Parameter(id, b[at + 4..at + 4 + length]);
      var rest := Visit(b, at + 4 + Padded(length), littleEndian, accept).0;
      assert visited + ([p] + rest) == visited + [p] + rest;
    }
  }

  method SkipParameterList(payload: seq<Byte>, start: nat, littleEndian: bool) returns (end: Option<nat>)
    ensures end == Skip(payload, start, littleEndian)
  {
    hide IdAt, LengthAt;
    var at := start;
    while true
      invariant Skip(payload, at, littleEndian) == Skip(payload, start, littleEndian)
      decreases |payload| - at
    {
      if at + 4 > |payload| {
        return None;
      }
      var id, length := IdAt(payload, at, littleEndian), LengthAt(payload, at, littleEndian);
      if id == PID_SENTINEL {
        return Some(at + 4);
      }
      var next := AfterValue(payload, at + 4, length);
      if next.None? {
        return None;
      }
      at := next.value;
    }
  }

  method InlineQosHasDisposal(submessage: seq<Byte>, start: nat, littleEndian: bool) returns (disposed: bool)
    ensures disposed == Disposal(submessage, start, littleEndian)
  {
    hide IdAt, LengthAt, StatusBits;
    var at := start;
    while at + 4 <= |submessage|
      invariant Disposal(submessage, at, littleEndian) == Disposal(submessage, start, littleEndian)
      decreases |submessage| - at
    {
      var id, length := IdAt(submessage, at, littleEndian), LengthAt(submessage, at, littleEndian);
      if id == PID_SENTINEL {
        break;
      }
      if id == PID_STATUS_INFO && length >= 4 && at + 8 <= |submessage| {
        if StatusBits(submessage[at + 4..at + 8], littleEndian) != 0 {
          return true;
        }
      }
      var next := AfterValue(submessage, at + 4, length);
      if next.None? {
        break;
      }
      at := next.value;
    }
    disposed := false;
  }
}

/** What becomes of lists that do not start at a multiple of four. */
module UnalignedLists {
  import opened Basics
  import opened ParameterLists

  /** A parameter without a value, then a disposal. */
  const MISREAD := [Parameter(0, []), Parameter(PID_STATUS_INFO, [3, 1, 1, 3])]

  lemma MisreadBytes(littleEndian: bool)
    ensures forall i :: 0 <= i < |MISREAD| ==> Encodable(MISREAD[i])
    ensures EncodeList(MISREAD, littleEndian) ==
            if littleEndian then [0, 0, 0, 0, 0x71, 0, 4, 0, 3, 1, 1, 3, 1, 0, 0, 0]
            else [0, 0, 0, 0, 0, 0x71, 0, 4, 3, 1, 1, 3, 0, 1, 0, 0]
  {
    var rest := MISREAD[1..];
    assert rest[1..] == [] && rest[0] == MISREAD[1];
    assert Padding(0) == [] && Padding(4) == [];
    assert EncodeParameter(MISREAD[0], littleEndian) == [0, 0, 0, 0];
    assert EncodeList(rest, littleEndian) == EncodeParameter(rest[0], littleEndian) + Sentinel(littleEndian);
  }

  /** A parameter that claims to be longer than what is left ends the search. */
  lemma SearchEnds(b: seq<Byte>, at: nat, littleEndian: bool)
    requires at + 4 <= |b| < at + 4 + LengthAt(b, at, littleEndian)
    requires IdAt(b, at, littleEndian) != PID_STATUS_INFO
    ensures !Disposal(b, at, littleEndian)
  {
    hide IdAt, LengthAt;
  }

  /** What is read within the bytes of the list. */
  lemma MisreadHeader(b: seq<Byte>, start: nat, skipped: nat, littleEndian: bool)
    requires |b| == start + 16 && b[start..] == EncodeList(MISREAD, littleEndian) && 4 < skipped < 8
    ensures LengthAt(b, start + skipped, littleEndian) > 16
    ensures IdAt(b, start + skipped, littleEndian) != PID_STATUS_INFO
  {
    MisreadBytes(littleEndian);
    hide EncodeList;
    var list := b[start..];
    var at := start + skipped;
    assert b[at] == list[skipped] && b[at + 1] == list[skipped + 1];
    assert b[at + 2] == list[skipped + 2] && b[at + 3] == list[skipped + 3];
  }

  lemma PaddedBetween(start: nat)
    requires start % 4 != 0
    ensures start + 4 < Padded(start + 4) < start + 8
  {
  }

  /** The search steps over the header of the disposal. */
  lemma SearchMisses(b: seq<Byte>, start: nat, littleEndian: bool)
    requires |b| == start + 16 && b[start..] == EncodeList(MISREAD, littleEndian) && start % 4 != 0
    requires StandsAt(b, start, MISREAD[0], littleEndian)
    ensures !Disposal(b, start, littleEndian)
  {
    var next := Padded(start + 4);
    PaddedBetween(start);
    hide IdAt, LengthAt, EncodeParameter, StandsAt, Disposal, EncodeList, SaysDisposed, StatusBits, Padded;
    DisposalStep(b, start, MISREAD[0], littleEndian);
    MisreadHeader(b, start, next - start, littleEndian);
    SearchEnds(b, next, littleEndian);
    WhatMisreadSays(littleEndian);
  }

  /** From any other offset the search does not find the disposal. */
  lemma DisposalMissed(before: seq<Byte>, littleEndian: bool)
    requires |before| % 4 != 0
    ensures !Disposal(before + (EncodeList(MISREAD, littleEndian) + []), |before|, littleEndian)
  {
    MisreadBytes(littleEndian);
    var list := EncodeList(MISREAD, littleEndian);
    assert |list| == 16;
    hide IdAt, LengthAt, EncodeParameter, StandsAt, Disposal, EncodeList, Encodable, Padded;
    assert list + [] == list;
    assert (before + list)[|before|..] == list;
    ListAssociates(MISREAD, [], littleEndian);
    ReadsParameter(before, MISREAD[0], EncodeList(MISREAD[1..], littleEndian) + [], littleEndian);
    SearchMisses(before + list, |before|, littleEndian);
  }

  lemma WhatMisreadSays(littleEndian: bool)
    ensures !SaysDisposed(MISREAD[0], littleEndian) && SaysDisposed(MISREAD[1], littleEndian)
  {
  }

  /** The search can be relied on for any list if and only if the list starts at a multiple of four. */
  lemma DisposalReliable(before: seq<Byte>, littleEndian: bool)
    ensures |before| % 4 == 0 <==>
            forall ps: seq<Parameter>, after :: (forall i :: 0 <= i < |ps| ==> Encodable(ps[i])) ==>
              (Disposal(before + (EncodeList(ps, littleEndian) + after), |before|, littleEndian) <==>
               exists i :: 0 <= i < |ps| && SaysDisposed(ps[i], littleEndian))
  {
    hide Disposal, SaysDisposed, EncodeList, Encodable;
    if |before| % 4 == 0 {
      forall ps: seq<Parameter>, after | forall i :: 0 <= i < |ps| ==> Encodable(ps[i])
        ensures Disposal(before + (EncodeList(ps, littleEndian) + after), |before|, littleEndian) <==>
                exists i :: 0 <= i < |ps| && SaysDisposed(ps[i], littleEndian)
      {
        DisposalExact(before, ps, after, littleEndian);
      }
    } else {
      MisreadBytes(littleEndian);
      DisposalMissed(before, littleEndian);
      WhatMisreadSays(littleEndian);
    }
  }
}
