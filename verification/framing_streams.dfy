/** What framing reads of streams as senders write them, whole or cut off, with empty batches and refused ones. */
module FramingStreams {
  import opened Basics
  import opened Framing

  /** Length-prefixed payloads, one after the other; a payload may be empty. */
  function Written(payloads: seq<seq<Byte>>): seq<Byte>
    requires forall i :: 0 <= i < |payloads| ==> |payloads[i]| < 0x1_0000
  {
    if payloads == [] then [] else [|payloads[0]| % 0x100, |payloads[0]| / 0x100] + payloads[0] + Written(payloads[1..])
  }

  /** The batches that the decoder makes of the payloads that are not empty. */
  function Decoded<M>(payloads: seq<seq<Byte>>, decode: Decoder<M>): seq<Batch<M>>
    requires forall i :: 0 <= i < |payloads| && payloads[i] != [] ==> decode(payloads[i]).Some?
  {
    if payloads == [] then []
    else if payloads[0] == [] then Decoded(payloads[1..], decode)
    else [Batch(payloads[0], decode(payloads[0]).value)] + Decoded(payloads[1..], decode)
  }

  lemma FirstOf(payload: seq<Byte>, rest: seq<Byte>)
    requires |payload| < 0x1_0000
    ensures var b := [|payload| % 0x100, |payload| / 0x100] + payload + rest;
            HasBatch(b) && FirstPayload(b) == payload && AfterFirst(b) == rest
  {
    var b := [|payload| % 0x100, |payload| / 0x100] + payload + rest;
    assert BatchLen(b) == |payload|;
  }

  lemma FrameFirst<M>(payload: seq<Byte>, rest: seq<Byte>, decode: Decoder<M>)
    requires |payload| < 0x1_0000 && (payload != [] ==> decode(payload).Some?)
    ensures Frame([|payload| % 0x100, |payload| / 0x100] + payload + rest, decode) ==
            Prepend(if payload == [] then [] else [Batch(payload, decode(payload).value)], Frame(rest, decode))
  {
    FirstOf(payload, rest);
    PrependTwice([], [], Frame(rest, decode));
  }

  /** Whatever follows the payloads is framed as if it stood alone, after their batches. */
  lemma {:induction false} FrameAfter<M>(payloads: seq<seq<Byte>>, rest: seq<Byte>, decode: Decoder<M>)
    requires forall i :: 0 <= i < |payloads| ==> |payloads[i]| < 0x1_0000
    requires forall i :: 0 <= i < |payloads| && payloads[i] != [] ==> decode(payloads[i]).Some?
    ensures Frame(Written(payloads) + rest, decode) == Prepend(Decoded(payloads, decode), Frame(rest, decode))
    decreases |payloads|
  {
    hide Frame, Prepend;
    PrependTwice([], [], Frame(rest, decode));
    if payloads == [] {
      assert Written(payloads) + rest == rest;
    } else {
      var first: seq<Byte> := [|payloads[0]| % 0x100, |payloads[0]| / 0x100] + payloads[0];
      assert Written(payloads) + rest == first + (Written(payloads[1..]) + rest);
      FrameFirst(payloads[0], Written(payloads[1..]) + rest, decode);
      FrameAfter(payloads[1..], rest, decode);
      if payloads[0] == [] {
        PrependTwice([], Decoded(payloads[1..], decode), Frame(rest, decode));
        assert [] + Decoded(payloads[1..], decode) == Decoded(payloads[1..], decode);
      } else {
        PrependTwice([Batch(payloads[0], decode(payloads[0]).value)], Decoded(payloads[1..], decode),
                     Frame(rest, decode));
      }
    }
  }

  /**
   A stream cut off within a batch: all batches before it come out, those without
   payload left out, and the part of the last one is kept for later.
   */
  lemma FrameReads<M>(payloads: seq<seq<Byte>>, last: seq<Byte>, n: nat, decode: Decoder<M>)
    requires forall i :: 0 <= i < |payloads| ==> |payloads[i]| < 0x1_0000
    requires forall i :: 0 <= i < |payloads| && payloads[i] != [] ==> decode(payloads[i]).Some?
    requires |last| < 0x1_0000 && n < 2 + |last|
    ensures var part := ([|last| % 0x100, |last| / 0x100] + last)[..n];
            Frame(Written(payloads) + part, decode) == Framed(Decoded(payloads, decode), part, false)
  {
    var part := ([|last| % 0x100, |last| / 0x100] + last)[..n];
    FrameAfter(payloads, part, decode);
    assert !HasBatch(part) by {
      if n >= 2 {
        assert part[0] == |last| % 0x100 && part[1] == |last| / 0x100;
        assert BatchLen(part) == |last|;
      }
    }
    assert Decoded(payloads, decode) + [] == Decoded(payloads, decode);
  }

  /** A batch that the decoder refuses stops framing there, after the batches before it. */
  lemma FrameStops<M>(payloads: seq<seq<Byte>>, refused: seq<Byte>, rest: seq<Byte>, decode: Decoder<M>)
    requires forall i :: 0 <= i < |payloads| ==> |payloads[i]| < 0x1_0000
    requires forall i :: 0 <= i < |payloads| && payloads[i] != [] ==> decode(payloads[i]).Some?
    requires 0 < |refused| < 0x1_0000 && decode(refused).None?
    ensures var bad := [|refused| % 0x100, |refused| / 0x100] + refused + rest;
            Frame(Written(payloads) + bad, decode) == Framed(Decoded(payloads, decode), bad, true)
  {
    var bad := [|refused| % 0x100, |refused| / 0x100] + refused + rest;
    FrameAfter(payloads, bad, decode);
    FirstOf(refused, rest);
    assert Decoded(payloads, decode) + [] == Decoded(payloads, decode);
  }
}
