/**
 Length-prefixed batch framing of a Zenoh TCP byte stream: a batch is a
 little-endian 16-bit length followed by that many bytes, and a batch of
 length zero carries nothing.
 */
module Framing {
  import opened Basics

  const BATCH_HEADER_LEN: nat := 2

  /** The transport decoder is left uninterpreted: it accepts a payload or not. */
  type Decoder<!M> = seq<Byte> -> Option<M>

  datatype Batch<+M> = Batch(payload: seq<Byte>, messages: M)

  datatype Framed<+M> = Framed(batches: seq<Batch<M>>, rest: seq<Byte>, failed: bool)

  function BatchLen(buffer: seq<Byte>): U16
    requires |buffer| >= BATCH_HEADER_LEN
  {
    ReadU16(buffer[0], buffer[1], true)
  }

  /** True when a whole batch stands at the front of the buffer. */
  predicate HasBatch(buffer: seq<Byte>) {
    |buffer| >= BATCH_HEADER_LEN && |buffer| >= BATCH_HEADER_LEN + BatchLen(buffer)
  }

  function FirstPayload(buffer: seq<Byte>): seq<Byte>
    requires HasBatch(buffer)
  {
    buffer[BATCH_HEADER_LEN..BATCH_HEADER_LEN + BatchLen(buffer)]
  }

  function AfterFirst(buffer: seq<Byte>): seq<Byte>
    requires HasBatch(buffer)
  {
    buffer[BATCH_HEADER_LEN + BatchLen(buffer)..]
  }

  /** What framing a buffer means: batches in order, up to the first incomplete or refused one. */
  ghost function Frame<M>(buffer: seq<Byte>, decode: Decoder<M>): Framed<M>
    decreases |buffer|
  {
    if !HasBatch(buffer) then
      Framed([], buffer, false)
    else if FirstPayload(buffer) == [] then
      Frame(AfterFirst(buffer), decode)
    else
      match decode(FirstPayload(buffer))
      case None => Framed([], buffer, true)
      case Some(messages) =>
        Prepend([Batch(FirstPayload(buffer), messages)], Frame(AfterFirst(buffer), decode))
  }

  ghost function Prepend<M>(batches: seq<Batch<M>>, framed: Framed<M>): Framed<M> {
    framed.(batches := batches + framed.batches)
  }

  lemma PrependTwice<M>(a: seq<Batch<M>>, b: seq<Batch<M>>, framed: Framed<M>)
    ensures Prepend(a, Prepend(b, framed)) == Prepend(a + b, framed)
    ensures Prepend([], framed) == framed
  {
    assert a + (b + framed.batches) == (a + b) + framed.batches;
    assert [] + framed.batches == framed.batches;
  }

  /** The loop that drains whole batches from the front of the buffer. */
  method FrameBatches<M>(input: seq<Byte>, decode: Decoder<M>)
    returns (batches: seq<Batch<M>>, buffer: seq<Byte>, failed: bool)
    ensures Framed(batches, buffer, failed) == Frame(input, decode)
  {
    batches, buffer := [], input;
    PrependTwice([], [], Frame(input, decode));
    while true
      invariant Frame(input, decode) == Prepend(batches, Frame(buffer, decode))
      decreases |buffer|
    {
      if |buffer| < BATCH_HEADER_LEN {
        return batches, buffer, false;
      }
      var batchLen := ReadU16(buffer[0], buffer[1], true);
      var totalLen := BATCH_HEADER_LEN + batchLen;
      if |buffer| < totalLen {
        return batches, buffer, false;
      }
      if batchLen > 0 {
        var payload := buffer[BATCH_HEADER_LEN..totalLen];
        var messages := decode(payload);
        if messages.None? {
          return batches, buffer, true;
        }
        PrependTwice(batches, [Batch(payload, messages.value)], Frame(buffer[totalLen..], decode));
        batches := batches + [Batch(payload, messages.value)];
      }
      buffer := buffer[totalLen..];
    }
  }

  lemma FirstOfConcat(x: seq<Byte>, y: seq<Byte>)
    requires HasBatch(x)
    ensures HasBatch(x + y)
    ensures FirstPayload(x + y) == FirstPayload(x)
    ensures AfterFirst(x + y) == AfterFirst(x) + y
  {
    assert BatchLen(x + y) == BatchLen(x);
  }

  /**
   Framing does not depend on how the stream is cut into chunks, for every
   decoder: a refused batch stays refused, and otherwise the remainder of the
   first chunk joined with the second chunk continues where the first ended.
   */
  lemma {:induction false} ChunkIndependent<M>(x: seq<Byte>, y: seq<Byte>, decode: Decoder<M>)
    ensures var first := Frame(x, decode);
            var whole := Frame(x + y, decode);
            if first.failed then
              whole.failed && whole.batches == first.batches && whole.rest == first.rest + y
            else
              whole == Prepend(first.batches, Frame(first.rest + y, decode))
    decreases |x|
  {
    if !HasBatch(x) {
      PrependTwice([], [], Frame(x + y, decode));
    } else {
      FirstOfConcat(x, y);
      var payload, later := FirstPayload(x), AfterFirst(x);
      if payload == [] {
        ChunkIndependent(later, y, decode);
      } else if decode(payload).Some? {
        ChunkIndependent(later, y, decode);
        var first := Frame(later, decode);
        PrependTwice([Batch(payload, decode(payload).value)], first.batches, Frame(first.rest + y, decode));
      }
    }
  }

  function EncodeBatch(payload: seq<Byte>): seq<Byte>
    requires |payload| < 0x1_0000
  {
    [|payload| % 0x100, |payload| / 0x100] + payload
  }

  ghost predicate Encodable(payloads: seq<seq<Byte>>) {
    forall i :: 0 <= i < |payloads| ==> 0 < |payloads[i]| < 0x1_0000
  }

  ghost function EncodeAll(payloads: seq<seq<Byte>>): seq<Byte>
    requires Encodable(payloads)
  {
    if payloads == [] then [] else EncodeBatch(payloads[0]) + EncodeAll(payloads[1..])
  }

  /** Framing is the inverse of length-prefixing: exactly the payloads come back, in order. */
  lemma {:induction false} FrameInvertsEncode<M>(payloads: seq<seq<Byte>>, decode: Decoder<M>)
    requires Encodable(payloads)
    requires forall i :: 0 <= i < |payloads| ==> decode(payloads[i]).Some?
    ensures var framed := Frame(EncodeAll(payloads), decode);
            && !framed.failed
            && framed.rest == []
            && |framed.batches| == |payloads|
            && forall i :: 0 <= i < |payloads| ==>
                 framed.batches[i] == Batch(payloads[i], decode(payloads[i]).value)
  {
    if payloads != [] {
      var encoded := EncodeAll(payloads);
      assert BatchLen(encoded) == |payloads[0]|;
      assert FirstPayload(encoded) == payloads[0];
      assert AfterFirst(encoded) == EncodeAll(payloads[1..]);
      FrameInvertsEncode(payloads[1..], decode);
    }
  }

  /**
   When nothing in a stream is refused, nothing in a prefix is; the whole gives the
   batches of the prefix and then those of what the prefix leaves with the rest.
   */
  lemma FramePrefix<M>(whole: seq<Byte>, n: nat, decode: Decoder<M>)
    requires n <= |whole|
    requires !Frame(whole, decode).failed
    ensures !Frame(whole[..n], decode).failed
    ensures var part := Frame(whole[..n], decode);
            Frame(whole, decode) == Prepend(part.batches, Frame(part.rest + whole[n..], decode))
  {
    assert whole[..n] + whole[n..] == whole;
    ChunkIndependent(whole[..n], whole[n..], decode);
  }
}
