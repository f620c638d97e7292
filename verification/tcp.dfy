/**
 Reassembly of one Zenoh TCP flow: out-of-order segments with wrapping 32-bit
 sequence numbers are queued, flushed into a byte stream and cut into batches.
 The value functions say what each operation does to a flow; the class performs
 them on its fields. The abstract queue at the end works with unbounded stream
 positions, and the refinement lemmas connect the two.
 */
module TcpReassembly {
  import opened Basics
  import opened Framing

  const REASSEMBLY_CAPACITY: nat := 1024 * 1024
  const REASSEMBLY_MAX_SEGMENTS: nat := 4096

  // ---------- Sequence numbers (section 3.4 of RFC 9293) ----------

  function WrappingAdd(a: U32, n: int): U32 {
    (a + n) % U32_MODULUS
  }

  function WrappingSub(a: U32, b: U32): U32 {
    (a - b) % U32_MODULUS
  }

  /** The wrapped difference, read as a signed 32-bit number, is negative. */
  predicate SeqBefore(left: U32, right: U32) {
    WrappingSub(left, right) >= 0x8000_0000
  }

  predicate SeqAfter(left: U32, right: U32) {
    SeqBefore(right, left)
  }

  predicate SeqLte(left: U32, right: U32) {
    left == right || SeqBefore(left, right)
  }

  // ---------- One flow as a value ----------

  datatype Segment = Segment(seqNo: U32, bytes: seq<Byte>)

  datatype Flow = Flow(
    aligned: bool,
    nextSeq: Option<U32>,
    segments: seq<Segment>,
    queuedBytes: nat,
    buffer: seq<Byte>)

  const UNALIGNED := Flow(false, None, [], 0, [])

  function SegmentEnd(s: Segment): U32 {
    WrappingAdd(s.seqNo, |s.bytes|)
  }

  /** The queue already holds these bytes, by sequence number and length. */
  predicate Duplicate(segments: seq<Segment>, s: Segment) {
    exists i :: 0 <= i < |segments| && segments[i].seqNo == s.seqNo && |segments[i].bytes| >= |s.bytes|
  }

  /** None when a queue limit refuses the segment. */
  ghost function InsertSegment(f: Flow, s: Segment): Option<Flow> {
    if s.bytes == [] || (f.nextSeq.Some? && SeqLte(SegmentEnd(s), f.nextSeq.value)) || Duplicate(f.segments, s) then
      Some(f)
    else if f.queuedBytes + |s.bytes| > REASSEMBLY_CAPACITY || |f.segments| >= REASSEMBLY_MAX_SEGMENTS then
      None
    else
      var at := PartitionPoint(f.segments, (t: Segment) => SeqLte(t.seqNo, s.seqNo));
      Some(f.(segments := InsertAt(f.segments, at, s), queuedBytes := f.queuedBytes + |s.bytes|))
  }

  /** The segment brings bytes past the next one that are not queued yet, and a queue limit refuses it. */
  predicate Refused(f: Flow, s: Segment) {
    && s.bytes != []
    && (f.nextSeq.Some? ==> 0 < (s.seqNo + |s.bytes| - f.nextSeq.value) % 0x1_0000_0000 < 0x8000_0000)
    && (forall i :: 0 <= i < |f.segments| && f.segments[i].seqNo == s.seqNo ==> |f.segments[i].bytes| < |s.bytes|)
    && (|f.segments| >= 4096 || f.queuedBytes + |s.bytes| > 1024 * 1024)
  }

  lemma RefusedExactly(f: Flow, s: Segment)
    ensures Refused(f, s) <==> InsertSegment(f, s).None?
  {
    if f.nextSeq.Some? {
      var next := f.nextSeq.value;
      assert (SegmentEnd(s) - next) % U32_MODULUS == (s.seqNo + |s.bytes| - next) % U32_MODULUS;
    }
  }

  /** The first queued segment does not start after the next expected byte. */
  ghost predicate CanPop(f: Flow) {
    f.nextSeq.Some? && f.segments != [] && !SeqAfter(f.segments[0].seqNo, f.nextSeq.value)
  }

  /** Take the first queued segment and append what it adds to the stream, if anything. */
  ghost function Pop(f: Flow): Flow
    requires CanPop(f)
  {
    var next, s := f.nextSeq.value, f.segments[0];
    var offset := WrappingSub(next, s.seqNo);
    var popped := f.(segments := f.segments[1..],
                     queuedBytes := if f.queuedBytes < |s.bytes| then 0 else f.queuedBytes - |s.bytes|);
    if SeqLte(SegmentEnd(s), next) || offset >= |s.bytes| then
      popped
    else
      popped.(buffer := f.buffer + s.bytes[offset..], nextSeq := Some(WrappingAdd(next, |s.bytes[offset..]|)))
  }

  ghost function Flush(f: Flow): Flow
    decreases |f.segments|
  {
    if CanPop(f) then Flush(Pop(f)) else f
  }

  ghost function Align<M>(f: Flow, s: Segment, decode: Decoder<M>): (Flow, seq<Batch<M>>) {
    var framed := Frame(s.bytes, decode);
    if framed.failed || framed.batches == [] then
      (f, [])
    else
      (Flow(true, Some(SegmentEnd(s)), [], 0, framed.rest), framed.batches)
  }

  /** One non-empty payload arriving on a flow. */
  ghost function Step<M>(f: Flow, s: Segment, decode: Decoder<M>): (Flow, seq<Batch<M>>) {
    if !f.aligned then
      Align(f, s, decode)
    else
      match InsertSegment(f, s)
      case None => Align(UNALIGNED, s, decode)
      case Some(inserted) =>
        var flushed := Flush(inserted);
        var framed := Frame(flushed.buffer, decode);
        (if framed.failed then UNALIGNED else flushed.(buffer := framed.rest), framed.batches)
  }

  /** All batches emitted while a list of payloads arrives, and the flow they leave. */
  ghost function Run<M>(f: Flow, arrivals: seq<Segment>, decode: Decoder<M>): (Flow, seq<Batch<M>>) {
    if arrivals == [] then
      (f, [])
    else
      var before := Run(f, arrivals[..|arrivals| - 1], decode);
      var last := Step(before.0, arrivals[|arrivals| - 1], decode);
      (last.0, before.1 + last.1)
  }

  /** A flow that knows nothing but one segment: unaligned when its framing fails or yields nothing. */
  ghost function Afresh<M>(s: Segment, decode: Decoder<M>): (Flow, seq<Batch<M>>) {
    var framed := Frame(s.bytes, decode);
    if !framed.failed && framed.batches != []
    then (Flow(true, Some((s.seqNo + |s.bytes|) % 0x1_0000_0000), [], 0, framed.rest), framed.batches)
    else (Flow(false, None, [], 0, []), [])
  }

  /**
   A lost byte does not stop a flow for good: when a queue limit refuses a segment, all
   that was queued is given up and the flow starts afresh with that segment, if it
   frames. A flow that is not aligned starts with any segment in the same way.
   */
  lemma RefusedStartsAfresh<M>(f: Flow, s: Segment, decode: Decoder<M>)
    ensures (f.aligned && Refused(f, s)) || f == Flow(false, None, [], 0, []) ==>
            Step(f, s, decode) == Afresh(s, decode)
  {
    RefusedExactly(f, s);
    hide Frame, InsertSegment, Flush, Refused;
  }

  // ---------- The flow as an object ----------

  class TcpFlowState {
    var aligned: bool
    var nextSeq: Option<U32>
    var segments: seq<Segment>
    var queuedSegmentBytes: nat
    var streamBuffer: seq<Byte>

    ghost function State(): Flow
      reads this
    {
      Flow(aligned, nextSeq, segments, queuedSegmentBytes, streamBuffer)
    }

    constructor ()
      ensures State() == UNALIGNED
    {
      aligned, nextSeq, segments, queuedSegmentBytes, streamBuffer := false, None, [], 0, [];
    }

    method ResetAlignment()
      modifies this
      ensures State() == UNALIGNED
    {
      aligned, nextSeq, segments, queuedSegmentBytes, streamBuffer := false, None, [], 0, [];
    }

    method TryAlignFromSegment<M>(payloadSeq: U32, payload: seq<Byte>, decode: Decoder<M>)
      returns (batches: seq<Batch<M>>)
      modifies this
      ensures (State(), batches) == Align(old(State()), Segment(payloadSeq, payload), decode)
    {
      var framed, buffer, failed := FrameBatches(payload, decode);
      if failed || |framed| == 0 {
        return [];
      }
      aligned := true;
      nextSeq := Some(WrappingAdd(payloadSeq, |payload|));
      segments, queuedSegmentBytes := [], 0;
      streamBuffer := buffer;
      return framed;
    }

    method InsertSegmentBytes(seqNo: U32, bytes: seq<Byte>) returns (accepted: bool)
      modifies this
      ensures match InsertSegment(old(State()), Segment(seqNo, bytes))
              case None => !accepted && State() == old(State())
              case Some(f) => accepted && State() == f
    {
      if |bytes| == 0 {
        return true;
      }
      if nextSeq.Some? {
        var end := WrappingAdd(seqNo, |bytes|);
        if SeqLte(end, nextSeq.value) {
          return true;
        }
      }
      if Duplicate(segments, Segment(seqNo, bytes)) {
        return true;
      }
      var queued := queuedSegmentBytes + |bytes|;
      if queued > REASSEMBLY_CAPACITY || |segments| >= REASSEMBLY_MAX_SEGMENTS {
        return false;
      }
      var insertAt := PartitionPoint(segments, (t: Segment) => SeqLte(t.seqNo, seqNo));
      segments := InsertAt(segments, insertAt, Segment(seqNo, bytes));
      queuedSegmentBytes := queued;
      return true;
    }

    method FlushContiguous()
      modifies this
      ensures State() == Flush(old(State()))
    {
      while nextSeq.Some? && |segments| > 0 && !SeqAfter(segments[0].seqNo, nextSeq.value)
        invariant Flush(State()) == Flush(old(State()))
        decreases |segments|
      {
        var next, segment := nextSeq.value, segments[0];
        segments := segments[1..];
        queuedSegmentBytes := if queuedSegmentBytes < |segment.bytes| then 0 else queuedSegmentBytes - |segment.bytes|;
        if SeqLte(WrappingAdd(segment.seqNo, |segment.bytes|), next) {
          continue;
        }
        var offset := WrappingSub(next, segment.seqNo);
        if offset >= |segment.bytes| {
          continue;
        }
        var contiguous := segment.bytes[offset..];
        streamBuffer := streamBuffer + contiguous;
        nextSeq := Some(WrappingAdd(next, |contiguous|));
      }
    }

    method ProcessPayload<M>(payloadSeq: U32, payload: seq<Byte>, decode: Decoder<M>)
      returns (batches: seq<Batch<M>>)
      modifies this
      ensures (State(), batches) == Step(old(State()), Segment(payloadSeq, payload), decode)
      ensures old(aligned) && Refused(old(State()), Segment(payloadSeq, payload)) ==>
                (State(), batches) == Afresh(Segment(payloadSeq, payload), decode)
    {
      RefusedStartsAfresh(State(), Segment(payloadSeq, payload), decode);
      if !aligned {
        batches := TryAlignFromSegment(payloadSeq, payload, decode);
        return;
      }
      var accepted := InsertSegmentBytes(payloadSeq, payload);
      if !accepted {
        ResetAlignment();
        batches := TryAlignFromSegment(payloadSeq, payload, decode);
        return;
      }
      FlushContiguous();
      var failed;
      batches, streamBuffer, failed := FrameBatches(streamBuffer, decode);
      if failed {
        ResetAlignment();
      }
    }
  }

  // ---------- The same queue over unbounded stream positions ----------

  /** The bytes of the original stream from `start` up to `End()`. */
  datatype Slice = Slice(start: nat, len: nat) {
    function End(): nat { start + len }

    ghost predicate Covers(p: int) { start <= p < End() }

    ghost predicate On(stream: seq<Byte>) { 0 < len && End() <= |stream| }
  }

  /** Section 2.3 of RFC 7323 keeps live data this close to the next expected byte. */
  const WINDOW: nat := 0x4000_0000

  ghost predicate InWindow(pos: nat, s: Slice) {
    pos <= s.start + WINDOW && s.End() <= pos + WINDOW && s.len <= WINDOW
  }

  /** In the window and not entirely before it: the slices a queue can hold. */
  ghost predicate Pending(pos: nat, s: Slice) {
    InWindow(pos, s) && pos < s.End()
  }

  function SeqAt(isn: U32, p: nat): U32 {
    WrappingAdd(isn, p)
  }

  ghost function Wire(isn: U32, stream: seq<Byte>, s: Slice): Segment {
    Segment(SeqAt(isn, s.start), if s.On(stream) then stream[s.start..s.End()] else [])
  }

  ghost predicate AllOn(stream: seq<Byte>, q: seq<Slice>) {
    forall i :: 0 <= i < |q| ==> q[i].On(stream)
  }

  ghost function WireAll(isn: U32, stream: seq<Byte>, q: seq<Slice>): seq<Segment> {
    seq(|q|, i requires 0 <= i < |q| => Wire(isn, stream, q[i]))
  }

  ghost function TotalLen(q: seq<Slice>): nat {
    if q == [] then 0 else q[0].len + TotalLen(q[1..])
  }

  ghost predicate Sorted(q: seq<Slice>) {
    forall i, j :: 0 <= i < j < |q| ==> q[i].start <= q[j].start
  }

  ghost predicate Received(q: seq<Slice>, p: int) {
    exists i :: 0 <= i < |q| && q[i].Covers(p)
  }

  /** The concrete flow that waits for position `pos` and queues the slices `q`. */
  ghost function Waiting(isn: U32, stream: seq<Byte>, pos: nat, q: seq<Slice>, buffer: seq<Byte>): Flow {
    Flow(true, Some(SeqAt(isn, pos)), WireAll(isn, stream, q), TotalLen(q), buffer)
  }

  ghost predicate HasSlice(q: seq<Slice>, s: Slice) {
    exists i :: 0 <= i < |q| && q[i].start == s.start && q[i].len >= s.len
  }

  ghost function Enqueue(pos: nat, q: seq<Slice>, s: Slice): seq<Slice> {
    if s.End() <= pos || HasSlice(q, s) then q
    else InsertAt(q, PartitionPoint(q, (t: Slice) => t.start <= s.start), s)
  }

  ghost function Drain(pos: nat, q: seq<Slice>): (r: (nat, seq<Slice>))
    ensures r.0 >= pos
    decreases |q|
  {
    if q == [] || q[0].start > pos then (pos, q)
    else Drain(if q[0].End() <= pos then pos else q[0].End(), q[1..])
  }

  // ---------- Refinement of the operations ----------

  /** Within half the sequence space, wrapped comparison is comparison of positions. */
  lemma SeqCompare(isn: U32, p: nat, q: nat)
    requires -0x8000_0000 <= p - q < 0x8000_0000
    ensures SeqBefore(SeqAt(isn, p), SeqAt(isn, q)) <==> p < q
    ensures SeqAt(isn, p) == SeqAt(isn, q) <==> p == q
    ensures p >= q ==> WrappingSub(SeqAt(isn, p), SeqAt(isn, q)) == p - q
  {
    assert (SeqAt(isn, p) - SeqAt(isn, q)) % U32_MODULUS == (p - q) % U32_MODULUS;
  }

  lemma SeqAdvance(isn: U32, p: nat, n: nat)
    ensures WrappingAdd(SeqAt(isn, p), n) == SeqAt(isn, p + n)
  {
  }

  lemma {:induction false} TotalLenInsert(q: seq<Slice>, k: nat, s: Slice)
    requires k <= |q|
    ensures TotalLen(InsertAt(q, k, s)) == TotalLen(q) + s.len
  {
    var r := InsertAt(q, k, s);
    if k == 0 {
      assert r[1..] == q;
    } else {
      TotalLenInsert(q[1..], k - 1, s);
      assert r[1..] == InsertAt(q[1..], k - 1, s);
    }
  }

  lemma PartitionPointAgrees<A, B>(a: seq<A>, b: seq<B>, before: A -> bool, before': B -> bool)
    requires |a| == |b|
    requires forall i :: 0 <= i < |a| ==> before(a[i]) == before'(b[i])
    ensures PartitionPoint(a, before) == PartitionPoint(b, before')
  {
    var k, k' := PartitionPoint(a, before), PartitionPoint(b, before');
    if k < k' {
      assert false;
    } else if k' < k {
      assert false;
    }
  }

  /** The two comparisons the queue makes, on a queued slice and a slice in the window. */
  lemma SlicesCompare(isn: U32, stream: seq<Byte>, pos: nat, t: Slice, s: Slice)
    requires t.On(stream) && s.On(stream) && Pending(pos, t) && InWindow(pos, s)
    ensures Wire(isn, stream, t).seqNo == Wire(isn, stream, s).seqNo <==> t.start == s.start
    ensures s.End() > pos ==>
              (SeqLte(Wire(isn, stream, t).seqNo, Wire(isn, stream, s).seqNo) <==> t.start <= s.start)
  {
    SeqCompare(isn, t.start, s.start);
  }

  lemma DuplicateRefines(isn: U32, stream: seq<Byte>, pos: nat, q: seq<Slice>, s: Slice)
    requires AllOn(stream, q) && s.On(stream) && InWindow(pos, s)
    requires forall i :: 0 <= i < |q| ==> Pending(pos, q[i])
    ensures Duplicate(WireAll(isn, stream, q), Wire(isn, stream, s)) <==> HasSlice(q, s)
  {
    var segments, segment := WireAll(isn, stream, q), Wire(isn, stream, s);
    forall i | 0 <= i < |q|
      ensures segments[i].seqNo == segment.seqNo <==> q[i].start == s.start
      ensures |segments[i].bytes| == q[i].len
    {
      SlicesCompare(isn, stream, pos, q[i], s);
    }
    if HasSlice(q, s) {
      var i :| 0 <= i < |q| && q[i].start == s.start && q[i].len >= s.len;
      assert segments[i].seqNo == segment.seqNo;
    }
  }

  lemma InsertionPointRefines(isn: U32, stream: seq<Byte>, pos: nat, q: seq<Slice>, s: Slice)
    requires AllOn(stream, q) && s.On(stream) && InWindow(pos, s) && s.End() > pos
    requires forall i :: 0 <= i < |q| ==> Pending(pos, q[i])
    ensures var segments, segment := WireAll(isn, stream, q), Wire(isn, stream, s);
            var k := PartitionPoint(q, (t: Slice) => t.start <= s.start);
            var r := InsertAt(q, k, s);
            && PartitionPoint(segments, (t: Segment) => SeqLte(t.seqNo, segment.seqNo)) == k
            && AllOn(stream, r)
            && WireAll(isn, stream, r) == InsertAt(segments, k, segment)
  {
    var segments, segment := WireAll(isn, stream, q), Wire(isn, stream, s);
    var k := PartitionPoint(q, (t: Slice) => t.start <= s.start);
    var r := InsertAt(q, k, s);
    forall i | 0 <= i < |q|
      ensures SeqLte(segments[i].seqNo, segment.seqNo) <==> q[i].start <= s.start
    {
      SlicesCompare(isn, stream, pos, q[i], s);
    }
    PartitionPointAgrees(segments, q, (t: Segment) => SeqLte(t.seqNo, segment.seqNo), (t: Slice) => t.start <= s.start);
    forall i | 0 <= i < |r| ensures r[i].On(stream) && Wire(isn, stream, r[i]) == InsertAt(segments, k, segment)[i] {
      assert i != k ==> r[i] == q[if i < k then i else i - 1];
    }
  }

  /** Whatever the queue accepts, it enqueues as unbounded positions would be. */
  lemma InsertRefines(isn: U32, stream: seq<Byte>, pos: nat, q: seq<Slice>, buffer: seq<Byte>, s: Slice)
    requires AllOn(stream, q) && s.On(stream) && InWindow(pos, s)
    requires forall i :: 0 <= i < |q| ==> Pending(pos, q[i])
    requires InsertSegment(Waiting(isn, stream, pos, q, buffer), Wire(isn, stream, s)).Some?
    ensures AllOn(stream, Enqueue(pos, q, s))
    ensures InsertSegment(Waiting(isn, stream, pos, q, buffer), Wire(isn, stream, s)).value
         == Waiting(isn, stream, pos, Enqueue(pos, q, s), buffer)
  {
    SeqAdvance(isn, s.start, s.len);
    SeqCompare(isn, s.End(), pos);
    DuplicateRefines(isn, stream, pos, q, s);
    if s.End() > pos && !HasSlice(q, s) {
      InsertionPointRefines(isn, stream, pos, q, s);
      TotalLenInsert(q, PartitionPoint(q, (t: Slice) => t.start <= s.start), s);
    }
  }

  /** Popping the first queued slice; `base` is the position expected before flushing began. */
  /** What popping compares and computes, in stream positions. */
  lemma PopArithmetic(isn: U32, stream: seq<Byte>, base: nat, pos: nat, s: Slice)
    requires s.On(stream) && Pending(base, s) && base <= pos <= base + WINDOW
    ensures var w, next := Wire(isn, stream, s), SeqAt(isn, pos);
            && |w.bytes| == s.len && (SeqAfter(w.seqNo, next) <==> s.start > pos)
            && (s.start <= pos ==>
                  && WrappingSub(next, w.seqNo) == pos - s.start
                  && (SeqLte(SegmentEnd(w), next) <==> s.End() <= pos)
                  && (s.End() > pos ==> WrappingAdd(next, s.End() - pos) == SeqAt(isn, s.End())))
  {
    SeqCompare(isn, pos, s.start);
    SeqAdvance(isn, s.start, s.len);
    if s.start <= pos {
      SeqCompare(isn, s.End(), pos);
      if s.End() > pos {
        SeqAdvance(isn, pos, s.End() - pos);
      }
    }
  }

  lemma PopRefines(isn: U32, stream: seq<Byte>, base: nat, pos: nat, q: seq<Slice>, buffer: seq<Byte>)
    requires AllOn(stream, q) && q != [] && Pending(base, q[0])
    requires base <= pos <= base + WINDOW && pos <= |stream|
    ensures var f := Waiting(isn, stream, pos, q, buffer);
            var mid := if q[0].End() <= pos then pos else q[0].End();
            && (CanPop(f) <==> q[0].start <= pos)
            && (CanPop(f) ==> Pop(f) == Waiting(isn, stream, mid, q[1..], buffer + stream[pos..mid]))
  {
    var f, s := Waiting(isn, stream, pos, q, buffer), q[0];
    assert f.segments[0] == Wire(isn, stream, s);
    assert s.On(stream);
    PopArithmetic(isn, stream, base, pos, s);
    hide SeqAfter, SeqLte, WrappingSub, WrappingAdd, SeqAt, SegmentEnd;
    if s.start <= pos {
      assert f.segments[1..] == WireAll(isn, stream, q[1..]);
      if s.End() <= pos {
        assert buffer + stream[pos..pos] == buffer;
      } else {
        assert f.segments[0].bytes[pos - s.start..] == stream[pos..s.End()];
      }
    }
  }

  lemma EmptyQueue(isn: U32, stream: seq<Byte>, pos: nat, buffer: seq<Byte>)
    ensures !CanPop(Waiting(isn, stream, pos, [], buffer))
  {
  }

  lemma {:induction false} FlushRefines(isn: U32, stream: seq<Byte>, base: nat, pos: nat, q: seq<Slice>,
                                        buffer: seq<Byte>)
    requires AllOn(stream, q)
    requires base <= pos <= base + WINDOW && pos <= |stream|
    requires forall i :: 0 <= i < |q| ==> Pending(base, q[i])
    ensures var (pos', q') := Drain(pos, q);
            && pos' <= |stream|
            && AllOn(stream, q')
            && Flush(Waiting(isn, stream, pos, q, buffer)) == Waiting(isn, stream, pos', q', buffer + stream[pos..pos'])
    decreases |q|
  {
    hide CanPop, Pop;
    if q != [] {
      PopRefines(isn, stream, base, pos, q, buffer);
    } else {
      EmptyQueue(isn, stream, pos, buffer);
    }
    if q != [] && q[0].start <= pos {
      var mid := if q[0].End() <= pos then pos else q[0].End();
      FlushRefines(isn, stream, base, mid, q[1..], buffer + stream[pos..mid]);
      var (pos', q') := Drain(mid, q[1..]);
      assert buffer + stream[pos..mid] + stream[mid..pos'] == buffer + stream[pos..pos'];
    } else {
      assert buffer + stream[pos..pos] == buffer;
    }
  }

  // ---------- What the abstract queue keeps ----------

  lemma ReceivedInsert(q: seq<Slice>, k: nat, s: Slice, p: int)
    requires k <= |q|
    ensures Received(InsertAt(q, k, s), p) <==> Received(q, p) || s.Covers(p)
  {
    var r := InsertAt(q, k, s);
    if s.Covers(p) {
      assert r[k].Covers(p);
    }
    if Received(q, p) {
      var i :| 0 <= i < |q| && q[i].Covers(p);
      assert r[if i < k then i else i + 1].Covers(p);
    }
    if Received(r, p) && !s.Covers(p) {
      var i :| 0 <= i < |r| && r[i].Covers(p);
      assert q[if i < k then i else i - 1].Covers(p);
    }
  }

  lemma EnqueueKeeps(pos: nat, q: seq<Slice>, s: Slice)
    requires Sorted(q)
    ensures Sorted(Enqueue(pos, q, s))
    ensures forall t :: t in Enqueue(pos, q, s) ==> t in q || (t == s && s.End() > pos)
    ensures forall p :: p >= pos ==> (Received(Enqueue(pos, q, s), p) <==> Received(q, p) || s.Covers(p))
  {
    if s.End() > pos {
      if HasSlice(q, s) {
        var i :| 0 <= i < |q| && q[i].start == s.start && q[i].len >= s.len;
        assert forall p :: s.Covers(p) ==> q[i].Covers(p);
      } else {
        var k := PartitionPoint(q, (t: Slice) => t.start <= s.start);
        var r := InsertAt(q, k, s);
        forall p {
          ReceivedInsert(q, k, s, p);
        }
        SortedInsert(q, k, s);
        forall t | t in r ensures t in q || t == s {
          var i :| 0 <= i < |r| && r[i] == t;
          assert i != k ==> t == q[if i < k then i else i - 1];
        }
      }
    }
  }

  lemma SortedInsert(q: seq<Slice>, k: nat, s: Slice)
    requires Sorted(q) && k <= |q|
    requires forall i :: 0 <= i < k ==> q[i].start <= s.start
    requires k < |q| ==> s.start < q[k].start
    ensures Sorted(InsertAt(q, k, s))
  {
  }

  lemma ReceivedCons(q: seq<Slice>, p: int)
    requires q != []
    ensures Received(q, p) <==> q[0].Covers(p) || Received(q[1..], p)
  {
    var rest := q[1..];
    if Received(rest, p) {
      var i :| 0 <= i < |rest| && rest[i].Covers(p);
      assert q[i + 1].Covers(p);
    }
    if Received(q, p) && !q[0].Covers(p) {
      var i :| 0 <= i < |q| && q[i].Covers(p);
      assert rest[i - 1].Covers(p);
    }
  }

  /** Draining takes exactly the received bytes it passes and loses none beyond them. */
  lemma {:induction false} DrainCovers(pos: nat, q: seq<Slice>, p: int)
    requires Sorted(q) && p >= pos
    ensures p < Drain(pos, q).0 ==> Received(q, p)
    ensures p >= Drain(pos, q).0 ==> (Received(Drain(pos, q).1, p) <==> Received(q, p))
    decreases |q|
  {
    if q != [] && q[0].start <= pos {
      ReceivedCons(q, p);
      var mid := if q[0].End() <= pos then pos else q[0].End();
      if p >= mid {
        DrainCovers(mid, q[1..], p);
      }
    }
  }

  /** After draining, every queued slice starts strictly after the next expected byte. */
  lemma {:induction false} DrainKeeps(pos: nat, q: seq<Slice>)
    requires Sorted(q)
    ensures var (pos', q') := Drain(pos, q);
            && Sorted(q')
            && (forall t :: t in q' ==> t in q && t.start > pos')
    decreases |q|
  {
    if q != [] && q[0].start <= pos {
      DrainKeeps(if q[0].End() <= pos then pos else q[0].End(), q[1..]);
    }
  }

  // ---------- Whole runs ----------

  /** The first stream position from `from` on that none of the slices holds. */
  ghost function FirstGap(stream: seq<Byte>, q: seq<Slice>, from: nat): (gap: nat)
    ensures gap >= from
    decreases |stream| - from
  {
    if from < |stream| && Received(q, from) then FirstGap(stream, q, from + 1) else from
  }

  /**
   The circumstances under which reassembly is promised: every arrival is a slice
   of one stream near the next expected byte, the queue limits are never hit and
   the decoder refuses no batch of what is received without a gap. The first arrival
   is the one the flow aligns on.
   */
  ghost predicate Admissible<M>(isn: U32, stream: seq<Byte>, arrivals: seq<Slice>, decode: Decoder<M>)
    requires |arrivals| > 0
  {
    && AllOn(stream, arrivals)
    && FramesTo(stream, arrivals, decode)
    && Frame(Wire(isn, stream, arrivals[0]).bytes, decode).batches != []
    && (forall k :: 0 < k < |arrivals| ==>
          InWindow(FirstGap(stream, arrivals[..k], arrivals[0].start), arrivals[k]))
    && (forall k :: 0 < k < |arrivals| ==>
          !Refused(Outcome(isn, stream, arrivals[..k], decode).0, Wire(isn, stream, arrivals[k])))
  }

  /** The decoder refuses nothing up to the first gap. */
  ghost predicate FramesTo<M>(stream: seq<Byte>, arrivals: seq<Slice>, decode: Decoder<M>)
    requires |arrivals| > 0
  {
    var from := arrivals[0].start;
    var gap := FirstGap(stream, arrivals, from);
    gap <= |stream| ==> !Frame(stream[from..gap], decode).failed
  }

  /** Another arrival moves the gap on or leaves it, within the stream. */
  lemma {:induction false} GapGrows(stream: seq<Byte>, q: seq<Slice>, s: Slice, from: nat)
    requires from <= |stream|
    ensures FirstGap(stream, q, from) <= FirstGap(stream, q + [s], from) <= |stream|
    decreases |stream| - from
  {
    ReceivedSnoc(q, s, from);
    if from < |stream| && Received(q + [s], from) {
      if Received(q, from) {
        GapGrows(stream, q, s, from + 1);
      } else {
        GapWithin(stream, q + [s], from);
      }
    }
  }

  lemma {:induction false} GapWithin(stream: seq<Byte>, q: seq<Slice>, from: nat)
    requires from <= |stream|
    ensures FirstGap(stream, q, from) <= |stream|
    decreases |stream| - from
  {
    if from < |stream| && Received(q, from) {
      GapWithin(stream, q, from + 1);
    }
  }

  lemma AdmissibleSnoc<M>(isn: U32, stream: seq<Byte>, earlier: seq<Slice>, s: Slice, decode: Decoder<M>)
    requires |earlier| > 0 && Admissible(isn, stream, earlier + [s], decode)
    ensures Admissible(isn, stream, earlier, decode) && AllOn(stream, earlier) && s.On(stream)
    ensures var gap := FirstGap(stream, earlier + [s], earlier[0].start);
            gap <= |stream| && !Frame(stream[earlier[0].start..gap], decode).failed
    ensures InWindow(FirstGap(stream, earlier, earlier[0].start), s)
    ensures !Refused(Outcome(isn, stream, earlier, decode).0, Wire(isn, stream, s))
  {
    hide Frame, Outcome, Refused, InWindow, FirstGap, Wire;
    var all := earlier + [s];
    forall i | 0 <= i < |earlier| ensures earlier[i].On(stream) {
      assert all[i] == earlier[i];
    }
    assert all[..|earlier|] == earlier && all[|earlier|] == s;
    FramesSnoc(stream, earlier, s, decode);
    forall k | 0 < k < |earlier|
      ensures InWindow(FirstGap(stream, earlier[..k], earlier[0].start), earlier[k])
      ensures !Refused(Outcome(isn, stream, earlier[..k], decode).0, Wire(isn, stream, earlier[k]))
    {
      assert earlier[..k] == all[..k];
    }
  }

  lemma FramesSnoc<M>(stream: seq<Byte>, earlier: seq<Slice>, s: Slice, decode: Decoder<M>)
    requires |earlier| > 0 && AllOn(stream, earlier) && FramesTo(stream, earlier + [s], decode)
    ensures FramesTo(stream, earlier, decode)
    ensures var gap := FirstGap(stream, earlier + [s], earlier[0].start);
            gap <= |stream| && !Frame(stream[earlier[0].start..gap], decode).failed
  {
    hide Frame, FirstGap;
    var from := earlier[0].start;
    assert earlier[0].On(stream) && (earlier + [s])[0] == earlier[0];
    GapGrows(stream, earlier, s, from);
    FramePart(stream, from, FirstGap(stream, earlier, from), FirstGap(stream, earlier + [s], from), decode);
  }

  /** Everything between the start and the gap has been received. */
  lemma {:induction false} GapReceived(stream: seq<Byte>, q: seq<Slice>, from: nat, p: nat)
    requires from <= p < FirstGap(stream, q, from)
    ensures Received(q, p)
    decreases p - from
  {
    if p > from {
      GapReceived(stream, q, from + 1, p);
    }
  }

  lemma {:induction false} GapIs(stream: seq<Byte>, q: seq<Slice>, from: nat, gap: nat)
    requires AllOn(stream, q)
    requires from <= gap <= |stream| && !Received(q, gap)
    requires forall p :: from <= p < gap ==> Received(q, p)
    ensures FirstGap(stream, q, from) == gap
    decreases gap - from
  {
    if from < gap {
      GapIs(stream, q, from + 1, gap);
    }
  }

  /** The flow and the batches after a list of slices arrived on a fresh flow. */
  ghost function Outcome<M>(isn: U32, stream: seq<Byte>, arrivals: seq<Slice>, decode: Decoder<M>): (Flow,
      seq<Batch<M>>) {
    Run(UNALIGNED, WireAll(isn, stream, arrivals), decode)
  }

  lemma OutcomeSnoc<M>(isn: U32, stream: seq<Byte>, earlier: seq<Slice>, s: Slice, decode: Decoder<M>)
    ensures var (f, out) := Outcome(isn, stream, earlier, decode);
            var (f', out') := Step(f, Wire(isn, stream, s), decode);
            Outcome(isn, stream, earlier + [s], decode) == (f', out + out')
  {
    var wired := WireAll(isn, stream, earlier + [s]);
    assert wired[..|earlier|] == WireAll(isn, stream, earlier);
  }

  /** The queue beyond the gap is what has been received beyond it, sorted. */
  ghost predicate QueueHolds(stream: seq<Byte>, arrivals: seq<Slice>, gap: nat, q: seq<Slice>) {
    && gap <= |stream|
    && AllOn(stream, q) && Sorted(q)
    && (forall t :: t in q ==> t.start > gap && Pending(gap, t))
    && (forall p :: p >= gap ==> (Received(q, p) <==> Received(arrivals, p)))
  }

  ghost predicate Reassembled<M>(isn: U32, stream: seq<Byte>, arrivals: seq<Slice>, decode: Decoder<M>, q: seq<Slice>)
    requires |arrivals| > 0
  {
    var from := arrivals[0].start;
    var gap := FirstGap(stream, arrivals, from);
    var (f, out) := Outcome(isn, stream, arrivals, decode);
    && QueueHolds(stream, arrivals, gap, q)
    && (var framed := Frame(stream[from..gap], decode);
        && !framed.failed
        && out == framed.batches
        && f == Waiting(isn, stream, gap, q, framed.rest))
  }

  /**
   Refinement: after any admissible run, in any order, with duplicates, overlaps
   and wrap-around, the flow waits for the first byte not received since
   alignment, has emitted exactly the framing of the stream up to that byte, and
   keeps queued exactly what lies beyond it, sorted and correctly counted.
   */
  lemma {:induction false} ReassemblyRefines<M>(isn: U32, stream: seq<Byte>, arrivals: seq<Slice>, decode: Decoder<M>)
    returns (q: seq<Slice>)
    requires |arrivals| > 0 && Admissible(isn, stream, arrivals, decode)
    ensures Reassembled(isn, stream, arrivals, decode, q)
    decreases |arrivals|
  {
    hide *;
    if |arrivals| == 1 {
      assert arrivals == [arrivals[0]];
      AlignmentRefines(isn, stream, arrivals[0], decode);
      q := [];
    } else {
      var earlier, s := arrivals[..|arrivals| - 1], arrivals[|arrivals| - 1];
      assert arrivals == earlier + [s];
      AdmissibleSnoc(isn, stream, earlier, s, decode);
      var before := ReassemblyRefines(isn, stream, earlier, decode);
      q := StepRefines(isn, stream, earlier, s, decode, before);
    }
  }

  lemma FramePart<M>(stream: seq<Byte>, from: nat, to: nat, end: nat, decode: Decoder<M>)
    requires from <= to <= end <= |stream|
    requires !Frame(stream[from..end], decode).failed
    ensures !Frame(stream[from..to], decode).failed
  {
    hide Frame;
    FramePrefix(stream[from..end], to - from, decode);
    assert stream[from..end][..to - from] == stream[from..to];
  }

  lemma AlignmentGap(stream: seq<Byte>, a: Slice)
    requires a.On(stream)
    ensures FirstGap(stream, [a], a.start) == a.End()
    ensures QueueHolds(stream, [a], a.End(), [])
  {
    forall p ensures Received([a], p) <==> a.Covers(p) {
      ReceivedCons([a], p);
    }
    GapIs(stream, [a], a.start, a.End());
  }

  lemma AlignmentRefines<M>(isn: U32, stream: seq<Byte>, a: Slice, decode: Decoder<M>)
    requires Admissible(isn, stream, [a], decode)
    ensures Reassembled(isn, stream, [a], decode, [])
  {
    hide Frame, FirstGap, Received, QueueHolds;
    AlignmentGap(stream, a);
    OutcomeSnoc(isn, stream, [], a, decode);
    assert [] + [a] == [a];
    SeqAdvance(isn, a.start, a.len);
  }

  /** One arrival on a queue that holds what lies beyond `pos`: the same again, beyond `pos'`. */
  lemma QueueStep(stream: seq<Byte>, earlier: seq<Slice>, pos: nat, before: seq<Slice>, s: Slice)
    requires QueueHolds(stream, earlier, pos, before) && s.On(stream) && InWindow(pos, s)
    ensures AllOn(stream, Enqueue(pos, before, s))
    ensures forall t :: t in Enqueue(pos, before, s) ==> Pending(pos, t)
    ensures var (pos', q') := Drain(pos, Enqueue(pos, before, s)); QueueHolds(stream, earlier + [s], pos', q')
  {
    var queued := Enqueue(pos, before, s);
    EnqueueKeeps(pos, before, s);
    DrainKeeps(pos, queued);
    DrainWithin(stream, pos, queued);
    var (pos', q') := Drain(pos, queued);
    forall p | p >= pos' ensures Received(q', p) <==> Received(earlier + [s], p) {
      ReceivedSnoc(earlier, s, p);
      DrainCovers(pos, queued, p);
    }
  }

  lemma AllOnSnoc(stream: seq<Byte>, q: seq<Slice>, s: Slice)
    requires AllOn(stream, q) && s.On(stream)
    ensures AllOn(stream, q + [s])
  {
  }

  /** One position below or at the point where draining stops. */
  lemma StepReceives(stream: seq<Byte>, earlier: seq<Slice>, from: nat, before: seq<Slice>, s: Slice, p: nat)
    requires AllOn(stream, earlier) && QueueHolds(stream, earlier, FirstGap(stream, earlier, from), before)
    requires from <= p <= Drain(FirstGap(stream, earlier, from), Enqueue(FirstGap(stream, earlier, from), before, s)).0
    ensures Received(earlier + [s], p) <==>
            p < Drain(FirstGap(stream, earlier, from), Enqueue(FirstGap(stream, earlier, from), before, s)).0
  {
    var pos := FirstGap(stream, earlier, from);
    var queued := Enqueue(pos, before, s);
    EnqueueKeeps(pos, before, s);
    ReceivedSnoc(earlier, s, p);
    if p < pos {
      GapReceived(stream, earlier, from, p);
    } else {
      DrainCovers(pos, queued, p);
      DrainKeeps(pos, queued);
    }
  }

  /** The gap moves to where draining stops. */
  lemma GapStep(stream: seq<Byte>, earlier: seq<Slice>, from: nat, before: seq<Slice>, s: Slice)
    requires AllOn(stream, earlier) && s.On(stream)
    requires QueueHolds(stream, earlier, FirstGap(stream, earlier, from), before)
    ensures var pos := FirstGap(stream, earlier, from);
            && AllOn(stream, earlier + [s])
            && FirstGap(stream, earlier + [s], from) == Drain(pos, Enqueue(pos, before, s)).0
  {
    AllOnSnoc(stream, earlier, s);
    EnqueueKeeps(FirstGap(stream, earlier, from), before, s);
    DrainWithin(stream, FirstGap(stream, earlier, from), Enqueue(FirstGap(stream, earlier, from), before, s));
    var pos' := Drain(FirstGap(stream, earlier, from), Enqueue(FirstGap(stream, earlier, from), before, s)).0;
    forall p: int | from <= p <= pos' ensures Received(earlier + [s], p) <==> p < pos' {
      StepReceives(stream, earlier, from, before, s, p);
    }
    GapIs(stream, earlier + [s], from, pos');
  }

  lemma ReceivedSnoc(q: seq<Slice>, s: Slice, p: int)
    ensures Received(q + [s], p) <==> Received(q, p) || s.Covers(p)
  {
    ReceivedInsert(q, |q|, s, p);
    assert InsertAt(q, |q|, s) == q + [s];
  }

  lemma {:induction false} DrainWithin(stream: seq<Byte>, pos: nat, q: seq<Slice>)
    requires pos <= |stream| && forall t :: t in q ==> t.On(stream)
    ensures Drain(pos, q).0 <= |stream|
    decreases |q|
  {
    if q != [] && q[0].start <= pos {
      assert q[0] in q;
      DrainWithin(stream, if q[0].End() <= pos then pos else q[0].End(), q[1..]);
    }
  }

  /** One arrival, on the wire: the same queue step, and framing continues where it stopped. */
  lemma WireStep<M>(isn: U32, stream: seq<Byte>, from: nat, pos: nat, before: seq<Slice>, s: Slice, decode: Decoder<M>)
    requires from <= pos <= |stream| && AllOn(stream, before) && s.On(stream) && InWindow(pos, s)
    requires forall t :: t in before ==> Pending(pos, t)
    requires !Frame(stream[from..pos], decode).failed
    requires AllOn(stream, Enqueue(pos, before, s))
    requires forall t :: t in Enqueue(pos, before, s) ==> Pending(pos, t)
    requires InsertSegment(Waiting(isn, stream, pos, before, Frame(stream[from..pos], decode).rest),
                           Wire(isn, stream, s)).Some?
    ensures var (pos', q') := Drain(pos, Enqueue(pos, before, s));
            && pos' <= |stream| && AllOn(stream, q')
            && (var framed, framed' := Frame(stream[from..pos], decode), Frame(stream[from..pos'], decode);
                var (f, out) := Step(Waiting(isn, stream, pos, before, framed.rest), Wire(isn, stream, s), decode);
                && f == (if framed'.failed then UNALIGNED else Waiting(isn, stream, pos', q', framed'.rest))
                && framed.batches + out == framed'.batches)
  {
    hide Enqueue, InsertSegment, Flush, Drain, WireAll, TotalLen, Frame;
    var framed := Frame(stream[from..pos], decode);
    InsertRefines(isn, stream, pos, before, framed.rest, s);
    var queued := Enqueue(pos, before, s);
    FlushRefines(isn, stream, pos, pos, queued, framed.rest);
    var (pos', q') := Drain(pos, queued);
    assert stream[from..pos] + stream[pos..pos'] == stream[from..pos'];
    ChunkIndependent(stream[from..pos], stream[pos..pos'], decode);
  }

  lemma StepRefines<M>(isn: U32, stream: seq<Byte>, earlier: seq<Slice>, s: Slice, decode: Decoder<M>,
                       before: seq<Slice>)
    returns (q: seq<Slice>)
    requires |earlier| > 0 && AllOn(stream, earlier) && s.On(stream)
    requires InWindow(FirstGap(stream, earlier, earlier[0].start), s)
    requires var gap := FirstGap(stream, earlier + [s], earlier[0].start);
             gap <= |stream| && !Frame(stream[earlier[0].start..gap], decode).failed
    requires !Refused(Outcome(isn, stream, earlier, decode).0, Wire(isn, stream, s))
    requires Reassembled(isn, stream, earlier, decode, before)
    ensures Reassembled(isn, stream, earlier + [s], decode, q)
  {
    var from := earlier[0].start;
    var pos := FirstGap(stream, earlier, from);
    QueueStep(stream, earlier, pos, before, s);
    GapStep(stream, earlier, from, before, s);
    q := Drain(pos, Enqueue(pos, before, s)).1;
    RefusedExactly(Outcome(isn, stream, earlier, decode).0, Wire(isn, stream, s));
    WireStep(isn, stream, from, pos, before, s, decode);
    OutcomeSnoc(isn, stream, earlier, s, decode);
  }

  ghost function TotalBytes(arrivals: seq<Segment>): nat {
    if arrivals == [] then 0
    else TotalBytes(arrivals[..|arrivals| - 1]) + |arrivals[|arrivals| - 1].bytes|
  }

  lemma {:induction false} FlushShrinks(f: Flow)
    ensures Flush(f).queuedBytes <= f.queuedBytes && |Flush(f).segments| <= |f.segments|
    ensures Flush(f).aligned == f.aligned
    decreases |f.segments|
  {
    if CanPop(f) {
      FlushShrinks(Pop(f));
    }
  }

  /** On any input at all, the queue never holds more than what has arrived. */
  lemma {:induction false} QueueBounded<M>(arrivals: seq<Segment>, decode: Decoder<M>)
    ensures var f := Run(UNALIGNED, arrivals, decode).0;
            f.queuedBytes <= TotalBytes(arrivals) && |f.segments| <= |arrivals|
    decreases |arrivals|
  {
    if arrivals != [] {
      var n := |arrivals| - 1;
      QueueBounded(arrivals[..n], decode);
      var inserted := InsertSegment(Run(UNALIGNED, arrivals[..n], decode).0, arrivals[n]);
      if inserted.Some? {
        FlushShrinks(inserted.value);
      }
    }
  }

  /** So a run that is small as a whole never hits the queue limits. */
  lemma SmallRunsFit<M>(arrivals: seq<Segment>, decode: Decoder<M>, k: nat)
    requires k < |arrivals| <= REASSEMBLY_MAX_SEGMENTS
    requires TotalBytes(arrivals[..k + 1]) <= REASSEMBLY_CAPACITY
    ensures !Refused(Run(UNALIGNED, arrivals[..k], decode).0, arrivals[k])
  {
    QueueBounded(arrivals[..k], decode);
    assert arrivals[..k + 1][..k] == arrivals[..k];
  }

  /**
   End to end: when the stream carries length-prefixed payloads from the alignment
   point on and every byte of it has arrived, exactly those payloads were emitted.
   */
  lemma PayloadsRecovered<M>(isn: U32, stream: seq<Byte>, arrivals: seq<Slice>, decode: Decoder<M>,
                             payloads: seq<seq<Byte>>)
    requires |arrivals| > 0 && Admissible(isn, stream, arrivals, decode)
    requires Encodable(payloads) && stream[arrivals[0].start..] == EncodeAll(payloads)
    requires forall i :: 0 <= i < |payloads| ==> decode(payloads[i]).Some?
    requires forall p :: arrivals[0].start <= p < |stream| ==> Received(arrivals, p)
    ensures var (f, out) := Outcome(isn, stream, arrivals, decode);
            && |out| == |payloads|
            && (forall i :: 0 <= i < |out| ==> out[i] == Batch(payloads[i], decode(payloads[i]).value))
            && f == Flow(true, Some(SeqAt(isn, |stream|)), [], 0, [])
  {
    hide *;
    var from := arrivals[0].start;
    AllReceived(isn, stream, arrivals, decode);
    assert stream[from..|stream|] == stream[from..];
    FrameInvertsEncode(payloads, decode);
    var q := ReassemblyRefines(isn, stream, arrivals, decode);
    ReassembledWhole(isn, stream, arrivals, decode, q);
  }

  lemma AllReceived<M>(isn: U32, stream: seq<Byte>, arrivals: seq<Slice>, decode: Decoder<M>)
    requires |arrivals| > 0 && Admissible(isn, stream, arrivals, decode)
    requires forall p :: arrivals[0].start <= p < |stream| ==> Received(arrivals, p)
    ensures arrivals[0].start <= |stream|
    ensures FirstGap(stream, arrivals, arrivals[0].start) == |stream|
  {
    hide Frame, FirstGap;
    assert arrivals[0].On(stream);
    GapIs(stream, arrivals, arrivals[0].start, |stream|);
  }

  lemma ReassembledWhole<M>(isn: U32, stream: seq<Byte>, arrivals: seq<Slice>, decode: Decoder<M>, q: seq<Slice>)
    requires |arrivals| > 0 && Reassembled(isn, stream, arrivals, decode, q)
    requires FirstGap(stream, arrivals, arrivals[0].start) == |stream|
    ensures var framed := Frame(stream[arrivals[0].start..|stream|], decode);
            Outcome(isn, stream, arrivals, decode)
              == (Flow(true, Some(SeqAt(isn, |stream|)), [], 0, framed.rest), framed.batches)
  {
    hide Frame, Outcome, FirstGap;
    assert forall t :: t in q ==> t.On(stream);
    assert WireAll(isn, stream, q) == [];
  }
}
