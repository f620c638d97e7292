/**
 What becomes of a TCP flow when something goes wrong: a byte is lost and the queue
 fills up, or the decoder refuses a batch. In both cases the flow aligns anew.
 */
module TcpRecovery {
  import opened Basics
  import opened Framing
  import opened TcpReassembly

  // ---------- A refused batch ----------

  /**
   As long as nothing is refused, reassembly is as for `ReassemblyRefines`. The
   arrival that completes a batch the decoder refuses still hands on everything
   before that batch, and leaves the flow unaligned with nothing queued.
   */
  lemma BatchRefused<M>(isn: U32, stream: seq<Byte>, earlier: seq<Slice>, s: Slice, decode: Decoder<M>)
    requires |earlier| > 0 && Admissible(isn, stream, earlier, decode) && s.On(stream)
    requires InWindow(FirstGap(stream, earlier, earlier[0].start), s)
    requires !Refused(Outcome(isn, stream, earlier, decode).0, Wire(isn, stream, s))
    requires var gap := FirstGap(stream, earlier + [s], earlier[0].start);
             gap <= |stream| && Frame(stream[earlier[0].start..gap], decode).failed
    ensures var gap := FirstGap(stream, earlier + [s], earlier[0].start);
            Outcome(isn, stream, earlier + [s], decode) ==
            (Flow(false, None, [], 0, []), Frame(stream[earlier[0].start..gap], decode).batches)
  {
    var from := earlier[0].start;
    var pos := FirstGap(stream, earlier, from);
    var before := ReassemblyRefines(isn, stream, earlier, decode);
    hide Frame, Enqueue, Drain, InWindow, Refused, Outcome, FirstGap, Pending, Received, WireAll, TotalLen, Step,
        Admissible;
    StartOn(isn, stream, earlier, decode);
    QueueStep(stream, earlier, pos, before, s);
    GapStep(stream, earlier, from, before, s);
    RefusedExactly(Outcome(isn, stream, earlier, decode).0, Wire(isn, stream, s));
    WireStep(isn, stream, from, pos, before, s, decode);
    OutcomeSnoc(isn, stream, earlier, s, decode);
  }

  lemma StartOn<M>(isn: U32, stream: seq<Byte>, arrivals: seq<Slice>, decode: Decoder<M>)
    requires |arrivals| > 0 && Admissible(isn, stream, arrivals, decode)
    ensures AllOn(stream, arrivals) && arrivals[0].start <= FirstGap(stream, arrivals, arrivals[0].start)
  {
  }

  // ---------- Alignment ----------

  /** A flow that is not aligned holds nothing. */
  lemma {:induction false} UnalignedIsEmpty<M>(arrivals: seq<Segment>, decode: Decoder<M>)
    ensures var f := Run(UNALIGNED, arrivals, decode).0;
            f.aligned || f == Flow(false, None, [], 0, [])
    decreases |arrivals|
  {
    if arrivals != [] {
      var n := |arrivals| - 1;
      UnalignedIsEmpty(arrivals[..n], decode);
      StaysAligned(Run(UNALIGNED, arrivals[..n], decode).0, arrivals[n], decode);
    }
  }

  lemma StaysAligned<M>(f: Flow, s: Segment, decode: Decoder<M>)
    requires f.aligned || f == Flow(false, None, [], 0, [])
    ensures var f' := Step(f, s, decode).0; f'.aligned || f' == Flow(false, None, [], 0, [])
  {
    var inserted := InsertSegment(f, s);
    if inserted.Some? {
      FlushShrinks(inserted.value);
    }
    hide Frame, Flush, CanPop;
  }

  lemma {:induction false} RunConcat<M>(f: Flow, a: seq<Segment>, b: seq<Segment>, decode: Decoder<M>)
    ensures var (mid, out) := Run(f, a, decode);
            var (end, more) := Run(mid, b, decode);
            Run(f, a + b, decode) == (end, out + more)
    decreases |b|
  {
    hide Step;
    if b == [] {
      assert a + b == a;
      var out := Run(f, a, decode).1;
      assert out + [] == out;
    } else {
      var n := |b| - 1;
      assert (a + b)[..|a + b| - 1] == a + b[..n] && (a + b)[|a + b| - 1] == b[n];
      RunConcat(f, a, b[..n], decode);
      var (mid, out) := Run(f, a, decode);
      var part := Run(mid, b[..n], decode).1;
      var last := Step(Run(mid, b[..n], decode).0, b[n], decode).1;
      assert (out + part) + last == out + (part + last);
    }
  }

  /** From a segment on that starts the flow afresh, everything is as on a new flow. */
  lemma {:induction false} RunAfresh<M>(f: Flow, arrivals: seq<Segment>, decode: Decoder<M>)
    requires arrivals != [] && ((f.aligned && Refused(f, arrivals[0])) || f == Flow(false, None, [], 0, []))
    ensures Run(f, arrivals, decode) == Run(Flow(false, None, [], 0, []), arrivals, decode)
    decreases |arrivals|
  {
    hide Step, Refused;
    if |arrivals| == 1 {
      RefusedStartsAfresh(f, arrivals[0], decode);
      RefusedStartsAfresh(Flow(false, None, [], 0, []), arrivals[0], decode);
      assert arrivals[..0] == [];
    } else {
      RunAfresh(f, arrivals[..|arrivals| - 1], decode);
    }
  }

  /**
   Whatever a flow has been through, bytes lost by the capture included: if it is
   unaligned or its queue is too full for the first of these slices, then once every
   byte from there on has arrived, all the payloads from there on have come out.
   */
  lemma RecoversAfterLoss<M>(past: seq<Segment>, isn: U32, stream: seq<Byte>, arrivals: seq<Slice>, decode: Decoder<M>,
                             payloads: seq<seq<Byte>>)
    requires |arrivals| > 0 && Admissible(isn, stream, arrivals, decode)
    requires Run(UNALIGNED, past, decode).0.aligned ==>
               Refused(Run(UNALIGNED, past, decode).0, Wire(isn, stream, arrivals[0]))
    requires Encodable(payloads) && stream[arrivals[0].start..] == EncodeAll(payloads)
    requires forall i :: 0 <= i < |payloads| ==> decode(payloads[i]).Some?
    requires forall p :: arrivals[0].start <= p < |stream| ==> Received(arrivals, p)
    ensures var out := Run(UNALIGNED, past + WireAll(isn, stream, arrivals), decode).1;
            var earlier := Run(UNALIGNED, past, decode).1;
            && |out| == |earlier| + |payloads| && out[..|earlier|] == earlier
            && (forall i :: 0 <= i < |payloads| ==> out[|earlier| + i] == Batch(payloads[i], decode(payloads[i]).value))
  {
    hide Admissible, Run, Refused, Received, Wire, EncodeAll;
    var (f, earlier) := Run(UNALIGNED, past, decode);
    var wired := WireAll(isn, stream, arrivals);
    assert wired[0] == Wire(isn, stream, arrivals[0]);
    UnalignedIsEmpty(past, decode);
    RunConcat(UNALIGNED, past, wired, decode);
    RunAfresh(f, wired, decode);
    PayloadsRecovered(isn, stream, arrivals, decode, payloads);
  }

  // ---------- Such a run ----------

  /** One byte at every second position from 10 on: what follows bytes 4 to 9, which are lost. */
  function Beyond(n: nat): seq<Segment>
    requires n <= 4096
  {
    seq(n, i requires 0 <= i < n => Segment(10 + 2 * i, [0]))
  }

  /** A batch and the first byte of the next, of which the rest is lost. */
  const FIRST := Segment(0, [1, 0, 7, 1])
  const LATER := Segment(100_000, [1, 0, 7])

  function Stuck(n: nat): Flow
    requires n <= 4096
  {
    Flow(true, Some(4), Beyond(n), n, [1])
  }

  lemma FirstAligns<M>(decode: Decoder<M>)
    requires decode([7]).Some?
    ensures Step(UNALIGNED, FIRST, decode) == (Stuck(0), [Batch([7], decode([7]).value)])
    ensures Afresh(LATER, decode) == (Flow(true, Some(100_003), [], 0, []), [Batch([7], decode([7]).value)])
  {
    var batches := [Batch([7], decode([7]).value)];
    var first: seq<Byte>, later: seq<Byte> := [1, 0, 7, 1], [1, 0, 7];
    assert HasBatch(first) && FirstPayload(first) == [7] && AfterFirst(first) == [1];
    assert HasBatch(later) && FirstPayload(later) == [7] && AfterFirst(later) == [];
    assert !HasBatch([1]) && !HasBatch([]);
    assert Frame([1], decode) == Framed([], [1], false) && Frame([], decode) == Framed([], [], false);
    assert batches + [] == batches;
    assert Frame(first, decode) == Framed(batches, [1], false);
    assert Beyond(0) == [];
    assert Frame(later, decode) == Framed(batches, [], false);
  }

  lemma BeyondInOrder(n: nat)
    requires n < 4096
    ensures var s := Segment(10 + 2 * n, [0]); !SeqLte(SegmentEnd(s), 4)
    ensures forall i :: 0 <= i < n ==> SeqLte(10 + 2 * i, 10 + 2 * n) && 10 + 2 * i != 10 + 2 * n
  {
  }

  /** What waits behind the gap stays, and the first byte of a batch is no batch. */
  lemma StuckWaits<M>(n: nat, decode: Decoder<M>)
    requires 0 < n <= 4096
    ensures Flush(Stuck(n)) == Stuck(n) && Frame([1], decode) == Framed([], [1], false)
  {
    assert SeqAfter(Beyond(n)[0].seqNo, 4);
    assert !CanPop(Stuck(n));
    assert !HasBatch([1]);
  }

  /** The queue of a stuck flow takes one more byte at its end. */
  lemma StuckInserts(n: nat)
    requires n < 4096
    ensures InsertSegment(Stuck(n), Segment(10 + 2 * n, [0])) == Some(Stuck(n + 1))
  {
    var s := Segment(10 + 2 * n, [0]);
    BeyondInOrder(n);
    hide SeqLte, SegmentEnd;
    var before := (t: Segment) => SeqLte(t.seqNo, s.seqNo);
    assert forall i :: 0 <= i < n ==> before(Beyond(n)[i]);
    assert PartitionPoint(Beyond(n), before) == n;
    assert InsertAt(Beyond(n), n, s) == Beyond(n + 1);
  }

  lemma StuckStep<M>(n: nat, decode: Decoder<M>)
    requires n < 4096
    ensures Step(Stuck(n), Segment(10 + 2 * n, [0]), decode) == (Stuck(n + 1), [])
  {
    StuckInserts(n);
    StuckWaits(n + 1, decode);
    hide InsertSegment, Beyond, Flush, Frame;
  }

  lemma {:induction false} StuckRun<M>(n: nat, decode: Decoder<M>)
    requires n <= 4096 && decode([7]).Some?
    ensures Run(UNALIGNED, [FIRST] + Beyond(n), decode) == (Stuck(n), [Batch([7], decode([7]).value)])
    decreases n
  {
    hide Step, Stuck;
    var batches := [Batch([7], decode([7]).value)];
    var arrivals := [FIRST] + Beyond(n);
    if n == 0 {
      FirstAligns(decode);
      assert arrivals[..0] == [] && [] + batches == batches;
    } else {
      assert arrivals[..n] == [FIRST] + Beyond(n - 1);
      StuckRun(n - 1, decode);
      StuckStep(n - 1, decode);
      assert batches + [] == batches;
    }
  }

  /**
   Bytes 4 to 9 are lost. The flow queues 4096 segments behind the gap and hands on
   nothing; the next one fills no gap, but makes the flow start afresh, and its
   batch comes out.
   */
  lemma StuckRecovers<M>(decode: Decoder<M>)
    requires decode([7]).Some?
    ensures var batch := Batch([7], decode([7]).value);
            && Run(UNALIGNED, [FIRST] + Beyond(4096), decode).1 == [batch]
            && Run(UNALIGNED, [FIRST] + Beyond(4096) + [LATER], decode) ==
               (Flow(true, Some(100_003), [], 0, []), [batch, batch])
  {
    hide Step, Stuck, Afresh;
    var past := [FIRST] + Beyond(4096);
    StuckRun(4096, decode);
    LaterRefused();
    FirstAligns(decode);
    RefusedStartsAfresh(Stuck(4096), LATER, decode);
    assert (past + [LATER])[..|past|] == past;
    var batch := Batch([7], decode([7]).value);
    assert [batch] + [batch] == [batch, batch];
  }

  lemma LaterRefused()
    ensures Refused(Stuck(4096), LATER) && Stuck(4096).aligned
  {
  }
}
