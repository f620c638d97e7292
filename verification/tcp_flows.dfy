/**
 The TCP flows of the Zenoh processor: a table of reassembly states, bounded by
 dropping the oldest flow. `Process` says what one packet does to it, with its SYN,
 FIN and RST flags; the theorems say that flows do not disturb each other.
 */
module TcpFlows {
  import opened Basics
  import opened FifoOrder
  import opened FlowTables
  import opened Framing
  import opened ZenohFlows
  import opened TcpReassembly

  datatype Packet = Packet(flow: FlowTuple, sequence: U32, syn: bool, fin: bool, rst: bool, payload: seq<Byte>)

  type Table = FlowTables.Table<FlowTuple, Flow>

  /** A SYN takes one sequence number before the payload. */
  function SegmentOf(p: Packet): Segment {
    Segment(WrappingAdd(p.sequence, if p.syn then 1 else 0), p.payload)
  }

  function FlowIn(t: Table, flow: FlowTuple): Flow {
    if flow in t.flows then t.flows[flow] else UNALIGNED
  }

  /** The table after one packet, and the batches it completes. */
  ghost function Process<M>(t: Table, capacity: nat, p: Packet, decode: Decoder<M>): (Table, seq<Batch<M>>) {
    if p.rst then (Remove(t, p.flow), [])
    else if p.payload == [] then (if p.fin then Remove(t, p.flow) else t, [])
    else
      var entered := Enter(t, capacity, p.flow, UNALIGNED);
      var (f, out) := Step(FlowIn(entered, p.flow), SegmentOf(p), decode);
      var after := entered.(flows := entered.flows[p.flow := f]);
      (if p.fin then Remove(after, p.flow) else after, out)
  }

  // ---------- What every packet keeps ----------

  /** The order lists exactly the flows, at most `capacity` of them. */
  lemma ProcessKeeps<M>(t: Table, capacity: nat, p: Packet, decode: Decoder<M>)
    requires Bounded(t, capacity) && capacity > 0
    ensures Bounded(Process(t, capacity, p, decode).0, capacity)
  {
    hide Bounded, Enter, Remove, Step;
    BoundedRemove(t, capacity, p.flow);
    BoundedEnter(t, capacity, p.flow, UNALIGNED);
    var entered := Enter(t, capacity, p.flow, UNALIGNED);
    var f := Step(FlowIn(entered, p.flow), SegmentOf(p), decode).0;
    BoundedSet(entered, capacity, p.flow, f);
    BoundedRemove(entered.(flows := entered.flows[p.flow := f]), capacity, p.flow);
  }

  // ---------- Whole runs ----------

  ghost predicate IsRun<M>(capacity: nat, packets: seq<Packet>, tables: seq<Table>, outs: seq<seq<Batch<M>>>,
                           decode: Decoder<M>) {
    && |tables| == |packets| + 1 && |outs| == |packets|
    && Bounded(tables[0], capacity)
    && (forall i :: 0 <= i < |packets| ==> Process(tables[i], capacity, packets[i], decode) == (tables[i + 1], outs[i]))
  }

  /** The packet brings a segment to the flow. */
  predicate Carries(p: Packet, flow: FlowTuple) {
    p.flow == flow && !p.rst && p.payload != []
  }

  /** The packet ends the flow. */
  predicate Ends(p: Packet, flow: FlowTuple) {
    p.flow == flow && (p.rst || p.fin)
  }

  /** The segments that packets bring to a flow, in order. */
  ghost function Segments(packets: seq<Packet>, flow: FlowTuple): seq<Segment> {
    if packets == [] then []
    else
      var last := packets[|packets| - 1];
      Segments(packets[..|packets| - 1], flow) + if Carries(last, flow) then [SegmentOf(last)] else []
  }

  /** The batches that come out at the packets of a flow. */
  ghost function Output<M>(packets: seq<Packet>, outs: seq<seq<Batch<M>>>, flow: FlowTuple): seq<Batch<M>>
    requires |outs| == |packets|
  {
    if packets == [] then []
    else
      var n := |packets| - 1;
      Output(packets[..n], outs[..n], flow) + if packets[n].flow == flow then outs[n] else []
  }

  /** The other flows for which segments arrive. */
  ghost function Rivals(packets: seq<Packet>, flow: FlowTuple): set<FlowTuple> {
    set i | 0 <= i < |packets| && packets[i].flow != flow && Carries(packets[i], packets[i].flow) :: packets[i].flow
  }

  /** A flow outlasts the packets of others while fewer of them bring segments than the table has places. */
  lemma OthersKeep<M>(t: Table, capacity: nat, p: Packet, decode: Decoder<M>, flow: FlowTuple, later: set<FlowTuple>)
    requires Bounded(t, capacity) && OnlyBehind(t.order, flow, later) && |later| < capacity
    requires p.flow != flow && (Carries(p, p.flow) ==> p.flow in later)
    ensures var t' := Process(t, capacity, p, decode).0;
            && (flow in t'.flows <==> flow in t.flows) && FlowIn(t', flow) == FlowIn(t, flow)
            && OnlyBehind(t'.order, flow, later)
  {
    hide Bounded, Enter, Remove, OnlyBehind, Step;
    RemovePlace(t, capacity, p.flow, flow, later);
    RemoveOthers(t, p.flow, flow);
    if Carries(p, p.flow) {
      BoundedEnter(t, capacity, p.flow, UNALIGNED);
      EnterOthers(t, capacity, p.flow, UNALIGNED, flow, later);
      var entered := Enter(t, capacity, p.flow, UNALIGNED);
      var f := Step(FlowIn(entered, p.flow), SegmentOf(p), decode).0;
      var after := entered.(flows := entered.flows[p.flow := f]);
      BoundedSet(entered, capacity, p.flow, f);
      RemovePlace(after, capacity, p.flow, flow, later);
      RemoveOthers(after, p.flow, flow);
    }
  }

  lemma RemoveOthers(t: Table, other: FlowTuple, flow: FlowTuple)
    requires other != flow
    ensures var t' := Remove(t, other);
            (flow in t'.flows <==> flow in t.flows) && FlowIn(t', flow) == FlowIn(t, flow)
  {
  }

  /**
   Another flow's packet costs a flow its state if and only if it brings a segment
   for a new flow to a full table whose oldest flow this is.
   */
  lemma LostToAnother<M>(t: Table, capacity: nat, p: Packet, decode: Decoder<M>, flow: FlowTuple)
    requires Bounded(t, capacity) && flow in t.flows && p.flow != flow
    ensures flow !in Process(t, capacity, p, decode).0.flows <==>
            Carries(p, p.flow) && p.flow !in t.flows && |t.flows| == capacity && t.order[0] == flow
  {
    hide Unlist, Step, Lists;
    LostOnEnter(t, capacity, p.flow, UNALIGNED, flow);
    ListsSize(t.order, t.flows);
  }

  /** A packet of the flow itself steps its state and hands on what the step completes. */
  lemma OwnStep<M>(t: Table, capacity: nat, p: Packet, decode: Decoder<M>, flow: FlowTuple, later: set<FlowTuple>)
    requires Bounded(t, capacity) && OnlyBehind(t.order, flow, later) && capacity > 0 && p.flow == flow
    ensures var (t', out) := Process(t, capacity, p, decode);
            && OnlyBehind(t'.order, flow, later)
            && (Carries(p, flow) ==> out == Step(FlowIn(t, flow), SegmentOf(p), decode).1)
            && (Carries(p, flow) && !p.fin ==> FlowIn(t', flow) == Step(FlowIn(t, flow), SegmentOf(p), decode).0)
            && (!Carries(p, flow) ==> out == [])
            && (!Carries(p, flow) && !Ends(p, flow) ==> t' == t)
            && (Ends(p, flow) ==> flow !in t'.flows)
  {
    hide Bounded, Enter, OnlyBehind, Step, Unlist;
    RemovePlace(t, capacity, flow, flow, later);
    BoundedEnter(t, capacity, flow, UNALIGNED);
    EnterPlace(t, capacity, flow, UNALIGNED, later);
    var entered := Enter(t, capacity, flow, UNALIGNED);
    var f := Step(FlowIn(entered, flow), SegmentOf(p), decode).0;
    BoundedSet(entered, capacity, flow, f);
    RemovePlace(entered.(flows := entered.flows[flow := f]), capacity, flow, flow, later);
  }

  lemma RunAt<M>(capacity: nat, packets: seq<Packet>, tables: seq<Table>, outs: seq<seq<Batch<M>>>, decode: Decoder<M>,
                 i: nat)
    requires IsRun(capacity, packets, tables, outs, decode) && i < |packets|
    ensures |tables| == |packets| + 1 && |outs| == |packets|
    ensures Process(tables[i], capacity, packets[i], decode) == (tables[i + 1], outs[i])
  {
    hide Process, Bounded;
  }

  lemma {:induction false} RunBounded<M>(capacity: nat, packets: seq<Packet>, tables: seq<Table>,
                                            outs: seq<seq<Batch<M>>>,
                                            decode: Decoder<M>, i: nat)
    requires IsRun(capacity, packets, tables, outs, decode) && i <= |packets| && capacity > 0
    ensures Bounded(tables[i], capacity)
  {
    hide Process, Bounded;
    if i > 0 {
      RunBounded(capacity, packets, tables, outs, decode, i - 1);
      RunAt(capacity, packets, tables, outs, decode, i - 1);
      ProcessKeeps(tables[i - 1], capacity, packets[i - 1], decode);
    }
  }

  lemma SegmentsSnoc(earlier: seq<Packet>, p: Packet, flow: FlowTuple)
    ensures Segments(earlier + [p], flow) == Segments(earlier, flow) + if Carries(p, flow) then [SegmentOf(p)] else []
  {
    assert (earlier + [p])[..|earlier|] == earlier;
  }

  lemma RunSnoc<M>(segments: seq<Segment>, s: Segment, decode: Decoder<M>)
    ensures var (f, out) := Run(UNALIGNED, segments, decode);
            var (f', out') := Step(f, s, decode);
            Run(UNALIGNED, segments + [s], decode) == (f', out + out')
  {
    hide Step;
    assert (segments + [s])[..|segments|] == segments;
  }

  lemma RivalAt(packets: seq<Packet>, flow: FlowTuple, i: nat, n: nat)
    requires i < n <= |packets| && packets[i].flow != flow && Carries(packets[i], packets[i].flow)
    ensures packets[i].flow in Rivals(packets[..n], flow)
  {
    assert packets[..n][i] == packets[i];
  }

  lemma OutputSnoc<M>(packets: seq<Packet>, outs: seq<seq<Batch<M>>>, flow: FlowTuple, n: nat)
    requires |outs| == |packets| && n < |packets|
    ensures Output(packets[..n + 1], outs[..n + 1], flow) ==
            Output(packets[..n], outs[..n], flow) + if packets[n].flow == flow then outs[n] else []
  {
    assert packets[..n + 1][..n] == packets[..n] && outs[..n + 1][..n] == outs[..n];
  }

  lemma NothingYet(t: Table, capacity: nat, flow: FlowTuple, later: set<FlowTuple>)
    requires Bounded(t, capacity) && flow !in t.flows
    ensures OnlyBehind(t.order, flow, later) && FlowIn(t, flow) == UNALIGNED
  {
    NotListed(t, capacity, flow, later);
  }

  /** What one more packet makes of the isolation of a flow. */
  ghost predicate Isolated<M>(t: Table, packets: seq<Packet>, outs: seq<seq<Batch<M>>>, flow: FlowTuple,
                              later: set<FlowTuple>,
                              decode: Decoder<M>)
    requires |outs| == |packets|
  {
    && OnlyBehind(t.order, flow, later)
    && Run(UNALIGNED, Segments(packets, flow), decode) == (FlowIn(t, flow), Output(packets, outs, flow))
  }

  /** Up to its end, a flow is as if it were alone: its state and its batches are those of its own segments. */
  lemma {:induction false} FlowAlone<M>(
    capacity: nat, packets: seq<Packet>, tables: seq<Table>, outs: seq<seq<Batch<M>>>, decode: Decoder<M>,
    flow: FlowTuple, n: nat, last: nat)
    requires IsRun(capacity, packets, tables, outs, decode) && flow !in tables[0].flows
    requires n <= last <= |packets| && |Rivals(packets[..last], flow)| < capacity
    requires forall i :: 0 <= i < n ==> !Ends(packets[i], flow)
    ensures Isolated(tables[n], packets[..n], outs[..n], flow, Rivals(packets[..last], flow), decode)
  {
    hide Process, Bounded, Run, Step, Segments, Output, Rivals, OnlyBehind, FlowIn, Carries, Ends;
    var later := Rivals(packets[..last], flow);
    if n == 0 {
      NothingYet(tables[0], capacity, flow, later);
      RunNothing(packets, outs, flow, decode);
    } else {
      FlowAlone(capacity, packets, tables, outs, decode, flow, n - 1, last);
      RunAt(capacity, packets, tables, outs, decode, n - 1);
      RunBounded(capacity, packets, tables, outs, decode, n - 1);
      var t, p, earlier := tables[n - 1], packets[n - 1], packets[..n - 1];
      assert packets[..n] == earlier + [p];
      SegmentsSnoc(earlier, p, flow);
      OutputSnoc(packets, outs, flow, n - 1);
      assert !Ends(p, flow);
      if p.flow == flow {
        OwnStep(t, capacity, p, decode, flow, later);
        RunSnoc(Segments(earlier, flow), SegmentOf(p), decode);
        EndsByFin(p, flow);
      } else {
        NotCarried(p, flow);
        if Carries(p, p.flow) {
          RivalAt(packets, flow, n - 1, last);
        }
        OthersKeep(t, capacity, p, decode, flow, later);
      }
      AppendNothing(Segments(earlier, flow), Output(earlier, outs[..n - 1], flow));
    }
  }

  lemma RunNothing<M>(packets: seq<Packet>, outs: seq<seq<Batch<M>>>, flow: FlowTuple, decode: Decoder<M>)
    requires |outs| == |packets|
    ensures Run(UNALIGNED, Segments(packets[..0], flow), decode) == (UNALIGNED, Output(packets[..0], outs[..0], flow))
  {
  }

  lemma EndsByFin(p: Packet, flow: FlowTuple)
    requires p.flow == flow && !Ends(p, flow)
    ensures !p.fin
  {
  }

  lemma NotCarried(p: Packet, flow: FlowTuple)
    requires p.flow != flow
    ensures !Carries(p, flow)
  {
  }

  lemma AppendNothing<S, T>(s: seq<S>, t: seq<T>)
    ensures s + [] == s && t + [] == t
  {
  }

  /**
   Flows do not disturb each other: whatever arrives on other flows in between, as
   long as fewer of them bring segments than the table has places, the batches that
   come out at the packets of a flow are those of its own segments, up to and
   including a packet that ends it.
   */
  lemma FlowIsolated<M>(
    capacity: nat, packets: seq<Packet>, tables: seq<Table>, outs: seq<seq<Batch<M>>>, decode: Decoder<M>,
        flow: FlowTuple)
    requires IsRun(capacity, packets, tables, outs, decode) && flow !in tables[0].flows
    requires |Rivals(packets, flow)| < capacity
    requires forall i :: 0 <= i < |packets| - 1 ==> !Ends(packets[i], flow)
    ensures |outs| == |packets|
    ensures Output(packets, outs, flow) == Run(UNALIGNED, Segments(packets, flow), decode).1
  {
    hide Process, Bounded, Run, Step, Segments, Output, Rivals, OnlyBehind, FlowIn, Carries, Ends;
    if packets == [] {
      RunNothing(packets, outs, flow, decode);
    } else {
      var n := |packets| - 1;
      var t, p, earlier := tables[n], packets[n], packets[..n];
      assert packets[..|packets|] == packets && outs[..|packets|] == outs;
      FlowAlone(capacity, packets, tables, outs, decode, flow, n, |packets|);
      RunAt(capacity, packets, tables, outs, decode, n);
      RunBounded(capacity, packets, tables, outs, decode, n);
      assert packets == earlier + [p];
      SegmentsSnoc(earlier, p, flow);
      OutputSnoc(packets, outs, flow, n);
      AppendNothing(Segments(earlier, flow), Output(earlier, outs[..n], flow));
      if p.flow == flow {
        OwnStep(t, capacity, p, decode, flow, Rivals(packets, flow));
        RunSnoc(Segments(earlier, flow), SegmentOf(p), decode);
      } else {
        NotCarried(p, flow);
      }
    }
  }

  /**
   End to end for one flow among many: its segments are slices of a stream of
   length-prefixed payloads and all bytes have arrived, so exactly those payloads
   have come out at its packets.
   */
  lemma PayloadsRecoveredAmongMany<M>(
    capacity: nat, packets: seq<Packet>, tables: seq<Table>, outs: seq<seq<Batch<M>>>, decode: Decoder<M>,
        flow: FlowTuple,
    isn: U32, stream: seq<Byte>, arrivals: seq<Slice>, payloads: seq<seq<Byte>>)
    requires IsRun(capacity, packets, tables, outs, decode) && flow !in tables[0].flows
    requires |Rivals(packets, flow)| < capacity
    requires forall i :: 0 <= i < |packets| - 1 ==> !Ends(packets[i], flow)
    requires Segments(packets, flow) == WireAll(isn, stream, arrivals)
    requires |arrivals| > 0 && Admissible(isn, stream, arrivals, decode)
    requires Encodable(payloads) && stream[arrivals[0].start..] == EncodeAll(payloads)
    requires forall i :: 0 <= i < |payloads| ==> decode(payloads[i]).Some?
    requires forall p :: arrivals[0].start <= p < |stream| ==> Received(arrivals, p)
    ensures |outs| == |packets|
    ensures var out := Output(packets, outs, flow);
            && |out| == |payloads|
            && forall i :: 0 <= i < |out| ==> out[i] == Batch(payloads[i], decode(payloads[i]).value)
  {
    FlowIsolated(capacity, packets, tables, outs, decode, flow);
    PayloadsRecovered(isn, stream, arrivals, decode, payloads);
    hide Process, Bounded, Run, Segments, Output, Rivals, Admissible, WireAll;
  }

  // ---------- How many flows it takes ----------

  /** A batch and the first byte of another, and the rest of that one. */
  const HEAD: seq<Byte> := [1, 0, 7, 1]
  const TAIL: seq<Byte> := [0, 8]

  function Brings(flow: FlowTuple, sequence: U32, payload: seq<Byte>): Packet {
    Packet(flow, sequence, false, false, false, payload)
  }

  /** A flow begins, others begin, and the flow goes on. */
  function Crowd(flow: FlowTuple, others: seq<FlowTuple>): seq<Packet> {
    [Brings(flow, 0, HEAD)] + seq(|others|, i requires 0 <= i < |others| => Brings(others[i], 0, HEAD))
    + [Brings(flow, 4, TAIL)]
  }

  /** What a flow is after the first segment. */
  const BEGUN := TcpReassembly.Flow(true, Some(4 as U32), [], 0, [1 as Byte])

  ghost predicate Accepts<M>(decode: Decoder<M>) {
    decode([7]).Some? && decode([8]).Some?
  }

  /** The first segment holds one batch. */
  lemma HeadStep<M>(decode: Decoder<M>)
    requires Accepts(decode)
    ensures Step(UNALIGNED, Segment(0, HEAD), decode) == (BEGUN, [Batch([7], decode([7]).value)])
  {
    assert HasBatch(HEAD) && FirstPayload(HEAD) == [7] && AfterFirst(HEAD) == [1];
    var batches := [Batch([7], decode([7]).value)];
    assert !HasBatch([1]);
    assert Frame([1], decode) == Framed([], [1], false);
    assert batches + [] == batches;
    assert Frame(HEAD, decode) == Framed(batches, [1], false);
  }

  /** The second completes another; where no flow is, nothing. */
  lemma TailStep<M>(decode: Decoder<M>)
    requires Accepts(decode)
    ensures Step(BEGUN, Segment(4, TAIL), decode).1 == [Batch([8], decode([8]).value)]
    ensures Step(UNALIGNED, Segment(4, TAIL), decode).1 == []
  {
    var s := Segment(4, TAIL);
    assert !HasBatch(TAIL);
    var queued := TcpReassembly.Flow(true, Some(4 as U32), [s], 2, [1]);
    assert SegmentEnd(s) == 6 && !SeqLte(6, 4);
    assert InsertAt([], 0, s) == [s];
    assert InsertSegment(BEGUN, s) == Some(queued);
    var whole: seq<Byte> := [1, 0, 8];
    assert [1] + TAIL == whole;
    assert Pop(queued) == TcpReassembly.Flow(true, Some(6 as U32), [], 0, whole);
    assert Flush(queued) == Pop(queued);
    assert FirstPayload(whole) == [8] && AfterFirst(whole) == [];
    assert Frame([], decode) == Framed([], [], false);
  }

  lemma CrowdAt(flow: FlowTuple, others: seq<FlowTuple>)
    ensures var packets := Crowd(flow, others);
            && |packets| == |others| + 2 && packets[0] == Brings(flow, 0, HEAD)
            && (forall i :: 1 <= i <= |others| ==> packets[i] == Brings(others[i - 1], 0, HEAD))
            && packets[|others| + 1] == Brings(flow, 4, TAIL)
  {
  }

  /** A flow that begins, in a table of flows that have. */
  lemma BeginStep<M>(order: seq<FlowTuple>, capacity: nat, flow: FlowTuple, decode: Decoder<M>)
    requires Accepts(decode) && NoDuplicates(order) && flow !in order
    ensures Process(Alike(order, BEGUN), capacity, Brings(flow, 0, HEAD), decode)
         == (Alike(Left(order, capacity) + [flow], BEGUN), [Batch([7], decode([7]).value)])
    ensures Process(Alike(order, BEGUN), capacity, Brings(flow, 4, TAIL), decode).1 == []
  {
    AlikeEnter(order, BEGUN, capacity, flow, UNALIGNED);
    HeadStep(decode);
    TailStep(decode);
    hide Step, Enter, Alike, Left;
  }

  /** Up to the last of its packets, every flow that entered last stands in the table. */
  lemma {:induction false} CrowdTables<M>(flow: FlowTuple, others: seq<FlowTuple>, tables: seq<Table>,
                                          outs: seq<seq<Batch<M>>>, decode: Decoder<M>, n: nat)
    requires Accepts(decode) && NoDuplicates(others) && flow !in others && n <= |others|
    requires IsRun(|others|, Crowd(flow, others), tables, outs, decode) && tables[0] == Table(map[], [])
    requires others != []
    ensures |tables| == |others| + 3 && |outs| == |others| + 2
    ensures tables[n + 1] == Alike(Crowding(flow, others, n), BEGUN)
    ensures outs[0] == [Batch([7], decode([7]).value)]
    decreases n
  {
    hide Process, Crowd;
    CrowdAt(flow, others);
    RunAt(|others|, Crowd(flow, others), tables, outs, decode, n);
    if n == 0 {
      assert tables[0] == Alike([], BEGUN);
      BeginStep([], |others|, flow, decode);
      assert [] + [flow] == [flow] + others[..0];
    } else {
      CrowdTables(flow, others, tables, outs, decode, n - 1);
      CrowdingStep(flow, others, n - 1);
      BeginStep(Crowding(flow, others, n - 1), |others|, others[n - 1], decode);
    }
  }

  /** Until the last packet, only the first one brings the flow anything. */
  lemma {:induction false} CrowdBrings<M>(flow: FlowTuple, others: seq<FlowTuple>, outs: seq<seq<Batch<M>>>, n: nat)
    requires flow !in others && 0 < n < |Crowd(flow, others)| == |outs|
    ensures var packets := Crowd(flow, others);
            && Segments(packets[..n], flow) == [Segment(0, HEAD)]
            && Output(packets[..n], outs[..n], flow) == outs[0]
    decreases n
  {
    hide Segments, Output, Crowd;
    CrowdAt(flow, others);
    var packets := Crowd(flow, others);
    var m := n - 1;
    assert packets[..n] == packets[..m] + [packets[m]];
    SegmentsSnoc(packets[..m], packets[m], flow);
    OutputSnoc(packets, outs, flow, m);
    if m == 0 {
      NothingBrought(packets, outs, flow);
      assert [] + outs[0] == outs[0];
    } else {
      CrowdBrings(flow, others, outs, m);
      assert packets[m] == Brings(others[m - 1], 0, HEAD);
      AppendNothing(Segments(packets[..m], flow), outs[0]);
    }
  }

  lemma NothingBrought<M>(packets: seq<Packet>, outs: seq<seq<Batch<M>>>, flow: FlowTuple)
    requires |outs| == |packets|
    ensures Segments(packets[..0], flow) == [] && Output(packets[..0], outs[..0], flow) == []
  {
  }

  /** The rivals in the crowd are the others. */
  lemma CrowdRivals(flow: FlowTuple, others: seq<FlowTuple>)
    requires NoDuplicates(others) && flow !in others
    ensures |Rivals(Crowd(flow, others), flow)| == |others|
    ensures forall i :: 0 <= i < |others| + 2 ==> !Ends(Crowd(flow, others)[i], flow)
  {
    hide Crowd;
    CrowdAt(flow, others);
    var packets := Crowd(flow, others);
    assert Rivals(packets, flow) == set k | k in others by {
      forall k | k in others ensures k in Rivals(packets, flow) {
        var n :| 0 <= n < |others| && others[n] == k;
        assert packets[n + 1].flow == k;
      }
    }
    AlikeSize(others, BEGUN);
  }

  /**
   Fewer rivals than places is the most that can be allowed: for every number of
   places, as many other flows that begin after this one has cost it its place, and
   what comes out at its packets is not what its segments hold.
   */
  lemma CrowdedOut<M>(flow: FlowTuple, others: seq<FlowTuple>, tables: seq<Table>, outs: seq<seq<Batch<M>>>,
                      decode: Decoder<M>)
    requires Accepts(decode) && NoDuplicates(others) && flow !in others && others != []
    requires IsRun(|others|, Crowd(flow, others), tables, outs, decode) && tables[0] == Table(map[], [])
    ensures |Rivals(Crowd(flow, others), flow)| == |others|
    ensures forall i :: 0 <= i < |Crowd(flow, others)| ==> !Ends(Crowd(flow, others)[i], flow)
    ensures |outs| == |Crowd(flow, others)|
    ensures var first, second := Batch([7], decode([7]).value), Batch([8], decode([8]).value);
            && Run(UNALIGNED, Segments(Crowd(flow, others), flow), decode).1 == [first, second]
            && Output(Crowd(flow, others), outs, flow) == [first]
  {
    hide Process, Crowd, Segments, Output, Rivals, Step, Run;
    var packets, n := Crowd(flow, others), |others| + 1;
    CrowdAt(flow, others);
    CrowdRivals(flow, others);
    CrowdTables(flow, others, tables, outs, decode, n - 1);
    CrowdBrings(flow, others, outs, n);
    RunAt(n - 1, packets, tables, outs, decode, n);
    BeginStep(others, n - 1, flow, decode);
    assert packets[..n] + [packets[n]] == packets == packets[..n + 1] && outs[..n + 1] == outs;
    SegmentsSnoc(packets[..n], packets[n], flow);
    OutputSnoc(packets, outs, flow, n);
    HeadStep(decode);
    TailStep(decode);
    RunNone(decode);
    RunSnoc([], Segment(0, HEAD), decode);
    assert [] + [Segment(0, HEAD)] == [Segment(0, HEAD)];
    RunSnoc([Segment(0, HEAD)], Segment(4, TAIL), decode);
    AppendNothing(Output(packets[..n], outs[..n], flow), [Segment(0, HEAD)]);
  }

  lemma RunNone<M>(decode: Decoder<M>)
    ensures Run(UNALIGNED, [], decode) == (UNALIGNED, [])
  {
  }

  // ---------- The table as an object ----------

  /** Every flow has a state object of its own, which stands for its value. */
  ghost predicate Stand(flows: map<FlowTuple, TcpFlowState>, values: map<FlowTuple, Flow>)
    reads flows.Values
  {
    && flows.Keys == values.Keys
    && (forall k :: k in flows ==> flows[k].State() == values[k])
    && (forall j, k :: j in flows && k in flows && j != k ==> flows[j] != flows[k])
  }

  lemma StandRemove(flows: map<FlowTuple, TcpFlowState>, t: Table, flow: FlowTuple)
    requires Stand(flows, t.flows)
    ensures Stand(flows - {flow}, Remove(t, flow).flows) && Remove(t, flow).order == Unlist(t.order, flow)
    ensures (flows - {flow}).Values <= flows.Values
  {
  }

  lemma StandAdd(flows: map<FlowTuple, TcpFlowState>, values: map<FlowTuple, Flow>, flow: FlowTuple,
                 state: TcpFlowState)
    requires Stand(flows, values) && state !in flows.Values && state.State() == UNALIGNED && flow !in flows
    ensures Stand(flows[flow := state], values[flow := UNALIGNED])
    ensures flows[flow := state].Values <= flows.Values + {state}
  {
  }

  ghost function Others(flows: map<FlowTuple, TcpFlowState>, flow: FlowTuple): set<TcpFlowState> {
    set k | k in flows && k != flow :: flows[k]
  }

  /** The objects of the other flows stand for their values, and none is the object of this one. */
  ghost predicate OthersStand(flows: map<FlowTuple, TcpFlowState>, values: map<FlowTuple, Flow>, flow: FlowTuple)
    reads Others(flows, flow)
  {
    && flows.Keys == values.Keys && flow in flows && flows[flow] !in Others(flows, flow)
    && (forall k :: k in flows && k != flow ==> flows[k].State() == values[k])
    && (forall j, k :: j in flows && k in flows && j != k ==> flows[j] != flows[k])
  }

  lemma StandOut(flows: map<FlowTuple, TcpFlowState>, values: map<FlowTuple, Flow>, flow: FlowTuple)
    requires Stand(flows, values) && flow in flows
    ensures OthersStand(flows, values, flow) && flows[flow] !in Others(flows, flow)
    ensures flows[flow].State() == values[flow]
  {
  }

  lemma StandIn(flows: map<FlowTuple, TcpFlowState>, values: map<FlowTuple, Flow>, flow: FlowTuple)
    requires OthersStand(flows, values, flow)
    ensures flow in flows && Stand(flows, values[flow := flows[flow].State()])
  {
  }

  lemma StandSize(flows: map<FlowTuple, TcpFlowState>, values: map<FlowTuple, Flow>)
    requires Stand(flows, values)
    ensures |flows| == |values| && flows.Keys == values.Keys
  {
    assert |flows| == |flows.Keys| && |values| == |values.Keys|;
  }

  class TcpFlowTable {
    var flows: map<FlowTuple, TcpFlowState>
    var order: seq<FlowTuple>
    const capacity: nat
    ghost var table: Table

    ghost predicate Valid()
      reads this, flows.Values
    {
      && Bounded(table, capacity) && capacity > 0
      && order == table.order && Stand(flows, table.flows)
    }

    constructor (capacity: nat)
      requires capacity > 0
      ensures Valid() && this.capacity == capacity && table == Table(map[], [])
      ensures flows == map[]
    {
      this.capacity := capacity;
      flows, order, table := map[], [], Table(map[], []);
    }

    method RemoveFlow(flow: FlowTuple)
      requires Valid()
      modifies this
      ensures Valid() && table == Remove(old(table), flow)
      ensures flows.Values <= old(flows.Values)
    {
      hide Bounded, Unlist, Stand, Remove;
      BoundedRemove(table, capacity, flow);
      StandRemove(flows, table, flow);
      flows, order, table := flows - {flow}, Unlist(order, flow), Remove(table, flow);
    }

    /** The state of a flow; a new one may cost the oldest its place. */
    method FlowState(flow: FlowTuple) returns (state: TcpFlowState)
      requires Valid()
      modifies this
      ensures Valid() && table == Enter(old(table), capacity, flow, UNALIGNED)
      ensures flow in flows && state == flows[flow]
      ensures fresh(flows.Values - old(flows.Values))
    {
      hide Bounded, Unlist, Stand, Remove, NoDuplicates, Lists;
      BoundedSize(table, capacity);
      BoundedEnter(table, capacity, flow, UNALIGNED);
      StandSize(flows, table.flows);
      if flow !in flows {
        if |flows| == capacity && order != [] {
          RemoveFlow(order[0]);
          RoomHasNone(old(table), old(order)[0], flow);
          StandSize(flows, table.flows);
        }
        StartFlow(flow);
      }
      state := flows[flow];
    }

    method StartFlow(flow: FlowTuple)
      requires Valid() && flow !in flows
      requires Bounded(Table(table.flows[flow := UNALIGNED], table.order + [flow]), capacity)
      modifies this
      ensures Valid() && table == Table(old(table).flows[flow := UNALIGNED], old(table).order + [flow])
      ensures flow in flows && fresh(flows.Values - old(flows.Values))
    {
      hide Bounded, Stand;
      order := order + [flow];
      var started := new TcpFlowState();
      StandAdd(flows, table.flows, flow, started);
      flows := flows[flow := started];
      table := Table(table.flows[flow := UNALIGNED], table.order + [flow]);
    }

    /** One packet: the table and the batches are those of `Process`. */
    method ProcessTcp<M>(p: Packet, decode: Decoder<M>) returns (batches: seq<Batch<M>>)
      requires Valid()
      modifies this, flows.Values
      ensures Valid() && (table, batches) == Process(old(table), capacity, p, decode)
      ensures fresh(flows.Values - old(flows.Values))
    {
      hide Bounded, Enter, Step, Stand, Remove;
      batches := [];
      if p.rst {
        RemoveFlow(p.flow);
        return;
      }
      if p.payload == [] {
        if p.fin {
          RemoveFlow(p.flow);
        }
        return;
      }
      batches := StepFlow(p, decode);
      if p.fin {
        RemoveFlow(p.flow);
      }
    }

    method StepFlow<M>(p: Packet, decode: Decoder<M>) returns (batches: seq<Batch<M>>)
      requires Valid()
      modifies this, flows.Values
      ensures Valid()
      ensures var entered := Enter(old(table), capacity, p.flow, UNALIGNED);
              var (f, out) := Step(FlowIn(entered, p.flow), SegmentOf(p), decode);
              table == entered.(flows := entered.flows[p.flow := f]) && batches == out
      ensures fresh(flows.Values - old(flows.Values))
    {
      hide Bounded, Enter, Step, Stand, OthersStand, Others;
      var state := FlowState(p.flow);
      StandSize(flows, table.flows);
      StandOut(flows, table.flows, p.flow);
      batches := state.ProcessPayload(SegmentOf(p).seqNo, p.payload, decode);
      StandIn(flows, table.flows, p.flow);
      BoundedSet(table, capacity, p.flow, state.State());
      table := table.(flows := table.flows[p.flow := state.State()]);
    }
  }

  lemma RoomHasNone(t: Table, oldest: FlowTuple, flow: FlowTuple)
    ensures flow !in t.flows ==> flow !in Remove(t, oldest).flows
  {
  }
}
