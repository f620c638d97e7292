/** TCP flows as a sender sees them: connections that begin with a SYN, and flows that end and begin again. */
module TcpConnections {
  import opened Basics
  import FifoOrder
  import opened FlowTables
  import opened Framing
  import opened ZenohFlows
  import opened TcpReassembly
  import opened TcpFlows

  /**
   A packet that carries a slice of the stream of a connection. The SYN takes the
   initial sequence number and the first byte of the stream the one after it.
   */
  ghost predicate IsSent(p: Packet, isn: U32, stream: seq<Byte>, s: Slice) {
    && s.On(stream) && p.payload == stream[s.start..s.End()]
    && if p.syn then s.start == 0 && p.sequence == isn else p.sequence == (isn + 1 + s.start) % 0x1_0000_0000
  }

  /** The packets of a flow that carry something, in order. */
  function Carrying(packets: seq<Packet>, flow: FlowTuple): seq<Packet> {
    if packets == [] then []
    else
      var last := packets[|packets| - 1];
      Carrying(packets[..|packets| - 1], flow)
      + if last.flow == flow && !last.rst && last.payload != [] then [last] else []
  }

  /** They carry these slices. */
  ghost predicate CarrySlices(carrying: seq<Packet>, isn: U32, stream: seq<Byte>, arrivals: seq<Slice>) {
    |carrying| == |arrivals| && forall i :: 0 <= i < |arrivals| ==> IsSent(carrying[i], isn, stream, arrivals[i])
  }

  lemma SentIsWire(p: Packet, isn: U32, stream: seq<Byte>, s: Slice)
    requires IsSent(p, isn, stream, s)
    ensures SegmentOf(p) == Wire((isn + 1) % 0x1_0000_0000, stream, s)
  {
  }

  lemma {:induction false} SegmentsCarried(packets: seq<Packet>, flow: FlowTuple)
    ensures |Segments(packets, flow)| == |Carrying(packets, flow)|
    ensures forall i :: 0 <= i < |Carrying(packets, flow)| ==>
              Segments(packets, flow)[i] == SegmentOf(Carrying(packets, flow)[i])
  {
    hide SegmentOf;
    if packets != [] {
      SegmentsCarried(packets[..|packets| - 1], flow);
    }
  }

  lemma SegmentsWired(packets: seq<Packet>, flow: FlowTuple, isn: U32, stream: seq<Byte>, arrivals: seq<Slice>)
    requires CarrySlices(Carrying(packets, flow), isn, stream, arrivals)
    ensures Segments(packets, flow) == WireAll((isn + 1) % 0x1_0000_0000, stream, arrivals)
  {
    hide Segments, Carrying, IsSent, Wire, SegmentOf;
    SegmentsCarried(packets, flow);
    forall i | 0 <= i < |arrivals|
      ensures Segments(packets, flow)[i] == WireAll((isn + 1) % 0x1_0000_0000, stream, arrivals)[i]
    {
      SentIsWire(Carrying(packets, flow)[i], isn, stream, arrivals[i]);
    }
  }

  /**
   One connection among many: its packets carry slices of a stream of length-prefixed
   payloads, the SYN possibly some of it, and all bytes have arrived, so exactly those
   payloads have come out at its packets.
   */
  lemma ConnectionRecovered<M>(
    capacity: nat, packets: seq<Packet>, tables: seq<TcpFlows.Table>, outs: seq<seq<Batch<M>>>, decode: Decoder<M>,
    flow: FlowTuple, isn: U32, stream: seq<Byte>, arrivals: seq<Slice>, payloads: seq<seq<Byte>>)
    requires IsRun(capacity, packets, tables, outs, decode) && flow !in tables[0].flows
    requires |Rivals(packets, flow)| < capacity
    requires forall i :: 0 <= i < |packets| - 1 && packets[i].flow == flow ==> !packets[i].fin && !packets[i].rst
    requires CarrySlices(Carrying(packets, flow), isn, stream, arrivals)
    requires |arrivals| > 0 && Admissible((isn + 1) % 0x1_0000_0000, stream, arrivals, decode)
    requires Framing.Encodable(payloads) && stream[arrivals[0].start..] == EncodeAll(payloads)
    requires forall i :: 0 <= i < |payloads| ==> decode(payloads[i]).Some?
    requires forall p :: arrivals[0].start <= p < |stream| ==> TcpReassembly.Received(arrivals, p)
    ensures |outs| == |packets|
    ensures var out := Output(packets, outs, flow);
            && |out| == |payloads|
            && forall i :: 0 <= i < |out| ==> out[i] == Batch(payloads[i], decode(payloads[i]).value)
  {
    hide IsRun, Rivals, Segments, Carrying, CarrySlices, Admissible, EncodeAll, Received, Output;
    SegmentsWired(packets, flow, isn, stream, arrivals);
    PayloadsRecoveredAmongMany(capacity, packets, tables, outs, decode, flow, (isn + 1) % 0x1_0000_0000, stream,
                               arrivals, payloads);
  }

  /**
   A flow that has ended, by FIN or RST, leaves nothing behind: what follows is a run
   in which the flow is new, so all that holds of new flows holds of it.
   */
  lemma EndedIsNew<M>(
    capacity: nat, packets: seq<Packet>, tables: seq<TcpFlows.Table>, outs: seq<seq<Batch<M>>>, decode: Decoder<M>,
    flow: FlowTuple, n: nat)
    requires IsRun(capacity, packets, tables, outs, decode) && capacity > 0
    requires n < |packets| && packets[n].flow == flow && (packets[n].fin || packets[n].rst)
    ensures |tables| == |packets| + 1 && |outs| == |packets|
    ensures flow !in tables[n + 1].flows
    ensures IsRun(capacity, packets[n + 1..], tables[n + 1..], outs[n + 1..], decode)
  {
    hide Process, Bounded;
    RunAt(capacity, packets, tables, outs, decode, n);
    RunBounded(capacity, packets, tables, outs, decode, n);
    RunBounded(capacity, packets, tables, outs, decode, n + 1);
    var later := set k | k in tables[n].flows;
    EverythingBehind(tables[n], capacity, flow, later);
    OwnStep(tables[n], capacity, packets[n], decode, flow, later);
  }

  lemma EverythingBehind(t: TcpFlows.Table, capacity: nat, flow: FlowTuple, all: set<FlowTuple>)
    requires Bounded(t, capacity) && all == set k | k in t.flows
    ensures FifoOrder.OnlyBehind(t.order, flow, all)
  {
    assert forall k :: k in t.order ==> k in t.flows;
  }
}
