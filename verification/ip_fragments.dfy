/**
 Reassembly of fragmented IP datagrams. A flow keeps one chunk per offset and the
 ranges received; `Accept` says what one packet does to the table of flows.
 */
module IpFragments {
  import opened Basics
  import opened FifoOrder
  import opened FlowTables
  import opened FragmentLogs
  import opened Ranges

  datatype FragmentKey = FragmentKey(srcIp: seq<Byte>, dstIp: seq<Byte>, identification: U32, protocol: Byte)

  datatype Packet =
    | Whole(payload: seq<Byte>)
    | Piece(key: FragmentKey, offset: nat, more: bool, payload: seq<Byte>)

  // ---------- One chunk per offset ----------

  /** A chunk replaces the one at its offset, or joins the end. */
  function Put(chunks: seq<Fragment>, f: Fragment): seq<Fragment> {
    if chunks == [] then [f]
    else if chunks[0].offset == f.offset then [f] + chunks[1..]
    else [chunks[0]] + Put(chunks[1..], f)
  }

  ghost function Chunks(log: seq<Fragment>): seq<Fragment> {
    if log == [] then [] else Put(Chunks(log[..|log| - 1]), log[|log| - 1])
  }

  ghost predicate DistinctOffsets(chunks: seq<Fragment>) {
    forall i, j :: 0 <= i < j < |chunks| ==> chunks[i].offset != chunks[j].offset
  }

  /** No later fragment of the log has the same offset. */
  ghost predicate Survives(log: seq<Fragment>, i: int) {
    0 <= i < |log| && forall j :: i < j < |log| ==> log[j].offset != log[i].offset
  }

  lemma {:induction false} PutMembers(chunks: seq<Fragment>, f: Fragment)
    requires DistinctOffsets(chunks)
    ensures DistinctOffsets(Put(chunks, f))
    ensures forall c :: c in Put(chunks, f) <==> c == f || (c in chunks && c.offset != f.offset)
  {
    if chunks != [] {
      var rest := chunks[1..];
      assert forall c :: c in chunks <==> c == chunks[0] || c in rest;
      PutMembers(rest, f);
      var r := Put(rest, f);
      if chunks[0].offset == f.offset {
        assert forall c :: c in [f] + rest <==> c == f || c in rest;
      } else {
        assert forall c :: c in [chunks[0]] + r <==> c == chunks[0] || c in r;
        forall j | 0 <= j < |r| ensures r[j].offset != chunks[0].offset {
          assert r[j] in r;
        }
      }
    }
  }

  ghost predicate Surviving(log: seq<Fragment>, c: Fragment) {
    exists i :: Survives(log, i) && log[i] == c
  }

  lemma SurvivingSnoc(log: seq<Fragment>, f: Fragment, c: Fragment)
    ensures Surviving(log + [f], c) <==> c == f || (Surviving(log, c) && c.offset != f.offset)
  {
    var all := log + [f];
    if c == f {
      assert Survives(all, |log|);
    }
    if Surviving(log, c) && c.offset != f.offset {
      var i :| Survives(log, i) && log[i] == c;
      assert Survives(all, i);
    }
    if Surviving(all, c) && c != f {
      var i :| Survives(all, i) && all[i] == c;
      assert all[|log|] == f && i < |log|;
      forall j | i < j < |log| ensures log[j].offset != log[i].offset {
        assert all[j] == log[j];
      }
      assert Survives(log, i);
    }
  }

  /** The chunks are exactly the surviving fragments. */
  lemma {:induction false} ChunksSurvive(log: seq<Fragment>)
    ensures DistinctOffsets(Chunks(log))
    ensures forall c :: c in Chunks(log) <==> Surviving(log, c)
    decreases |log|
  {
    if log != [] {
      var earlier, f := log[..|log| - 1], log[|log| - 1];
      ChunksSurvive(earlier);
      PutMembers(Chunks(earlier), f);
      hide Put, DistinctOffsets, Surviving;
      assert log == earlier + [f];
      forall c {
        SurvivingSnoc(earlier, f, c);
      }
    }
  }

  // ---------- Assembling ----------

  /** Of the chunks holding position p, the one with the greatest offset. */
  ghost function Best(chunks: seq<Fragment>, p: nat): Option<Fragment> {
    if chunks == [] then None
    else
      var best := Best(chunks[..|chunks| - 1], p);
      var c := chunks[|chunks| - 1];
      if c.Holds(p) && (best.None? || best.value.offset <= c.offset) then Some(c) else best
  }

  ghost function ByteAt(chunks: seq<Fragment>, p: nat): Byte {
    var best := Best(chunks, p);
    if best.Some? && best.value.Holds(p) then best.value.bytes[p - best.value.offset] else 0
  }

  ghost function Assembled(total: nat, chunks: seq<Fragment>): seq<Byte> {
    seq(total, p requires 0 <= p < total => ByteAt(chunks, p))
  }

  ghost predicate Wins(chunks: seq<Fragment>, p: nat, c: Fragment) {
    c in chunks && c.Holds(p) && forall d :: d in chunks && d.Holds(p) ==> d.offset <= c.offset
  }

  lemma {:induction false} BestWins(chunks: seq<Fragment>, p: nat)
    ensures match Best(chunks, p)
            case Some(c) => Wins(chunks, p, c)
            case None => forall d :: d in chunks ==> !d.Holds(p)
    decreases |chunks|
  {
    if chunks != [] {
      var n := |chunks| - 1;
      BestWins(chunks[..n], p);
      assert forall d :: d in chunks <==> d in chunks[..n] || d == chunks[n];
    }
  }

  /** With one chunk per offset, the winner depends only on which chunks there are. */
  lemma BestByMembers(a: seq<Fragment>, b: seq<Fragment>, p: nat)
    requires DistinctOffsets(a) && forall c :: c in a <==> c in b
    ensures Best(a, p) == Best(b, p)
  {
    BestWins(a, p);
    BestWins(b, p);
    if Best(a, p).Some? && Best(b, p).Some? {
      var c, d := Best(a, p).value, Best(b, p).value;
      var i :| 0 <= i < |a| && a[i] == c;
      var j :| 0 <= j < |a| && a[j] == d;
    }
  }

  predicate Ascending(chunks: seq<Fragment>) {
    forall i, j :: 0 <= i < j < |chunks| ==> chunks[i].offset <= chunks[j].offset
  }

  function InsertByOffset(chunks: seq<Fragment>, c: Fragment): (r: seq<Fragment>)
    requires Ascending(chunks)
    ensures Ascending(r) && |r| == |chunks| + 1
    ensures forall x :: x in r <==> x == c || x in chunks
  {
    if chunks == [] || c.offset < chunks[0].offset then
      [c] + chunks
    else
      var rest := InsertByOffset(chunks[1..], c);
      FirstIsLeast(chunks, rest, c);
      [chunks[0]] + rest
  }

  lemma FirstIsLeast(chunks: seq<Fragment>, rest: seq<Fragment>, c: Fragment)
    requires Ascending(chunks) && Ascending(rest) && chunks != [] && chunks[0].offset <= c.offset
    requires forall x :: x in rest <==> x == c || x in chunks[1..]
    ensures Ascending([chunks[0]] + rest)
    ensures forall x :: x in [chunks[0]] + rest <==> x == c || x in chunks
  {
    forall i | 0 <= i < |rest| ensures chunks[0].offset <= rest[i].offset {
      assert rest[i] in rest;
    }
    assert forall x :: x in chunks <==> x == chunks[0] || x in chunks[1..];
  }

  /** sort_by_key: ascending offsets, the same chunks. */
  function SortByOffset(chunks: seq<Fragment>): (r: seq<Fragment>)
    ensures Ascending(r) && |r| == |chunks|
    ensures forall x :: x in r <==> x in chunks
  {
    if chunks == [] then []
    else
      var n := |chunks| - 1;
      assert forall x :: x in chunks <==> x in chunks[..n] || x == chunks[n];
      InsertByOffset(SortByOffset(chunks[..n]), chunks[n])
  }

  /** Fill a zeroed buffer from the chunks in order of offset, cutting off what reaches past the end. */
  method Assemble(chunks: seq<Fragment>, total: nat) returns (payload: seq<Byte>)
    requires DistinctOffsets(chunks)
    ensures payload == Assembled(total, chunks)
  {
    hide ByteAt, DistinctOffsets, SortByOffset;
    var sorted := SortByOffset(chunks);
    var ipPayload := new Byte[total](_ => 0);
    NothingWritten(sorted);
    for i := 0 to |sorted|
      invariant forall p :: 0 <= p < total ==> ipPayload[p] == ByteAt(sorted[..i], p)
    {
      var c := sorted[i];
      var end := if c.End() < total then c.End() else total;
      NextByte(sorted, i);
      if end > c.offset {
        forall p | c.offset <= p < end {
          ipPayload[p] := c.bytes[p - c.offset];
        }
      }
    }
    assert sorted[..|sorted|] == sorted;
    forall p: nat {
      SameBytes(chunks, sorted, p);
    }
    payload := ipPayload[..];
  }

  lemma NothingWritten(chunks: seq<Fragment>)
    ensures forall p: nat :: ByteAt(chunks[..0], p) == 0
  {
  }

  lemma SameBytes(a: seq<Fragment>, b: seq<Fragment>, p: nat)
    requires DistinctOffsets(a) && forall c :: c in a <==> c in b
    ensures ByteAt(a, p) == ByteAt(b, p)
  {
    BestByMembers(a, b, p);
  }

  lemma NextByte(sorted: seq<Fragment>, i: nat)
    requires Ascending(sorted) && i < |sorted|
    ensures forall p: nat :: ByteAt(sorted[..i + 1], p)
                          == if sorted[i].Holds(p) then sorted[i].bytes[p - sorted[i].offset]
                             else ByteAt(sorted[..i], p)
  {
    assert sorted[..i + 1][..i] == sorted[..i];
    forall p: nat {
      BestWins(sorted[..i], p);
    }
  }

  // ---------- One packet ----------

  datatype Flow = Flow(total: Option<nat>, log: seq<Fragment>)

  type Table = FlowTables.Table<FragmentKey, Flow>

  const NEW_FLOW := Flow(None, [])

  /** What has been received is one stretch from zero that reaches the end of the datagram. */
  ghost predicate Complete(flow: Flow) {
    flow.total.Some? && exists e: nat :: e > 0 && e >= flow.total.value && StretchTo(flow.log, e)
  }

  ghost predicate StretchTo(log: seq<Fragment>, e: nat) {
    forall p :: LogCovers(log, p) <==> 0 <= p < e
  }

  function Received(flow: Flow, offset: nat, more: bool, payload: seq<Byte>): Flow {
    Flow(if more then flow.total else Some(offset + |payload|), flow.log + [Fragment(offset, payload)])
  }

  /** The table after one packet, and the datagrams it completes. */
  ghost function Accept(t: Table, capacity: nat, packet: Packet): (Table, seq<seq<Byte>>) {
    match packet
    case Whole(payload) => (t, [payload])
    case Piece(key, offset, more, payload) =>
      if capacity == 0 then (t, [])
      else
        var entered := Enter(t, capacity, key, NEW_FLOW);
        var flow := Received(if key in entered.flows then entered.flows[key] else NEW_FLOW, offset, more, payload);
        if Complete(flow) then
          (Remove(entered, key), [Assembled(flow.total.value, Chunks(flow.log))])
        else
          (entered.(flows := entered.flows[key := flow]), [])
  }

  /** The order list always lists exactly the flows, at most `capacity` of them. */
  lemma AcceptKeeps(t: Table, capacity: nat, packet: Packet)
    requires Bounded(t, capacity)
    ensures Bounded(Accept(t, capacity, packet).0, capacity)
  {
    hide Bounded, Enter, Complete, Assembled, Remove;
    if packet.Piece? && capacity > 0 {
      BoundedEnter(t, capacity, packet.key, NEW_FLOW);
      var entered := Enter(t, capacity, packet.key, NEW_FLOW);
      BoundedRemove(entered, capacity, packet.key);
      BoundedSet(entered, capacity, packet.key,
                 Received(entered.flows[packet.key], packet.offset, packet.more, packet.payload));
    }
  }

  // ---------- What an assembled datagram is ----------

  /** The fragments are slices of the datagram. */
  lemma ChunkIsSlice(log: seq<Fragment>, datagram: seq<Byte>, c: Fragment)
    requires SlicesOf(log, datagram) && c in Chunks(log)
    ensures c.End() <= |datagram| && c.bytes == datagram[c.offset..c.End()]
  {
    ChunksSurvive(log);
    var i :| Survives(log, i) && log[i] == c;
  }

  /** A position held by a surviving fragment has its byte; any other position is zero. */
  lemma AssembledByte(log: seq<Fragment>, datagram: seq<Byte>, p: nat)
    requires SlicesOf(log, datagram) && p < |datagram|
    ensures ByteAt(Chunks(log), p) == if LogCovers(Chunks(log), p) then datagram[p] else 0
  {
    hide Chunks;
    var chunks := Chunks(log);
    BestWins(chunks, p);
    if Best(chunks, p).Some? {
      var c := Best(chunks, p).value;
      ChunkIsSlice(log, datagram, c);
      var i :| 0 <= i < |chunks| && chunks[i] == c;
      assert chunks[i].Holds(p);
    }
  }

  /** Some fragment that no later one replaced holds the position. */
  ghost predicate HeldBySurvivor(log: seq<Fragment>, p: int) {
    exists i :: Survives(log, i) && log[i].Holds(p)
  }

  /** Every position that is not zero is held by a fragment that no later one replaced. */
  ghost predicate Intact(log: seq<Fragment>, datagram: seq<Byte>) {
    forall p :: 0 <= p < |datagram| && datagram[p] != 0 ==> HeldBySurvivor(log, p)
  }

  lemma SurvivorsCover(log: seq<Fragment>, p: int)
    ensures LogCovers(Chunks(log), p) <==> HeldBySurvivor(log, p)
  {
    ChunksSurvive(log);
    hide Chunks;
    var chunks := Chunks(log);
    if LogCovers(chunks, p) {
      var j :| 0 <= j < |chunks| && chunks[j].Holds(p);
      assert chunks[j] in chunks;
      var i :| Survives(log, i) && log[i] == chunks[j];
      assert log[i].Holds(p);
    }
    if HeldBySurvivor(log, p) {
      var i :| Survives(log, i) && log[i].Holds(p);
      assert Surviving(log, log[i]);
      assert log[i] in chunks;
      var j :| 0 <= j < |chunks| && chunks[j] == log[i];
      assert chunks[j].Holds(p);
    }
  }

  /**
   Replacing a chunk loses what only the replaced one held. For fragments of one
   datagram, in any order, the assembled bytes are the datagram if and only if
   every position that is not zero is held by a fragment that survives.
   */
  lemma AssembledExactly(log: seq<Fragment>, datagram: seq<Byte>)
    requires SlicesOf(log, datagram)
    ensures Assembled(|datagram|, Chunks(log)) == datagram <==> Intact(log, datagram)
  {
    hide Chunks, ByteAt, LogCovers, SlicesOf, HeldBySurvivor;
    var r := Assembled(|datagram|, Chunks(log));
    forall p | 0 <= p < |datagram|
      ensures r[p] == if HeldBySurvivor(log, p) then datagram[p] else 0
    {
      AssembledByte(log, datagram, p);
      SurvivorsCover(log, p);
    }
    if r == datagram {
      forall p | 0 <= p < |datagram| && datagram[p] != 0 ensures HeldBySurvivor(log, p) {
        assert r[p] != 0;
      }
    }
  }

  ghost predicate EqualLengths(log: seq<Fragment>) {
    forall i, j :: 0 <= i < |log| && 0 <= j < |log| && log[i].offset == log[j].offset ==>
      |log[i].bytes| == |log[j].bytes|
  }

  lemma {:induction false} LastWithOffset(log: seq<Fragment>, i: nat)
    returns (k: nat)
    requires i < |log|
    ensures i <= k < |log| && Survives(log, k) && log[k].offset == log[i].offset
    decreases |log| - i
  {
    if j :| i < j < |log| && log[j].offset == log[i].offset {
      k := LastWithOffset(log, j);
    } else {
      k := i;
    }
  }

  /** When equal offsets mean equal lengths, replacing a chunk loses nothing. */
  lemma ReplacingLosesNothing(log: seq<Fragment>, p: int)
    requires EqualLengths(log)
    ensures HeldBySurvivor(log, p) <==> LogCovers(log, p)
  {
    if HeldBySurvivor(log, p) {
      var i :| Survives(log, i) && log[i].Holds(p);
    }
    if LogCovers(log, p) {
      var i :| 0 <= i < |log| && log[i].Holds(p);
      var k := LastWithOffset(log, i);
      assert log[k].Holds(p);
    }
  }

  /** Fragments that cover a datagram, equal offsets meaning equal lengths, leave it intact. */
  lemma EqualLengthsIntact(log: seq<Fragment>, datagram: seq<Byte>)
    requires CoversAll(log, |datagram|) && EqualLengths(log)
    ensures Intact(log, datagram)
  {
    hide EqualLengths, HeldBySurvivor, LogCovers;
    forall p {
      ReplacingLosesNothing(log, p);
    }
  }

  // ---------- Whole runs ----------

  ghost predicate Run(capacity: nat, inputs: seq<Packet>, tables: seq<Table>, outs: seq<seq<seq<Byte>>>) {
    && |tables| == |inputs| + 1 && |outs| == |inputs|
    && Bounded(tables[0], capacity)
    && (forall i :: 0 <= i < |inputs| ==> Accept(tables[i], capacity, inputs[i]) == (tables[i + 1], outs[i]))
  }

  lemma RunLengths(capacity: nat, inputs: seq<Packet>, tables: seq<Table>, outs: seq<seq<seq<Byte>>>)
    requires Run(capacity, inputs, tables, outs)
    ensures |tables| == |inputs| + 1 && |outs| == |inputs|
  {
  }

  /** Every table of a run is well-formed, because the first one is. */
  lemma {:induction false} RunBounded(capacity: nat, inputs: seq<Packet>, tables: seq<Table>,
                                      outs: seq<seq<seq<Byte>>>, i: nat)
    requires Run(capacity, inputs, tables, outs) && i <= |inputs|
    ensures Bounded(tables[i], capacity)
    decreases i
  {
    hide Accept, Bounded;
    if i > 0 {
      RunBounded(capacity, inputs, tables, outs, i - 1);
      AcceptKeeps(tables[i - 1], capacity, inputs[i - 1]);
    }
  }

  lemma RunAt(capacity: nat, inputs: seq<Packet>, tables: seq<Table>, outs: seq<seq<seq<Byte>>>, i: nat)
    requires Run(capacity, inputs, tables, outs) && i < |inputs|
    ensures Bounded(tables[i], capacity)
    ensures Accept(tables[i], capacity, inputs[i]) == (tables[i + 1], outs[i])
  {
    hide Accept, Bounded;
    RunBounded(capacity, inputs, tables, outs, i);
  }

  /** `cut` is how the datagram was fragmented: the length of the fragment at each offset. */
  type Cut = nat -> nat

  ghost predicate ForKey(packet: Packet, key: FragmentKey) {
    packet.Piece? && packet.key == key
  }

  /** The packet carries a slice of the datagram, and is marked as the last exactly when it reaches the end. */
  ghost predicate Slice(packet: Packet, datagram: seq<Byte>)
    requires packet.Piece?
  {
    var end := packet.offset + |packet.payload|;
    && end <= |datagram| && packet.payload == datagram[packet.offset..end]
    && (packet.more <==> end < |datagram|)
  }

  ghost predicate Genuine(packet: Packet, datagram: seq<Byte>, cut: Cut)
    requires packet.Piece?
  {
    Slice(packet, datagram) && |packet.payload| == cut(packet.offset)
  }

  /** A flow built from slices of the datagram only. */
  ghost predicate SliceFlow(flow: Flow, datagram: seq<Byte>) {
    && SlicesOf(flow.log, datagram)
    && (flow.total == None || flow.total == Some(|datagram|))
    && (flow.total.Some? <==> exists i :: 0 <= i < |flow.log| && flow.log[i].End() == |datagram|)
  }

  ghost predicate CutAs(log: seq<Fragment>, cut: Cut) {
    forall i :: 0 <= i < |log| ==> |log[i].bytes| == cut(log[i].offset)
  }

  /** A flow built from genuine fragments only. */
  ghost predicate GenuineFlow(flow: Flow, datagram: seq<Byte>, cut: Cut) {
    SliceFlow(flow, datagram) && CutAs(flow.log, cut)
  }

  lemma ReceivedSlice(flow: Flow, packet: Packet, datagram: seq<Byte>)
    requires packet.Piece? && Slice(packet, datagram) && SliceFlow(flow, datagram)
    ensures SliceFlow(Received(flow, packet.offset, packet.more, packet.payload), datagram)
  {
    var f := Fragment(packet.offset, packet.payload);
    var log := flow.log + [f];
    assert log[|flow.log|] == f;
    assert forall i :: 0 <= i < |flow.log| ==> log[i] == flow.log[i];
  }

  lemma ReceivedGenuine(flow: Flow, packet: Packet, datagram: seq<Byte>, cut: Cut)
    requires packet.Piece? && Genuine(packet, datagram, cut) && GenuineFlow(flow, datagram, cut)
    ensures GenuineFlow(Received(flow, packet.offset, packet.more, packet.payload), datagram, cut)
  {
    ReceivedSlice(flow, packet, datagram);
    hide SliceFlow, Slice;
  }

  /** For slices of one datagram, the reassembler's test for completeness is being covered. */
  lemma CompleteIsCovered(flow: Flow, datagram: seq<Byte>)
    requires SliceFlow(flow, datagram) && |datagram| > 0
    ensures Complete(flow) <==> CoversAll(flow.log, |datagram|)
    ensures Complete(flow) ==> flow.total == Some(|datagram|)
    ensures Complete(flow) ==>
      (Assembled(|datagram|, Chunks(flow.log)) == datagram <==> Intact(flow.log, datagram))
  {
    AssembledExactly(flow.log, datagram);
    hide Assembled, Chunks, Intact;
    if CoversAll(flow.log, |datagram|) {
      assert LogCovers(flow.log, |datagram| - 1);
      var i :| 0 <= i < |flow.log| && flow.log[i].Holds(|datagram| - 1);
      assert flow.log[i].End() == |datagram|;
      assert StretchTo(flow.log, |datagram|);
    }
  }

  /** Genuine fragments assemble to the datagram as soon as they are complete. */
  lemma GenuineAssembles(flow: Flow, datagram: seq<Byte>, cut: Cut)
    requires GenuineFlow(flow, datagram, cut) && |datagram| > 0 && Complete(flow)
    ensures flow.total == Some(|datagram|) && Assembled(|datagram|, Chunks(flow.log)) == datagram
  {
    hide Complete, Assembled, Chunks, Intact, SliceFlow, CoversAll;
    CompleteIsCovered(flow, datagram);
    assert EqualLengths(flow.log);
    EqualLengthsIntact(flow.log, datagram);
  }

  ghost predicate HoldsGenuine(t: Table, key: FragmentKey, datagram: seq<Byte>, cut: Cut) {
    key in t.flows ==> GenuineFlow(t.flows[key], datagram, cut)
  }

  lemma NewIsGenuine(datagram: seq<Byte>, cut: Cut)
    ensures GenuineFlow(NEW_FLOW, datagram, cut)
  {
  }

  lemma AcceptGenuine(t: Table, capacity: nat, packet: Packet, key: FragmentKey, datagram: seq<Byte>, cut: Cut)
    requires Bounded(t, capacity) && HoldsGenuine(t, key, datagram, cut) && |datagram| > 0
    requires ForKey(packet, key) ==> Genuine(packet, datagram, cut)
    ensures var (t', out) := Accept(t, capacity, packet);
            && HoldsGenuine(t', key, datagram, cut)
            && (ForKey(packet, key) ==> out == [] || out == [datagram])
  {
    hide Bounded, Enter, GenuineFlow, Genuine, Complete, Assembled, Chunks;
    if packet.Piece? && capacity > 0 {
      BoundedEnter(t, capacity, packet.key, NEW_FLOW);
      NewIsGenuine(datagram, cut);
      if packet.key == key {
        var flow := Enter(t, capacity, key, NEW_FLOW).flows[key];
        ReceivedGenuine(flow, packet, datagram, cut);
        var received := Received(flow, packet.offset, packet.more, packet.payload);
        if Complete(received) {
          GenuineAssembles(received, datagram, cut);
        }
      }
    }
  }

  lemma AbsentIsGenuine(t: Table, key: FragmentKey, datagram: seq<Byte>, cut: Cut)
    requires key !in t.flows
    ensures HoldsGenuine(t, key, datagram, cut)
  {
  }

  /**
   Whatever else arrives: when all packets of one key are fragments of one
   datagram cut in one way, in any order and with repeats and overlaps, nothing
   but that datagram is ever emitted for it.
   */
  lemma {:induction false} OnlyTheDatagram(
    capacity: nat, inputs: seq<Packet>, tables: seq<Table>, outs: seq<seq<seq<Byte>>>,
    key: FragmentKey, datagram: seq<Byte>, cut: Cut, n: nat)
    requires Run(capacity, inputs, tables, outs) && n <= |inputs| && |datagram| > 0
    requires |tables| > 0 && key !in tables[0].flows
    requires forall i :: 0 <= i < |inputs| && ForKey(inputs[i], key) ==> Genuine(inputs[i], datagram, cut)
    ensures |tables| == |inputs| + 1 && |outs| == |inputs|
    ensures HoldsGenuine(tables[n], key, datagram, cut)
    ensures forall i :: 0 <= i < n && ForKey(inputs[i], key) ==> outs[i] == [] || outs[i] == [datagram]
  {
    hide Run, Genuine, HoldsGenuine, Bounded, Accept;
    RunLengths(capacity, inputs, tables, outs);
    if n == 0 {
      AbsentIsGenuine(tables[0], key, datagram, cut);
    } else {
      OnlyTheDatagram(capacity, inputs, tables, outs, key, datagram, cut, n - 1);
      RunAt(capacity, inputs, tables, outs, n - 1);
      AcceptGenuine(tables[n - 1], capacity, inputs[n - 1], key, datagram, cut);
    }
  }

  /** The flow that the packets of a key build up. */
  ghost function FlowOf(inputs: seq<Packet>, key: FragmentKey): Flow {
    if inputs == [] then NEW_FLOW
    else
      var last := inputs[|inputs| - 1];
      var earlier := FlowOf(inputs[..|inputs| - 1], key);
      if ForKey(last, key) then Received(earlier, last.offset, last.more, last.payload) else earlier
  }

  /** The packets of a key carry slices of one datagram, in whatever way it was cut. */
  ghost predicate OneDatagram(inputs: seq<Packet>, key: FragmentKey, datagram: seq<Byte>) {
    forall i :: 0 <= i < |inputs| && ForKey(inputs[i], key) ==> Slice(inputs[i], datagram)
  }

  /** The other keys for which fragments arrive. */
  ghost function Rivals(inputs: seq<Packet>, key: FragmentKey): set<FragmentKey> {
    set i | 0 <= i < |inputs| && inputs[i].Piece? && inputs[i].key != key :: inputs[i].key
  }

  ghost predicate Covered(inputs: seq<Packet>, key: FragmentKey, size: nat) {
    CoversAll(FlowOf(inputs, key).log, size)
  }

  ghost predicate UncoveredTo(inputs: seq<Packet>, key: FragmentKey, size: nat, n: nat) {
    n <= |inputs| && forall m :: 0 <= m <= n ==> !Covered(inputs[..m], key, size)
  }

  lemma FlowOfSnoc(earlier: seq<Packet>, packet: Packet, key: FragmentKey)
    ensures FlowOf(earlier + [packet], key) ==
            if ForKey(packet, key) then Received(FlowOf(earlier, key), packet.offset, packet.more, packet.payload)
            else FlowOf(earlier, key)
  {
    assert (earlier + [packet])[..|earlier|] == earlier;
  }

  lemma {:induction false} FlowOfSlices(inputs: seq<Packet>, key: FragmentKey, datagram: seq<Byte>)
    requires OneDatagram(inputs, key, datagram)
    ensures SliceFlow(FlowOf(inputs, key), datagram)
    decreases |inputs|
  {
    if inputs != [] {
      hide SliceFlow, Slice;
      var last := inputs[|inputs| - 1];
      FlowOfSlices(inputs[..|inputs| - 1], key, datagram);
      if ForKey(last, key) {
        ReceivedSlice(FlowOf(inputs[..|inputs| - 1], key), last, datagram);
      }
    }
  }

  lemma {:induction false} FlowOfCut(inputs: seq<Packet>, key: FragmentKey, datagram: seq<Byte>, cut: Cut)
    requires forall i :: 0 <= i < |inputs| && ForKey(inputs[i], key) ==> Genuine(inputs[i], datagram, cut)
    ensures CutAs(FlowOf(inputs, key).log, cut)
    decreases |inputs|
  {
    if inputs != [] {
      hide Slice;
      FlowOfCut(inputs[..|inputs| - 1], key, datagram, cut);
    }
  }

  /** The table holds for the key what its packets so far have built up. */
  ghost predicate HoldsFlow(t: Table, key: FragmentKey, flow: Flow) {
    if key in t.flows then t.flows[key] == flow else flow == NEW_FLOW
  }

  /** One more packet of the key: emit exactly when it completes the cover. */
  lemma AcceptOne(t: Table, capacity: nat, earlier: seq<Packet>, packet: Packet, key: FragmentKey, datagram: seq<Byte>)
    requires Bounded(t, capacity) && capacity > 0 && |datagram| > 0
    requires OneDatagram(earlier + [packet], key, datagram) && ForKey(packet, key)
    requires HoldsFlow(t, key, FlowOf(earlier, key))
    ensures var (t', out) := Accept(t, capacity, packet);
            var flow := FlowOf(earlier + [packet], key);
            if CoversAll(flow.log, |datagram|)
            then out == [Assembled(|datagram|, Chunks(flow.log))] &&
                 (Assembled(|datagram|, Chunks(flow.log)) == datagram <==> Intact(flow.log, datagram))
            else out == [] && HoldsFlow(t', key, flow)
  {
    hide Bounded, Enter, SliceFlow, Slice, Complete, Assembled, Chunks, CoversAll, FlowOf, Intact;
    FlowOfSnoc(earlier, packet, key);
    FlowOfSlices(earlier + [packet], key, datagram);
    CompleteIsCovered(FlowOf(earlier + [packet], key), datagram);
    BoundedEnter(t, capacity, key, NEW_FLOW);
  }

  // ---------- Packets of other keys ----------

  /** A pending flow outlasts the packets of others while fewer of them arrive than the table has places. */
  lemma OthersKeep(t: Table, capacity: nat, packet: Packet, key: FragmentKey, later: set<FragmentKey>)
    requires Bounded(t, capacity) && OnlyBehind(t.order, key, later) && |later| < capacity
    requires !ForKey(packet, key) && (packet.Piece? ==> packet.key in later)
    ensures var t' := Accept(t, capacity, packet).0;
            && (key in t'.flows <==> key in t.flows) && (key in t.flows ==> t'.flows[key] == t.flows[key])
            && OnlyBehind(t'.order, key, later)
  {
    hide Bounded, Unlist, Enter, OnlyBehind, Complete, Assembled;
    if packet.Piece? {
      BoundedEnter(t, capacity, packet.key, NEW_FLOW);
      EnterOthers(t, capacity, packet.key, NEW_FLOW, key, later);
      RemovePlace(Enter(t, capacity, packet.key, NEW_FLOW), capacity, packet.key, key, later);
    }
  }

  /** The flow of a key begins at the end of the queue and keeps its place. */
  lemma OwnPlace(t: Table, capacity: nat, packet: Packet, key: FragmentKey, later: set<FragmentKey>)
    requires Bounded(t, capacity) && OnlyBehind(t.order, key, later) && ForKey(packet, key)
    ensures OnlyBehind(Accept(t, capacity, packet).0.order, key, later)
  {
    hide Bounded, Unlist, Enter, OnlyBehind, Complete, Assembled;
    if capacity > 0 {
      BoundedEnter(t, capacity, key, NEW_FLOW);
      EnterPlace(t, capacity, key, NEW_FLOW, later);
      RemovePlace(Enter(t, capacity, key, NEW_FLOW), capacity, key, key, later);
    }
  }

  /**
   Another key's packet costs a pending flow its place exactly when it enters a full table whose
   oldest flow this is.
  */
  lemma LostToAnother(t: Table, capacity: nat, packet: Packet, key: FragmentKey)
    requires Bounded(t, capacity) && key in t.flows && !ForKey(packet, key)
    ensures key !in Accept(t, capacity, packet).0.flows <==>
            packet.Piece? && packet.key !in t.flows && |t.flows| == capacity && t.order[0] == key
  {
    hide Lists, Unlist, Complete, Assembled, Enter;
    if packet.Piece? {
      LostOnEnter(t, capacity, packet.key, NEW_FLOW, key);
    }
  }

  /** A packet that is no fragment is handed on at once; without places no fragment is kept. */
  lemma WholePasses(t: Table, capacity: nat, packet: Packet)
    ensures packet.Whole? ==> Accept(t, capacity, packet) == (t, [packet.payload])
    ensures packet.Piece? && capacity == 0 ==> Accept(t, capacity, packet) == (t, [])
  {
  }

  lemma OneAt(inputs: seq<Packet>, key: FragmentKey, datagram: seq<Byte>, n: nat)
    requires OneDatagram(inputs, key, datagram) && n < |inputs|
    ensures inputs[..n + 1] == inputs[..n] + [inputs[n]]
    ensures OneDatagram(inputs[..n + 1], key, datagram)
  {
    hide Slice;
  }

  lemma RivalAt(inputs: seq<Packet>, key: FragmentKey, n: nat, last: nat)
    requires n < last <= |inputs| && inputs[n].Piece? && inputs[n].key != key
    ensures inputs[n].key in Rivals(inputs[..last], key)
  {
    assert inputs[..last][n] == inputs[n];
  }

  lemma StartHolds(t: Table, capacity: nat, inputs: seq<Packet>, key: FragmentKey, later: set<FragmentKey>)
    requires Bounded(t, capacity) && key !in t.flows
    ensures HoldsFlow(t, key, FlowOf(inputs[..0], key)) && OnlyBehind(t.order, key, later)
  {
    NotListed(t, capacity, key, later);
  }

  /** Until the datagram is complete, its flow holds what its packets have built up, whatever arrives for others. */
  lemma {:induction false} FlowStands(
    capacity: nat, inputs: seq<Packet>, tables: seq<Table>, outs: seq<seq<seq<Byte>>>,
    key: FragmentKey, datagram: seq<Byte>, n: nat, last: nat)
    requires Run(capacity, inputs, tables, outs) && |datagram| > 0
    requires |tables| > 0 && key !in tables[0].flows
    requires OneDatagram(inputs, key, datagram)
    requires n <= last <= |inputs| && UncoveredTo(inputs, key, |datagram|, n)
    requires |Rivals(inputs[..last], key)| < capacity
    ensures |tables| == |inputs| + 1 && |outs| == |inputs|
    ensures HoldsFlow(tables[n], key, FlowOf(inputs[..n], key))
    ensures OnlyBehind(tables[n].order, key, Rivals(inputs[..last], key))
    ensures forall i :: 0 <= i < n && ForKey(inputs[i], key) ==> outs[i] == []
  {
    RunLengths(capacity, inputs, tables, outs);
    hide Run, OneDatagram, Bounded, Accept, FlowOf, OnlyBehind, Rivals, HoldsFlow, CoversAll, Intact, Assembled;
    var later := Rivals(inputs[..last], key);
    if n == 0 {
      RunBounded(capacity, inputs, tables, outs, 0);
      StartHolds(tables[0], capacity, inputs, key, later);
    } else {
      FlowStands(capacity, inputs, tables, outs, key, datagram, n - 1, last);
      OneAt(inputs, key, datagram, n - 1);
      RunAt(capacity, inputs, tables, outs, n - 1);
      var packet := inputs[n - 1];
      FlowOfSnoc(inputs[..n - 1], packet, key);
      assert !Covered(inputs[..n], key, |datagram|);
      if ForKey(packet, key) {
        AcceptOne(tables[n - 1], capacity, inputs[..n - 1], packet, key, datagram);
        OwnPlace(tables[n - 1], capacity, packet, key, later);
      } else {
        if packet.Piece? {
          RivalAt(inputs, key, n - 1, last);
        }
        OthersKeep(tables[n - 1], capacity, packet, key, later);
        SameFlow(tables[n - 1], tables[n], key, FlowOf(inputs[..n], key));
      }
    }
  }

  lemma SameFlow(t: Table, t': Table, key: FragmentKey, flow: Flow)
    requires HoldsFlow(t, key, flow)
    requires (key in t'.flows <==> key in t.flows) && (key in t.flows ==> t'.flows[key] == t.flows[key])
    ensures HoldsFlow(t', key, flow)
  {
  }

  /** The packets up to and including this one are the first that cover the datagram. */
  ghost predicate CompletesAt(inputs: seq<Packet>, key: FragmentKey, size: nat, n: nat) {
    n < |inputs| && Covered(inputs[..n + 1], key, size) && UncoveredTo(inputs, key, size, n)
  }

  lemma CompletesForKey(inputs: seq<Packet>, key: FragmentKey, size: nat, n: nat)
    requires CompletesAt(inputs, key, size, n)
    ensures ForKey(inputs[n], key)
  {
    hide CoversAll, FlowOf;
    assert inputs[..n + 1] == inputs[..n] + [inputs[n]];
    FlowOfSnoc(inputs[..n], inputs[n], key);
  }

  /**
   Slices of one datagram, cut in any way, in any order, with repeats and overlaps,
   and with any traffic for other keys in between, as long as fewer other keys
   arrive than the table has places: nothing comes out before they cover the
   datagram, the one that completes the cover makes a datagram come out, and it is
   the right one if and only if every position that is not zero is held by a slice
   that no later one of the same offset replaced.
   */
  lemma DatagramEmitted(
    capacity: nat, inputs: seq<Packet>, tables: seq<Table>, outs: seq<seq<seq<Byte>>>,
    key: FragmentKey, datagram: seq<Byte>, n: nat)
    requires Run(capacity, inputs, tables, outs) && |datagram| > 0
    requires |tables| > 0 && key !in tables[0].flows
    requires OneDatagram(inputs, key, datagram)
    requires CompletesAt(inputs, key, |datagram|, n) && |Rivals(inputs[..n], key)| < capacity
    ensures |tables| == |inputs| + 1 && |outs| == |inputs| && |outs[n]| == 1
    ensures outs[n] == [datagram] <==> Intact(FlowOf(inputs[..n + 1], key).log, datagram)
    ensures forall i :: 0 <= i < n && ForKey(inputs[i], key) ==> outs[i] == []
  {
    hide Run, OneDatagram, Bounded, Accept, FlowOf, OnlyBehind, Rivals, HoldsFlow, CoversAll, Intact, Assembled,
        UncoveredTo;
    CompletesForKey(inputs, key, |datagram|, n);
    FlowStands(capacity, inputs, tables, outs, key, datagram, n, n);
    OneAt(inputs, key, datagram, n);
    RunAt(capacity, inputs, tables, outs, n);
    AcceptOne(tables[n], capacity, inputs[..n], inputs[n], key, datagram);
  }

  /** When equal offsets mean equal lengths, what comes out is the datagram. */
  lemma DatagramYielded(
    capacity: nat, inputs: seq<Packet>, tables: seq<Table>, outs: seq<seq<seq<Byte>>>,
    key: FragmentKey, datagram: seq<Byte>, cut: Cut, n: nat)
    requires Run(capacity, inputs, tables, outs) && |datagram| > 0
    requires |tables| > 0 && key !in tables[0].flows
    requires forall i :: 0 <= i < |inputs| && ForKey(inputs[i], key) ==> Genuine(inputs[i], datagram, cut)
    requires CompletesAt(inputs, key, |datagram|, n) && |Rivals(inputs[..n], key)| < capacity
    ensures |tables| == |inputs| + 1 && |outs| == |inputs|
    ensures outs[n] == [datagram]
    ensures forall i :: 0 <= i < n && ForKey(inputs[i], key) ==> outs[i] == []
  {
    hide Run, FlowOf, Rivals, CoversAll, Intact, Slice, UncoveredTo;
    DatagramEmitted(capacity, inputs, tables, outs, key, datagram, n);
    FlowOfCut(inputs[..n + 1], key, datagram, cut);
    assert EqualLengths(FlowOf(inputs[..n + 1], key).log);
    EqualLengthsIntact(FlowOf(inputs[..n + 1], key).log, datagram);
  }

  // ---------- How many keys it takes ----------

  const EIGHT: seq<Byte> := [7, 7, 7, 7, 7, 7, 7, 7]
  const SIXTEEN: seq<Byte> := EIGHT + EIGHT

  function FirstHalf(key: FragmentKey): Packet {
    Piece(key, 0, true, EIGHT)
  }

  function SecondHalf(key: FragmentKey): Packet {
    Piece(key, 8, false, EIGHT)
  }

  /** The first half of a datagram, the first halves of others, and the second half. */
  function Crowd(key: FragmentKey, others: seq<FragmentKey>): seq<Packet> {
    [FirstHalf(key)] + seq(|others|, i requires 0 <= i < |others| => FirstHalf(others[i])) + [SecondHalf(key)]
  }

  const HALF := Flow(None, [Fragment(0, EIGHT)])

  lemma CrowdAt(key: FragmentKey, others: seq<FragmentKey>)
    ensures var inputs := Crowd(key, others);
            && |inputs| == |others| + 2 && inputs[0] == FirstHalf(key)
            && (forall i :: 1 <= i <= |others| ==> inputs[i] == FirstHalf(others[i - 1]))
            && inputs[|others| + 1] == SecondHalf(key)
  {
  }

  /** A half enters a table of first halves. */
  lemma HalfStep(order: seq<FragmentKey>, capacity: nat, key: FragmentKey)
    requires NoDuplicates(order) && key !in order && capacity > 0
    ensures Accept(Alike(order, HALF), capacity, FirstHalf(key)) == (Alike(Left(order, capacity) + [key], HALF), [])
    ensures Accept(Alike(order, HALF), capacity, SecondHalf(key)).1 == []
  {
    AlikeEnter(order, HALF, capacity, key, NEW_FLOW);
    var second := Flow(Some(16), [Fragment(8, EIGHT)]);
    assert !LogCovers(second.log, 0);
    assert [] + HALF.log == HALF.log && [] + second.log == second.log;
    assert !Complete(second);
    hide Complete, Enter, Alike, Left;
  }

  lemma {:induction false} CrowdTables(key: FragmentKey, others: seq<FragmentKey>, tables: seq<Table>,
                                       outs: seq<seq<seq<Byte>>>, n: nat)
    requires NoDuplicates(others) && key !in others && n <= |others| && others != []
    requires Run(|others|, Crowd(key, others), tables, outs) && tables[0] == EMPTY
    ensures |tables| == |others| + 3 && |outs| == |others| + 2
    ensures tables[n + 1] == Alike(Crowding(key, others, n), HALF) && outs[0] == []
    decreases n
  {
    hide Accept, Crowd;
    CrowdAt(key, others);
    RunAt(|others|, Crowd(key, others), tables, outs, n);
    if n == 0 {
      assert tables[0] == Alike([], HALF);
      HalfStep([], |others|, key);
      assert [] + [key] == [key] + others[..0];
    } else {
      CrowdTables(key, others, tables, outs, n - 1);
      CrowdingStep(key, others, n - 1);
      HalfStep(Crowding(key, others, n - 1), |others|, others[n - 1]);
    }
  }

  /** Until the last packet, only the first half has arrived. */
  lemma {:induction false} CrowdBuilds(key: FragmentKey, others: seq<FragmentKey>, n: nat)
    requires key !in others && n < |Crowd(key, others)|
    ensures FlowOf(Crowd(key, others)[..n], key) == if n == 0 then NEW_FLOW else HALF
    decreases n
  {
    hide Crowd;
    CrowdAt(key, others);
    if n > 0 {
      var inputs, m := Crowd(key, others), n - 1;
      CrowdBuilds(key, others, m);
      assert inputs[..n] == inputs[..m] + [inputs[m]];
      FlowOfSnoc(inputs[..m], inputs[m], key);
      if m > 0 {
        assert inputs[m] == FirstHalf(others[m - 1]);
      }
      assert [] + HALF.log == HALF.log;
    }
  }

  lemma HalvesCover(flow: Flow)
    requires flow.log == HALF.log + [Fragment(8, EIGHT)]
    ensures CoversAll(flow.log, 16) && !CoversAll(HALF.log, 16) && !CoversAll(NEW_FLOW.log, 16)
  {
    forall p | 0 <= p < 16 ensures LogCovers(flow.log, p) {
      assert if p < 8 then flow.log[0].Holds(p) else flow.log[1].Holds(p);
    }
    assert !LogCovers(HALF.log, 8) && !LogCovers(NEW_FLOW.log, 8);
  }

  lemma CrowdCompletes(key: FragmentKey, others: seq<FragmentKey>)
    requires key !in others
    ensures CompletesAt(Crowd(key, others), key, 16, |others| + 1)
  {
    hide Crowd, FlowOf, CoversAll;
    CrowdAt(key, others);
    var inputs, n := Crowd(key, others), |others| + 1;
    assert inputs[..n + 1] == inputs[..n] + [inputs[n]];
    FlowOfSnoc(inputs[..n], inputs[n], key);
    forall m | 0 <= m <= n {
      CrowdBuilds(key, others, m);
    }
    HalvesCover(FlowOf(inputs[..n + 1], key));
  }

  lemma CrowdRivals(key: FragmentKey, others: seq<FragmentKey>)
    requires NoDuplicates(others) && key !in others
    ensures |Rivals(Crowd(key, others)[..|others| + 1], key)| == |others|
    ensures OneDatagram(Crowd(key, others), key, SIXTEEN)
  {
    hide Crowd;
    CrowdAt(key, others);
    var inputs := Crowd(key, others)[..|others| + 1];
    assert Rivals(inputs, key) == set k | k in others by {
      forall k | k in others ensures k in Rivals(inputs, key) {
        var n :| 0 <= n < |others| && others[n] == k;
        assert inputs[n + 1].key == k;
      }
    }
    AlikeSize(others, HALF);
  }

  /**
   Fewer rivals than places is the most that can be allowed: for every number of
   places, as many other keys that enter after this one has cost it its place, and
   the packet that completes the cover makes nothing come out.
   */
  lemma CrowdedOut(key: FragmentKey, others: seq<FragmentKey>, tables: seq<Table>, outs: seq<seq<seq<Byte>>>)
    requires NoDuplicates(others) && key !in others && others != []
    requires Run(|others|, Crowd(key, others), tables, outs) && tables[0] == EMPTY
    ensures OneDatagram(Crowd(key, others), key, SIXTEEN)
    ensures CompletesAt(Crowd(key, others), key, |SIXTEEN|, |others| + 1)
    ensures |Rivals(Crowd(key, others)[..|others| + 1], key)| == |others|
    ensures |outs| == |others| + 2 && outs[0] == [] && outs[|others| + 1] == []
  {
    hide Accept, Crowd, CompletesAt, Rivals, OneDatagram;
    var n := |others| + 1;
    CrowdAt(key, others);
    CrowdRivals(key, others);
    CrowdCompletes(key, others);
    CrowdTables(key, others, tables, outs, n - 1);
    RunAt(|others|, Crowd(key, others), tables, outs, n);
    HalfStep(others, |others|, key);
  }

  // ---------- A shorter repeat ----------

  const EMPTY: Table := Table(map[], [])

  function ShorterRepeat(key: FragmentKey, datagram: seq<Byte>): seq<Packet>
    requires |datagram| == 24
  {
    [Piece(key, 0, true, datagram[..16]), Piece(key, 0, true, datagram[..8]), Piece(key, 16, false, datagram[16..])]
  }

  /**
   A shorter fragment sent again at the same offset does lose bytes: the third of
   these packets makes a datagram come out that is not the one that was sent.
   */
  lemma ShorterRepeatLoses(capacity: nat, key: FragmentKey)
    requires capacity > 0
    ensures var datagram := seq(24, _ => 7 as Byte);
            var inputs := ShorterRepeat(key, datagram);
            var (t1, out1) := Accept(EMPTY, capacity, inputs[0]);
            var (t2, out2) := Accept(t1, capacity, inputs[1]);
            var (t3, out3) := Accept(t2, capacity, inputs[2]);
            && OneDatagram(inputs, key, datagram) && CoversAll(FlowOf(inputs, key).log, 24)
            && out1 == [] && out2 == [] && |out3| == 1 && out3 != [datagram]
  {
    hide Accept, Assembled, Chunks, Complete, CoversAll, FlowOf, LogCovers, Intact, CompletesAt;
    var datagram := seq(24, _ => 7 as Byte);
    var inputs := ShorterRepeat(key, datagram);
    var (t1, out1) := Accept(EMPTY, capacity, inputs[0]);
    var (t2, out2) := Accept(t1, capacity, inputs[1]);
    var (t3, out3) := Accept(t2, capacity, inputs[2]);
    var tables, outs := [EMPTY, t1, t2, t3], [out1, out2, out3];
    assert Run(capacity, inputs, tables, outs);
    RepeatCompletes(key, datagram, inputs);
    assert Rivals(inputs[..2], key) == {};
    DatagramEmitted(capacity, inputs, tables, outs, key, datagram, 2);
  }

  /** What the packets build up, one after the other. */
  lemma RepeatLog(key: FragmentKey, inputs: seq<Packet>)
    requires |inputs| == 3 && ForKey(inputs[0], key) && ForKey(inputs[1], key) && ForKey(inputs[2], key)
    ensures var log := [Fragment(inputs[0].offset, inputs[0].payload), Fragment(inputs[1].offset, inputs[1].payload),
                        Fragment(inputs[2].offset, inputs[2].payload)];
            inputs[..3] == inputs && forall m :: 0 <= m <= 3 ==> FlowOf(inputs[..m], key).log == log[..m]
  {
    assert inputs[..0] == [] && inputs[..1] == [] + [inputs[0]];
    assert inputs[..2] == inputs[..1] + [inputs[1]];
    assert inputs[..3] == inputs[..2] + [inputs[2]] && inputs[..3] == inputs;
    FlowOfSnoc([], inputs[0], key);
    FlowOfSnoc(inputs[..1], inputs[1], key);
    FlowOfSnoc(inputs[..2], inputs[2], key);
    assert FlowOf([], key) == NEW_FLOW;
    hide FlowOf;
  }

  /** The three fragments cover the datagram with the third, but none that survives holds position 8. */
  lemma RepeatUncovers(datagram: seq<Byte>, log: seq<Fragment>)
    requires |datagram| == 24 && datagram[8] == 7
    requires log == [Fragment(0, datagram[..16]), Fragment(0, datagram[..8]), Fragment(16, datagram[16..])]
    ensures CoversAll(log, 24) && !Intact(log, datagram)
    ensures forall m :: 0 <= m <= 2 ==> !CoversAll(log[..m], 24)
  {
    forall p | 0 <= p < 24 ensures LogCovers(log, p) {
      assert if p < 16 then log[0].Holds(p) else log[2].Holds(p);
    }
    forall m | 0 <= m <= 2 ensures !CoversAll(log[..m], 24) {
      assert !LogCovers(log[..m], 23);
    }
    assert log[1].offset == log[0].offset;
    assert !Survives(log, 0) && !log[1].Holds(8) && !log[2].Holds(8);
    assert !HeldBySurvivor(log, 8);
  }

  lemma RepeatCompletes(key: FragmentKey, datagram: seq<Byte>, inputs: seq<Packet>)
    requires datagram == seq(24, _ => 7 as Byte)
    requires inputs == ShorterRepeat(key, datagram)
    ensures CompletesAt(inputs, key, 24, 2) && inputs[..3] == inputs
    ensures CoversAll(FlowOf(inputs, key).log, 24) && !Intact(FlowOf(inputs, key).log, datagram)
  {
    hide FlowOf, CoversAll, Intact;
    var log := [Fragment(0, datagram[..16]), Fragment(0, datagram[..8]), Fragment(16, datagram[16..])];
    RepeatLog(key, inputs);
    RepeatUncovers(datagram, log);
    assert log[..3] == log;
  }

  // ---------- The reassembler as an object ----------

  datatype FlowState = FlowState(totalLen: Option<nat>, ranges: seq<Range>, chunks: seq<Fragment>)

  /** A stored state has the ranges and the chunks of what its flow has received. */
  ghost predicate Stands(state: FlowState, flow: Flow) {
    && state.totalLen == flow.total
    && state.chunks == Chunks(flow.log)
    && Canonical(state.ranges)
    && (forall p :: Covers(state.ranges, p) <==> LogCovers(flow.log, p))
  }

  ghost predicate Stand(flows: map<FragmentKey, FlowState>, abs: map<FragmentKey, Flow>) {
    flows.Keys == abs.Keys && forall k :: k in flows ==> Stands(flows[k], abs[k])
  }

  lemma StandSize(flows: map<FragmentKey, FlowState>, abs: map<FragmentKey, Flow>)
    requires Stand(flows, abs)
    ensures flows.Keys == abs.Keys && |flows| == |abs|
  {
    assert |flows| == |flows.Keys| && |abs| == |abs.Keys|;
  }

  lemma NewStands()
    ensures Stands(FlowState(None, [], []), NEW_FLOW)
  {
  }

  /** flow_is_complete on the stored state is completeness of the flow. */
  lemma WholeIsComplete(state: FlowState, flow: Flow)
    requires Stands(state, flow)
    ensures Complete(flow) <==> state.totalLen.Some? && IsWhole(state.ranges, state.totalLen.value)
  {
    if Complete(flow) {
      var e: nat :| e > 0 && e >= flow.total.value && StretchTo(flow.log, e);
      var whole := [Range(0, e)];
      forall p ensures Covers(whole, p) <==> Covers(state.ranges, p) {
        assert Covers(whole, p) <==> whole[0].start <= p < whole[0].end;
      }
      CanonicalUnique(whole, state.ranges);
    }
    if state.totalLen.Some? && IsWhole(state.ranges, state.totalLen.value) {
      var e := state.ranges[0].end;
      forall p ensures LogCovers(flow.log, p) <==> 0 <= p < e {
        assert Covers(state.ranges, p) <==> state.ranges[0].start <= p < state.ranges[0].end;
      }
      assert StretchTo(flow.log, e);
    }
  }

  lemma ReceivedStands(state: FlowState, flow: Flow, ranges: seq<Range>, offset: nat, more: bool, payload: seq<Byte>)
    requires Stands(state, flow) && Canonical(ranges)
    requires forall p :: Covers(ranges, p) <==> Covers(state.ranges, p) || offset <= p < offset + |payload|
    ensures Stands(FlowState(if more then state.totalLen else Some(offset + |payload|), ranges,
                             Put(state.chunks, Fragment(offset, payload))),
                   Received(flow, offset, more, payload))
  {
    var f := Fragment(offset, payload);
    assert (flow.log + [f])[..|flow.log|] == flow.log;
    forall p {
      CoversSnoc(flow.log, f, p);
    }
  }

  lemma StandSet(flows: map<FragmentKey, FlowState>, abs: map<FragmentKey, Flow>, key: FragmentKey, state: FlowState,
                 flow: Flow)
    requires Stand(flows, abs) && Stands(state, flow)
    ensures Stand(flows[key := state], abs[key := flow])
  {
    hide Stands;
  }

  lemma StandRemove(flows: map<FragmentKey, FlowState>, abs: map<FragmentKey, Flow>, key: FragmentKey)
    requires Stand(flows, abs)
    ensures Stand(flows - {key}, abs - {key})
  {
    hide Stands;
  }

  lemma StandAt(flows: map<FragmentKey, FlowState>, abs: map<FragmentKey, Flow>, key: FragmentKey)
    requires Stand(flows, abs) && key in flows
    ensures key in abs && Stands(flows[key], abs[key]) && Canonical(flows[key].ranges)
  {
  }

  class IpFragmentReassembler {
    var flows: map<FragmentKey, FlowState>
    var order: seq<FragmentKey>
    const capacity: nat
    ghost var table: Table

    ghost predicate Valid()
      reads this
    {
      Stand(flows, table.flows) && order == table.order && Bounded(table, capacity)
    }

    constructor (capacity: nat)
      ensures Valid() && table == Table(map[], []) && this.capacity == capacity
    {
      this.capacity := capacity;
      flows, order, table := map[], [], Table(map[], []);
    }

    /** Pop keys off the order list until a flow has been removed. */
    method EvictOldest()
      requires Valid() && |flows| > 0
      modifies this
      ensures Valid() && |table.order| < |old(table).order|
      ensures old(table).order != [] && table == Remove(old(table), old(table).order[0])
    {
      hide Stand, Bounded, Unlist, Lists;
      StandSize(flows, table.flows);
      FirstIsFlow(table, capacity);
      BoundedRemove(table, capacity, table.order[0]);
      // The order lists exactly the flows, so the first key popped is one of them.
      var oldest := order[0];
      StandRemove(flows, table.flows, oldest);
      order, flows := order[1..], flows - {oldest};
      table := Remove(table, oldest);
    }

    /** Find or make the flow of a key. */
    method EnterFlow(key: FragmentKey)
      requires Valid() && capacity > 0
      modifies this
      ensures Valid() && table == Enter(old(table), capacity, key, NEW_FLOW)
      ensures key in flows && key in table.flows
    {
      hide Stand, Bounded, Unlist, Lists;
      BoundedEnter(table, capacity, key, NEW_FLOW);
      StandSize(flows, table.flows);
      if key !in flows {
        if |flows| >= capacity {
          OrderNonEmpty(table, capacity);
          EvictOldest();
        }
        order := order + [key];
        NewStands();
        StandSet(flows, table.flows, key, FlowState(None, [], []), NEW_FLOW);
        flows := flows[key := FlowState(None, [], [])];
        table := Table(table.flows[key := NEW_FLOW], table.order + [key]);
      }
    }

    /** One packet: the table and the datagrams handed on are those of `Accept`. */
    method AcceptPacket(packet: Packet) returns (datagrams: seq<seq<Byte>>)
      requires Valid()
      modifies this
      ensures Valid() && (table, datagrams) == Accept(old(table), capacity, packet)
    {
      hide Stand, Stands, Bounded, Unlist, Lists, Enter, Complete, Chunks, Put, Covers, Canonical;
      AcceptKeeps(table, capacity, packet);
      if packet.Whole? {
        return [packet.payload];
      }
      if capacity == 0 {
        return [];
      }
      var key, offset := packet.key, packet.offset;
      EnterFlow(key);
      StandAt(flows, table.flows, key);
      var state := flows[key];
      ghost var flow := table.flows[key];
      var fragmentEnd := offset + |packet.payload|;
      var totalLen := if packet.more then state.totalLen else Some(fragmentEnd);
      var ranges := InsertRange(state.ranges, offset, fragmentEnd);
      ReceivedStands(state, flow, ranges, offset, packet.more, packet.payload);
      state := FlowState(totalLen, ranges, Put(state.chunks, Fragment(offset, packet.payload)));
      flow := Received(flow, offset, packet.more, packet.payload);
      StandSet(flows, table.flows, key, state, flow);
      StandRemove(flows, table.flows, key);
      WholeIsComplete(state, flow);
      if state.totalLen.None? || !IsWhole(state.ranges, state.totalLen.value) {
        flows := flows[key := state];
        table := table.(flows := table.flows[key := flow]);
        return [];
      }
      flows, order := flows - {key}, Unlist(order, key);
      table := Remove(table, key);
      ChunksOf(state, flow);
      var payload := Assemble(state.chunks, state.totalLen.value);
      return [payload];
    }
  }

  lemma FirstIsFlow(t: Table, capacity: nat)
    requires Bounded(t, capacity) && |t.flows| > 0
    ensures t.order != [] && t.order[0] in t.flows && Unlist(t.order, t.order[0]) == t.order[1..]
  {
    FirstListed(t.order, t.flows);
  }

  lemma OrderNonEmpty(t: Table, capacity: nat)
    requires Bounded(t, capacity) && |t.flows| > 0
    ensures t.order != []
  {
    FirstListed(t.order, t.flows);
  }

  lemma ChunksOf(state: FlowState, flow: Flow)
    requires Stands(state, flow)
    ensures state.chunks == Chunks(flow.log) && DistinctOffsets(state.chunks)
  {
    ChunksSurvive(flow.log);
  }
}
