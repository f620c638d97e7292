/**
 Reassembly of RTPS samples sent as DATA_FRAG submessages. `Accept` says what one
 submessage does to the table of incomplete samples; the lemmas say what is
 emitted over whole runs; the classes perform it on buffers written in place,
 under a memory budget shared with other processors.
 */
module RtpsFragments {
  import opened Basics
  import opened FifoOrder
  import opened FlowTables
  import opened FragmentLogs
  import opened Ranges
  import opened MapSums
  import opened SharedBudget

  const FLOW_CAPACITY: nat := 128 * 1024 * 1024

  datatype SampleKey = SampleKey(writerGid: seq<Byte>, sequenceNumber: seq<Byte>)

  /** The fields of a DATA_FRAG submessage that reassembly looks at. */
  datatype DataFrag = DataFrag(
    key: SampleKey,
    startingNum: U32,
    fragmentsInSubmessage: U16,
    fragmentSize: U16,
    sampleSize: U32,
    payload: seq<Byte>)

  datatype Output = Malformed | Nothing | Sample(bytes: seq<Byte>)

  function Min(a: int, b: int): int {
    if a < b then a else b
  }

  // ---------- What a list of fragments amounts to ----------

  ghost function Splice(s: seq<Byte>, f: Fragment): seq<Byte>
    requires f.End() <= |s|
  {
    s[..f.offset] + f.bytes + s[f.End()..]
  }

  /** A zeroed buffer with the fragments written over it, one after the other. */
  ghost function Overlay(size: nat, log: seq<Fragment>): (r: seq<Byte>)
    requires Fits(log, size)
    ensures |r| == size
  {
    if log == [] then seq(size, _ => 0)
    else Splice(Overlay(size, log[..|log| - 1]), log[|log| - 1])
  }

  /** Every byte of the buffer is that of the latest fragment covering it. */
  lemma {:induction false} LatestWins(size: nat, log: seq<Fragment>, i: nat, p: nat)
    requires Fits(log, size) && i < |log| && log[i].Holds(p)
    requires forall j :: i < j < |log| ==> !log[j].Holds(p)
    ensures p < size && Overlay(size, log)[p] == log[i].bytes[p - log[i].offset]
    decreases |log|
  {
    var n := |log| - 1;
    if i < n {
      assert !log[n].Holds(p);
      LatestWins(size, log[..n], i, p);
    }
  }

  lemma {:induction false} SliceBytes(sample: seq<Byte>, log: seq<Fragment>, p: nat)
    requires SlicesOf(log, sample) && LogCovers(log, p)
    ensures Fits(log, |sample|) && p < |sample| && Overlay(|sample|, log)[p] == sample[p]
    decreases |log|
  {
    var n := |log| - 1;
    if !log[n].Holds(p) {
      var i :| 0 <= i < |log| && log[i].Holds(p);
      assert log[..n][i].Holds(p);
      SliceBytes(sample, log[..n], p);
    }
  }

  /** Slices of one sample that cover it yield it, in any order and with repeats. */
  lemma SlicesYieldSample(sample: seq<Byte>, log: seq<Fragment>)
    requires SlicesOf(log, sample) && CoversAll(log, |sample|)
    ensures Fits(log, |sample|) && Overlay(|sample|, log) == sample
  {
    forall p | 0 <= p < |sample| ensures Overlay(|sample|, log)[p] == sample[p] {
      SliceBytes(sample, log, p);
    }
  }

  // ---------- One submessage ----------

  datatype Flow = Flow(size: nat, log: seq<Fragment>)

  type Table = FlowTables.Table<SampleKey, Flow>

  function Offset(d: DataFrag): nat
    requires d.startingNum > 0
  {
    (d.startingNum - 1) * d.fragmentSize
  }

  /** The part of the payload that is written, and where. */
  function Effective(d: DataFrag): Fragment
    requires d.startingNum > 0
  {
    var offset := Offset(d);
    var payloadLen := Min(|d.payload|, d.fragmentsInSubmessage * d.fragmentSize);
    var end := Min(offset + payloadLen, d.sampleSize);
    if end <= offset then Fragment(offset, []) else Fragment(offset, d.payload[..end - offset])
  }

  /** The canonical interval list of the fragments so far is full and apart from the new one. */
  ghost predicate RangesRefuse(log: seq<Fragment>, f: Fragment) {
    exists r: seq<Range> ::
      && Canonical(r)
      && (forall p :: Covers(r, p) <==> LogCovers(log, p))
      && |r| >= MAX_RANGES
      && !Touches(r, f.offset, f.End())
  }

  ghost function AppendLog(t: Table, key: SampleKey, f: Fragment): Table
    requires key in t.flows
  {
    var flow := t.flows[key];
    t.(flows := t.flows[key := flow.(log := flow.log + [f])])
  }

  /** Write one fragment to a flow of the table. */
  ghost function Write(t: Table, key: SampleKey, f: Fragment): (Table, Output)
    requires key in t.flows && (f.bytes != [] ==> Fits(t.flows[key].log + [f], t.flows[key].size))
  {
    var flow := t.flows[key];
    if f.bytes == [] then
      (t, Nothing)
    else if RangesRefuse(flow.log, f) then
      (Remove(t, key), Nothing)
    else if CoversAll(flow.log + [f], flow.size) then
      (Remove(t, key), Sample(Overlay(flow.size, flow.log + [f])))
    else
      (AppendLog(t, key, f), Nothing)
  }

  ghost predicate WellFormed(t: Table, capacity: nat) {
    && Bounded(t, capacity)
    && (forall k :: k in t.flows ==> 0 < t.flows[k].size && Fits(t.flows[k].log, t.flows[k].size))
  }

  /** `granted` says whether the budget and the allocator gave memory for a new flow. */
  ghost function Accept(t: Table, capacity: nat, d: DataFrag, granted: bool): (Table, Output)
    requires WellFormed(t, capacity)
  {
    if d.payload == [] then
      (t, Nothing)
    else if d.startingNum == 0 then
      (t, Malformed)
    else if d.key in t.flows then
      if t.flows[d.key].size != d.sampleSize then (Remove(t, d.key), Nothing)
      else
        EffectiveFits(d, t.flows[d.key].log);
        Write(t, d.key, Effective(d))
    else if capacity == 0 || d.sampleSize == 0 || d.sampleSize > FLOW_CAPACITY then
      (t, Nothing)
    else if !granted then
      (Evict(t, capacity), Nothing)
    else
      EffectiveFits(d, []);
      Write(Enter(t, capacity, d.key, Flow(d.sampleSize, [])), d.key, Effective(d))
  }

  lemma EffectiveFits(d: DataFrag, log: seq<Fragment>)
    requires d.startingNum > 0 && Fits(log, d.sampleSize)
    ensures Effective(d).bytes != [] ==> Fits(log + [Effective(d)], d.sampleSize)
  {
  }

  // ---------- The table ----------

  lemma RemoveKeeps(t: Table, capacity: nat, key: SampleKey)
    requires WellFormed(t, capacity)
    ensures WellFormed(Remove(t, key), capacity)
    ensures key in t.flows ==> |Remove(t, key).flows| == |t.flows| - 1
  {
    hide Bounded, Unlist, Fits;
    BoundedRemove(t, capacity, key);
  }

  lemma EvictKeeps(t: Table, capacity: nat)
    requires WellFormed(t, capacity) && capacity > 0
    ensures WellFormed(Evict(t, capacity), capacity) && |Evict(t, capacity).flows| < capacity
  {
    hide Bounded, Evict, Fits;
    BoundedEvict(t, capacity);
  }

  lemma EnterKeeps(t: Table, capacity: nat, key: SampleKey, size: nat)
    requires WellFormed(t, capacity) && capacity > 0 && size > 0
    ensures var t' := Enter(t, capacity, key, Flow(size, []));
            && WellFormed(t', capacity) && key in t'.flows
            && t'.flows[key] == (if key in t.flows then t.flows[key] else Flow(size, []))
  {
    assert Fits([], size);
    hide Bounded, Enter, Fits;
    BoundedEnter(t, capacity, key, Flow(size, []));
  }

  lemma RemoveAppended(t: Table, key: SampleKey, f: Fragment)
    requires key in t.flows
    ensures Remove(AppendLog(t, key, f), key) == Remove(t, key)
  {
    assert AppendLog(t, key, f).flows - {key} == t.flows - {key};
  }

  lemma LogKeeps(t: Table, capacity: nat, key: SampleKey, f: Fragment)
    requires WellFormed(t, capacity) && key in t.flows && Fits(t.flows[key].log + [f], t.flows[key].size)
    ensures WellFormed(AppendLog(t, key, f), capacity)
  {
    hide Bounded, Fits;
    var flow := t.flows[key];
    BoundedSet(t, capacity, key, flow.(log := flow.log + [f]));
  }

  lemma WriteKeeps(t: Table, capacity: nat, key: SampleKey, f: Fragment)
    requires WellFormed(t, capacity)
    requires key in t.flows && (f.bytes != [] ==> Fits(t.flows[key].log + [f], t.flows[key].size))
    ensures WellFormed(Write(t, key, f).0, capacity)
  {
    hide RangesRefuse, CoversAll, Remove, Overlay, WellFormed, Fits;
    RemoveKeeps(t, capacity, key);
    if f.bytes != [] {
      LogKeeps(t, capacity, key, f);
    }
  }

  lemma InsertKeeps(t: Table, capacity: nat, key: SampleKey, size: nat)
    requires WellFormed(t, capacity) && |t.flows| < capacity && key !in t.flows && size > 0
    ensures WellFormed(Table(t.flows[key := Flow(size, [])], t.order + [key]), capacity)
  {
    hide Lists;
    ListsAdd(t.order, t.flows, key, Flow(size, []));
  }

  /** The order list stays a duplicate-free listing of the flows, within the capacity. */
  lemma AcceptKeeps(t: Table, capacity: nat, d: DataFrag, granted: bool)
    requires WellFormed(t, capacity)
    ensures WellFormed(Accept(t, capacity, d, granted).0, capacity)
  {
    RemoveKeeps(t, capacity, d.key);
    if d.payload != [] && d.startingNum > 0 {
      if d.key in t.flows {
        if t.flows[d.key].size == d.sampleSize {
          EffectiveFits(d, t.flows[d.key].log);
          hide *;
          WriteKeeps(t, capacity, d.key, Effective(d));
        }
      } else if capacity > 0 && 0 < d.sampleSize <= FLOW_CAPACITY {
        EvictKeeps(t, capacity);
        EnterKeeps(t, capacity, d.key, d.sampleSize);
        EffectiveFits(d, []);
        WriteKeeps(Enter(t, capacity, d.key, Flow(d.sampleSize, [])), capacity, d.key, Effective(d));
      }
    }
  }

  // ---------- What is emitted ----------

  /** Byte p comes from the latest fragment of the log that covers position p. */
  ghost predicate FromLatest(log: seq<Fragment>, p: nat, byte: Byte) {
    exists i :: 0 <= i < |log| && log[i].Holds(p) && byte == log[i].bytes[p - log[i].offset]
                && forall j :: i < j < |log| ==> !log[j].Holds(p)
  }

  lemma {:induction false} OverlayIsLatest(size: nat, log: seq<Fragment>, p: nat)
    requires Fits(log, size) && LogCovers(log, p) && p < size
    ensures FromLatest(log, p, Overlay(size, log)[p])
  {
    var i := |log| - 1;
    while !log[i].Holds(p)
      invariant 0 <= i < |log|
      invariant forall j :: i < j < |log| ==> !log[j].Holds(p)
      invariant exists k :: 0 <= k <= i && log[k].Holds(p)
      decreases i
    {
      i := i - 1;
    }
    LatestWins(size, log, i, p);
  }

  /** An emitted sample has every byte written, each by the latest accepted fragment covering it. */
  lemma EmittedIsExact(t: Table, capacity: nat, d: DataFrag, granted: bool)
    requires WellFormed(t, capacity) && Accept(t, capacity, d, granted).1.Sample?
    ensures var log := (if d.key in t.flows then t.flows[d.key].log else []) + [Effective(d)];
            var sample := Accept(t, capacity, d, granted).1.bytes;
            && |sample| == d.sampleSize
            && (forall p :: 0 <= p < |sample| ==> FromLatest(log, p, sample[p]))
  {
    hide Effective, Overlay, FromLatest, LogCovers, RangesRefuse;
    var log := (if d.key in t.flows then t.flows[d.key].log else []) + [Effective(d)];
    EffectiveFits(d, log[..|log| - 1]);
    assert log == log[..|log| - 1] + [Effective(d)];
    forall p | 0 <= p < d.sampleSize ensures FromLatest(log, p, Overlay(d.sampleSize, log)[p]) {
      OverlayIsLatest(d.sampleSize, log, p);
    }
  }

  // ---------- Runs ----------

  /** Submessages arrive one after the other, from a well-formed table on. */
  ghost predicate Run(capacity: nat, inputs: seq<(DataFrag, bool)>, tables: seq<Table>, outputs: seq<Output>) {
    && |tables| == |inputs| + 1 && |outputs| == |inputs|
    && WellFormed(tables[0], capacity)
    && (forall i :: 0 <= i < |inputs| && WellFormed(tables[i], capacity) ==>
          Accept(tables[i], capacity, inputs[i].0, inputs[i].1) == (tables[i + 1], outputs[i]))
  }

  lemma RunLengths(capacity: nat, inputs: seq<(DataFrag, bool)>, tables: seq<Table>, outputs: seq<Output>)
    requires Run(capacity, inputs, tables, outputs)
    ensures |tables| == |inputs| + 1 && |outputs| == |inputs|
  {
  }

  /** Every table of a run is well-formed, because the first one is. */
  lemma {:induction false} RunWellFormed(capacity: nat, inputs: seq<(DataFrag, bool)>, tables: seq<Table>,
                                         outputs: seq<Output>, i: nat)
    requires Run(capacity, inputs, tables, outputs) && i <= |inputs|
    ensures WellFormed(tables[i], capacity)
    decreases i
  {
    hide Accept, WellFormed;
    if i > 0 {
      RunWellFormed(capacity, inputs, tables, outputs, i - 1);
      AcceptKeeps(tables[i - 1], capacity, inputs[i - 1].0, inputs[i - 1].1);
    }
  }

  lemma RunAt(capacity: nat, inputs: seq<(DataFrag, bool)>, tables: seq<Table>, outputs: seq<Output>, i: nat)
    requires Run(capacity, inputs, tables, outputs) && i < |inputs|
    ensures WellFormed(tables[i], capacity)
    ensures Accept(tables[i], capacity, inputs[i].0, inputs[i].1) == (tables[i + 1], outputs[i])
  {
    hide Accept, WellFormed;
    RunWellFormed(capacity, inputs, tables, outputs, i);
  }

  /** The submessage carries a slice of the sample and announces its size. */
  ghost predicate Genuine(d: DataFrag, sample: seq<Byte>) {
    && d.startingNum > 0
    && d.sampleSize == |sample|
    && (var f := Effective(d); f.bytes != [] ==> f.bytes == sample[f.offset..f.End()])
  }

  /** All fragments a table holds for the key are slices of the sample. */
  ghost predicate HoldsSlices(t: Table, key: SampleKey, sample: seq<Byte>) {
    key in t.flows ==> t.flows[key].size == |sample| && SlicesOf(t.flows[key].log, sample)
  }

  lemma WriteSlices(t: Table, key: SampleKey, f: Fragment, sample: seq<Byte>)
    requires key in t.flows && (f.bytes != [] ==> Fits(t.flows[key].log + [f], t.flows[key].size))
    requires HoldsSlices(t, key, sample)
    requires f.bytes != [] ==> f.End() <= |sample| && f.bytes == sample[f.offset..f.End()]
    ensures HoldsSlices(Write(t, key, f).0, key, sample)
    ensures Write(t, key, f).1.Sample? ==> Write(t, key, f).1 == Sample(sample)
  {
    hide RangesRefuse, CoversAll, LogCovers;
    var flow := t.flows[key];
    if f.bytes != [] && CoversAll(flow.log + [f], flow.size) {
      SlicesYieldSample(sample, flow.log + [f]);
    }
  }

  /** A submessage of another key adds no fragment to this key. */
  lemma OtherKeySlices(t: Table, capacity: nat, d: DataFrag, granted: bool, key: SampleKey, sample: seq<Byte>)
    requires WellFormed(t, capacity) && HoldsSlices(t, key, sample) && d.key != key
    ensures HoldsSlices(Accept(t, capacity, d, granted).0, key, sample)
  {
    hide Effective, RangesRefuse, CoversAll, Overlay, SlicesOf, Fits, Lists, Unlist;
  }

  lemma AcceptSlices(t: Table, capacity: nat, d: DataFrag, granted: bool, key: SampleKey, sample: seq<Byte>)
    requires WellFormed(t, capacity) && HoldsSlices(t, key, sample)
    requires d.key == key ==> Genuine(d, sample)
    ensures var (t', out) := Accept(t, capacity, d, granted);
            && HoldsSlices(t', key, sample)
            && (d.key == key && out.Sample? ==> out == Sample(sample))
  {
    if d.key != key {
      OtherKeySlices(t, capacity, d, granted, key, sample);
    } else if d.payload != [] {
      EffectiveEnd(d);
      hide Effective, Write, SlicesOf, Fits, Lists, Unlist;
      if key in t.flows {
        EffectiveFits(d, t.flows[key].log);
        WriteSlices(t, key, Effective(d), sample);
      } else if capacity > 0 && 0 < d.sampleSize <= FLOW_CAPACITY {
        EffectiveFits(d, []);
        EnterKeeps(t, capacity, key, d.sampleSize);
        var grown := Enter(t, capacity, key, Flow(d.sampleSize, []));
        EmptyIsSlices(grown, key, sample);
        WriteSlices(grown, key, Effective(d), sample);
      }
    }
  }

  lemma EmptyIsSlices(t: Table, key: SampleKey, sample: seq<Byte>)
    requires key in t.flows && t.flows[key] == Flow(|sample|, [])
    ensures HoldsSlices(t, key, sample)
  {
  }

  lemma EffectiveEnd(d: DataFrag)
    requires d.startingNum > 0
    ensures Effective(d).bytes != [] ==> Effective(d).End() <= d.sampleSize
  {
  }

  /**
   Whatever else arrives, in any order and with repeats: when all submessages of
   one key are fragments of one sample, nothing but that sample is ever emitted
   for it.
   */
  lemma {:induction false} OnlyTheSample(
    capacity: nat, inputs: seq<(DataFrag, bool)>, tables: seq<Table>, outputs: seq<Output>,
    key: SampleKey, sample: seq<Byte>, n: nat)
    requires Run(capacity, inputs, tables, outputs) && n <= |inputs|
    requires key !in tables[0].flows
    requires forall i :: 0 <= i < |inputs| && inputs[i].0.key == key ==> Genuine(inputs[i].0, sample)
    ensures HoldsSlices(tables[n], key, sample)
    ensures forall i :: 0 <= i < n && inputs[i].0.key == key && outputs[i].Sample? ==> outputs[i] == Sample(sample)
  {
    hide *;
    RunLengths(capacity, inputs, tables, outputs);
    if n == 0 {
      AbsentSlices(tables[0], key, sample);
    } else {
      OnlyTheSample(capacity, inputs, tables, outputs, key, sample, n - 1);
      RunAt(capacity, inputs, tables, outputs, n - 1);
      AcceptSlices(tables[n - 1], capacity, inputs[n - 1].0, inputs[n - 1].1, key, sample);
    }
  }

  lemma AbsentSlices(t: Table, key: SampleKey, sample: seq<Byte>)
    requires key !in t.flows
    ensures HoldsSlices(t, key, sample)
  {
  }

  /** The fragments that the submessages of a key write, in order. */
  ghost function Written(inputs: seq<(DataFrag, bool)>, key: SampleKey): seq<Fragment> {
    if inputs == [] then []
    else
      var d := inputs[|inputs| - 1].0;
      var earlier := Written(inputs[..|inputs| - 1], key);
      if d.key == key && d.startingNum > 0 && Effective(d).bytes != [] then earlier + [Effective(d)] else earlier
  }

  /** A submessage that reaches the flow of its key: well-formed, of the announced size, with memory granted. */
  ghost predicate Reaches(input: (DataFrag, bool), size: nat) {
    input.0.startingNum > 0 && input.0.sampleSize == size && input.1
  }

  /** The submessages of one key are those of one sample, none of them refused for want of ranges. */
  ghost predicate OneSample(inputs: seq<(DataFrag, bool)>, key: SampleKey, size: nat) {
    && (forall i :: 0 <= i < |inputs| && inputs[i].0.key == key ==> Reaches(inputs[i], size))
    && (forall i :: 0 <= i < |inputs| && inputs[i].0.key == key && Effective(inputs[i].0).bytes != [] ==>
          !RangesRefuse(Written(inputs[..i], key), Effective(inputs[i].0)))
  }

  /** The submessage begins a flow when its key has none and memory is granted. */
  predicate Enters(d: DataFrag) {
    d.payload != [] && d.startingNum > 0 && 0 < d.sampleSize <= FLOW_CAPACITY
  }

  /** The other keys for which flows may begin. */
  ghost function Rivals(inputs: seq<(DataFrag, bool)>, key: SampleKey): set<SampleKey> {
    set i | 0 <= i < |inputs| && inputs[i].0.key != key && Enters(inputs[i].0) :: inputs[i].0.key
  }

  // ---------- Submessages of other keys ----------

  lemma WriteOthers(t: Table, other: SampleKey, f: Fragment, key: SampleKey)
    requires other in t.flows && (f.bytes != [] ==> Fits(t.flows[other].log + [f], t.flows[other].size)) && key != other
    ensures var t' := Write(t, other, f).0;
            && (key in t'.flows <==> key in t.flows) && (key in t.flows ==> t'.flows[key] == t.flows[key])
            && (t'.order == t.order || t'.order == Unlist(t.order, other))
  {
    hide RangesRefuse, CoversAll, Overlay, Fits;
  }

  /** Making room for a rival costs the key nothing while there are fewer of them than places. */
  lemma EvictOthers(t: Table, capacity: nat, key: SampleKey, later: set<SampleKey>, entering: SampleKey)
    requires WellFormed(t, capacity) && OnlyBehind(t.order, key, later) && |later| < capacity
    requires entering !in t.flows && entering in later
    ensures var room := Evict(t, capacity);
            && (key in room.flows <==> key in t.flows) && (key in t.flows ==> room.flows[key] == t.flows[key])
            && OnlyBehind(room.order, key, later)
  {
    hide Lists, Fits, OnlyBehind, Unlist;
    if |t.flows| >= capacity {
      OldestIsAnother(t.order, t.flows, key, later, entering);
      RemovePlace(t, capacity, t.order[0], key, later);
    }
  }

  /** A pending flow outlasts the submessages of others while fewer of them enter than the table has places. */
  lemma OthersKeep(t: Table, capacity: nat, d: DataFrag, granted: bool, key: SampleKey, later: set<SampleKey>)
    requires WellFormed(t, capacity) && OnlyBehind(t.order, key, later) && |later| < capacity
    requires d.key != key && (Enters(d) ==> d.key in later)
    ensures var t' := Accept(t, capacity, d, granted).0;
            && (key in t'.flows <==> key in t.flows) && (key in t.flows ==> t'.flows[key] == t.flows[key])
            && OnlyBehind(t'.order, key, later)
  {
    hide Bounded, Fits, OnlyBehind, Unlist, Evict, Enter, Effective, Write;
    RemovePlace(t, capacity, d.key, key, later);
    if d.payload != [] && d.startingNum > 0 {
      if d.key in t.flows {
        if t.flows[d.key].size == d.sampleSize {
          EffectiveFits(d, t.flows[d.key].log);
          WriteOthers(t, d.key, Effective(d), key);
        }
      } else if 0 < d.sampleSize <= FLOW_CAPACITY {
        EvictOthers(t, capacity, key, later, d.key);
        EffectiveFits(d, []);
        EnterKeeps(t, capacity, d.key, d.sampleSize);
        EnterOthers(t, capacity, d.key, Flow(d.sampleSize, []), key, later);
        var grown := Enter(t, capacity, d.key, Flow(d.sampleSize, []));
        WriteOthers(grown, d.key, Effective(d), key);
        RemovePlace(grown, capacity, d.key, key, later);
      }
    }
  }

  /** The flow of a key begins at the end of the queue and keeps its place. */
  lemma OwnPlace(t: Table, capacity: nat, d: DataFrag, granted: bool, later: set<SampleKey>)
    requires WellFormed(t, capacity) && OnlyBehind(t.order, d.key, later)
    ensures OnlyBehind(Accept(t, capacity, d, granted).0.order, d.key, later)
  {
    hide Bounded, Fits, OnlyBehind, Unlist, Effective, Write, Evict, Enter;
    RemovePlace(t, capacity, d.key, d.key, later);
    if d.payload != [] && d.startingNum > 0 {
      if d.key in t.flows {
        if t.flows[d.key].size == d.sampleSize {
          EffectiveFits(d, t.flows[d.key].log);
          WriteOrder(t, d.key, Effective(d));
        }
      } else if capacity > 0 && 0 < d.sampleSize <= FLOW_CAPACITY {
        EffectiveFits(d, []);
        BoundedEvict(t, capacity);
        NotListed(Evict(t, capacity), capacity, d.key, later);
        EnterKeeps(t, capacity, d.key, d.sampleSize);
        EnterPlace(t, capacity, d.key, Flow(d.sampleSize, []), later);
        var grown := Enter(t, capacity, d.key, Flow(d.sampleSize, []));
        WriteOrder(grown, d.key, Effective(d));
        RemovePlace(grown, capacity, d.key, d.key, later);
      }
    }
  }

  lemma WriteOrder(t: Table, key: SampleKey, f: Fragment)
    requires key in t.flows && (f.bytes != [] ==> Fits(t.flows[key].log + [f], t.flows[key].size))
    ensures Write(t, key, f).0.order == t.order || Write(t, key, f).0.order == Unlist(t.order, key)
  {
    hide RangesRefuse, CoversAll, Overlay, Fits;
  }

  /**
   Another key's submessage costs a pending flow its place exactly when it enters a
   full table whose oldest flow this is.
   */
  lemma LostToAnother(t: Table, capacity: nat, d: DataFrag, granted: bool, key: SampleKey)
    requires WellFormed(t, capacity) && key in t.flows && d.key != key
    ensures key !in Accept(t, capacity, d, granted).0.flows <==>
            Enters(d) && d.key !in t.flows && |t.flows| == capacity && t.order[0] == key
  {
    hide Effective, RangesRefuse, CoversAll, Overlay, Fits, Unlist;
    ListsSize(t.order, t.flows);
  }

  // ---------- The submessages of one sample ----------

  lemma {:induction false} WrittenFits(inputs: seq<(DataFrag, bool)>, key: SampleKey, size: nat)
    requires forall i :: 0 <= i < |inputs| && inputs[i].0.key == key ==> inputs[i].0.sampleSize == size
    ensures Fits(Written(inputs, key), size)
  {
    if inputs != [] {
      var d := inputs[|inputs| - 1].0;
      WrittenFits(inputs[..|inputs| - 1], key, size);
      if d.key == key && d.startingNum > 0 {
        EffectiveFits(d, Written(inputs[..|inputs| - 1], key));
      }
    }
  }

  /** The flow of the key holds what has been written; without a flow nothing has. */
  ghost predicate HoldsWritten(t: Table, key: SampleKey, size: nat, log: seq<Fragment>) {
    if key in t.flows then t.flows[key] == Flow(size, log) else log == []
  }

  /** One more submessage of the sample: emit exactly when it completes the cover. */
  lemma AcceptOne(t: Table, capacity: nat, earlier: seq<(DataFrag, bool)>, input: (DataFrag, bool), key: SampleKey,
                  size: nat)
    requires WellFormed(t, capacity) && capacity > 0 && 0 < size <= FLOW_CAPACITY
    requires OneSample(earlier + [input], key, size) && input.0.key == key
    requires HoldsWritten(t, key, size, Written(earlier, key)) && !CoversAll(Written(earlier, key), size)
    ensures var log := Written(earlier + [input], key);
            var (t', out) := Accept(t, capacity, input.0, input.1);
            && Fits(log, size)
            && if CoversAll(log, size) then out == Sample(Overlay(size, log)) && key !in t'.flows
               else out == Nothing && HoldsWritten(t', key, size, log)
  {
    hide Effective, Overlay, Written, RangesRefuse, LogCovers, OneSample, WellFormed, Enter, Evict;
    OneSampleLast(earlier, input, key, size);
    var d, f := input.0, Effective(input.0);
    WrittenSnoc(earlier, input, key);
    assert Written(earlier, key) + [] == Written(earlier, key);
    EmptyPayload(d);
    AcceptIsWrite(t, capacity, d, input.1);
    if d.payload != [] {
      if key in t.flows {
        WriteOne(t, key, f, size, Written(earlier, key));
      } else {
        EnterKeeps(t, capacity, key, size);
        WriteOne(Enter(t, capacity, key, Flow(size, [])), key, f, size, []);
      }
    }
  }

  /** What is known of the last of several submessages of one sample. */
  lemma OneSampleLast(earlier: seq<(DataFrag, bool)>, input: (DataFrag, bool), key: SampleKey, size: nat)
    requires OneSample(earlier + [input], key, size) && input.0.key == key
    ensures Reaches(input, size) && Fits(Written(earlier, key), size) && Fits(Written(earlier + [input], key), size)
    ensures Effective(input.0).bytes != [] ==> !RangesRefuse(Written(earlier, key), Effective(input.0))
  {
    hide Effective, Written, RangesRefuse, Fits;
    var all := earlier + [input];
    assert all[|earlier|] == input && all[..|earlier|] == earlier;
    OneSampleSizes(all, key, size);
    assert forall i :: 0 <= i < |earlier| ==> all[i] == earlier[i];
    WrittenFits(earlier, key, size);
    WrittenFits(all, key, size);
  }

  /** A submessage that reaches its flow is written to it, or to a new one. */
  lemma AcceptIsWrite(t: Table, capacity: nat, d: DataFrag, granted: bool)
    requires WellFormed(t, capacity) && capacity > 0 && d.startingNum > 0 && granted
    requires if d.key in t.flows then t.flows[d.key].size == d.sampleSize else 0 < d.sampleSize <= FLOW_CAPACITY
    ensures var flows := Enter(t, capacity, d.key, Flow(d.sampleSize, []));
            && d.key in flows.flows
            && (Effective(d).bytes != [] ==> Fits(flows.flows[d.key].log + [Effective(d)], flows.flows[d.key].size))
            && Accept(t, capacity, d, granted) ==
               if d.payload == [] then (t, Nothing) else Write(flows, d.key, Effective(d))
  {
    hide Effective, Write, Lists, Unlist, Fits;
    if d.key in t.flows {
      EffectiveFits(d, t.flows[d.key].log);
    } else {
      EffectiveFits(d, []);
    }
  }

  lemma OneSampleSizes(inputs: seq<(DataFrag, bool)>, key: SampleKey, size: nat)
    requires OneSample(inputs, key, size)
    ensures forall i :: 0 <= i < |inputs| && inputs[i].0.key == key ==> inputs[i].0.sampleSize == size
  {
    forall i | 0 <= i < |inputs| && inputs[i].0.key == key ensures inputs[i].0.sampleSize == size {
      assert Reaches(inputs[i], size);
    }
  }

  lemma EmptyPayload(d: DataFrag)
    requires d.startingNum > 0
    ensures d.payload == [] ==> Effective(d).bytes == []
  {
    if d.payload == [] {
      assert Min(0, d.fragmentsInSubmessage * d.fragmentSize) <= 0;
    }
  }

  lemma WrittenSnoc(earlier: seq<(DataFrag, bool)>, input: (DataFrag, bool), key: SampleKey)
    ensures Written(earlier + [input], key) == Written(earlier, key) +
            if input.0.key == key && input.0.startingNum > 0 && Effective(input.0).bytes != []
            then [Effective(input.0)] else []
  {
    assert (earlier + [input])[..|earlier|] == earlier;
  }

  lemma WriteOne(t: Table, key: SampleKey, f: Fragment, size: nat, log: seq<Fragment>)
    requires key in t.flows && t.flows[key] == Flow(size, log)
    requires f.bytes != [] ==> Fits(log + [f], size) && !RangesRefuse(log, f)
    ensures f.bytes == [] ==> Write(t, key, f) == (t, Nothing)
    ensures f.bytes != [] ==>
              Write(t, key, f) ==
              if CoversAll(log + [f], size) then (Remove(t, key), Sample(Overlay(size, log + [f])))
              else (t.(flows := t.flows[key := Flow(size, log + [f])]), Nothing)
  {
  }

  /** The submessage with which the sample is first complete. */
  ghost predicate CompletesAt(inputs: seq<(DataFrag, bool)>, key: SampleKey, size: nat, n: nat) {
    && n < |inputs|
    && CoversAll(Written(inputs[..n + 1], key), size)
    && IncompleteTo(inputs, key, size, n)
  }

  ghost predicate IncompleteTo(inputs: seq<(DataFrag, bool)>, key: SampleKey, size: nat, n: nat) {
    n <= |inputs| && forall m :: 0 <= m <= n ==> !CoversAll(Written(inputs[..m], key), size)
  }

  lemma OneSampleAt(inputs: seq<(DataFrag, bool)>, key: SampleKey, size: nat, n: nat)
    requires OneSample(inputs, key, size) && n < |inputs|
    ensures inputs[..n + 1] == inputs[..n] + [inputs[n]]
    ensures OneSample(inputs[..n + 1], key, size)
  {
    hide Effective, RangesRefuse, Written;
    forall i | 0 <= i < n + 1 ensures inputs[..n + 1][..i] == inputs[..i] {
    }
  }

  lemma CompletesFacts(inputs: seq<(DataFrag, bool)>, key: SampleKey, size: nat, n: nat)
    requires CompletesAt(inputs, key, size, n)
    ensures n < |inputs| && CoversAll(Written(inputs[..n + 1], key), size) && IncompleteTo(inputs, key, size, n)
    ensures inputs[n].0.key == key
  {
    hide CoversAll;
    assert inputs[..n + 1] == inputs[..n] + [inputs[n]];
    WrittenSnoc(inputs[..n], inputs[n], key);
  }

  lemma IncompleteAt(inputs: seq<(DataFrag, bool)>, key: SampleKey, size: nat, n: nat)
    requires IncompleteTo(inputs, key, size, n)
    ensures !CoversAll(Written(inputs[..n], key), size)
    ensures n > 0 ==> IncompleteTo(inputs, key, size, n - 1)
  {
  }

  lemma NothingWritten(inputs: seq<(DataFrag, bool)>, t: Table, key: SampleKey, size: nat, capacity: nat,
                       later: set<SampleKey>)
    requires WellFormed(t, capacity) && key !in t.flows
    ensures HoldsWritten(t, key, size, Written(inputs[..0], key)) && OnlyBehind(t.order, key, later)
  {
    NotListed(t, capacity, key, later);
  }

  /** A submessage of another key writes nothing for this one and is a rival when it may enter. */
  lemma OtherAt(inputs: seq<(DataFrag, bool)>, key: SampleKey, n: nat)
    requires n < |inputs| && inputs[n].0.key != key
    ensures Written(inputs[..n + 1], key) == Written(inputs[..n], key)
    ensures forall m :: n < m <= |inputs| && Enters(inputs[n].0) ==> inputs[n].0.key in Rivals(inputs[..m], key)
  {
    assert inputs[..n + 1] == inputs[..n] + [inputs[n]];
    WrittenSnoc(inputs[..n], inputs[n], key);
    assert Written(inputs[..n], key) + [] == Written(inputs[..n], key);
    forall m | n < m <= |inputs| && Enters(inputs[n].0) ensures inputs[n].0.key in Rivals(inputs[..m], key) {
      assert inputs[..m][n] == inputs[n];
    }
  }

  /** Until the sample is complete, its flow holds exactly what has been written, whatever arrives for others. */
  lemma {:induction false} FlowHoldsWritten(
    capacity: nat, inputs: seq<(DataFrag, bool)>, tables: seq<Table>, outputs: seq<Output>,
    key: SampleKey, size: nat, n: nat, last: nat)
    requires Run(capacity, inputs, tables, outputs) && OneSample(inputs, key, size)
    requires capacity > 0 && 0 < size <= FLOW_CAPACITY && key !in tables[0].flows
    requires n <= last <= |inputs| && IncompleteTo(inputs, key, size, n)
    requires |Rivals(inputs[..last], key)| < capacity
    ensures HoldsWritten(tables[n], key, size, Written(inputs[..n], key))
    ensures OnlyBehind(tables[n].order, key, Rivals(inputs[..last], key))
    ensures forall i :: 0 <= i < n && inputs[i].0.key == key ==> outputs[i] == Nothing
  {
    hide *;
    RunLengths(capacity, inputs, tables, outputs);
    var later := Rivals(inputs[..last], key);
    if n == 0 {
      RunWellFormed(capacity, inputs, tables, outputs, 0);
      NothingWritten(inputs, tables[0], key, size, capacity, later);
    } else {
      IncompleteAt(inputs, key, size, n);
      IncompleteAt(inputs, key, size, n - 1);
      FlowHoldsWritten(capacity, inputs, tables, outputs, key, size, n - 1, last);
      RunAt(capacity, inputs, tables, outputs, n - 1);
      var (d, granted) := inputs[n - 1];
      if d.key == key {
        OneSampleAt(inputs, key, size, n - 1);
        AcceptOne(tables[n - 1], capacity, inputs[..n - 1], inputs[n - 1], key, size);
        OwnPlace(tables[n - 1], capacity, d, granted, later);
      } else {
        OtherAt(inputs, key, n - 1);
        OthersKeep(tables[n - 1], capacity, d, granted, key, later);
        SameWritten(tables[n - 1], tables[n], key, size, Written(inputs[..n - 1], key));
      }
    }
  }

  lemma SameWritten(t: Table, t': Table, key: SampleKey, size: nat, log: seq<Fragment>)
    requires HoldsWritten(t, key, size, log)
    requires (key in t'.flows <==> key in t.flows) && (key in t.flows ==> t'.flows[key] == t.flows[key])
    ensures HoldsWritten(t', key, size, log)
  {
  }

  /**
   The fragments of one sample, in any order and with repeats, yield that sample,
   whatever arrives for other keys in between, as long as fewer other keys enter
   than the table has places: nothing is emitted before the fragments cover the
   sample, and the sample itself with the one that completes the cover.
   */
  lemma SampleYielded(
    capacity: nat, inputs: seq<(DataFrag, bool)>, tables: seq<Table>, outputs: seq<Output>,
    key: SampleKey, sample: seq<Byte>, n: nat)
    requires Run(capacity, inputs, tables, outputs) && OneSample(inputs, key, |sample|)
    requires forall i :: 0 <= i < |inputs| && inputs[i].0.key == key ==> Genuine(inputs[i].0, sample)
    requires 0 < |sample| <= FLOW_CAPACITY && key !in tables[0].flows
    requires CompletesAt(inputs, key, |sample|, n) && |Rivals(inputs[..n], key)| < capacity
    ensures |outputs| == |inputs| && n < |inputs|
    ensures outputs[n] == Sample(sample)
    ensures forall i :: 0 <= i < n && inputs[i].0.key == key ==> outputs[i] == Nothing
  {
    hide *;
    RunLengths(capacity, inputs, tables, outputs);
    CompletesFacts(inputs, key, |sample|, n);
    IncompleteAt(inputs, key, |sample|, n);
    FlowHoldsWritten(capacity, inputs, tables, outputs, key, |sample|, n, n);
    OneSampleAt(inputs, key, |sample|, n);
    RunAt(capacity, inputs, tables, outputs, n);
    AcceptOne(tables[n], capacity, inputs[..n], inputs[n], key, |sample|);
    OnlyTheSample(capacity, inputs, tables, outputs, key, sample, n + 1);
  }

  /** Every interval of a canonical cover starts where some fragment starts. */
  lemma StartIsOffset(r: seq<Range>, log: seq<Fragment>, i: nat)
    requires Canonical(r) && i < |r|
    requires forall p :: Covers(r, p) <==> LogCovers(log, p)
    ensures exists j :: 0 <= j < |log| && log[j].offset == r[i].start
  {
    var start: int := r[i].start;
    assert Covers(r, start);
    var j :| 0 <= j < |log| && log[j].Holds(start);
    GapBefore(r, i);
    assert forall k :: 0 <= k < |log| ==> !log[k].Holds(start - 1);
  }

  lemma GapBefore(r: seq<Range>, i: nat)
    requires Canonical(r) && i < |r|
    ensures !Covers(r, r[i].start - 1)
  {
    forall k | 0 <= k < |r| ensures !(r[k].start <= r[i].start - 1 < r[k].end) {
      assert k < i ==> r[k].end < r[i].start;
      assert i < k ==> r[i].end < r[k].start;
    }
  }

  lemma {:induction false} OffsetsCount(log: seq<Fragment>)
    ensures |set f | f in log :: f.offset| <= |log|
  {
    if log != [] {
      var n := |log| - 1;
      OffsetsCount(log[..n]);
      assert (set f | f in log :: f.offset) == (set f | f in log[..n] :: f.offset) + {log[n].offset};
    }
  }

  lemma {:induction false} StartsCount(r: seq<Range>)
    requires Canonical(r)
    ensures |set x | x in r :: x.start| == |r|
  {
    if r != [] {
      var n := |r| - 1;
      StartsCount(r[..n]);
      var earlier := set x | x in r[..n] :: x.start;
      forall s | s in earlier ensures s < r[n].start {
        var i :| 0 <= i < n && r[i].start == s;
        assert r[i].end < r[n].start;
      }
      assert r == r[..n] + [r[n]];
      assert (set x | x in r :: x.start) == earlier + {r[n].start};
    }
  }

  /** A flow of fewer than 4096 fragments is never refused one. */
  lemma FewAreNotRefused(log: seq<Fragment>, f: Fragment)
    requires |log| < MAX_RANGES
    ensures !RangesRefuse(log, f)
  {
    forall r: seq<Range> | Canonical(r) && (forall p :: Covers(r, p) <==> LogCovers(log, p))
      ensures |r| <= |log|
    {
      var starts, offsets := set x | x in r :: x.start, set g | g in log :: g.offset;
      forall s | s in starts ensures s in offsets {
        var i :| 0 <= i < |r| && r[i].start == s;
        StartIsOffset(r, log, i);
      }
      StartsCount(r);
      OffsetsCount(log);
      SubsetSize(starts, offsets);
    }
  }

  // ---------- How many keys it takes ----------

  /** One of the two fragments, a byte each, of a sample of two. */
  function Half(key: SampleKey, num: U32): (DataFrag, bool) {
    (DataFrag(key, num, 1, 1, 2, [7]), true)
  }

  /** The first half of a sample, the first halves of others, and the second half. */
  function Crowd(key: SampleKey, others: seq<SampleKey>): seq<(DataFrag, bool)> {
    [Half(key, 1)] + seq(|others|, i requires 0 <= i < |others| => Half(others[i], 1)) + [Half(key, 2)]
  }

  const FIRST_HALF := Fragment(0, [7 as Byte])
  const SECOND_HALF := Fragment(1, [7 as Byte])
  const HALF := Flow(2, [FIRST_HALF])

  lemma CrowdAt(key: SampleKey, others: seq<SampleKey>)
    ensures var inputs := Crowd(key, others);
            && |inputs| == |others| + 2 && inputs[0] == Half(key, 1)
            && (forall i :: 1 <= i <= |others| ==> inputs[i] == Half(others[i - 1], 1))
            && inputs[|others| + 1] == Half(key, 2)
  {
  }

  /** The halves, and that it takes both to cover the sample. */
  lemma HalfFacts(key: SampleKey)
    ensures Effective(Half(key, 1).0) == FIRST_HALF && Effective(Half(key, 2).0) == SECOND_HALF
    ensures Fits([FIRST_HALF], 2) && Fits([SECOND_HALF], 2)
    ensures !CoversAll([], 2) && !CoversAll([FIRST_HALF], 2) && !CoversAll([SECOND_HALF], 2)
    ensures CoversAll([FIRST_HALF, SECOND_HALF], 2)
    ensures Genuine(Half(key, 1).0, [7, 7]) && Genuine(Half(key, 2).0, [7, 7])
  {
    var both := [FIRST_HALF, SECOND_HALF];
    assert both[0].Holds(0) && both[1].Holds(1);
    assert !LogCovers([], 0) && !LogCovers([FIRST_HALF], 1) && !LogCovers([SECOND_HALF], 0);
  }

  /** A half enters a table of first halves. */
  lemma HalfStep(order: seq<SampleKey>, capacity: nat, key: SampleKey)
    requires NoDuplicates(order) && key !in order && |order| <= capacity && capacity > 0
    ensures WellFormed(Alike(order, HALF), capacity)
    ensures Accept(Alike(order, HALF), capacity, Half(key, 1).0, true)
         == (Alike(Left(order, capacity) + [key], HALF), Nothing)
    ensures Accept(Alike(order, HALF), capacity, Half(key, 2).0, true).1 == Nothing
  {
    HalfFacts(key);
    AlikeSize(order, HALF);
    AlikeEnter(order, HALF, capacity, key, Flow(2, []));
    var t := Alike(order, HALF);
    AcceptIsWrite(t, capacity, Half(key, 1).0, true);
    AcceptIsWrite(t, capacity, Half(key, 2).0, true);
    FewAreNotRefused([], FIRST_HALF);
    FewAreNotRefused([], SECOND_HALF);
    assert [] + [FIRST_HALF] == [FIRST_HALF] && [] + [SECOND_HALF] == [SECOND_HALF];
    var entered := Enter(t, capacity, key, Flow(2, []));
    hide Effective, Write, Enter, Alike, Left, CoversAll, RangesRefuse, Overlay, Lists, Accept;
    WriteOne(entered, key, FIRST_HALF, 2, []);
    WriteOne(entered, key, SECOND_HALF, 2, []);
  }

  lemma {:induction false} CrowdTables(key: SampleKey, others: seq<SampleKey>, tables: seq<Table>, outputs: seq<Output>,
                                       n: nat)
    requires NoDuplicates(others) && key !in others && n <= |others| && others != []
    requires Run(|others|, Crowd(key, others), tables, outputs) && tables[0] == Table(map[], [])
    ensures |tables| == |others| + 3 && |outputs| == |others| + 2
    ensures tables[n + 1] == Alike(Crowding(key, others, n), HALF) && outputs[0] == Nothing
    decreases n
  {
    hide Accept, Crowd, WellFormed;
    CrowdAt(key, others);
    RunAt(|others|, Crowd(key, others), tables, outputs, n);
    if n == 0 {
      assert tables[0] == Alike([], HALF);
      HalfStep([], |others|, key);
      assert [] + [key] == [key] + others[..0];
    } else {
      CrowdTables(key, others, tables, outputs, n - 1);
      CrowdingStep(key, others, n - 1);
      HalfStep(Crowding(key, others, n - 1), |others|, others[n - 1]);
    }
  }

  /** Until the last submessage, only the first half has been written. */
  lemma {:induction false} CrowdWrites(key: SampleKey, others: seq<SampleKey>, n: nat)
    requires key !in others && n < |Crowd(key, others)|
    ensures Written(Crowd(key, others)[..n], key) == if n == 0 then [] else [FIRST_HALF]
    decreases n
  {
    hide Crowd, Effective;
    CrowdAt(key, others);
    HalfFacts(key);
    if n > 0 {
      var inputs, m := Crowd(key, others), n - 1;
      CrowdWrites(key, others, m);
      assert inputs[..n] == inputs[..m] + [inputs[m]];
      WrittenSnoc(inputs[..m], inputs[m], key);
      if m > 0 {
        assert inputs[m] == Half(others[m - 1], 1);
      }
    }
  }

  lemma CrowdCompletes(key: SampleKey, others: seq<SampleKey>)
    requires key !in others
    ensures CompletesAt(Crowd(key, others), key, 2, |others| + 1)
    ensures OneSample(Crowd(key, others), key, 2)
  {
    hide Crowd, Written, CoversAll, RangesRefuse, Effective;
    CrowdAt(key, others);
    HalfFacts(key);
    var inputs, n := Crowd(key, others), |others| + 1;
    assert inputs[..n + 1] == inputs[..n] + [inputs[n]];
    WrittenSnoc(inputs[..n], inputs[n], key);
    forall m | 0 <= m <= n {
      CrowdWrites(key, others, m);
    }
    assert [FIRST_HALF] + [SECOND_HALF] == [FIRST_HALF, SECOND_HALF];
    forall i | 0 <= i < |inputs| && inputs[i].0.key == key
      ensures Reaches(inputs[i], 2) && !RangesRefuse(Written(inputs[..i], key), Effective(inputs[i].0))
    {
      FewAreNotRefused(Written(inputs[..i], key), Effective(inputs[i].0));
    }
  }

  lemma CrowdRivals(key: SampleKey, others: seq<SampleKey>)
    requires NoDuplicates(others) && key !in others
    ensures |Rivals(Crowd(key, others)[..|others| + 1], key)| == |others|
    ensures var inputs := Crowd(key, others);
            forall i :: 0 <= i < |inputs| && inputs[i].0.key == key ==> Genuine(inputs[i].0, [7, 7])
  {
    hide Crowd, Genuine;
    CrowdAt(key, others);
    HalfFacts(key);
    var inputs := Crowd(key, others)[..|others| + 1];
    assert Rivals(inputs, key) == set k | k in others by {
      forall k | k in others ensures k in Rivals(inputs, key) {
        var n :| 0 <= n < |others| && others[n] == k;
        assert inputs[n + 1].0.key == k;
      }
    }
    AlikeSize(others, HALF);
  }

  /**
   Fewer rivals than places is the most that can be allowed: for every number of
   places, as many other keys that enter after this one has cost it its place, and
   the fragment that completes the cover makes nothing come out.
   */
  lemma CrowdedOut(key: SampleKey, others: seq<SampleKey>, tables: seq<Table>, outputs: seq<Output>)
    requires NoDuplicates(others) && key !in others && others != []
    requires Run(|others|, Crowd(key, others), tables, outputs) && tables[0] == Table(map[], [])
    ensures var inputs := Crowd(key, others);
            && OneSample(inputs, key, 2) && CompletesAt(inputs, key, 2, |others| + 1)
            && (forall i :: 0 <= i < |inputs| && inputs[i].0.key == key ==> Genuine(inputs[i].0, [7, 7]))
            && |Rivals(inputs[..|others| + 1], key)| == |others|
    ensures |outputs| == |others| + 2 && outputs[0] == Nothing && outputs[|others| + 1] == Nothing
  {
    hide Accept, Crowd, CompletesAt, Rivals, OneSample, Genuine, WellFormed;
    var n := |others| + 1;
    CrowdAt(key, others);
    CrowdRivals(key, others);
    CrowdCompletes(key, others);
    CrowdTables(key, others, tables, outputs, n - 1);
    RunAt(|others|, Crowd(key, others), tables, outputs, n);
    HalfStep(others, |others|, key);
  }

  // ---------- Buffers written in place ----------

  /** One incomplete sample: its buffer, the ranges written, and (ghost) the fragments accepted. */
  class FragState {
    const sampleSize: nat
    const reassembled: array<Byte>
    var ranges: seq<Range>
    ghost var log: seq<Fragment>

    ghost predicate Valid()
      reads this, reassembled
    {
      && reassembled.Length == sampleSize > 0
      && Fits(log, sampleSize)
      && reassembled[..] == Overlay(sampleSize, log)
      && Canonical(ranges) && |ranges| <= MAX_RANGES
      && (forall i :: 0 <= i < |ranges| ==> ranges[i].end <= sampleSize)
      && (forall p :: Covers(ranges, p) <==> LogCovers(log, p))
    }

    constructor (sampleSize: nat)
      requires sampleSize > 0
      ensures Valid() && this.sampleSize == sampleSize && log == []
      ensures fresh(reassembled)
    {
      this.sampleSize := sampleSize;
      reassembled := new Byte[sampleSize](_ => 0);
      ranges, log := [], [];
    }

    /** Record the range and copy the bytes to their place; a refused range changes nothing. */
    method WriteAt(offset: nat, bytes: seq<Byte>) returns (accepted: bool)
      requires Valid() && |bytes| > 0 && offset + |bytes| <= sampleSize
      modifies this, reassembled
      ensures Valid()
      ensures accepted <==> !RangesRefuse(old(log), Fragment(offset, bytes))
      ensures log == old(log) + if accepted then [Fragment(offset, bytes)] else []
    {
      hide RangesRefuse, LogCovers, Covers, Overlay, Touches;
      ghost var f := Fragment(offset, bytes);
      RefusalIs(ranges, log, f);
      ghost var before, beforeRanges := reassembled[..], ranges;
      ranges, accepted := InsertRangeBounded(ranges, offset, offset + |bytes|);
      if !accepted {
        return;
      }
      forall i | 0 <= i < |bytes| {
        reassembled[offset + i] := bytes[i];
      }
      assert reassembled[..] == Splice(before, f);
      LogSnoc(beforeRanges, ranges, log, f, sampleSize);
      log := log + [f];
    }

    method IsComplete() returns (complete: bool)
      requires Valid()
      ensures complete <==> CoversAll(log, sampleSize)
    {
      WholeCoversAll(ranges, sampleSize);
      complete := IsWhole(ranges, sampleSize);
    }
  }

  /** The refusal of the bounded insertion, read off any list of fragments the ranges stand for. */
  lemma RefusalIs(ranges: seq<Range>, log: seq<Fragment>, f: Fragment)
    requires Canonical(ranges) && |ranges| <= MAX_RANGES
    requires forall p :: Covers(ranges, p) <==> LogCovers(log, p)
    ensures RangesRefuse(log, f) <==> |ranges| >= MAX_RANGES && !Touches(ranges, f.offset, f.End())
  {
    forall r: seq<Range> | Canonical(r) && (forall p :: Covers(r, p) <==> LogCovers(log, p)) ensures r == ranges {
      CanonicalUnique(r, ranges);
    }
  }

  lemma LogSnoc(before: seq<Range>, after: seq<Range>, log: seq<Fragment>, f: Fragment, size: nat)
    requires forall p :: Covers(before, p) <==> LogCovers(log, p)
    requires forall p :: Covers(after, p) <==> Covers(before, p) || f.offset <= p < f.End()
    requires Canonical(after) && Fits(log, size) && f.End() <= size
    ensures forall p :: Covers(after, p) <==> LogCovers(log + [f], p)
    ensures Fits(log + [f], size) && Overlay(size, log + [f]) == Splice(Overlay(size, log), f)
    ensures forall i :: 0 <= i < |after| ==> after[i].end <= size
  {
    assert (log + [f])[..|log|] == log;
    forall p {
      CoversSnoc(log, f, p);
    }
    forall i | 0 <= i < |after| ensures after[i].end <= size {
      assert Covers(after, after[i].end - 1);
    }
  }

  ghost function Sizes(flows: map<SampleKey, Flow>): map<SampleKey, nat> {
    map k | k in flows :: flows[k].size
  }

  lemma SizesRemove(flows: map<SampleKey, Flow>, key: SampleKey)
    ensures Sum(Sizes(flows - {key})) == Sum(Sizes(flows)) - if key in flows then flows[key].size else 0
  {
    assert Sizes(flows - {key}) == Sizes(flows) - {key};
    if key in flows {
      SumRemove(Sizes(flows), key);
    } else {
      assert flows - {key} == flows;
    }
  }

  lemma SizesSet(flows: map<SampleKey, Flow>, key: SampleKey, flow: Flow)
    ensures Sum(Sizes(flows[key := flow]))
         == Sum(Sizes(flows)) - (if key in flows then flows[key].size else 0) + flow.size
  {
    assert Sizes(flows[key := flow]) == Sizes(flows)[key := flow.size];
    SumSet(Sizes(flows), key, flow.size);
  }

  /** Every flow is a valid buffer of its own, within `repr`, and stands for the flow of the table. */
  ghost predicate Stand(flows: map<SampleKey, FragState>, abs: map<SampleKey, Flow>, repr: set<object>)
    reads repr
  {
    && flows.Keys == abs.Keys
    && (forall k :: k in flows ==> flows[k] in repr && flows[k].reassembled in repr && Stands(flows[k], abs[k]))
    && (forall k, l :: k in flows && l in flows && k != l ==>
          flows[k] != flows[l] && flows[k].reassembled != flows[l].reassembled)
  }

  ghost predicate Stands(state: FragState, flow: Flow)
    reads state, state.reassembled
  {
    state.Valid() && Flow(state.sampleSize, state.log) == flow
  }

  lemma StandRemove(flows: map<SampleKey, FragState>, abs: map<SampleKey, Flow>, repr: set<object>, key: SampleKey)
    requires Stand(flows, abs, repr)
    ensures Stand(flows - {key}, abs - {key}, repr)
  {
    hide Stands;
  }

  lemma StandDomain(flows: map<SampleKey, FragState>, abs: map<SampleKey, Flow>, repr: set<object>)
    requires Stand(flows, abs, repr)
    ensures flows.Keys == abs.Keys
  {
  }

  lemma SameSize(flows: map<SampleKey, FragState>, abs: map<SampleKey, Flow>, repr: set<object>)
    requires Stand(flows, abs, repr)
    ensures |flows| == |abs|
  {
    assert |flows| == |flows.Keys| && |abs| == |abs.Keys|;
  }

  /** The other flows stand without the objects of this one. */
  lemma StandOthers(flows: map<SampleKey, FragState>, abs: map<SampleKey, Flow>, repr: set<object>, key: SampleKey)
    requires Stand(flows, abs, repr) && key in flows
    ensures Stand(flows - {key}, abs - {key}, repr - {flows[key], flows[key].reassembled})
  {
    hide Stands;
  }

  lemma StandAdd(flows: map<SampleKey, FragState>, abs: map<SampleKey, Flow>, repr: set<object>,
                 key: SampleKey, state: FragState, flow: Flow)
    requires Stand(flows, abs, repr) && key !in flows
    requires Stands(state, flow) && state !in repr && state.reassembled !in repr
    ensures Stand(flows[key := state], abs[key := flow], repr + {state, state.reassembled})
  {
    hide Stands;
  }

  lemma StandsIs(state: FragState, flow: Flow)
    requires state.Valid() && Flow(state.sampleSize, state.log) == flow
    ensures Stands(state, flow) && state.sampleSize > 0
  {
  }

  lemma KnownFits(t: Table, capacity: nat, key: SampleKey)
    requires WellFormed(t, capacity) && key in t.flows
    ensures t.flows[key].size > 0 && Fits(t.flows[key].log, t.flows[key].size)
  {
  }

  lemma FragmentEnds(log: seq<Fragment>, f: Fragment, size: nat)
    requires Fits(log + [f], size)
    ensures f.End() <= size
  {
    assert (log + [f])[|log|] == f;
  }

  lemma StandsFor(flows: map<SampleKey, FragState>, abs: map<SampleKey, Flow>, repr: set<object>, key: SampleKey)
    requires Stand(flows, abs, repr) && key in flows
    ensures key in abs && Stands(flows[key], abs[key])
    ensures flows[key].Valid() && flows[key] in repr && flows[key].reassembled in repr
    ensures flows[key].sampleSize == abs[key].size && flows[key].log == abs[key].log
  {
  }

  class RtpsProcessor {
    var flows: map<SampleKey, FragState>
    var order: seq<SampleKey>
    const capacity: nat
    const budget: MemoryBudget
    ghost const me: Owner
    /** The table of incomplete samples as a value. */
    ghost var table: Table
    /** The flow objects and their buffers. */
    ghost var repr: set<object>

    ghost predicate ValidTable()
      reads this, repr
    {
      && this !in repr && budget !in repr
      && Stand(flows, table.flows, repr) && order == table.order
      && WellFormed(table, capacity)
    }

    /** The bytes the flows of this processor are charged. */
    ghost function Charge(): nat
      reads this
    {
      Sum(Sizes(table.flows))
    }

    ghost predicate Valid()
      reads this, budget, repr
    {
      ValidTable() && budget.Valid() && budget.Share(me) == Charge()
    }

    constructor (capacity: nat, budget: MemoryBudget, ghost me: Owner)
      requires budget.Valid() && budget.Share(me) == 0
      ensures Valid() && table == Table(map[], []) && this.capacity == capacity && this.budget == budget
      ensures this.me == me
    {
      this.capacity, this.budget, this.me := capacity, budget, me;
      flows, order, table, repr := map[], [], Table(map[], []), {};
      new;
      assert Sizes(table.flows) == map[];
    }

    /** Take a flow out of the table; its bytes stay charged until they are released. */
    method Unlink(key: SampleKey) returns (size: nat)
      requires ValidTable() && key in flows
      modifies this
      ensures ValidTable() && table == Remove(old(table), key) && repr == old(repr)
      ensures flows == old(flows) - {key}
      ensures size == old(table).flows[key].size && Charge() + size == old(Charge())
    {
      hide Sizes, Sum, WellFormed, Unlist, Stands, Stand;
      RemoveKeeps(table, capacity, key);
      SizesRemove(table.flows, key);
      StandRemove(flows, table.flows, repr, key);
      StandsFor(flows, table.flows, repr, key);
      size := flows[key].sampleSize;
      flows, order, table := flows - {key}, Unlist(order, key), Remove(table, key);
    }

    /** Take a flow out of the table and give its bytes back. */
    method RemoveFlow(key: SampleKey)
      requires Valid() && key in flows
      modifies this, budget
      ensures Valid() && table == Remove(old(table), key) && repr == old(repr)
      ensures flows == old(flows) - {key}
    {
      hide Stand, WellFormed, Remove, Charge;
      var size := Unlink(key);
      budget.Interfere(me);
      budget.Release(me, size);
    }

    /** Make room for one more flow: while the table is full, the oldest flow goes. */
    method MakeRoom()
      requires Valid() && capacity > 0
      modifies this, budget
      ensures Valid() && table == Evict(old(table), capacity) && repr == old(repr)
      ensures flows.Keys <= old(flows).Keys && |flows| < capacity
    {
      hide Stand, Remove, Charge, Lists, Unlist;
      StandDomain(flows, table.flows, repr);
      SameSize(flows, table.flows, repr);
      EvictKeeps(table, capacity);
      if |flows| >= capacity {
        FirstListed(table.order, table.flows);
        // The order lists exactly the flows, so the first key popped is one of them.
        RemoveFlow(order[0]);
        SameSize(flows, table.flows, repr);
      }
    }

    /** Enter a new flow, whose bytes the caller has reserved, with its zeroed buffer. */
    method Link(key: SampleKey, state: FragState)
      requires ValidTable() && key !in flows && |flows| < capacity
      requires state.Valid() && state.log == [] && state !in repr && state.reassembled !in repr
      modifies this
      ensures ValidTable()
      ensures table == Table(old(table).flows[key := Flow(state.sampleSize, [])], old(table).order + [key])
      ensures Charge() == old(Charge()) + state.sampleSize
      ensures flows == old(flows)[key := state] && repr == old(repr) + {state, state.reassembled}
    {
      hide Sizes, Sum, WellFormed, Stands, Stand, FragState.Valid;
      ghost var flow := Flow(state.sampleSize, []);
      StandDomain(flows, table.flows, repr);
      SameSize(flows, table.flows, repr);
      StandsIs(state, flow);
      InsertKeeps(table, capacity, key, state.sampleSize);
      SizesSet(table.flows, key, flow);
      StandAdd(flows, table.flows, repr, key, state, flow);
      flows, order := flows[key := state], order + [key];
      table := Table(table.flows[key := flow], table.order + [key]);
      repr := repr + {state, state.reassembled};
    }

    /** Write a fragment into the buffer of its flow. */
    method WriteFlow(key: SampleKey, f: Fragment) returns (accepted: bool)
      requires ValidTable() && key in flows
      requires key in table.flows && f.bytes != [] && Fits(table.flows[key].log + [f], table.flows[key].size)
      modifies this, repr
      ensures ValidTable() && flows == old(flows) && repr == old(repr)
      ensures accepted <==> !RangesRefuse(old(table).flows[key].log, f)
      ensures table == if accepted then AppendLog(old(table), key, f) else old(table)
      ensures Charge() == old(Charge())
    {
      hide RangesRefuse, Sizes, Sum, WellFormed, Fits, Stand, Stands;
      ghost var flow := table.flows[key];
      StandsFor(flows, table.flows, repr, key);
      FragmentEnds(flow.log, f, flow.size);
      var state := flows[key];
      ghost var others, othersAbs := flows - {key}, table.flows - {key};
      ghost var apart := repr - {state, state.reassembled};
      StandOthers(flows, table.flows, repr, key);
      accepted := state.WriteAt(f.offset, f.bytes);
      if accepted {
        LogKeeps(table, capacity, key, f);
        SizesSet(table.flows, key, flow.(log := flow.log + [f]));
        table := AppendLog(table, key, f);
      }
      StandsIs(state, table.flows[key]);
      StandAdd(others, othersAbs, apart, key, state, table.flows[key]);
      assert others[key := state] == flows && othersAbs[key := table.flows[key]] == table.flows;
      assert apart + {state, state.reassembled} == repr;
    }

    /** Write one fragment of a flow and emit the sample if it is complete. */
    method WriteAndEmit(key: SampleKey, f: Fragment) returns (out: Output)
      requires Valid() && key in flows && key in table.flows
      requires f.bytes != [] ==> Fits(table.flows[key].log + [f], table.flows[key].size)
      modifies this, budget, repr
      ensures Valid() && (table, out) == Write(old(table), key, f)
      ensures repr == old(repr)
    {
      hide Stand, RangesRefuse, WellFormed, Charge, CoversAll, Fits;
      if |f.bytes| == 0 {
        return Nothing;
      }
      var accepted := WriteFlow(key, f);
      if !accepted {
        RemoveFlow(key);
        return Nothing;
      }
      RemoveAppended(old(table), key, f);
      StandsFor(flows, table.flows, repr, key);
      var complete := flows[key].IsComplete();
      if !complete {
        return Nothing;
      }
      out := Sample(flows[key].reassembled[..]);
      RemoveFlow(key);
    }

    /** Make room and enter an empty flow, if the budget and the allocator have its bytes. */
    method NewFlow(key: SampleKey, size: nat) returns (granted: bool)
      requires Valid() && capacity > 0 && key !in flows && size > 0
      modifies this, budget
      ensures Valid() && (key in flows <==> granted)
      ensures table == if granted then Enter(old(table), capacity, key, Flow(size, [])) else Evict(old(table), capacity)
      ensures fresh(repr - old(repr))
    {
      hide Evict, Stand, WellFormed, Charge;
      StandDomain(flows, table.flows, repr);
      MakeRoom();
      budget.Interfere(me);
      granted := budget.TryReserve(me, size);
      if !granted {
        return;
      }
      var bufferGiven: bool := *;
      if !bufferGiven {
        budget.Interfere(me);
        budget.Release(me, size);
        return false;
      }
      var state := new FragState(size);
      Link(key, state);
    }

    /**
     One DATA_FRAG submessage. The table and the output are those of `Accept`,
     and the bytes charged to this processor stay those of its flows, whatever
     the other processors do to the budget in between.
     */
    method AcceptDataFrag(d: DataFrag) returns (out: Output, ghost granted: bool)
      requires Valid()
      modifies this, budget, repr
      ensures Valid() && (table, out) == Accept(old(table), capacity, d, granted)
      ensures fresh(repr - old(repr))
    {
      hide Write, Evict, Remove, Stand, WellFormed, Charge, Effective, Fits;
      granted := true;
      if |d.payload| == 0 {
        return Nothing, granted;
      }
      if d.startingNum == 0 {
        return Malformed, granted;
      }
      StandDomain(flows, table.flows, repr);
      if d.key in flows {
        StandsFor(flows, table.flows, repr, d.key);
        if flows[d.key].sampleSize != d.sampleSize {
          RemoveFlow(d.key);
          return Nothing, granted;
        }
        KnownFits(table, capacity, d.key);
        EffectiveFits(d, table.flows[d.key].log);
      } else {
        if capacity == 0 || d.sampleSize == 0 || d.sampleSize > FLOW_CAPACITY {
          return Nothing, granted;
        }
        var reserved := NewFlow(d.key, d.sampleSize);
        granted := reserved;
        if !reserved {
          return Nothing, granted;
        }
        EffectiveFits(d, []);
      }
      out := WriteAndEmit(d.key, Effective(d));
    }

    /** The sum over the table, whatever its order. */
    method ReservedBytes() returns (bytes: nat)
      requires ValidTable()
      ensures bytes == Charge()
    {
      hide Sizes, WellFormed, Stands;
      var remaining := flows;
      bytes := 0;
      ghost var left := table.flows;
      SizesMatch(flows, left, repr);
      hide Stand;
      while remaining != map[]
        invariant left.Keys == remaining.Keys
        invariant forall k :: k in left ==> left[k].size == remaining[k].sampleSize
        invariant bytes + Sum(Sizes(left)) == Charge()
        decreases |remaining|
      {
        var k :| k in remaining;
        SizesRemove(left, k);
        RemovedSize(remaining, k);
        bytes := bytes + remaining[k].sampleSize;
        remaining, left := remaining - {k}, left - {k};
      }
      NoSizes(left);
    }

    /** Dropping the processor gives back everything it was charged. */
    method Drop()
      requires Valid()
      modifies this, budget
      ensures budget.Valid() && budget.Share(me) == 0
    {
      hide Stand, WellFormed, Charge;
      var reservedBytes := ReservedBytes();
      budget.Interfere(me);
      budget.Release(me, reservedBytes);
      flows, order := map[], [];
    }
  }

  lemma SizesMatch(flows: map<SampleKey, FragState>, abs: map<SampleKey, Flow>, repr: set<object>)
    requires Stand(flows, abs, repr)
    ensures flows.Keys == abs.Keys && forall k :: k in abs ==> abs[k].size == flows[k].sampleSize
  {
  }

  lemma NoSizes(flows: map<SampleKey, Flow>)
    requires flows.Keys == {}
    ensures Sum(Sizes(flows)) == 0
  {
    assert Sizes(flows) == map[];
  }
}
