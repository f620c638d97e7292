/** Directed transport flows, the keys of every Zenoh table. */
module ZenohFlows {
  import opened Basics

  datatype Protocol = Tcp | Udp

  datatype FlowTuple = FlowTuple(srcIp: seq<Byte>, dstIp: seq<Byte>, srcPort: U16, dstPort: U16)

  datatype Direction = Direction(protocol: Protocol, flow: FlowTuple) {
    function Reverse(): Direction {
      Direction(protocol, FlowTuple(flow.dstIp, flow.srcIp, flow.dstPort, flow.srcPort))
    }
  }
}

/**
 Reassembly of fragmented Zenoh network messages. A flow holds one run of
 fragments with consecutive sequence numbers; anything that breaks the run
 discards it. `Accept` says what one fragment does to the table of runs, and the
 class keeps the concatenated payloads under the shared memory budget.
 */
module ZenohFragments {
  import opened Basics
  import opened FifoOrder
  import opened MapSums
  import opened SharedBudget
  import opened ZenohFlows

  const FLOW_CAPACITY: nat := 128 * 1024 * 1024

  datatype FragmentKey = FragmentKey(direction: Direction, reliable: bool, priority: Byte)

  /** The fields of a transport fragment that reassembly looks at. */
  datatype Fragment = Fragment(sn: U32, more: bool, first: bool, drop: bool, payload: seq<Byte>)

  /** The sequence number after `sn`: wrapping addition, then the mask of the negotiated resolution. */
  function NextSn(sn: U32, resolution: nat): U32
    requires 0 < resolution <= U32_MODULUS
  {
    (sn + 1) % U32_MODULUS % resolution
  }

  /** One pending message: its fragments so far, and whether it began cold, where no flow existed. */
  datatype Flow = Flow(resolution: nat, lastSeen: nat, cold: bool, run: seq<Fragment>)

  type Table = map<FragmentKey, Flow>

  ghost function Concat(run: seq<Fragment>): seq<Byte> {
    if run == [] then [] else Concat(run[..|run| - 1]) + run[|run| - 1].payload
  }

  /** Fragments in sequence: consecutive numbers, and only the first may be marked first. */
  ghost predicate Consecutive(run: seq<Fragment>, resolution: nat) {
    && 0 < resolution <= U32_MODULUS
    && (forall i :: 0 < i < |run| ==> run[i].sn == NextSn(run[i - 1].sn, resolution) && !run[i].first)
    && (forall i :: 0 <= i < |run| ==> !run[i].drop)
    && (forall i :: 0 <= i < |run| - 1 ==> run[i].more)
  }

  /** Starting at a fragment marked first, or where no flow existed. */
  ghost predicate WellBegun(flow: Flow) {
    flow.run != [] && (flow.run[0].first || flow.cold)
  }

  ghost predicate Pending(flow: Flow) {
    && WellBegun(flow)
    && Consecutive(flow.run, flow.resolution)
    && flow.run[|flow.run| - 1].more
    && |Concat(flow.run)| <= FLOW_CAPACITY
  }

  ghost predicate WellFormed(t: Table, capacity: nat) {
    |t| <= capacity && forall k :: k in t ==> Pending(t[k])
  }

  ghost predicate IsOldest(t: Table, victim: FragmentKey) {
    victim in t && forall k :: k in t ==> t[victim].lastSeen <= t[k].lastSeen
  }

  /** The run a fragment extends: a restarted one, the pending one, or a fresh one. */
  ghost function Base(t: Table, key: FragmentKey, resolution: nat, now: nat, f: Fragment): Flow {
    if key !in t then Flow(resolution, now, true, [])
    else if f.first then Flow(resolution, now, false, [])
    else t[key].(lastSeen := now)
  }

  ghost predicate InSequence(base: Flow, f: Fragment)
    requires 0 < base.resolution <= U32_MODULUS
  {
    base.run == [] || f.sn == NextSn(base.run[|base.run| - 1].sn, base.resolution)
  }

  /** `victim` is the least recently seen flow, should room be needed. */
  ghost function Room(t: Table, capacity: nat, key: FragmentKey, victim: FragmentKey): Table {
    if key !in t && |t| >= capacity then t - {victim} else t
  }

  /** The fragment joins its base; the second result is a completed run, handed to the decoder. */
  ghost function Extend(t: Table, key: FragmentKey, base: Flow, f: Fragment, granted: bool): (Table, Option<Flow>)
    requires 0 < base.resolution <= U32_MODULUS
  {
    var longer := base.(run := base.run + [f]);
    if !InSequence(base, f) || |Concat(base.run)| + |f.payload| > FLOW_CAPACITY || !granted then
      (t - {key}, None)
    else if f.more then
      (t[key := longer], None)
    else
      (t - {key}, Some(longer))
  }

  /** One fragment; `granted` says whether budget and allocator gave memory for its payload. */
  ghost function Accept(t: Table, capacity: nat, key: FragmentKey, resolution: nat, now: nat, f: Fragment,
                        victim: FragmentKey, granted: bool): (Table, Option<Flow>)
    requires WellFormed(t, capacity) && 0 < resolution <= U32_MODULUS
  {
    if f.drop then
      (t - {key}, None)
    else if key !in t && capacity == 0 then
      (t, None)
    else
      var room := Room(t, capacity, key, victim);
      RoomFlows(t, capacity, key, victim);
      BaseFits(room, capacity, key, resolution, now, f);
      Extend(room, key, Base(room, key, resolution, now, f), f, granted)
  }

  lemma RoomFlows(t: Table, capacity: nat, key: FragmentKey, victim: FragmentKey)
    ensures forall k :: k in Room(t, capacity, key, victim) ==> k in t && Room(t, capacity, key, victim)[k] == t[k]
    ensures key in t <==> key in Room(t, capacity, key, victim)
  {
  }

  // ---------- What every fragment keeps ----------

  lemma ConcatSnoc(run: seq<Fragment>, f: Fragment)
    ensures Concat(run + [f]) == Concat(run) + f.payload
  {
    assert (run + [f])[..|run|] == run;
  }

  /** Extending a run in sequence keeps it one. */
  lemma ExtendKeeps(base: Flow, f: Fragment)
    requires 0 < base.resolution <= U32_MODULUS
    requires base.run == [] ==> f.first || base.cold
    requires base.run != [] ==> Pending(base) && !f.first
    requires !f.drop && InSequence(base, f)
    ensures WellBegun(base.(run := base.run + [f]))
    ensures Consecutive(base.run + [f], base.resolution)
  {
  }

  lemma BaseFits(t: Table, capacity: nat, key: FragmentKey, resolution: nat, now: nat, f: Fragment)
    requires (forall k :: k in t ==> Pending(t[k])) && 0 < resolution <= U32_MODULUS
    ensures var base := Base(t, key, resolution, now, f);
            && 0 < base.resolution <= U32_MODULUS
            && (base.run == [] ==> f.first || base.cold)
            && (base.run != [] ==> Pending(base) && !f.first)
  {
    assert key in t ==> Pending(t[key]);
  }

  /** Removing any flow, and making room for one. */
  lemma RemoveKeeps(t: Table, capacity: nat, key: FragmentKey)
    requires WellFormed(t, capacity)
    ensures WellFormed(t - {key}, capacity)
  {
    hide Pending;
    RemovedSize(t, key);
  }

  lemma RoomKeeps(t: Table, capacity: nat, key: FragmentKey, victim: FragmentKey)
    requires WellFormed(t, capacity) && capacity > 0
    requires |t| >= capacity && key !in t ==> victim in t
    ensures var room := Room(t, capacity, key, victim);
            WellFormed(room, capacity) && (key !in room ==> |room| < capacity)
  {
    hide Pending;
    RemovedSize(t, victim);
  }

  ghost predicate WholeRun(flow: Flow) {
    WellBegun(flow) && Consecutive(flow.run, flow.resolution) && !flow.run[|flow.run| - 1].more
  }

  lemma InsertKeeps(t: Table, capacity: nat, key: FragmentKey, flow: Flow)
    requires WellFormed(t, capacity) && (key !in t ==> |t| < capacity) && Pending(flow)
    ensures WellFormed(t[key := flow], capacity)
  {
    hide Pending;
    assert t[key := flow].Keys == t.Keys + {key};
  }

  lemma ExtendTable(t: Table, capacity: nat, key: FragmentKey, base: Flow, f: Fragment, granted: bool)
    requires WellFormed(t, capacity) && (key !in t ==> |t| < capacity)
    requires 0 < base.resolution <= U32_MODULUS && !f.drop
    requires base.run == [] ==> f.first || base.cold
    requires base.run != [] ==> Pending(base) && !f.first
    ensures var (t', out) := Extend(t, key, base, f, granted);
            && WellFormed(t', capacity)
            && (out.Some? ==> WholeRun(out.value) && out.value.run == base.run + [f])
  {
    hide Consecutive, Concat, InSequence, WellFormed, WellBegun;
    RemoveKeeps(t, capacity, key);
    ConcatSnoc(base.run, f);
    if InSequence(base, f) {
      ExtendKeeps(base, f);
      var longer := base.(run := base.run + [f]);
      if f.more && |Concat(longer.run)| <= FLOW_CAPACITY {
        InsertKeeps(t, capacity, key, longer);
      }
    }
  }

  /**
   Every flow stays a pending run and there are never more flows than the
   capacity. What is handed on is a run of fragments with consecutive numbers,
   begun at a fragment marked first or where no flow existed, ended by the first
   fragment without more.
   */
  lemma AcceptKeeps(t: Table, capacity: nat, key: FragmentKey, resolution: nat, now: nat, f: Fragment,
                    victim: FragmentKey, granted: bool)
    requires WellFormed(t, capacity) && 0 < resolution <= U32_MODULUS
    requires !f.drop && |t| >= capacity > 0 && key !in t ==> victim in t
    ensures var (t', out) := Accept(t, capacity, key, resolution, now, f, victim, granted);
            && WellFormed(t', capacity)
            && (out.Some? ==> WholeRun(out.value) && out.value.run[|out.value.run| - 1] == f)
  {
    hide WholeRun, Extend, Base, Pending;
    RemoveKeeps(t, capacity, key);
    if f.drop {
    } else if capacity > 0 {
      RoomKeeps(t, capacity, key, victim);
      var room := Room(t, capacity, key, victim);
      BaseFits(room, capacity, key, resolution, now, f);
      ExtendTable(room, capacity, key, Base(room, key, resolution, now, f), f, granted);
    } else {
      NoFlows(t);
    }
  }

  lemma NoFlows(t: Table)
    requires |t| == 0
    ensures forall k :: k !in t
  {
  }

  // ---------- Whole runs ----------

  predicate Stale(lastSeen: nat, now: nat, timeout: nat) {
    (if now < lastSeen then 0 else now - lastSeen) >= timeout
  }

  ghost function StaleKeys(t: Table, now: nat, timeout: nat): set<FragmentKey> {
    set k | k in t && Stale(t[k].lastSeen, now, timeout)
  }

  ghost function DirectionKeys(t: Table, direction: Direction): set<FragmentKey> {
    set k | k in t && k.direction == direction
  }

  /** What can happen to the table: a fragment arrives, idle flows expire, or a direction is closed. */
  datatype Event =
    | Arrival(key: FragmentKey, resolution: nat, now: nat, f: Fragment, victim: FragmentKey, granted: bool)
    | Expiry(now: nat, timeout: nat)
    | Closing(direction: Direction)

  ghost predicate Possible(t: Table, capacity: nat, e: Event) {
    e.Arrival? ==> 0 < e.resolution <= U32_MODULUS
                   && (!e.f.drop && |t| >= capacity > 0 && e.key !in t ==> IsOldest(t, e.victim))
  }

  ghost function Apply(t: Table, capacity: nat, e: Event): (Table, Option<Flow>)
    requires WellFormed(t, capacity) && Possible(t, capacity, e)
  {
    match e
    case Arrival(key, resolution, now, f, victim, granted) =>
      Accept(t, capacity, key, resolution, now, f, victim, granted)
    case Expiry(now, timeout) => (t - StaleKeys(t, now, timeout), None)
    case Closing(direction) => (t - DirectionKeys(t, direction), None)
  }

  /** Things happen one after the other, from a well-formed table on. */
  ghost predicate Steps(capacity: nat, events: seq<Event>, tables: seq<Table>, outs: seq<Option<Flow>>) {
    && |tables| == |events| + 1 && |outs| == |events|
    && WellFormed(tables[0], capacity)
    && (forall i :: 0 <= i < |events| && WellFormed(tables[i], capacity) ==>
          && Possible(tables[i], capacity, events[i])
          && Apply(tables[i], capacity, events[i]) == (tables[i + 1], outs[i]))
  }

  /** A run from the empty table. */
  ghost predicate Trace(capacity: nat, events: seq<Event>, tables: seq<Table>, outs: seq<Option<Flow>>) {
    Steps(capacity, events, tables, outs) && tables[0] == map[]
  }

  /** The fragments that arrived for a key, in order. */
  ghost function History(events: seq<Event>, key: FragmentKey): seq<Fragment> {
    if events == [] then []
    else
      var last := events[|events| - 1];
      History(events[..|events| - 1], key) + if last.Arrival? && last.key == key then [last.f] else []
  }

  ghost predicate Suffix(run: seq<Fragment>, history: seq<Fragment>) {
    |run| <= |history| && run == history[|history| - |run|..]
  }

  /** Every pending run is the latest stretch of what arrived for its key. */
  ghost predicate Contiguous(t: Table, events: seq<Event>) {
    forall k :: k in t ==> Suffix(t[k].run, History(events, k))
  }

  lemma SuffixSnoc(run: seq<Fragment>, history: seq<Fragment>, f: Fragment)
    requires Suffix(run, history)
    ensures Suffix(run + [f], history + [f])
  {
    var h := history + [f];
    assert h[|h| - |run| - 1..] == history[|history| - |run|..] + [f];
  }

  lemma HistorySnoc(events: seq<Event>, e: Event, key: FragmentKey)
    ensures History(events + [e], key) == History(events, key) + if e.Arrival? && e.key == key then [e.f] else []
  {
    assert (events + [e])[..|events|] == events;
  }

  ghost predicate Extends(t: Table, e: Event, run: seq<Fragment>)
    requires e.Arrival?
  {
    run == [e.f] || (e.key in t && run == t[e.key].run + [e.f])
  }

  /** Only the flow of the arriving fragment gets a new run, and it is its base with the fragment. */
  lemma ApplyRun(t: Table, capacity: nat, e: Event, k: FragmentKey)
    requires WellFormed(t, capacity) && Possible(t, capacity, e)
    ensures var (t', out) := Apply(t, capacity, e);
            k in t' ==> if e.Arrival? && k == e.key then Extends(t, e, t'[k].run) else k in t && t'[k] == t[k]
  {
    hide InSequence, Concat, Pending;
    if e.Arrival? {
      RoomFlows(t, capacity, e.key, e.victim);
    }
  }

  lemma ApplyOut(t: Table, capacity: nat, e: Event)
    requires WellFormed(t, capacity) && Possible(t, capacity, e) && Apply(t, capacity, e).1.Some?
    ensures e.Arrival? && Extends(t, e, Apply(t, capacity, e).1.value.run)
  {
    hide InSequence, Concat, Pending;
    if e.Arrival? {
      RoomFlows(t, capacity, e.key, e.victim);
    }
  }

  lemma ExtendsSuffix(t: Table, events: seq<Event>, e: Event, run: seq<Fragment>)
    requires Contiguous(t, events) && e.Arrival? && Extends(t, e, run)
    ensures Suffix(run, History(events + [e], e.key))
  {
    HistorySnoc(events, e, e.key);
    if e.key in t && run == t[e.key].run + [e.f] {
      SuffixSnoc(t[e.key].run, History(events, e.key), e.f);
    } else {
      SuffixSnoc([], History(events, e.key), e.f);
    }
  }

  lemma SameSuffix(t: Table, events: seq<Event>, e: Event, k: FragmentKey)
    requires Contiguous(t, events) && k in t && !(e.Arrival? && k == e.key)
    ensures Suffix(t[k].run, History(events + [e], k))
  {
    HistorySnoc(events, e, k);
    assert History(events, k) + [] == History(events, k);
  }

  lemma StepContiguous(t: Table, capacity: nat, events: seq<Event>, e: Event)
    requires WellFormed(t, capacity) && Possible(t, capacity, e) && Contiguous(t, events)
    ensures var (t', out) := Apply(t, capacity, e);
            && Contiguous(t', events + [e])
            && (out.Some? ==> e.Arrival? && Suffix(out.value.run, History(events + [e], e.key)))
  {
    hide WellFormed, Apply, History, Suffix, Extends, Possible;
    var (t', out) := Apply(t, capacity, e);
    forall k | k in t' ensures Suffix(t'[k].run, History(events + [e], k)) {
      ApplyRun(t, capacity, e, k);
      if e.Arrival? && k == e.key {
        ExtendsSuffix(t, events, e, t'[k].run);
      } else {
        SameSuffix(t, events, e, k);
      }
    }
    if out.Some? {
      ApplyOut(t, capacity, e);
      ExtendsSuffix(t, events, e, out.value.run);
    }
  }

  lemma ApplyKeeps(t: Table, capacity: nat, e: Event)
    requires WellFormed(t, capacity) && Possible(t, capacity, e)
    ensures WellFormed(Apply(t, capacity, e).0, capacity)
  {
    match e
    case Arrival(key, resolution, now, f, victim, granted) =>
      AcceptKeeps(t, capacity, key, resolution, now, f, victim, granted);
    case Expiry(now, timeout) => RemoveAllKeeps(t, capacity, StaleKeys(t, now, timeout));
    case Closing(direction) => RemoveAllKeeps(t, capacity, DirectionKeys(t, direction));
  }

  /** Every table of a run is well-formed, because the first one is. */
  lemma {:induction false} StepsWellFormed(capacity: nat, events: seq<Event>, tables: seq<Table>,
                                           outs: seq<Option<Flow>>, i: nat)
    requires Steps(capacity, events, tables, outs) && i <= |events|
    ensures WellFormed(tables[i], capacity)
    decreases i
  {
    hide WellFormed, Possible, Apply;
    if i > 0 {
      StepsWellFormed(capacity, events, tables, outs, i - 1);
      ApplyKeeps(tables[i - 1], capacity, events[i - 1]);
    }
  }

  lemma StepsAt(capacity: nat, events: seq<Event>, tables: seq<Table>, outs: seq<Option<Flow>>, i: nat)
    requires Steps(capacity, events, tables, outs) && i < |events|
    ensures |tables| == |events| + 1 && |outs| == |events|
    ensures WellFormed(tables[i], capacity) && Possible(tables[i], capacity, events[i])
    ensures Apply(tables[i], capacity, events[i]) == (tables[i + 1], outs[i])
    ensures events[..i + 1] == events[..i] + [events[i]]
  {
    hide WellFormed, Possible, Apply;
    StepsWellFormed(capacity, events, tables, outs, i);
  }

  lemma TraceStarts(capacity: nat, events: seq<Event>, tables: seq<Table>, outs: seq<Option<Flow>>)
    requires Trace(capacity, events, tables, outs)
    ensures Steps(capacity, events, tables, outs) && |tables| == |events| + 1 && |outs| == |events|
    ensures Contiguous(tables[0], [])
  {
    hide WellFormed, Possible, Apply;
  }

  lemma {:induction false} RunsContiguous(capacity: nat, events: seq<Event>, tables: seq<Table>,
                                          outs: seq<Option<Flow>>, n: nat)
    requires Trace(capacity, events, tables, outs) && n < |tables|
    ensures |tables| == |events| + 1 && Contiguous(tables[n], events[..n])
  {
    hide *;
    TraceStarts(capacity, events, tables, outs);
    if n == 0 {
      assert events[..0] == [];
    } else {
      RunsContiguous(capacity, events, tables, outs, n - 1);
      StepsAt(capacity, events, tables, outs, n - 1);
      StepContiguous(tables[n - 1], capacity, events[..n - 1], events[n - 1]);
    }
  }

  /**
   Only gap-free runs reach the decoder: what is handed on is the latest stretch
   of fragments that arrived for the key, none left out, numbered consecutively
   modulo the resolution, begun at a fragment marked first or where no flow
   existed, and ended by the first fragment without more.
   */
  lemma OnlyGapFreeRuns(capacity: nat, events: seq<Event>, tables: seq<Table>, outs: seq<Option<Flow>>, n: nat)
    requires Trace(capacity, events, tables, outs) && n < |outs| && outs[n].Some?
    ensures n < |events| && events[n].Arrival?
    ensures WholeRun(outs[n].value)
    ensures Suffix(outs[n].value.run, History(events[..n + 1], events[n].key))
  {
    TraceStarts(capacity, events, tables, outs);
    StepsAt(capacity, events, tables, outs, n);
    RunsContiguous(capacity, events, tables, outs, n);
    StepContiguous(tables[n], capacity, events[..n], events[n]);
    var e := events[n];
    AcceptKeeps(tables[n], capacity, e.key, e.resolution, e.now, e.f, e.victim, e.granted);
  }

  // ---------- A fragmented message arrives ----------

  /** The fragments a sender makes of one message; a sender may leave the first unmarked. */
  ghost predicate Message(run: seq<Fragment>, resolution: nat) {
    && run != []
    && Consecutive(run, resolution)
    && !run[|run| - 1].more
    && |Concat(run)| <= FLOW_CAPACITY
  }

  lemma {:induction false} PrefixShorter(run: seq<Fragment>, n: nat)
    requires n <= |run|
    ensures |Concat(run[..n])| <= |Concat(run)|
    decreases |run|
  {
    if n < |run| {
      assert run[..|run| - 1][..n] == run[..n];
      PrefixShorter(run[..|run| - 1], n);
    } else {
      assert run[..n] == run;
    }
  }

  /** A message begins where its first fragment is marked, or no flow exists. */
  ghost predicate Begins(t: Table, key: FragmentKey, run: seq<Fragment>)
    requires run != []
  {
    run[0].first || key !in t
  }

  /** What the flow of a message must hold after its first n fragments. */
  ghost predicate HoldsPart(t: Table, key: FragmentKey, resolution: nat, run: seq<Fragment>, n: nat)
    requires run != [] && n <= |run|
  {
    && (n == 0 ==> Begins(t, key, run))
    && (0 < n < |run| ==> key in t && t[key].run == run[..n] && t[key].resolution == resolution)
  }

  lemma BaseIsPart(t: Table, key: FragmentKey, resolution: nat, now: nat, run: seq<Fragment>, n: nat)
    requires Message(run, resolution) && n < |run| && HoldsPart(t, key, resolution, run, n)
    ensures var base := Base(t, key, resolution, now, run[n]);
            && base.run == run[..n] && base.resolution == resolution
            && InSequence(base, run[n])
            && |Concat(base.run)| + |run[n].payload| <= FLOW_CAPACITY
            && base.run + [run[n]] == run[..n + 1]
            && !run[n].drop && (run[n].more <==> n < |run| - 1)
  {
    hide Concat;
    PrefixShorter(run, n + 1);
    assert run[..n] + [run[n]] == run[..n + 1];
    ConcatSnoc(run[..n], run[n]);
    assert n > 0 ==> run[..n][n - 1] == run[n - 1];
  }

  /** One more fragment of the message while its flow holds the earlier ones. */
  lemma AcceptNext(t: Table, capacity: nat, key: FragmentKey, resolution: nat, now: nat, victim: FragmentKey,
                   run: seq<Fragment>, n: nat)
    requires WellFormed(t, capacity) && capacity > 0 && Message(run, resolution) && n < |run|
    requires HoldsPart(t, key, resolution, run, n)
    ensures var (t', out) := Accept(t, capacity, key, resolution, now, run[n], victim, true);
            && HoldsPart(t', key, resolution, run, n + 1)
            && (n < |run| - 1 ==> out == None && key in t' && t'[key].lastSeen == now)
            && (n == |run| - 1 ==> out.Some? && out.value.run == run)
  {
    var room := Room(t, capacity, key, victim);
    RoomFlows(t, capacity, key, victim);
    BaseIsPart(room, key, resolution, now, run, n);
    hide Concat, Pending, Consecutive, InSequence, Base, Room, WellFormed;
    assert run[..|run|] == run;
  }

  // ---------- What happens for others in between ----------

  /** When a fragment of the key was last seen. */
  ghost function LastSeen(events: seq<Event>, key: FragmentKey): nat {
    if events == [] then 0
    else
      var last := events[|events| - 1];
      if last.Arrival? && last.key == key then last.now else LastSeen(events[..|events| - 1], key)
  }

  lemma LastSeenSnoc(events: seq<Event>, e: Event, key: FragmentKey)
    ensures LastSeen(events + [e], key) == if e.Arrival? && e.key == key then e.now else LastSeen(events, key)
  {
    assert (events + [e])[..|events|] == events;
  }

  /** Some fragment of the key arrives no later than this time. */
  ghost predicate SeenBy(events: seq<Event>, key: FragmentKey, time: nat) {
    exists i :: 0 <= i < |events| && events[i].Arrival? && events[i].key == key && events[i].now <= time
  }

  lemma {:induction false} LastIsSeen(events: seq<Event>, key: FragmentKey)
    requires History(events, key) != []
    ensures SeenBy(events, key, LastSeen(events, key))
  {
    var n := |events| - 1;
    var last := events[n];
    if !(last.Arrival? && last.key == key) {
      assert History(events[..n], key) + [] == History(events[..n], key);
      LastIsSeen(events[..n], key);
      var i :| 0 <= i < n && events[..n][i].Arrival? && events[..n][i].key == key
          && events[..n][i].now <= LastSeen(events, key);
      assert events[i] == events[..n][i];
    }
  }

  /** Other keys for which fragments arrive. */
  ghost function Newcomers(events: seq<Event>, key: FragmentKey): set<FragmentKey> {
    set i | 0 <= i < |events| && events[i].Arrival? && events[i].key != key && !events[i].f.drop :: events[i].key
  }

  /** Other keys that compete for places: newcomers, and flows seen no earlier than some fragment of the key. */
  ghost function Rivals(events: seq<Event>, t: Table, key: FragmentKey): set<FragmentKey> {
    Newcomers(events, key) + set k | k in t && k != key && SeenBy(events, key, t[k].lastSeen)
  }

  /** The other flows are newcomers or as they were. */
  ghost predicate OthersFrom(t: Table, t0: Table, key: FragmentKey, newcomers: set<FragmentKey>) {
    forall k :: k in t && k != key ==> k in newcomers || (k in t0 && t[k] == t0[k])
  }

  /** The least recently seen flow is another one while the table has more places than there are rivals. */
  lemma VictimIsAnother(t: Table, t0: Table, events: seq<Event>, earlier: seq<Event>, key: FragmentKey,
                        other: FragmentKey, victim: FragmentKey)
    requires OthersFrom(t, t0, key, Newcomers(events, key))
    requires key in t && other !in t && other in Newcomers(events, key)
    requires |earlier| <= |events| && earlier == events[..|earlier|]
    requires History(earlier, key) != [] && t[key].lastSeen == LastSeen(earlier, key)
    requires |Rivals(events, t0, key)| < |t| && IsOldest(t, victim)
    ensures victim != key
  {
    hide OthersFrom, Newcomers, LastSeen, SeenBy;
    if victim == key {
      var rivals := Rivals(events, t0, key);
      LastIsSeen(earlier, key);
      forall k | k in t && k != key ensures k in rivals {
        FromOrRival(t, t0, events, earlier, key, k);
      }
      RivalCount(t, key, other, rivals);
    }
  }

  lemma FromOrRival(t: Table, t0: Table, events: seq<Event>, earlier: seq<Event>, key: FragmentKey, k: FragmentKey)
    requires OthersFrom(t, t0, key, Newcomers(events, key)) && k in t && k != key && key in t
    requires |earlier| <= |events| && earlier == events[..|earlier|]
    requires SeenBy(earlier, key, t[key].lastSeen) && t[key].lastSeen <= t[k].lastSeen
    ensures k in Rivals(events, t0, key)
  {
    hide Newcomers;
    var i :| 0 <= i < |earlier| && earlier[i].Arrival? && earlier[i].key == key && earlier[i].now <= t[key].lastSeen;
    assert events[i] == earlier[i];
  }

  lemma RivalCount(t: Table, key: FragmentKey, other: FragmentKey, rivals: set<FragmentKey>)
    requires key in t && other !in t && other in rivals && |rivals| < |t|
    ensures exists k :: k in t && k != key && k !in rivals
  {
    if forall k :: k in t && k != key ==> k in rivals {
      var others := t.Keys - {key} + {other};
      assert |others| == |t.Keys| == |t|;
      SubsetSize(others, rivals);
    }
  }

  /** Nothing else removes the flow: memory is granted, it is not silent for too long, and its direction stays open. */
  ghost predicate Undisturbed(events: seq<Event>, key: FragmentKey, resolution: nat) {
    forall i :: 0 <= i < |events| ==> Harmless(events[..i], events[i], key, resolution)
  }

  ghost predicate Harmless(earlier: seq<Event>, e: Event, key: FragmentKey, resolution: nat) {
    match e
    case Arrival(k, r, _, _, _, granted) => k == key ==> r == resolution && granted
    case Expiry(now, timeout) => History(earlier, key) != [] ==> timeout > 0 && now < LastSeen(earlier, key) + timeout
    case Closing(direction) => History(earlier, key) != [] ==> direction != key.direction
  }

  // ---------- A fragmented message is delivered ----------

  /** The flow of the message after what has arrived so far. */
  ghost predicate Delivering(t: Table, t0: Table, events: seq<Event>, earlier: seq<Event>, key: FragmentKey,
                             resolution: nat, run: seq<Fragment>)
  {
    var n := |History(earlier, key)|;
    && n < |run| && History(earlier, key) == run[..n]
    && HoldsPart(t, key, resolution, run, n)
    && (n > 0 ==> key in t && t[key].lastSeen == LastSeen(earlier, key))
    && OthersFrom(t, t0, key, Newcomers(events, key))
  }

  /** Room is made for another key, but not at the cost of the message. */
  lemma RoomForAnother(t: Table, t0: Table, capacity: nat, events: seq<Event>, earlier: seq<Event>, e: Event,
                       key: FragmentKey)
    requires e.Arrival? && e.key != key && !e.f.drop && Possible(t, capacity, e)
    requires |earlier| < |events| && earlier + [e] == events[..|earlier| + 1]
    requires OthersFrom(t, t0, key, Newcomers(events, key)) && |Rivals(events, t0, key)| < capacity
    requires History(earlier, key) != [] ==> key in t && t[key].lastSeen == LastSeen(earlier, key)
    ensures History(earlier, key) != [] ==> key in Room(t, capacity, e.key, e.victim)
  {
    hide Newcomers, History, LastSeen, IsOldest, Rivals, OthersFrom;
    assert earlier == events[..|earlier|];
    NewcomerAt(events, key, |earlier|);
    if History(earlier, key) != [] && e.key !in t && |t| >= capacity {
      VictimIsAnother(t, t0, events, earlier, key, e.key, e.victim);
    }
  }

  /** A fragment of another key leaves the message's flow as it is, and the others are newcomers or as they were. */
  lemma AnotherAccepted(t: Table, t0: Table, capacity: nat, events: seq<Event>, e: Event, key: FragmentKey)
    requires WellFormed(t, capacity) && Possible(t, capacity, e) && e.Arrival? && e.key != key && capacity > 0
    requires !e.f.drop ==> e.key in Newcomers(events, key)
    requires OthersFrom(t, t0, key, Newcomers(events, key))
    ensures var t' := Apply(t, capacity, e).0;
            && OthersFrom(t', t0, key, Newcomers(events, key))
            && (key in t && (!e.f.drop ==> key in Room(t, capacity, e.key, e.victim)) ==>
                key in t' && t'[key] == t[key])
            && (key !in t ==> key !in t')
  {
    hide Extend, Newcomers, Pending, Base, Room;
    if !e.f.drop {
      RoomFlows(t, capacity, e.key, e.victim);
      var room := Room(t, capacity, e.key, e.victim);
      BaseFits(room, capacity, e.key, e.resolution, e.now, e.f);
      ExtendOthers(room, e.key, Base(room, e.key, e.resolution, e.now, e.f), e.f, e.granted);
    }
  }

  /** A fragment of another key. */
  lemma OtherArrives(t: Table, t0: Table, capacity: nat, events: seq<Event>, earlier: seq<Event>, e: Event,
                     key: FragmentKey, resolution: nat, run: seq<Fragment>)
    requires WellFormed(t, capacity) && Possible(t, capacity, e) && e.Arrival? && e.key != key
    requires Delivering(t, t0, events, earlier, key, resolution, run)
    requires |earlier| < |events| && earlier + [e] == events[..|earlier| + 1]
    requires |Rivals(events, t0, key)| < capacity
    ensures Delivering(Apply(t, capacity, e).0, t0, events, earlier + [e], key, resolution, run)
  {
    hide Newcomers, History, LastSeen, Rivals, OthersFrom, Room, Apply, WellFormed, Possible;
    HistorySnoc(earlier, e, key);
    LastSeenSnoc(earlier, e, key);
    assert History(earlier, key) + [] == History(earlier, key);
    if !e.f.drop {
      assert events[|earlier|] == e;
      NewcomerAt(events, key, |earlier|);
      RoomForAnother(t, t0, capacity, events, earlier, e, key);
    }
    AnotherAccepted(t, t0, capacity, events, e, key);
  }

  lemma NewcomerAt(events: seq<Event>, key: FragmentKey, i: nat)
    requires i < |events| && events[i].Arrival? && events[i].key != key && !events[i].f.drop
    ensures events[i].key in Newcomers(events, key)
  {
  }

  lemma ExtendOthers(t: Table, key: FragmentKey, base: Flow, f: Fragment, granted: bool)
    requires 0 < base.resolution <= U32_MODULUS
    ensures var t' := Extend(t, key, base, f, granted).0;
            forall k :: k != key ==> (k in t' <==> k in t) && (k in t ==> t'[k] == t[k])
  {
    hide InSequence, Concat;
  }

  /** Flows leave, but not the one of the message. */
  lemma OthersLeave(t: Table, t0: Table, events: seq<Event>, earlier: seq<Event>, e: Event, gone: set<FragmentKey>,
                    key: FragmentKey, resolution: nat, run: seq<Fragment>)
    requires Delivering(t, t0, events, earlier, key, resolution, run) && !e.Arrival?
    requires History(earlier, key) != [] ==> key !in gone
    ensures Delivering(t - gone, t0, events, earlier + [e], key, resolution, run)
  {
    hide Newcomers, History, LastSeen;
    HistorySnoc(earlier, e, key);
    LastSeenSnoc(earlier, e, key);
    assert History(earlier, key) + [] == History(earlier, key);
  }

  /** The next fragment of the message, but for the last one. */
  lemma PartArrives(t: Table, t0: Table, capacity: nat, events: seq<Event>, earlier: seq<Event>, e: Event,
                    key: FragmentKey, resolution: nat, run: seq<Fragment>)
    requires WellFormed(t, capacity) && Possible(t, capacity, e) && e.Arrival? && e.key == key && capacity > 0
    requires e.granted && e.resolution == resolution && Message(run, resolution)
    requires Delivering(t, t0, events, earlier, key, resolution, run)
    requires |History(earlier, key)| < |run| - 1 && e.f == run[|History(earlier, key)|]
    ensures Delivering(Apply(t, capacity, e).0, t0, events, earlier + [e], key, resolution, run)
    ensures Apply(t, capacity, e).1 == None
  {
    hide Newcomers, History, LastSeen, Message, WellFormed, Consecutive, Concat, Extend, Base, InSequence;
    HistorySnoc(earlier, e, key);
    LastSeenSnoc(earlier, e, key);
    var n := |History(earlier, key)|;
    assert run[..n] + [run[n]] == run[..n + 1];
    AcceptNext(t, capacity, key, resolution, e.now, e.victim, run, n);
    OthersStay(t, capacity, e);
  }

  lemma OthersStay(t: Table, capacity: nat, e: Event)
    requires WellFormed(t, capacity) && Possible(t, capacity, e) && e.Arrival?
    ensures forall k :: k in Apply(t, capacity, e).0 && k != e.key ==> k in t && Apply(t, capacity, e).0[k] == t[k]
  {
    forall k {
      ApplyRun(t, capacity, e, k);
    }
    hide Apply, WellFormed, Possible;
  }

  lemma {:induction false} HistoryGrows(events: seq<Event>, key: FragmentKey, i: nat)
    requires i <= |events|
    ensures History(events[..i], key) <= History(events, key)
    decreases |events|
  {
    if i < |events| {
      var n := |events| - 1;
      assert events[..n][..i] == events[..i];
      HistoryGrows(events[..n], key, i);
    } else {
      assert events[..i] == events;
    }
  }

  /** Until its last fragment, the flow of the message holds what has arrived of it, whatever arrives for others. */
  lemma {:induction false} DeliveryHolds(
    capacity: nat, events: seq<Event>, tables: seq<Table>, outs: seq<Option<Flow>>,
    key: FragmentKey, resolution: nat, run: seq<Fragment>, n: nat)
    requires Steps(capacity, events, tables, outs) && n <= |events|
    requires Message(run, resolution) && Undisturbed(events, key, resolution)
    requires History(events, key) <= run && |History(events[..n], key)| < |run|
    requires |tables| > 0 && Begins(tables[0], key, run) && |Rivals(events, tables[0], key)| < capacity
    ensures |tables| == |events| + 1 && |outs| == |events|
    ensures Delivering(tables[n], tables[0], events, events[..n], key, resolution, run)
    ensures forall i :: 0 <= i < n && events[i].Arrival? && events[i].key == key ==> outs[i] == None
  {
    hide *;
    StepsLengths(capacity, events, tables, outs);
    if n == 0 {
      DeliveryStarts(tables[0], events, key, resolution, run);
    } else {
      StepsAt(capacity, events, tables, outs, n - 1);
      HistoryGrows(events[..n], key, n - 1);
      HistoryGrows(events, key, n);
      assert events[..n][..n - 1] == events[..n - 1];
      DeliveryHolds(capacity, events, tables, outs, key, resolution, run, n - 1);
      var t, e, earlier := tables[n - 1], events[n - 1], events[..n - 1];
      HarmlessAt(events, key, resolution, n - 1);
      HistorySnoc(earlier, e, key);
      if e.Arrival? && e.key == key {
        HarmlessArrival(earlier, e, key, resolution);
        PartArrives(t, tables[0], capacity, events, earlier, e, key, resolution, run);
      } else if e.Arrival? {
        OtherArrives(t, tables[0], capacity, events, earlier, e, key, resolution, run);
      } else {
        HarmlessLeave(t, capacity, tables[0], events, earlier, e, key, resolution, run);
      }
    }
  }

  lemma StepsLengths(capacity: nat, events: seq<Event>, tables: seq<Table>, outs: seq<Option<Flow>>)
    requires Steps(capacity, events, tables, outs)
    ensures |tables| == |events| + 1 && |outs| == |events|
  {
  }

  lemma DeliveryStarts(t: Table, events: seq<Event>, key: FragmentKey, resolution: nat, run: seq<Fragment>)
    requires run != [] && Begins(t, key, run)
    ensures Delivering(t, t, events, events[..0], key, resolution, run)
  {
    assert History(events[..0], key) == run[..0];
  }

  lemma HarmlessAt(events: seq<Event>, key: FragmentKey, resolution: nat, i: nat)
    requires Undisturbed(events, key, resolution) && i < |events|
    ensures Harmless(events[..i], events[i], key, resolution)
  {
    hide Harmless;
  }

  lemma HarmlessArrival(earlier: seq<Event>, e: Event, key: FragmentKey, resolution: nat)
    requires Harmless(earlier, e, key, resolution) && e.Arrival? && e.key == key
    ensures e.granted && e.resolution == resolution
  {
  }

  lemma HarmlessLeave(t: Table, capacity: nat, t0: Table, events: seq<Event>, earlier: seq<Event>, e: Event,
                      key: FragmentKey, resolution: nat, run: seq<Fragment>)
    requires WellFormed(t, capacity) && Possible(t, capacity, e) && !e.Arrival?
    requires Delivering(t, t0, events, earlier, key, resolution, run) && Harmless(earlier, e, key, resolution)
    ensures Delivering(Apply(t, capacity, e).0, t0, events, earlier + [e], key, resolution, run)
  {
    hide WellFormed, Newcomers, History, LastSeen, OthersFrom;
    var gone := if e.Expiry? then StaleKeys(t, e.now, e.timeout) else DirectionKeys(t, e.direction);
    OthersLeave(t, t0, events, earlier, e, gone, key, resolution, run);
  }

  /**
   The fragments of a message, arriving in order, deliver exactly the message,
   whatever arrives for other keys in between, as long as there are fewer rivals
   than places, memory is granted, the flow is never silent for the timeout and
   its direction stays open: nothing is handed on before the last fragment.
   */
  lemma MessageDelivered(
    capacity: nat, events: seq<Event>, tables: seq<Table>, outs: seq<Option<Flow>>,
    key: FragmentKey, resolution: nat, run: seq<Fragment>)
    requires Steps(capacity, events, tables, outs)
    requires Message(run, resolution) && History(events, key) == run && Undisturbed(events, key, resolution)
    requires events != [] && events[|events| - 1].Arrival? && events[|events| - 1].key == key
    requires |tables| > 0 && Begins(tables[0], key, run) && |Rivals(events, tables[0], key)| < capacity
    ensures |outs| == |events|
    ensures outs[|events| - 1].Some? && outs[|events| - 1].value.run == run
    ensures forall i :: 0 <= i < |events| - 1 && events[i].Arrival? && events[i].key == key ==> outs[i] == None
  {
    hide *;
    StepsLengths(capacity, events, tables, outs);
    var n := |events| - 1;
    var t, e, earlier := tables[n], events[n], events[..n];
    StepsAt(capacity, events, tables, outs, n);
    assert events[..n + 1] == events;
    HistorySnoc(earlier, e, key);
    DeliveryHolds(capacity, events, tables, outs, key, resolution, run, n);
    HarmlessAt(events, key, resolution, n);
    HarmlessArrival(earlier, e, key, resolution);
    LastArrives(tables[n], tables[0], capacity, events, earlier, e, key, resolution, run);
  }

  lemma LastArrives(t: Table, t0: Table, capacity: nat, events: seq<Event>, earlier: seq<Event>, e: Event,
                    key: FragmentKey, resolution: nat, run: seq<Fragment>)
    requires WellFormed(t, capacity) && Possible(t, capacity, e) && e.Arrival? && e.key == key && capacity > 0
    requires e.granted && e.resolution == resolution && Message(run, resolution)
    requires Delivering(t, t0, events, earlier, key, resolution, run) && History(earlier, key) + [e.f] == run
    ensures Apply(t, capacity, e).1.Some? && Apply(t, capacity, e).1.value.run == run
  {
    hide Newcomers, History, LastSeen, Message, WellFormed, Consecutive, Concat, Extend, Base, InSequence, OthersFrom;
    var n := |History(earlier, key)|;
    AcceptNext(t, capacity, key, resolution, e.now, e.victim, run, n);
  }

  // ---------- How a message is lost ----------

  /** What costs a pending message its flow, but for its own fragments. */
  ghost predicate Loses(t: Table, capacity: nat, e: Event, key: FragmentKey)
    requires key in t
  {
    match e
    case Arrival(other, _, _, f, victim, _) => !f.drop && other !in t && |t| == capacity && victim == key
    case Expiry(now, timeout) => timeout == 0 || t[key].lastSeen + timeout <= now
    case Closing(direction) => direction == key.direction
  }

  /**
   Anything but a fragment of its own costs a pending message its flow if and only
   if a fragment of a new key meets a full table in which it is the one chosen as
   least recently seen, or it is silent for the timeout, or its direction closes.
   */
  lemma LostToAnother(t: Table, capacity: nat, e: Event, key: FragmentKey)
    requires WellFormed(t, capacity) && Possible(t, capacity, e) && key in t
    requires e.Arrival? ==> e.key != key
    ensures key !in Apply(t, capacity, e).0 <==> Loses(t, capacity, e, key)
  {
    hide Extend, Base, Pending;
    NoFlowsAtZero(t, capacity, key);
    if e.Arrival? && !e.f.drop {
      RoomFlows(t, capacity, e.key, e.victim);
      var room := Room(t, capacity, e.key, e.victim);
      BaseFits(room, capacity, e.key, e.resolution, e.now, e.f);
      ExtendOthers(room, e.key, Base(room, e.key, e.resolution, e.now, e.f), e.f, e.granted);
    }
  }

  // ---------- The table as an object ----------

  datatype FragmentState = FragmentState(nextSn: Option<U32>, resolution: nat, payload: seq<Byte>, lastSeen: nat)

  ghost function Lengths(flows: map<FragmentKey, FragmentState>): map<FragmentKey, nat> {
    map k | k in flows :: |flows[k].payload|
  }

  lemma LengthsRemove(flows: map<FragmentKey, FragmentState>, key: FragmentKey)
    ensures Sum(Lengths(flows - {key})) == Sum(Lengths(flows)) - if key in flows then |flows[key].payload| else 0
  {
    assert Lengths(flows - {key}) == Lengths(flows) - {key};
    if key in flows {
      SumRemove(Lengths(flows), key);
    } else {
      assert flows - {key} == flows;
    }
  }

  lemma LengthsSet(flows: map<FragmentKey, FragmentState>, key: FragmentKey, state: FragmentState)
    ensures Sum(Lengths(flows[key := state]))
         == Sum(Lengths(flows)) - (if key in flows then |flows[key].payload| else 0) + |state.payload|
  {
    assert Lengths(flows[key := state]) == Lengths(flows)[key := |state.payload|];
    SumSet(Lengths(flows), key, |state.payload|);
  }

  /** A stored state is the concatenation of its run and waits for the next number. */
  ghost predicate Stands(state: FragmentState, flow: Flow)
    requires Pending(flow)
  {
    && state.payload == Concat(flow.run)
    && state.nextSn == Some(NextSn(flow.run[|flow.run| - 1].sn, flow.resolution))
    && state.resolution == flow.resolution
    && state.lastSeen == flow.lastSeen
  }

  ghost predicate Stand(flows: map<FragmentKey, FragmentState>, t: Table) {
    && flows.Keys == t.Keys
    && forall k :: k in t ==> Pending(t[k]) && Stands(flows[k], t[k])
  }

  lemma NoLengths()
    ensures Sum(Lengths(map[])) == 0
  {
    assert Lengths(map[]) == map[];
  }

  lemma StandDomain(flows: map<FragmentKey, FragmentState>, t: Table)
    requires Stand(flows, t)
    ensures flows.Keys == t.Keys && |flows| == |t|
  {
    assert |flows| == |flows.Keys| && |t| == |t.Keys|;
  }

  lemma OldestStands(flows: map<FragmentKey, FragmentState>, t: Table, oldest: FragmentKey)
    requires Stand(flows, t) && oldest in flows
    requires forall k :: k in flows ==> flows[oldest].lastSeen <= flows[k].lastSeen
    ensures IsOldest(t, oldest)
  {
    hide Pending;
    forall k | k in t ensures t[k].lastSeen == flows[k].lastSeen {
      assert Stands(flows[k], t[k]);
    }
  }

  lemma StandRemoveAll(flows: map<FragmentKey, FragmentState>, t: Table, keys: set<FragmentKey>)
    requires Stand(flows, t)
    ensures Stand(flows - keys, t - keys)
    ensures forall k :: k in t ==> k in flows && t[k].lastSeen == flows[k].lastSeen
  {
    hide Pending;
    forall k | k in t ensures t[k].lastSeen == flows[k].lastSeen {
      assert Stands(flows[k], t[k]);
    }
  }

  lemma StaleAgree(flows: map<FragmentKey, FragmentState>, t: Table, now: nat, timeout: nat)
    requires Stand(flows, t)
    ensures (set k | k in flows && Stale(flows[k].lastSeen, now, timeout)) == StaleKeys(t, now, timeout)
  {
    StandRemoveAll(flows, t, {});
  }

  lemma DirectionAgree(flows: map<FragmentKey, FragmentState>, t: Table, direction: Direction)
    requires Stand(flows, t)
    ensures (set k | k in flows && k.direction == direction) == DirectionKeys(t, direction)
  {
    StandDomain(flows, t);
    hide Stand;
  }

  lemma RemoveAllKeeps(t: Table, capacity: nat, keys: set<FragmentKey>)
    requires WellFormed(t, capacity)
    ensures WellFormed(t - keys, capacity)
  {
    hide Pending;
    SubsetSize((t - keys).Keys, t.Keys);
  }

  lemma StandRemove(flows: map<FragmentKey, FragmentState>, t: Table, key: FragmentKey)
    requires Stand(flows, t)
    ensures Stand(flows - {key}, t - {key})
  {
    hide Pending, Stands;
  }

  lemma StandSet(flows: map<FragmentKey, FragmentState>, t: Table, key: FragmentKey, state: FragmentState, flow: Flow)
    requires Stand(flows, t) && Pending(flow) && Stands(state, flow)
    ensures Stand(flows[key := state], t[key := flow])
  {
    hide Pending, Stands;
  }

  /** The state a fragment finds: a restarted, a pending or a fresh one. */
  function StartState(flows: map<FragmentKey, FragmentState>, key: FragmentKey, resolution: nat, now: nat, f: Fragment)
    : FragmentState
  {
    var state := if key in flows then flows[key].(lastSeen := now) else FragmentState(None, resolution, [], now);
    if f.first then FragmentState(Some(f.sn), resolution, [], now)
    else if state.nextSn.None? then state.(nextSn := Some(f.sn))
    else state
  }

  /** The state before the fragment is appended stands for the base of its run. */
  ghost predicate StandsForBase(state: FragmentState, base: Flow, f: Fragment)
    requires 0 < base.resolution <= U32_MODULUS
  {
    && state.payload == Concat(base.run)
    && (state.nextSn == Some(f.sn) <==> InSequence(base, f))
    && state.resolution == base.resolution && state.lastSeen == base.lastSeen
  }

  lemma StartStands(flows: map<FragmentKey, FragmentState>, t: Table, key: FragmentKey, resolution: nat, now: nat,
                    f: Fragment)
    requires Stand(flows, t) && 0 < resolution <= U32_MODULUS
    ensures var base := Base(t, key, resolution, now, f);
            && 0 < base.resolution <= U32_MODULUS
            && StandsForBase(StartState(flows, key, resolution, now, f), base, f)
  {
    assert key in t ==> Pending(t[key]) && Stands(flows[key], t[key]);
  }

  ghost predicate BasePending(t: Table, key: FragmentKey, resolution: nat, now: nat, f: Fragment) {
    0 < Base(t, key, resolution, now, f).resolution <= U32_MODULUS
  }

  lemma BaseIs(t: Table, capacity: nat, key: FragmentKey, resolution: nat, now: nat, f: Fragment)
    requires WellFormed(t, capacity) && 0 < resolution <= U32_MODULUS
    ensures var base := Base(t, key, resolution, now, f);
            && 0 < base.resolution <= U32_MODULUS
            && (base.run == [] ==> f.first || base.cold)
            && (base.run != [] ==> Pending(base) && !f.first)
  {
    BaseFits(t, capacity, key, resolution, now, f);
  }

  lemma BaseFacts(state: FragmentState, base: Flow, f: Fragment)
    requires 0 < base.resolution <= U32_MODULUS && StandsForBase(state, base, f)
    ensures state.payload == Concat(base.run) && state.resolution == base.resolution
    ensures state.nextSn == Some(f.sn) <==> InSequence(base, f)
  {
  }

  lemma NoFlowsAtZero(t: Table, capacity: nat, key: FragmentKey)
    requires WellFormed(t, capacity) && key in t
    ensures capacity > 0
  {
    if capacity == 0 {
      NoFlows(t);
    }
  }

  function Appended(state: FragmentState, f: Fragment): FragmentState
    requires 0 < state.resolution <= U32_MODULUS
  {
    state.(payload := state.payload + f.payload, nextSn := Some(NextSn(f.sn, state.resolution)))
  }

  lemma AppendStands(state: FragmentState, base: Flow, f: Fragment)
    requires 0 < base.resolution <= U32_MODULUS
    requires StandsForBase(state, base, f) && InSequence(base, f) && !f.drop && f.more
    requires base.run == [] ==> f.first || base.cold
    requires base.run != [] ==> Pending(base) && !f.first
    requires |Concat(base.run)| + |f.payload| <= FLOW_CAPACITY
    ensures Pending(base.(run := base.run + [f])) && Stands(Appended(state, f), base.(run := base.run + [f]))
  {
    hide Consecutive, WellBegun, Concat, InSequence;
    ExtendKeeps(base, f);
    ConcatSnoc(base.run, f);
    var run := base.run + [f];
    assert run[|run| - 1] == f;
  }

  datatype Outcome = Discarded | Kept | Done

  lemma SetOver<K, V>(m: map<K, V>, key: K, first: V, second: V)
    ensures m[key := first][key := second] == m[key := second]
    ensures m[key := first] - {key} == m - {key}
    ensures m[key := second] - {key} == m - {key}
  {
  }

  /** How a fragment joins its flow, in terms of the state that stands for it. */
  lemma JoinFacts(flows: map<FragmentKey, FragmentState>, t: Table, capacity: nat, key: FragmentKey, resolution: nat,
                  now: nat, f: Fragment)
    requires Stand(flows, t) && WellFormed(t, capacity) && (key !in t ==> |t| < capacity)
    requires 0 < resolution <= U32_MODULUS && !f.drop
    ensures BasePending(t, key, resolution, now, f)
    ensures var base := Base(t, key, resolution, now, f);
            var flow := base.(run := base.run + [f]);
            var state := StartState(flows, key, resolution, now, f);
            var fits := state.nextSn == Some(f.sn) && |state.payload| + |f.payload| <= FLOW_CAPACITY;
            && 0 < state.resolution <= U32_MODULUS
            && Stand(flows - {key}, t - {key}) && WellFormed(t - {key}, capacity)
            && Appended(state, f).payload == Concat(flow.run)
            && (fits && f.more ==> Stand(flows[key := Appended(state, f)], t[key := flow]))
            && (fits && f.more ==> WellFormed(t[key := flow], capacity))
            && Extend(t, key, base, f, false) == (t - {key}, None)
            && Extend(t, key, base, f, true) ==
               (if !fits then (t - {key}, None) else if f.more then (t[key := flow], None) else (t - {key}, Some(flow)))
  {
    hide Stand, WellFormed, StandsForBase, Stands, Pending, InSequence, Base, StartState, Concat;
    var base := Base(t, key, resolution, now, f);
    var state := StartState(flows, key, resolution, now, f);
    BaseIs(t, capacity, key, resolution, now, f);
    ConcatSnoc(base.run, f);
    RemoveKeeps(t, capacity, key);
    StandRemove(flows, t, key);
    StartStands(flows, t, key, resolution, now, f);
    BaseFacts(state, base, f);
    ExtendTable(t, capacity, key, base, f, true);
    if InSequence(base, f) && |Concat(base.run)| + |f.payload| <= FLOW_CAPACITY && f.more {
      AppendStands(state, base, f);
      StandSet(flows, t, key, Appended(state, f), base.(run := base.run + [f]));
    }
  }

  lemma JoinBegins(flows: map<FragmentKey, FragmentState>, t: Table, capacity: nat, key: FragmentKey, resolution: nat,
                   now: nat, f: Fragment)
    requires Stand(flows, t) && WellFormed(t, capacity) && (key !in t ==> |t| < capacity)
    requires 0 < resolution <= U32_MODULUS && !f.drop
    ensures BasePending(t, key, resolution, now, f)
    ensures 0 < StartState(flows, key, resolution, now, f).resolution <= U32_MODULUS
  {
    hide *;
    JoinFacts(flows, t, capacity, key, resolution, now, f);
  }

  lemma JoinOutcome(flows: map<FragmentKey, FragmentState>, t: Table, capacity: nat, key: FragmentKey, resolution: nat,
                    now: nat, f: Fragment, granted: bool, outcome: Outcome)
    requires Stand(flows, t) && WellFormed(t, capacity) && (key !in t ==> |t| < capacity)
    requires 0 < resolution <= U32_MODULUS && !f.drop
    requires var state := StartState(flows, key, resolution, now, f);
             && 0 < state.resolution <= U32_MODULUS
             && var fits := state.nextSn == Some(f.sn) && |state.payload| + |f.payload| <= FLOW_CAPACITY;
                outcome == if !fits || !granted then Discarded else if f.more then Kept else Done
    ensures var state := StartState(flows, key, resolution, now, f);
            var base := Base(t, key, resolution, now, f);
            && 0 < base.resolution <= U32_MODULUS
            && var (t', out) := Extend(t, key, base, f, granted);
               && Stand(if outcome.Kept? then flows[key := Appended(state, f)] else flows - {key}, t')
               && WellFormed(t', capacity)
               && (out.Some? <==> outcome.Done?)
               && (out.Some? ==> Concat(out.value.run) == Appended(state, f).payload)
  {
    hide Stand, WellFormed, StartState, Base, Concat, Extend, Appended;
    JoinFacts(flows, t, capacity, key, resolution, now, f);
    BaseIs(t, capacity, key, resolution, now, f);
  }

  class FragmentTable {
    var flows: map<FragmentKey, FragmentState>
    const capacity: nat
    const budget: MemoryBudget
    ghost const me: Owner
    ghost var table: Table

    /** The bytes stored are exactly the share of this processor. */
    ghost predicate Charged()
      reads this`flows, budget
    {
      budget.Valid() && budget.Share(me) == Sum(Lengths(flows))
    }

    ghost predicate Valid()
      reads this, budget
    {
      Charged() && Stand(flows, table) && WellFormed(table, capacity)
    }

    constructor (capacity: nat, budget: MemoryBudget, ghost me: Owner)
      requires budget.Valid() && budget.Share(me) == 0
      ensures Valid() && table == map[] && this.capacity == capacity && this.budget == budget && this.me == me
    {
      this.capacity, this.budget, this.me := capacity, budget, me;
      flows, table := map[], map[];
      new;
      assert Lengths(flows) == map[];
    }

    /** Take a state out and give its bytes back. */
    method RemoveState(key: FragmentKey)
      requires Charged()
      modifies this`flows, budget
      ensures Charged() && flows == old(flows) - {key}
    {
      LengthsRemove(flows, key);
      hide Lengths, Sum;
      if key in flows {
        var state := flows[key];
        flows := flows - {key};
        budget.Interfere(me);
        budget.Release(me, |state.payload|);
      }
    }

    /** The least recently seen flow. */
    method OldestFlow() returns (oldest: FragmentKey)
      requires Stand(flows, table) && |flows| > 0
      ensures IsOldest(table, oldest)
    {
      hide Stand, IsOldest;
      var remaining := flows.Keys;
      oldest :| oldest in remaining;
      remaining := remaining - {oldest};
      while remaining != {}
        invariant remaining <= flows.Keys && oldest in flows
        invariant forall k :: k in flows && k !in remaining ==> flows[oldest].lastSeen <= flows[k].lastSeen
        decreases |remaining|
      {
        var k :| k in remaining;
        if flows[k].lastSeen < flows[oldest].lastSeen {
          oldest := k;
        }
        remaining := remaining - {k};
      }
      OldestStands(flows, table, oldest);
    }

    /** Bring the state of the key to where this fragment is expected, releasing a restarted payload. */
    method Restart(key: FragmentKey, resolution: nat, now: nat, f: Fragment)
      requires Charged()
      modifies this`flows, budget
      ensures Charged() && flows == old(flows)[key := StartState(old(flows), key, resolution, now, f)]
    {
      LengthsSet(flows, key, StartState(flows, key, resolution, now, f));
      hide Lengths, Sum;
      var released := 0;
      var state := if key in flows then flows[key].(lastSeen := now) else FragmentState(None, resolution, [], now);
      if f.first {
        released := |state.payload|;
        state := FragmentState(Some(f.sn), resolution, [], now);
      } else if state.nextSn.None? {
        state := state.(nextSn := Some(f.sn));
      }
      flows := flows[key := state];
      budget.Interfere(me);
      budget.Release(me, released);
    }

    /** Reserve and append the payload, or discard the state; true when appended. */
    method Append(key: FragmentKey, f: Fragment) returns (appended: bool, granted: bool)
      requires Charged() && key in flows && 0 < flows[key].resolution <= U32_MODULUS
      modifies this`flows, budget
      ensures Charged()
      ensures appended <==> old(flows)[key].nextSn == Some(f.sn)
                            && |old(flows)[key].payload| + |f.payload| <= FLOW_CAPACITY && granted
      ensures flows == if appended then old(flows)[key := Appended(old(flows)[key], f)] else old(flows) - {key}
    {
      LengthsSet(flows, key, Appended(flows[key], f));
      hide Lengths, Sum;
      granted := true;
      var state := flows[key];
      if state.nextSn != Some(f.sn) {
        RemoveState(key);
        return false, granted;
      }
      var newLen := |state.payload| + |f.payload|;
      if newLen > FLOW_CAPACITY {
        RemoveState(key);
        return false, granted;
      }
      budget.Interfere(me);
      granted := budget.TryReserve(me, |f.payload|);
      if !granted {
        RemoveState(key);
        return false, granted;
      }
      var bufferGrown: bool := *;
      if !bufferGrown {
        budget.Interfere(me);
        budget.Release(me, |f.payload|);
        RemoveState(key);
        return false, false;
      }
      flows := flows[key := Appended(state, f)];
      appended := true;
    }

    /** A table without this key and full gives up its least recently seen flow. */
    method MakeRoom(key: FragmentKey) returns (ghost victim: FragmentKey)
      requires Valid() && capacity > 0
      modifies this, budget
      ensures Valid() && (key !in table ==> |table| < capacity)
      ensures |old(table)| >= capacity && key !in old(table) ==> IsOldest(old(table), victim)
      ensures table == Room(old(table), capacity, key, victim)
    {
      hide Lengths, Sum, Stand, WellFormed;
      victim := key;
      StandDomain(flows, table);
      if key !in flows && |flows| >= capacity {
        var oldest := OldestFlow();
        victim := oldest;
        StandRemove(flows, table, oldest);
        RoomKeeps(table, capacity, key, oldest);
        RemoveState(oldest);
        table := table - {oldest};
      }
    }

    /** The fragment joins the run of its key; a completed run is taken out and decoded. */
    method Join<M>(key: FragmentKey, resolution: nat, now: nat, f: Fragment, decode: seq<Byte> -> Option<M>)
      returns (message: Option<M>, ghost granted: bool, ghost run: Option<Flow>)
      requires Valid() && 0 < resolution <= U32_MODULUS && !f.drop && (key !in table ==> |table| < capacity)
      modifies this, budget
      ensures Valid()
      ensures BasePending(old(table), key, resolution, now, f)
      ensures (table, run) == Extend(old(table), key, Base(old(table), key, resolution, now, f), f, granted)
      ensures message == if run.Some? then decode(Concat(run.value.run)) else None
    {
      hide Lengths, Sum, Stand, WellFormed, Pending, InSequence, Base, StartState, Extend, Appended, Concat,
          BasePending, Charged;
      ghost var before, base := flows, Base(table, key, resolution, now, f);
      JoinBegins(flows, table, capacity, key, resolution, now, f);
      ghost var outcome;
      message, granted, outcome := JoinState(key, resolution, now, f, decode);
      JoinOutcome(before, table, capacity, key, resolution, now, f, granted, outcome);
      table, run := Extend(table, key, base, f, granted).0, Extend(table, key, base, f, granted).1;
    }

    /** The same for the state alone: the fragment is discarded with it, kept in it, or completes it. */
    method JoinState<M>(key: FragmentKey, resolution: nat, now: nat, f: Fragment, decode: seq<Byte> -> Option<M>)
      returns (message: Option<M>, ghost granted: bool, ghost outcome: Outcome)
      requires Charged() && 0 < StartState(flows, key, resolution, now, f).resolution <= U32_MODULUS
      modifies this`flows, budget
      ensures Charged()
      ensures var state := StartState(old(flows), key, resolution, now, f);
              var fits := state.nextSn == Some(f.sn) && |state.payload| + |f.payload| <= FLOW_CAPACITY;
              && outcome == (if !fits || !granted then Discarded else if f.more then Kept else Done)
              && flows == (if outcome.Kept? then old(flows)[key := Appended(state, f)] else old(flows) - {key})
              && message == if outcome.Done? then decode(Appended(state, f).payload) else None
    {
      hide Lengths, Sum, StartState, Charged, NextSn;
      ghost var state := StartState(flows, key, resolution, now, f);
      SetOver(flows, key, state, Appended(state, f));
      message, outcome := None, Discarded;
      Restart(key, resolution, now, f);
      var appended, given := Append(key, f);
      granted := given;
      if appended {
        outcome := if f.more then Kept else Done;
        if !f.more {
          message := Complete(key, decode);
        }
      }
    }

    /** Take the state out, decode its payload and give its bytes back. */
    method Complete<M>(key: FragmentKey, decode: seq<Byte> -> Option<M>) returns (message: Option<M>)
      requires Charged() && key in flows
      modifies this`flows, budget
      ensures Charged() && flows == old(flows) - {key}
      ensures message == decode(old(flows)[key].payload)
    {
      LengthsRemove(flows, key);
      hide Lengths, Sum;
      var complete := flows[key];
      flows := flows - {key};
      message := decode(complete.payload);
      budget.Interfere(me);
      budget.Release(me, |complete.payload|);
    }

    /** Remove the states of a set of keys, one after the other. */
    method RemoveEach(keys: set<FragmentKey>)
      requires Charged()
      modifies this`flows, budget
      ensures Charged() && flows == old(flows) - keys
    {
      ghost var removed := {};
      var remaining := keys;
      while remaining != {}
        invariant Charged() && removed + remaining == keys
        invariant flows == old(flows) - removed
        decreases |remaining|
      {
        hide Charged;
        var k :| k in remaining;
        RemoveState(k);
        SubtractTwice(old(flows), removed, {k});
        removed, remaining := removed + {k}, remaining - {k};
      }
    }

    /** Remove a set of flows. */
    method RemoveAll(keys: set<FragmentKey>)
      requires Valid()
      modifies this, budget
      ensures Valid() && table == old(table) - keys
    {
      hide Stand, WellFormed, Lengths, Sum;
      StandRemoveAll(flows, table, keys);
      RemoveAllKeeps(table, capacity, keys);
      RemoveEach(keys);
      table := table - keys;
    }

    /** Flows not seen for the timeout expire; a clock set back expires nothing. */
    method ExpireInactive(now: nat, timeout: nat) returns (expired: nat)
      requires Valid()
      modifies this, budget
      ensures Valid()
      ensures var stale := StaleKeys(old(table), now, timeout);
              table == old(table) - stale && expired == |stale|
    {
      StaleAgree(flows, table, now, timeout);
      hide Stand, WellFormed, Charged, StaleKeys;
      var keys := set k | k in flows && Stale(flows[k].lastSeen, now, timeout);
      RemoveAll(keys);
      expired := |keys|;
    }

    /** A closed flow loses all its pending messages. */
    method RemoveDirection(direction: Direction)
      requires Valid()
      modifies this, budget
      ensures Valid() && table == old(table) - DirectionKeys(old(table), direction)
    {
      DirectionAgree(flows, table, direction);
      hide Stand, WellFormed, Charged, DirectionKeys;
      var keys := set k | k in flows && k.direction == direction;
      RemoveAll(keys);
    }

    /** The sum over the table, whatever its order. */
    method ReservedBytes() returns (bytes: nat)
      ensures bytes == Sum(Lengths(flows))
    {
      hide Lengths, Sum;
      var remaining := flows;
      bytes := 0;
      while remaining != map[]
        invariant bytes + Sum(Lengths(remaining)) == Sum(Lengths(flows))
        decreases |remaining|
      {
        var k :| k in remaining;
        LengthsRemove(remaining, k);
        RemovedSize(remaining, k);
        bytes := bytes + |remaining[k].payload|;
        remaining := remaining - {k};
      }
      NoLengths();
    }

    /** Dropping the processor gives back everything it was charged. */
    method Drop()
      requires Valid()
      modifies this, budget
      ensures budget.Valid() && budget.Share(me) == 0
    {
      var bytes := ReservedBytes();
      hide Lengths, Sum;
      budget.Interfere(me);
      budget.Release(me, bytes);
      flows := map[];
    }

    /**
     One fragment. The table of runs is that of `Accept`, the decoder is given
     exactly the concatenation of a completed run, and the bytes stored stay the
     share of this processor, whatever the others do to the budget in between.
     */
    method AcceptFragment<M>(key: FragmentKey, resolution: nat, now: nat, f: Fragment, decode: seq<Byte> -> Option<M>)
      returns (message: Option<M>, ghost victim: FragmentKey, ghost granted: bool, ghost run: Option<Flow>)
      requires Valid() && 0 < resolution <= U32_MODULUS
      modifies this, budget
      ensures Valid()
      ensures !f.drop && |old(table)| >= capacity > 0 && key !in old(table) ==> IsOldest(old(table), victim)
      ensures (table, run) == Accept(old(table), capacity, key, resolution, now, f, victim, granted)
      ensures message == if run.Some? then decode(Concat(run.value.run)) else None
    {
      hide Lengths, Sum, Stand, Pending, Extend, Base, IsOldest, Room;
      message, victim, granted, run := None, key, true, None;
      StandDomain(flows, table);
      if f.drop {
        StandRemove(flows, table, key);
        RemoveKeeps(table, capacity, key);
        RemoveState(key);
        table := table - {key};
        return;
      }
      if key !in flows && capacity == 0 {
        return;
      }
      if key in flows {
        NoFlowsAtZero(table, capacity, key);
      }
      victim := MakeRoom(key);
      message, granted, run := Join(key, resolution, now, f, decode);
    }
  }
}

/**
 How many keys it takes to cost a pending message its flow: as many as the table has
 places, and no fewer.
 */
module ZenohCrowding {
  import opened Basics
  import opened FifoOrder
  import opened ZenohFragments

  const HEAD := Fragment(0, true, true, false, [7])
  const TAIL := Fragment(1, false, false, false, [7])
  const RESOLUTION: nat := U32_MODULUS

  function Arrives(key: FragmentKey, now: nat, f: Fragment, victim: FragmentKey): Event {
    Arrival(key, RESOLUTION, now, f, victim, true)
  }

  /** The head of a message, later the heads of others, and its tail; room is made at the cost of the oldest. */
  function Crowd(key: FragmentKey, others: seq<FragmentKey>): seq<Event>
    requires others != []
  {
    [Arrives(key, 0, HEAD, key)] + seq(|others|, i requires 0 <= i < |others| => Arrives(others[i], 1, HEAD, key))
    + [Arrives(key, 1, TAIL, others[0])]
  }

  lemma CrowdAt(key: FragmentKey, others: seq<FragmentKey>)
    requires others != []
    ensures var events := Crowd(key, others);
            && |events| == |others| + 2 && events[0] == Arrives(key, 0, HEAD, key)
            && (forall i :: 1 <= i <= |others| ==> events[i] == Arrives(others[i - 1], 1, HEAD, key))
            && events[|others| + 1] == Arrives(key, 1, TAIL, others[0])
  {
  }

  /** The pending head of a message. */
  function HeadFlow(now: nat): Flow {
    Flow(RESOLUTION, now, true, [HEAD])
  }

  function Heads(others: seq<FragmentKey>): Table {
    map k | k in others :: HeadFlow(1)
  }

  /** After the heads of the first n others: that of the message stands too while there is room for it. */
  function Crowded(key: FragmentKey, others: seq<FragmentKey>, n: nat): Table
    requires n <= |others|
  {
    if n < |others| then Heads(others[..n])[key := HeadFlow(0)] else Heads(others)
  }

  lemma HeadsNext(others: seq<FragmentKey>, n: nat)
    requires NoDuplicates(others) && n < |others|
    ensures Heads(others[..n + 1]) == Heads(others[..n])[others[n] := HeadFlow(1)]
    ensures |Heads(others[..n])| == n && others[n] !in Heads(others[..n])
    ensures others[..|others|] == others
  {
    assert others[..n + 1] == others[..n] + [others[n]];
    ListsSize(others[..n], Heads(others[..n]));
  }

  /** The message is the only one seen so early. */
  lemma CrowdedOldest(key: FragmentKey, others: seq<FragmentKey>, n: nat)
    requires NoDuplicates(others) && key !in others && n < |others|
    ensures var t := Crowded(key, others, n);
            |t| == n + 1 && others[n] !in t && key in t && t[key].lastSeen == 0 && IsOldest(t, key)
  {
    HeadsNext(others, n);
    var heads := Heads(others[..n]);
    assert heads[key := HeadFlow(0)].Keys == heads.Keys + {key};
    assert key !in heads && others[n] != key;
  }

  /** The next head takes a free place, or in the end that of the message. */
  lemma CrowdedStep(key: FragmentKey, others: seq<FragmentKey>, n: nat)
    requires NoDuplicates(others) && key !in others && n < |others|
    ensures Room(Crowded(key, others, n), |others|, others[n], key)[others[n] := HeadFlow(1)]
         == Crowded(key, others, n + 1)
  {
    CrowdedOldest(key, others, n);
    HeadsNext(others, n);
    hide IsOldest, NoDuplicates, Heads;
    var heads := Heads(others[..n]);
    assert others[n] != key;
    NotAmong(key, others, n);
    OrderOfSetting(heads, key, HeadFlow(0), others[n], HeadFlow(1));
  }

  lemma NotAmong(key: FragmentKey, others: seq<FragmentKey>, n: nat)
    requires key !in others && n <= |others|
    ensures key !in Heads(others[..n])
  {
  }

  lemma OrderOfSetting<K, V>(m: map<K, V>, a: K, x: V, b: K, y: V)
    requires a !in m && a != b
    ensures m[a := x][b := y] == m[b := y][a := x]
    ensures m[a := x] - {a} == m
  {
  }

  /** In the end all places are taken by others. */
  lemma CrowdedEnd(key: FragmentKey, others: seq<FragmentKey>)
    requires NoDuplicates(others) && key !in others && others != []
    ensures var t := Crowded(key, others, |others|);
            |t| == |others| && key !in t && IsOldest(t, others[0])
  {
    ListsSize(others, Heads(others));
  }

  lemma CrowdedFits(key: FragmentKey, others: seq<FragmentKey>, n: nat)
    requires NoDuplicates(others) && key !in others && n <= |others| && others != []
    ensures WellFormed(Crowded(key, others, n), |others|)
  {
    if n < |others| {
      CrowdedOldest(key, others, n);
    } else {
      CrowdedEnd(key, others);
    }
    HeadPending();
    hide Pending;
  }

  lemma HeadPending()
    ensures forall now :: Pending(HeadFlow(now))
  {
    assert Concat([HEAD]) == Concat([HEAD][..0]) + [7];
  }

  /** What a fragment does in a table without its key. */
  lemma FreshStep(t: Table, capacity: nat, key: FragmentKey, now: nat, victim: FragmentKey)
    requires WellFormed(t, capacity) && capacity > 0 && key !in t
    ensures var room := Room(t, capacity, key, victim);
            && Accept(t, capacity, key, RESOLUTION, now, HEAD, victim, true) == (room[key := HeadFlow(now)], None)
            && Accept(t, capacity, key, RESOLUTION, now, TAIL, victim, true) ==
               (room - {key}, Some(Flow(RESOLUTION, now, true, [TAIL])))
  {
    assert Concat([]) == [];
    assert [] + [HEAD] == [HEAD] && [] + [TAIL] == [TAIL];
    hide WellFormed, Concat;
  }

  function CrowdTables(key: FragmentKey, others: seq<FragmentKey>): seq<Table>
    requires others != []
  {
    [map[]] + seq(|others| + 1, n requires 0 <= n <= |others| => Crowded(key, others, n))
    + [Heads(others) - {others[0]} - {key}]
  }

  /** Nothing is handed on but, in the end, a message of the tail alone. */
  function CrowdOuts(others: seq<FragmentKey>): seq<Option<Flow>> {
    seq(|others| + 1, _ => None) + [Some(Flow(RESOLUTION, 1, true, [TAIL]))]
  }

  lemma CrowdRunAt(key: FragmentKey, others: seq<FragmentKey>)
    requires others != []
    ensures var tables, outs := CrowdTables(key, others), CrowdOuts(others);
            && |tables| == |others| + 3 && |outs| == |others| + 2 && tables[0] == map[]
            && (forall i :: 1 <= i <= |others| + 1 ==> tables[i] == Crowded(key, others, i - 1) && outs[i - 1] == None)
            && tables[|others| + 2] == Heads(others) - {others[0]} - {key}
            && outs[|others| + 1] == Some(Flow(RESOLUTION, 1, true, [TAIL]))
  {
  }

  ghost predicate StepOk(capacity: nat, t: Table, e: Event, t': Table, out: Option<Flow>) {
    WellFormed(t, capacity) && Possible(t, capacity, e) && Apply(t, capacity, e) == (t', out)
  }

  lemma FirstHead(key: FragmentKey, others: seq<FragmentKey>)
    requires others != []
    ensures StepOk(|others|, map[], Arrives(key, 0, HEAD, key), Crowded(key, others, 0), None)
  {
    FreshStep(map[], |others|, key, 0, key);
    EmptyRoom(key, others);
    hide Accept, Crowded, Room;
  }

  lemma NextHead(key: FragmentKey, others: seq<FragmentKey>, n: nat)
    requires NoDuplicates(others) && key !in others && n < |others|
    ensures StepOk(|others|, Crowded(key, others, n), Arrives(others[n], 1, HEAD, key),
                   Crowded(key, others, n + 1), None)
  {
    CrowdedFits(key, others, n);
    CrowdedOldest(key, others, n);
    CrowdedStep(key, others, n);
    FreshStep(Crowded(key, others, n), |others|, others[n], 1, key);
    hide Accept, Crowded, Room, WellFormed, IsOldest;
  }

  lemma LastTail(key: FragmentKey, others: seq<FragmentKey>)
    requires NoDuplicates(others) && key !in others && others != []
    ensures StepOk(|others|, Crowded(key, others, |others|), Arrives(key, 1, TAIL, others[0]),
                   Heads(others) - {others[0]} - {key}, Some(Flow(RESOLUTION, 1, true, [TAIL])))
  {
    CrowdedFits(key, others, |others|);
    CrowdedEnd(key, others);
    FreshStep(Crowded(key, others, |others|), |others|, key, 1, others[0]);
    EndRoom(key, others);
    hide Accept, Crowded, Room, WellFormed, IsOldest;
  }

  lemma CrowdStepAt(key: FragmentKey, others: seq<FragmentKey>, i: nat)
    requires NoDuplicates(others) && key !in others && i < |others| + 2
    requires others != []
    ensures var events, tables, outs := Crowd(key, others), CrowdTables(key, others), CrowdOuts(others);
            && |events| == |outs| == |others| + 2 && |tables| == |others| + 3
            && StepOk(|others|, tables[i], events[i], tables[i + 1], outs[i])
  {
    hide *;
    CrowdAt(key, others);
    CrowdRunAt(key, others);
    if i == 0 {
      FirstHead(key, others);
    } else if i <= |others| {
      NextHead(key, others, i - 1);
    } else {
      LastTail(key, others);
    }
  }

  lemma StepsOk(capacity: nat, events: seq<Event>, tables: seq<Table>, outs: seq<Option<Flow>>)
    requires |tables| == |events| + 1 && |outs| == |events| && events != []
    requires forall i :: 0 <= i < |events| ==> StepOk(capacity, tables[i], events[i], tables[i + 1], outs[i])
    ensures Steps(capacity, events, tables, outs)
  {
    hide WellFormed, Possible, Apply;
    forall i | 0 <= i < |events|
      ensures WellFormed(tables[i], capacity) && Possible(tables[i], capacity, events[i])
      ensures Apply(tables[i], capacity, events[i]) == (tables[i + 1], outs[i])
    {
      assert StepOk(capacity, tables[i], events[i], tables[i + 1], outs[i]);
    }
  }

  lemma CrowdTrace(key: FragmentKey, others: seq<FragmentKey>)
    requires NoDuplicates(others) && key !in others && others != []
    ensures Trace(|others|, Crowd(key, others), CrowdTables(key, others), CrowdOuts(others))
  {
    var events, tables, outs := Crowd(key, others), CrowdTables(key, others), CrowdOuts(others);
    CrowdRunAt(key, others);
    hide Crowd, CrowdTables, CrowdOuts, StepOk, Steps;
    forall i | 0 <= i < |others| + 2 ensures StepOk(|others|, tables[i], events[i], tables[i + 1], outs[i]) {
      CrowdStepAt(key, others, i);
    }
    CrowdStepAt(key, others, 0);
    StepsOk(|others|, events, tables, outs);
  }

  lemma EmptyRoom(key: FragmentKey, others: seq<FragmentKey>)
    requires others != []
    ensures Room(map[], |others|, key, key)[key := HeadFlow(0)] == Crowded(key, others, 0)
  {
  }

  lemma EndRoom(key: FragmentKey, others: seq<FragmentKey>)
    requires NoDuplicates(others) && key !in others && others != []
    ensures Room(Crowded(key, others, |others|), |others|, key, others[0]) == Heads(others) - {others[0]}
  {
    CrowdedEnd(key, others);
  }

  /** The rivals in the crowd are the others. */
  lemma CrowdRivals(key: FragmentKey, others: seq<FragmentKey>)
    requires NoDuplicates(others) && key !in others && others != []
    ensures |Rivals(Crowd(key, others), map[], key)| == |others|
  {
    var events := Crowd(key, others);
    CrowdAt(key, others);
    hide Crowd;
    assert Newcomers(events, key) == set k | k in others by {
      forall k | k in others ensures k in Newcomers(events, key) {
        var n :| 0 <= n < |others| && others[n] == k;
        assert events[n + 1].key == k;
      }
    }
    ListsSize(others, Heads(others));
    assert Heads(others).Keys == set k | k in others;
    assert Rivals(events, map[], key) == Newcomers(events, key);
  }

  /** The head and the tail are all that arrives of the message, and nothing else disturbs it. */
  lemma CrowdMessage(key: FragmentKey, others: seq<FragmentKey>)
    requires key !in others && others != []
    ensures var events := Crowd(key, others);
            && Message([HEAD, TAIL], RESOLUTION) && History(events, key) == [HEAD, TAIL]
            && Undisturbed(events, key, RESOLUTION)
  {
    var events := Crowd(key, others);
    CrowdAt(key, others);
    hide Crowd, History, Concat, LastSeen;
    TailConcat();
    CrowdHistory(key, others, |others| + 1);
    assert events == events[..|others| + 1] + [events[|others| + 1]];
    HistorySnoc(events[..|others| + 1], events[|others| + 1], key);
  }

  lemma TailConcat()
    ensures |Concat([HEAD, TAIL])| == 2
  {
    assert Concat([HEAD, TAIL]) == Concat([HEAD, TAIL][..1]) + [7];
    assert [HEAD, TAIL][..1] == [HEAD];
    assert Concat([HEAD]) == Concat([HEAD][..0]) + [7];
  }

  /** Until the tail, only the head has arrived. */
  lemma {:induction false} CrowdHistory(key: FragmentKey, others: seq<FragmentKey>, n: nat)
    requires others != [] && key !in others && 0 < n <= |others| + 1
    ensures History(Crowd(key, others)[..n], key) == [HEAD]
    decreases n
  {
    var events, m := Crowd(key, others), n - 1;
    CrowdAt(key, others);
    hide Crowd;
    assert events[..n] == events[..m] + [events[m]];
    HistorySnoc(events[..m], events[m], key);
    if m > 0 {
      CrowdHistory(key, others, m);
      assert events[m] == Arrives(others[m - 1], 1, HEAD, key);
    }
  }

  /**
   Fewer rivals than places is the most that can be allowed: for every number of
   places there is a run in which as many other keys arrive after the head of a
   message, which is then the least recently seen flow and goes. Its tail comes to a
   fresh state, so the decoder is handed the tail alone.
   */
  lemma CrowdedOut(key: FragmentKey, others: seq<FragmentKey>)
    requires NoDuplicates(others) && key !in others && others != []
    ensures var events := Crowd(key, others);
            && Trace(|others|, events, CrowdTables(key, others), CrowdOuts(others))
            && Message([HEAD, TAIL], RESOLUTION) && History(events, key) == [HEAD, TAIL]
            && Undisturbed(events, key, RESOLUTION) && |Rivals(events, map[], key)| == |others|
            && CrowdOuts(others)[|events| - 1].Some? && CrowdOuts(others)[|events| - 1].value.run == [TAIL]
  {
    CrowdAt(key, others);
    CrowdRunAt(key, others);
    CrowdTrace(key, others);
    CrowdMessage(key, others);
    hide *;
    CrowdRivals(key, others);
  }
}
