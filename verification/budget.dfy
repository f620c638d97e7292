/** Sums of the values of a finite map. */
module MapSums {

  ghost function Sum<K>(m: map<K, nat>): nat
    decreases |m|
  {
    if m == map[] then 0
    else
      var k :| k in m;
      m[k] + Sum(m - {k})
  }

  /** The sum does not depend on the order in which keys are taken. */
  lemma {:induction false} SumRemove<K>(m: map<K, nat>, k: K)
    requires k in m
    ensures Sum(m) == m[k] + Sum(m - {k})
    decreases |m|
  {
    var first :| first in m && Sum(m) == m[first] + Sum(m - {first});
    if first != k {
      SumRemove(m - {first}, k);
      SumRemove(m - {k}, first);
      assert m - {first} - {k} == m - {k} - {first};
    }
  }

  lemma SumSet<K>(m: map<K, nat>, k: K, v: nat)
    ensures Sum(m[k := v]) == Sum(m) - (if k in m then m[k] else 0) + v
  {
    SumRemove(m[k := v], k);
    if k in m {
      SumRemove(m, k);
      assert m[k := v] - {k} == m - {k};
    } else {
      assert m[k := v] - {k} == m;
    }
  }

  lemma {:induction false} SumAtLeast<K>(m: map<K, nat>, k: K)
    requires k in m
    ensures m[k] <= Sum(m)
  {
    SumRemove(m, k);
  }
}

/**
 The memory budget shared by concurrent processors, as one object. Every
 processor has a share: the bytes it holds in flow buffers or has reserved and
 not yet stored. Between two atomic operations of one processor, the others may
 change their own shares in any way the budget allows (`Interfere`).
 */
module SharedBudget {
  import opened MapSums

  type Owner = nat

  class MemoryBudget {
    const capacity: nat
    var used: nat
    ghost var shares: map<Owner, nat>

    ghost predicate Valid()
      reads this
    {
      used == Sum(shares) && used <= capacity
    }

    ghost function Share(me: Owner): nat
      reads this
    {
      if me in shares then shares[me] else 0
    }

    constructor (capacity: nat)
      ensures Valid() && this.capacity == capacity && used == 0
      ensures forall me :: Share(me) == 0
    {
      this.capacity := capacity;
      used, shares := 0, map[];
    }

    /** fetch_update: all of the bytes or none, never beyond the capacity. */
    method TryReserve(ghost me: Owner, bytes: nat) returns (reserved: bool)
      requires Valid()
      modifies this
      ensures Valid()
      ensures reserved <==> old(used) + bytes <= capacity
      ensures used == old(used) + if reserved then bytes else 0
      ensures Share(me) == old(Share(me)) + if reserved then bytes else 0
      ensures forall other :: other != me ==> Share(other) == old(Share(other))
    {
      if used + bytes <= capacity {
        used := used + bytes;
        SumSet(shares, me, Share(me) + bytes);
        shares := shares[me := Share(me) + bytes];
        return true;
      }
      return false;
    }

    /** fetch_sub: whoever returns no more than its share cannot make the counter underflow. */
    method Release(ghost me: Owner, bytes: nat)
      requires Valid() && bytes <= Share(me)
      modifies this
      ensures Valid() && bytes <= old(used)
      ensures used == old(used) - bytes
      ensures Share(me) == old(Share(me)) - bytes
      ensures forall other :: other != me ==> Share(other) == old(Share(other))
    {
      if bytes == 0 {
        return;
      }
      SumAtLeast(shares, me);
      SumSet(shares, me, shares[me] - bytes);
      used := used - bytes;
      shares := shares[me := shares[me] - bytes];
    }

    /**
     Any atomic operations of the other processors. Callers rely on the contract
     alone: their own share stands, and nothing else is known afterwards.
     */
    method Interfere(ghost me: Owner)
      requires Valid()
      modifies this
      ensures Valid() && Share(me) == old(Share(me))
    {
      ghost var other: Owner := if me == 0 then 1 else 0;
      var bytes: nat := *;
      var _ := TryReserve(other, bytes);
    }
  }
}

/**
 All processors at once, as interleaved atomic steps on one counter. A worker is
 between packets (Ready) or inside one; the control states follow the order in
 which the code touches the flow table and the counter.
 */
module BudgetProtocol {
  import opened MapSums

  /** Flow keys are only compared with each other. */
  type Key = nat

  datatype After = ThenReady | ThenReserve(key: Key, bytes: nat) | ThenDiscard(key: Key) | ThenDropped

  datatype Control =
    | Ready
    | Reserve(key: Key, bytes: nat)             // about to call try_reserve
    | Holding(key: Key, bytes: nat)             // reserved, buffer not yet grown
    | Release(bytes: nat, after: After)         // out of the table, about to call release
    | Discard(key: Key)                         // about to remove a flow
    | Dropped                                   // the processor no longer exists

  /** A flow is charged its sample size (RTPS) or its payload length (Zenoh). */
  datatype Worker = Worker(flows: map<Key, nat>, at: Control)

  /** The counter is an integer here, so that an underflow would show. */
  datatype System = System(capacity: nat, used: int, workers: seq<Worker>)

  function Resume(after: After): Control {
    match after
    case ThenReady => Ready
    case ThenReserve(key, bytes) => Reserve(key, bytes)
    case ThenDiscard(key) => Discard(key)
    case ThenDropped => Dropped
  }

  function Without(w: Worker, key: Key, after: After): Worker
    requires key in w.flows
  {
    Worker(w.flows - {key}, Release(w.flows[key], after))
  }

  /** The counter operations both budgets have: the only steps that touch `used`. */
  ghost predicate CounterStep(capacity: nat, used: int, w: Worker, used': int, w': Worker) {
    match w.at
    case Reserve(key, bytes) =>
      used + bytes <= capacity && used' == used + bytes && w' == w.(at := Holding(key, bytes))
    case Release(bytes, after) =>
      used' == used - bytes && w' == w.(at := Resume(after))
    case _ => false
  }

  /** Dropping a processor releases the sum over its table. */
  ghost predicate DropStep(w: Worker, w': Worker) {
    w.at.Ready? && w' == Worker(map[], Release(Sum(w.flows), ThenDropped))
  }

  /** accept_data_frag and remove_flow of the RTPS processor, without the counter operations. */
  ghost predicate RtpsStep(capacity: nat, used: int, w: Worker, w': Worker) {
    match w.at
    case Ready =>
      // sampleSize mismatch, refused range or completed sample
      || (exists key :: key in w.flows && w' == Without(w, key, ThenReady))
      // a new flow, with or without evicting the oldest one first
      || (exists key, bytes :: key !in w.flows && w' == w.(at := Reserve(key, bytes)))
      || (exists key, bytes, oldest :: key !in w.flows && oldest in w.flows
                                       && w' == Without(w, oldest, ThenReserve(key, bytes)))
    case Reserve(key, bytes) =>
      used + bytes > capacity && w' == w.(at := Ready)
    case Holding(key, bytes) =>
      // the allocation fails, or the flow enters the table
      || w' == w.(at := Release(bytes, ThenReady))
      || (key !in w.flows && w' == Worker(w.flows[key := bytes], Ready))
    case _ => false
  }

  /** accept_fragment, expiry and flow removal of the Zenoh processor. */
  ghost predicate ZenohStep(capacity: nat, used: int, w: Worker, w': Worker) {
    match w.at
    case Ready =>
      // drop flag, expiry, closed flow, gap in the sequence, oversized or completed payload
      || (exists key :: key in w.flows && w' == Without(w, key, ThenReady))
      // evict the least recently seen flow, then go on
      || (exists key, bytes, oldest :: oldest in w.flows && key != oldest
            && w' == Worker(w.flows - {oldest}, Release(w.flows[oldest], ThenReserve(key, bytes))))
      // `first`: restart with an empty payload, then go on
      || (exists key, bytes :: key in w.flows
            && w' == Worker(w.flows[key := 0], Release(w.flows[key], ThenReserve(key, bytes))))
      // the next fragment of a flow or a fresh flow
      || (exists key, bytes :: w' == w.(at := Reserve(key, bytes)))
    case Reserve(key, bytes) =>
      used + bytes > capacity && w' == w.(at := Discard(key))
    case Holding(key, bytes) =>
      || w' == w.(at := Release(bytes, ThenDiscard(key)))
      || w' == Worker(w.flows[key := bytes + if key in w.flows then w.flows[key] else 0], Ready)
    case Discard(key) =>
      if key in w.flows then w' == Without(w, key, ThenReady) else w' == w.(at := Ready)
    case _ => false
  }

  ghost predicate WorkerStep(capacity: nat, used: int, w: Worker, used': int, w': Worker) {
    || CounterStep(capacity, used, w, used', w')
    || (used' == used && (DropStep(w, w') || RtpsStep(capacity, used, w, w') || ZenohStep(capacity, used, w, w')))
  }

  /** Any one worker takes one step. */
  ghost predicate Step(s: System, s': System) {
    && s'.capacity == s.capacity
    && |s'.workers| == |s.workers|
    && exists i :: 0 <= i < |s.workers|
         && s'.workers == s.workers[i := s'.workers[i]]
         && WorkerStep(s.capacity, s.used, s.workers[i], s'.used, s'.workers[i])
  }

  ghost predicate Init(s: System) {
    s.used == 0 && forall i :: 0 <= i < |s.workers| ==> s.workers[i] == Worker(map[], Ready)
  }

  ghost predicate Run(run: seq<System>) {
    && |run| > 0
    && Init(run[0])
    && (forall t :: 0 < t < |run| ==> Step(run[t - 1], run[t]))
  }

  // ---------- Conservation ----------

  /** Bytes of a worker that are reserved but in no flow. */
  function InFlight(at: Control): nat {
    match at
    case Holding(_, bytes) => bytes
    case Release(bytes, _) => bytes
    case _ => 0
  }

  ghost function WorkerBytes(w: Worker): nat {
    Sum(w.flows) + InFlight(w.at)
  }

  ghost function TotalBytes(ws: seq<Worker>): nat {
    if ws == [] then 0 else WorkerBytes(ws[0]) + TotalBytes(ws[1..])
  }

  lemma {:induction false} TotalUpdate(ws: seq<Worker>, i: nat, w: Worker)
    requires i < |ws|
    ensures TotalBytes(ws[i := w]) == TotalBytes(ws) - WorkerBytes(ws[i]) + WorkerBytes(w)
    ensures WorkerBytes(ws[i]) <= TotalBytes(ws)
  {
    if i == 0 {
      assert ws[i := w][1..] == ws[1..];
    } else {
      assert ws[i := w][1..] == ws[1..][i - 1 := w];
      TotalUpdate(ws[1..], i - 1, w);
    }
  }

  /** Leaving the table for the release queue moves a flow's bytes, it does not lose them. */
  lemma WithoutConserves(w: Worker, key: Key, after: After)
    requires key in w.flows
    ensures WorkerBytes(Without(w, key, after)) == Sum(w.flows)
  {
    SumRemove(w.flows, key);
  }

  lemma RtpsConserves(capacity: nat, used: int, w: Worker, w': Worker)
    requires RtpsStep(capacity, used, w, w')
    ensures WorkerBytes(w') == WorkerBytes(w)
  {
    hide Sum;
    forall key, after | key in w.flows {
      WithoutConserves(w, key, after);
    }
    if w.at.Holding? {
      SumSet(w.flows, w.at.key, w.at.bytes);
    }
  }

  lemma ZenohConserves(capacity: nat, used: int, w: Worker, w': Worker)
    requires ZenohStep(capacity, used, w, w')
    ensures WorkerBytes(w') == WorkerBytes(w)
  {
    hide Sum;
    forall key, after | key in w.flows {
      WithoutConserves(w, key, after);
    }
    if w.at.Ready? {
      forall key | key in w.flows {
        SumSet(w.flows, key, 0);
      }
    } else if w.at.Holding? {
      SumSet(w.flows, w.at.key, w.at.bytes + if w.at.key in w.flows then w.flows[w.at.key] else 0);
    }
  }

  /** Every step of one worker changes the counter by exactly what its own bytes change by. */
  lemma WorkerConserves(capacity: nat, used: int, w: Worker, used': int, w': Worker)
    requires WorkerStep(capacity, used, w, used', w')
    ensures used' - used == WorkerBytes(w') - WorkerBytes(w)
    ensures used <= capacity ==> used' <= capacity
  {
    hide RtpsStep, ZenohStep;
    if RtpsStep(capacity, used, w, w') {
      RtpsConserves(capacity, used, w, w');
    } else if ZenohStep(capacity, used, w, w') {
      ZenohConserves(capacity, used, w, w');
    }
  }

  ghost predicate Conserved(s: System) {
    0 <= s.used == TotalBytes(s.workers) <= s.capacity
  }

  lemma StepConserves(s: System, s': System)
    requires Conserved(s) && Step(s, s')
    ensures Conserved(s')
  {
    hide WorkerStep, WorkerBytes;
    var i :| 0 <= i < |s.workers|
             && s'.workers == s.workers[i := s'.workers[i]]
             && WorkerStep(s.capacity, s.used, s.workers[i], s'.used, s'.workers[i]);
    WorkerConserves(s.capacity, s.used, s.workers[i], s'.used, s'.workers[i]);
    TotalUpdate(s.workers, i, s'.workers[i]);
  }

  lemma {:induction false} InitConserves(ws: seq<Worker>)
    requires forall i :: 0 <= i < |ws| ==> ws[i] == Worker(map[], Ready)
    ensures TotalBytes(ws) == 0
  {
    if ws != [] {
      InitConserves(ws[1..]);
    }
  }

  /**
   In every state of every interleaving the counter is the sum over all processors
   of the bytes in their flows and in flight. It never exceeds the capacity and
   never drops below zero, so no release returns more than is reserved.
   */
  lemma {:induction false} RunConserves(run: seq<System>, t: nat)
    requires Run(run) && t < |run|
    ensures Conserved(run[t])
  {
    hide Step;
    if t == 0 {
      InitConserves(run[0].workers);
    } else {
      RunConserves(run, t - 1);
      StepConserves(run[t - 1], run[t]);
    }
  }

  // ---------- Nothing leaks ----------

  /** Once its table has been given up, a processor keeps it empty. */
  ghost predicate GoneIsEmpty(w: Worker) {
    w.at.Dropped? || (w.at.Release? && w.at.after.ThenDropped?) ==> w.flows == map[]
  }

  lemma StepKeepsGone(s: System, s': System)
    requires Step(s, s')
    requires forall i :: 0 <= i < |s.workers| ==> GoneIsEmpty(s.workers[i])
    ensures forall i :: 0 <= i < |s'.workers| ==> GoneIsEmpty(s'.workers[i])
  {
    var i :| 0 <= i < |s.workers|
             && s'.workers == s.workers[i := s'.workers[i]]
             && WorkerStep(s.capacity, s.used, s.workers[i], s'.used, s'.workers[i]);
    assert GoneIsEmpty(s.workers[i]);
  }

  lemma {:induction false} RunKeepsGone(run: seq<System>, t: nat)
    requires Run(run) && t < |run|
    ensures forall i :: 0 <= i < |run[t].workers| ==> GoneIsEmpty(run[t].workers[i])
  {
    hide Step;
    if t > 0 {
      RunKeepsGone(run, t - 1);
      StepKeepsGone(run[t - 1], run[t]);
    }
  }

  ghost predicate AllDropped(ws: seq<Worker>) {
    forall i :: 0 <= i < |ws| ==> ws[i].at.Dropped?
  }

  lemma {:induction false} NothingHeld(ws: seq<Worker>)
    requires AllDropped(ws) && forall i :: 0 <= i < |ws| ==> GoneIsEmpty(ws[i])
    ensures TotalBytes(ws) == 0
  {
    if ws != [] {
      NothingHeld(ws[1..]);
    }
  }

  /** Once all processors are dropped, the whole budget is free again. */
  lemma DropReturnsEverything(run: seq<System>, t: nat)
    requires Run(run) && t < |run| && AllDropped(run[t].workers)
    ensures run[t].used == 0
  {
    RunKeepsGone(run, t);
    NothingHeld(run[t].workers);
    RunConserves(run, t);
  }
}
