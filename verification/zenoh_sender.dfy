/**
 Zenoh fragments as a sender numbers and cuts them, and when pending messages are
 given up, in terms of what has arrived.
 */
module ZenohSender {
  import opened Basics
  import opened ZenohFlows
  import opened ZenohFragments

  // ---------- Numbering ----------

  /**
   The fragments of a message: consecutive numbers modulo the resolution, pieces of
   the message in order, more to come for all but the last, at most the first marked.
   */
  ghost predicate Fragmented(message: seq<Byte>, run: seq<Fragment>, cuts: seq<nat>, first: nat, resolution: nat) {
    && run != [] && first < resolution <= 0x1_0000_0000
    && (forall i :: 0 <= i < |run| ==> run[i].sn == (first + i) % resolution)
    && (forall i :: 0 <= i < |run| ==> !run[i].drop && (run[i].more <==> i < |run| - 1) && (run[i].first ==> i == 0))
    && CutAt(message, run, cuts)
  }

  /** Each payload is the piece of the message between two cuts. */
  ghost predicate CutAt(message: seq<Byte>, run: seq<Fragment>, cuts: seq<nat>) {
    && |cuts| == |run| + 1 && cuts[0] == 0 && cuts[|run|] == |message|
    && (forall i, j :: 0 <= i <= j < |cuts| ==> cuts[i] <= cuts[j])
    && (forall i :: 0 <= i < |run| ==> run[i].payload == message[cuts[i]..cuts[i + 1]])
  }

  lemma LargeMultiple(k: int, d: nat)
    ensures k >= 1 ==> k * d >= d
    ensures k <= -1 ==> k * d + d <= 0
  {
    if k >= 1 {
      assert k * d == (k - 1) * d + d && (k - 1) * d >= 0;
    } else if k <= -1 {
      assert k * d == (k + 1) * d - d && (k + 1) * d <= 0;
    }
  }

  lemma Remainder(q: nat, r: nat, d: nat)
    requires r < d
    ensures (q * d + r) % d == r
  {
    var x := q * d + r;
    assert x == x / d * d + x % d;
    var k := x / d - q;
    assert k * d == x / d * d - q * d;
    LargeMultiple(k, d);
  }

  /** Counting on modulo d. */
  lemma CountOn(n: nat, d: nat)
    requires d > 0
    ensures (n + 1) % d == if n % d + 1 == d then 0 else n % d + 1
  {
    var q, m := n / d, n % d;
    assert n == q * d + m;
    if m + 1 == d {
      assert (q + 1) * d == q * d + d;
      Remainder(q + 1, 0, d);
    } else {
      Remainder(q, m + 1, d);
    }
  }

  lemma NextNumber(n: nat, resolution: nat)
    requires 0 < resolution <= 0x1_0000_0000
    ensures n % resolution < 0x1_0000_0000
    ensures NextSn(n % resolution, resolution) == (n + 1) % resolution
  {
    var m := n % resolution;
    CountOn(n, resolution);
    hide NextSn;
    NextIs(m, resolution);
  }

  lemma NextIs(m: nat, resolution: nat)
    requires m < resolution <= 0x1_0000_0000
    ensures NextSn(m, resolution) == if m + 1 == resolution then 0 else m + 1
  {
  }

  lemma {:induction false} PrefixConcat(message: seq<Byte>, run: seq<Fragment>, cuts: seq<nat>, n: nat)
    requires CutAt(message, run, cuts) && n <= |run|
    ensures cuts[n] <= |message| && Concat(run[..n]) == message[..cuts[n]]
    decreases n
  {
    if n > 0 {
      PrefixConcat(message, run, cuts, n - 1);
      assert run[..n] == run[..n - 1] + [run[n - 1]];
      ConcatSnoc(run[..n - 1], run[n - 1]);
      assert cuts[n - 1] <= cuts[n] <= cuts[|run|];
      assert message[..cuts[n - 1]] + message[cuts[n - 1]..cuts[n]] == message[..cuts[n]];
    }
  }

  /** What a sender makes of a message is a message to the reassembler, and its payload. */
  lemma FragmentedIsMessage(message: seq<Byte>, run: seq<Fragment>, cuts: seq<nat>, first: nat, resolution: nat)
    requires Fragmented(message, run, cuts, first, resolution) && |message| <= 128 * 1024 * 1024
    ensures Message(run, resolution) && Concat(run) == message
  {
    PrefixConcat(message, run, cuts, |run|);
    assert run[..|run|] == run && message[..|message|] == message;
    hide Concat, CutAt;
    forall i | 0 < i < |run| ensures run[i].sn == NextSn(run[i - 1].sn, resolution) {
      NextNumber(first + i - 1, resolution);
    }
  }

  /**
   The fragments of a message, arriving in order, the first one marked or on fresh
   state, whatever arrives for other keys in between: the last one makes a run
   complete whose payload, which is what the decoder is given, is the message.
   */
  lemma MessageArrives(
    capacity: nat, events: seq<Event>, tables: seq<ZenohFragments.Table>, outs: seq<Option<ZenohFragments.Flow>>,
    key: FragmentKey, message: seq<Byte>, cuts: seq<nat>, first: nat, resolution: nat)
    requires Steps(capacity, events, tables, outs)
    requires Fragmented(message, History(events, key), cuts, first, resolution) && |message| <= 128 * 1024 * 1024
    requires Undisturbed(events, key, resolution)
    requires events != [] && events[|events| - 1].Arrival? && events[|events| - 1].key == key
    requires |tables| > 0 && (History(events, key)[0].first || key !in tables[0])
    requires |Rivals(events, tables[0], key)| < capacity
    ensures |outs| == |events|
    ensures outs[|events| - 1].Some? && Concat(outs[|events| - 1].value.run) == message
    ensures forall i :: 0 <= i < |events| - 1 && events[i].Arrival? && events[i].key == key ==> outs[i] == None
  {
    hide Steps, Message, Undisturbed, Rivals, History, Concat, Fragmented;
    var run := History(events, key);
    FragmentedIsMessage(message, run, cuts, first, resolution);
    NotNothing(message, run, cuts, first, resolution);
    MessageDelivered(capacity, events, tables, outs, key, resolution, run);
  }

  lemma NotNothing(message: seq<Byte>, run: seq<Fragment>, cuts: seq<nat>, first: nat, resolution: nat)
    requires Fragmented(message, run, cuts, first, resolution)
    ensures run != []
  {
  }

  /** The other way round: what reaches the decoder is numbered as a sender numbers. */
  lemma {:induction false} RunNumbered(run: seq<Fragment>, resolution: nat, i: nat)
    requires Consecutive(run, resolution) && i < |run| && run[0].sn < resolution
    ensures run[i].sn == (run[0].sn + i) % resolution
    decreases i
  {
    hide Consecutive;
    if i > 0 {
      RunNumbered(run, resolution, i - 1);
      NumberedNext(run, resolution, i);
      NextNumber(run[0].sn + i - 1, resolution);
    } else {
      Remainder(0, run[0].sn, resolution);
    }
  }

  lemma NumberedNext(run: seq<Fragment>, resolution: nat, i: nat)
    requires Consecutive(run, resolution) && 0 < i < |run|
    ensures 0 < resolution <= 0x1_0000_0000 && run[i].sn == NextSn(run[i - 1].sn, resolution)
  {
  }

  // ---------- When pending messages are given up ----------

  /** A pending flow was last seen when the last fragment of its key arrived. */
  ghost predicate SeenWhenArrived(t: ZenohFragments.Table, events: seq<Event>) {
    forall k :: k in t ==> History(events, k) != [] && t[k].lastSeen == LastSeen(events, k)
  }

  lemma ApplySeen(t: ZenohFragments.Table, capacity: nat, e: Event, k: FragmentKey)
    requires WellFormed(t, capacity) && Possible(t, capacity, e) && k in Apply(t, capacity, e).0
    requires e.Arrival? && e.key == k
    ensures Apply(t, capacity, e).0[k].lastSeen == e.now
  {
    hide InSequence, Concat, Pending;
  }

  lemma StepSeen(t: ZenohFragments.Table, capacity: nat, events: seq<Event>, e: Event)
    requires WellFormed(t, capacity) && Possible(t, capacity, e) && SeenWhenArrived(t, events)
    ensures SeenWhenArrived(Apply(t, capacity, e).0, events + [e])
  {
    hide WellFormed, Possible, Apply, History, LastSeen;
    var t' := Apply(t, capacity, e).0;
    forall k | k in t' ensures History(events + [e], k) != [] && t'[k].lastSeen == LastSeen(events + [e], k) {
      ApplyRun(t, capacity, e, k);
      HistorySnoc(events, e, k);
      LastSeenSnoc(events, e, k);
      if e.Arrival? && e.key == k {
        ApplySeen(t, capacity, e, k);
      }
    }
  }

  lemma {:induction false} RunSeen(capacity: nat, events: seq<Event>, tables: seq<ZenohFragments.Table>,
                                   outs: seq<Option<ZenohFragments.Flow>>, n: nat)
    requires Trace(capacity, events, tables, outs) && n <= |events|
    ensures |tables| == |events| + 1 && SeenWhenArrived(tables[n], events[..n])
    decreases n
  {
    hide *;
    TraceStarts(capacity, events, tables, outs);
    EmptyTrace(capacity, events, tables, outs);
    if n == 0 {
      NothingSeen(tables[0], events[..0]);
    } else {
      RunSeen(capacity, events, tables, outs, n - 1);
      StepsAt(capacity, events, tables, outs, n - 1);
      StepSeen(tables[n - 1], capacity, events[..n - 1], events[n - 1]);
    }
  }

  lemma EmptyTrace(capacity: nat, events: seq<Event>, tables: seq<ZenohFragments.Table>,
                   outs: seq<Option<ZenohFragments.Flow>>)
    requires Trace(capacity, events, tables, outs)
    ensures |tables| > 0 && tables[0] == map[]
  {
  }

  lemma NothingSeen(t: ZenohFragments.Table, events: seq<Event>)
    requires t == map[]
    ensures SeenWhenArrived(t, events)
  {
  }

  /**
   In any run: a sweep at `now` takes exactly the pending messages whose last fragment
   arrived at least the timeout before, all of them when the timeout is zero, and none
   that was seen later than `now`. The others stay as they were.
   */
  lemma ExpiryExact(capacity: nat, events: seq<Event>, tables: seq<ZenohFragments.Table>,
                    outs: seq<Option<ZenohFragments.Flow>>, n: nat)
    requires Trace(capacity, events, tables, outs) && n < |events| && events[n].Expiry?
    ensures |tables| == |events| + 1
    ensures var now, timeout := events[n].now, events[n].timeout;
            forall k :: k in tables[n] ==>
              && (k !in tables[n + 1] <==> timeout == 0 || LastSeen(events[..n], k) + timeout <= now)
              && (k in tables[n + 1] ==> tables[n + 1][k] == tables[n][k])
    ensures forall k :: k in tables[n + 1] ==> k in tables[n]
  {
    RunSeen(capacity, events, tables, outs, n);
    TraceStarts(capacity, events, tables, outs);
    StepsAt(capacity, events, tables, outs, n);
    hide Steps, Trace, History, LastSeen, WellFormed;
  }

  /** Closing a direction takes exactly the pending messages of that direction. */
  lemma ClosingExact(capacity: nat, events: seq<Event>, tables: seq<ZenohFragments.Table>,
                     outs: seq<Option<ZenohFragments.Flow>>, n: nat)
    requires Steps(capacity, events, tables, outs) && n < |events| && events[n].Closing?
    ensures |tables| == |events| + 1
    ensures forall k :: k in tables[n + 1] <==> k in tables[n] && k.direction != events[n].direction
    ensures forall k :: k in tables[n + 1] ==> tables[n + 1][k] == tables[n][k]
  {
    StepsAt(capacity, events, tables, outs, n);
    hide Steps, WellFormed;
  }
}
