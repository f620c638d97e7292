/**
 RTPS samples as a sender fragments them (section 8.3.7.3 of DDSI-RTPS 2.3):
 fragments of one size, numbered from one, a submessage carrying one or several of
 them and the last fragment possibly short.
 */
module RtpsSender {
  import opened Basics
  import opened FlowTables
  import opened FragmentLogs
  import opened RtpsFragments

  /** Where the fragments of a submessage end: after as many as it says, or with the sample. */
  function PartEnd(d: DataFrag): int {
    var end := (d.startingNum - 1 + d.fragmentsInSubmessage) * d.fragmentSize;
    if end < d.sampleSize then end else d.sampleSize
  }

  /** Where they begin. */
  function PartStart(d: DataFrag): int {
    (d.startingNum - 1) * d.fragmentSize
  }

  /** The bytes of the sample that a submessage carries, and where they belong. */
  function Part(d: DataFrag): Fragment {
    if 0 <= PartStart(d) < PartEnd(d) <= PartStart(d) + |d.payload|
    then Fragment(PartStart(d), d.payload[..PartEnd(d) - PartStart(d)]) else Fragment(0, [])
  }

  /**
   The submessage with fragments `startingNum`, `startingNum + 1`, ... of a sample, as
   many as it says; bytes that pad the payload may follow.
   */
  ghost predicate IsPart(d: DataFrag, sample: seq<Byte>, size: nat) {
    && d.startingNum >= 1 && d.fragmentsInSubmessage >= 1
    && d.fragmentSize == size && d.sampleSize == |sample|
    && 0 <= PartStart(d) < |sample| && PartStart(d) <= PartEnd(d) <= PartStart(d) + |d.payload|
    && d.payload[..PartEnd(d) - PartStart(d)] == sample[PartStart(d)..PartEnd(d)]
  }

  /** The number of the fragment with a position of the sample; numbers begin with one. */
  function NumberAt(p: nat, size: nat): nat
    requires size > 0
  {
    p / size + 1
  }

  /** A fragment has arrived when some submessage carried it. */
  ghost predicate Arrived(inputs: seq<(DataFrag, bool)>, key: SampleKey, number: nat) {
    exists i :: 0 <= i < |inputs| && inputs[i].0.key == key && Carries(inputs[i].0, number)
  }

  predicate Carries(d: DataFrag, number: nat) {
    d.startingNum <= number < d.startingNum + d.fragmentsInSubmessage
  }

  /** All fragments of a sample: those that begin before its end. */
  ghost predicate AllArrived(inputs: seq<(DataFrag, bool)>, key: SampleKey, length: nat, size: nat) {
    forall number: nat :: number >= 1 && (number - 1) * size < length ==> Arrived(inputs, key, number)
  }

  /** The bytes that the submessages of a key bring, and where they belong. */
  ghost function Parts(inputs: seq<(DataFrag, bool)>, key: SampleKey): seq<Fragment> {
    if inputs == [] then []
    else
      var d := inputs[|inputs| - 1].0;
      Parts(inputs[..|inputs| - 1], key)
      + if d.key == key then [Part(d)] else []
  }

  /** Every submessage of the key is a part of the sample, and memory is granted for it. */
  ghost predicate SentAs(inputs: seq<(DataFrag, bool)>, key: SampleKey, sample: seq<Byte>, size: nat) {
    forall i :: 0 <= i < |inputs| && inputs[i].0.key == key ==> IsPart(inputs[i].0, sample, size) && inputs[i].1
  }

  /** Nothing that arrives makes more intervals than a flow keeps. */
  ghost predicate NeverScattered(inputs: seq<(DataFrag, bool)>, key: SampleKey) {
    forall i :: 0 <= i < |inputs| && inputs[i].0.key == key ==>
      !RangesRefuse(Parts(inputs[..i], key), Part(inputs[i].0))
  }

  // ---------- What a part is to the reassembler ----------

  lemma Distributes(a: int, b: int, c: int)
    ensures (a + b) * c == a * c + b * c
  {
  }

  lemma PartIsSlice(d: DataFrag, sample: seq<Byte>, size: nat)
    requires IsPart(d, sample, size) && size > 0
    ensures Effective(d) == Part(d) && Part(d).bytes != [] && d.payload != []
    ensures Genuine(d, sample)
  {
    Distributes(d.startingNum - 1, d.fragmentsInSubmessage, size);
    Positive(d.fragmentsInSubmessage, size, d.startingNum - 1, |sample|);
  }

  lemma Positive(count: nat, size: nat, first: nat, length: nat)
    requires count >= 1 && first * size < length
    ensures size > 0 ==> count * size > 0
    ensures size == 0 ==> first * size == 0
  {
    if size > 0 {
      assert count * size >= size by {
        Distributes(count - 1, 1, size);
        NotNegative(count - 1, size);
      }
    }
  }

  lemma NotNegative(a: nat, b: nat)
    ensures a * b >= 0
  {
  }

  lemma {:induction false} WrittenAreParts(inputs: seq<(DataFrag, bool)>, key: SampleKey, sample: seq<Byte>, size: nat)
    requires SentAs(inputs, key, sample, size) && size > 0
    ensures Written(inputs, key) == Parts(inputs, key)
  {
    hide IsPart, Effective, Part;
    if inputs != [] {
      var d := inputs[|inputs| - 1].0;
      WrittenAreParts(inputs[..|inputs| - 1], key, sample, size);
      if d.key == key {
        PartIsSlice(d, sample, size);
        PartFields(d, sample, size);
      }
    }
  }

  lemma PartFields(d: DataFrag, sample: seq<Byte>, size: nat)
    requires IsPart(d, sample, size)
    ensures d.startingNum >= 1 && d.fragmentSize == size && d.sampleSize == |sample|
  {
  }

  // ---------- Completion by numbers ----------

  lemma QuotientBelow(p: nat, size: nat, n: int)
    requires size > 0
    ensures p / size < n <==> p < n * size
  {
    var q := p / size;
    assert p == q * size + p % size;
    if q < n {
      Distributes(q, 1, size);
      assert (n - q - 1) * size >= 0 by { NotNegative(n - q - 1, size); }
      Distributes(q + 1, n - q - 1, size);
    } else {
      assert (q - n) * size >= 0 by { NotNegative(q - n, size); }
      Distributes(n, q - n, size);
    }
  }

  /** A part holds a position exactly when it carries the fragment with that position. */
  lemma PartHolds(d: DataFrag, sample: seq<Byte>, size: nat, p: nat)
    requires IsPart(d, sample, size) && size > 0 && p < |sample|
    ensures Part(d).Holds(p) <==> Carries(d, NumberAt(p, size))
  {
    Positive(d.fragmentsInSubmessage, size, d.startingNum - 1, |sample|);
    QuotientBelow(p, size, d.startingNum - 1);
    QuotientBelow(p, size, d.startingNum - 1 + d.fragmentsInSubmessage);
    Distributes(d.startingNum - 1, d.fragmentsInSubmessage, size);
  }

  lemma {:induction false} PartsCover(inputs: seq<(DataFrag, bool)>, key: SampleKey, sample: seq<Byte>, size: nat,
                                      p: nat)
    requires SentAs(inputs, key, sample, size) && size > 0 && p < |sample|
    ensures LogCovers(Parts(inputs, key), p) <==> Arrived(inputs, key, NumberAt(p, size))
  {
    hide IsPart, Part, LogCovers, Carries, NumberAt;
    if inputs == [] {
      NoneCovered(p);
    } else {
      var n := |inputs| - 1;
      var d, earlier := inputs[n].0, inputs[..n];
      var number := NumberAt(p, size);
      PartsCover(earlier, key, sample, size, p);
      ArrivedSnoc(inputs, key, number);
      if d.key == key {
        PartFields(d, sample, size);
        PartHolds(d, sample, size, p);
        CoversSnoc(Parts(earlier, key), Part(d), p);
      } else {
        assert Parts(earlier, key) + [] == Parts(earlier, key);
      }
    }
  }

  lemma NoneCovered(p: nat)
    ensures !LogCovers([], p)
  {
  }

  lemma ArrivedSnoc(inputs: seq<(DataFrag, bool)>, key: SampleKey, number: nat)
    requires inputs != []
    ensures var n := |inputs| - 1;
            Arrived(inputs, key, number) <==>
            Arrived(inputs[..n], key, number) || (inputs[n].0.key == key && Carries(inputs[n].0, number))
  {
    hide Carries;
    var n := |inputs| - 1;
    if Arrived(inputs[..n], key, number) {
      var i :| 0 <= i < n && inputs[..n][i].0.key == key && Carries(inputs[..n][i].0, number);
      assert inputs[i] == inputs[..n][i];
    }
    if Arrived(inputs, key, number) && !(inputs[n].0.key == key && Carries(inputs[n].0, number)) {
      var i :| 0 <= i < |inputs| && inputs[i].0.key == key && Carries(inputs[i].0, number);
      assert inputs[..n][i] == inputs[i];
    }
  }

  /** The parts cover the sample exactly when all fragments have arrived. */
  lemma CompleteByNumbers(inputs: seq<(DataFrag, bool)>, key: SampleKey, sample: seq<Byte>, size: nat)
    requires SentAs(inputs, key, sample, size) && size > 0
    ensures CoversAll(Parts(inputs, key), |sample|) <==> AllArrived(inputs, key, |sample|, size)
  {
    hide SentAs, LogCovers, Arrived, Parts;
    forall p: nat | p < |sample|
      ensures LogCovers(Parts(inputs, key), p) <==> Arrived(inputs, key, NumberAt(p, size))
      ensures NumberAt(p, size) >= 1 && (NumberAt(p, size) - 1) * size < |sample|
    {
      PartsCover(inputs, key, sample, size, p);
      QuotientBelow(p, size, p / size);
      assert p == p / size * size + p % size;
    }
    if CoversAll(Parts(inputs, key), |sample|) {
      forall number: nat | number >= 1 && (number - 1) * size < |sample| ensures Arrived(inputs, key, number) {
        var p := (number - 1) * size;
        NotNegative(number - 1, size);
        QuotientExact(number - 1, size);
        assert NumberAt(p, size) == number;
      }
    }
  }

  lemma QuotientExact(q: nat, size: nat)
    requires size > 0
    ensures q * size / size == q
  {
    var p := q * size;
    NotNegative(q, size);
    QuotientBelow(p, size, q);
    QuotientBelow(p, size, q + 1);
    Distributes(q, 1, size);
  }

  // ---------- Whole runs ----------

  /**
   Whatever else arrives: when the submessages of one key are parts of one sample,
   nothing but that sample ever comes out for it.
   */
  lemma OnlyWhatWasSent(
    capacity: nat, inputs: seq<(DataFrag, bool)>, tables: seq<RtpsFragments.Table>, outputs: seq<Output>,
    key: SampleKey, sample: seq<Byte>, size: nat)
    requires Run(capacity, inputs, tables, outputs) && key !in tables[0].flows
    requires size > 0 && forall i :: 0 <= i < |inputs| && inputs[i].0.key == key ==> IsPart(inputs[i].0, sample, size)
    ensures |outputs| == |inputs|
    ensures forall i :: 0 <= i < |inputs| && inputs[i].0.key == key && outputs[i].Sample? ==>
            outputs[i] == Sample(sample)
  {
    hide Run, IsPart, Genuine;
    RunLengths(capacity, inputs, tables, outputs);
    forall i | 0 <= i < |inputs| && inputs[i].0.key == key ensures Genuine(inputs[i].0, sample) {
      PartIsSlice(inputs[i].0, sample, size);
    }
    OnlyTheSample(capacity, inputs, tables, outputs, key, sample, |inputs|);
  }

  /** The reassembler's view of the submessages of a sender. */
  lemma SentIsOne(inputs: seq<(DataFrag, bool)>, key: SampleKey, sample: seq<Byte>, size: nat)
    requires SentAs(inputs, key, sample, size) && NeverScattered(inputs, key) && size > 0
    ensures OneSample(inputs, key, |sample|)
    ensures forall i :: 0 <= i < |inputs| && inputs[i].0.key == key ==> Genuine(inputs[i].0, sample)
  {
    hide IsPart, RangesRefuse, Effective, Genuine, Written, Parts;
    forall i | 0 <= i < |inputs| && inputs[i].0.key == key
      ensures Reaches(inputs[i], |sample|) && Genuine(inputs[i].0, sample)
      ensures !RangesRefuse(Written(inputs[..i], key), Effective(inputs[i].0))
    {
      PartIsSlice(inputs[i].0, sample, size);
      PartFields(inputs[i].0, sample, size);
      WrittenAreParts(inputs[..i], key, sample, size);
    }
  }

  lemma SentPrefix(inputs: seq<(DataFrag, bool)>, key: SampleKey, sample: seq<Byte>, size: nat, m: nat)
    requires SentAs(inputs, key, sample, size) && m <= |inputs| && size > 0
    ensures CoversAll(Written(inputs[..m], key), |sample|) <==> AllArrived(inputs[..m], key, |sample|, size)
  {
    hide IsPart;
    assert SentAs(inputs[..m], key, sample, size);
    hide SentAs, CoversAll, AllArrived, Written, Parts;
    WrittenAreParts(inputs[..m], key, sample, size);
    CompleteByNumbers(inputs[..m], key, sample, size);
  }

  lemma ArrivedGrows(inputs: seq<(DataFrag, bool)>, key: SampleKey, length: nat, size: nat, m: nat, n: nat)
    requires m <= n <= |inputs| && AllArrived(inputs[..m], key, length, size)
    ensures AllArrived(inputs[..n], key, length, size)
  {
    hide Carries;
    forall number: nat | number >= 1 && (number - 1) * size < length ensures Arrived(inputs[..n], key, number) {
      assert Arrived(inputs[..m], key, number);
      var i :| 0 <= i < m && inputs[..m][i].0.key == key && Carries(inputs[..m][i].0, number);
      assert inputs[..n][i] == inputs[..m][i];
    }
  }

  /**
   The parts of a sample, in any order and with repeats, whatever arrives for other
   keys in between, as long as fewer of them enter than the table has places: the
   submessage with which the last of its fragments arrives makes the sample come out,
   and none before makes anything come out.
   */
  lemma SampleDelivered(
    capacity: nat, inputs: seq<(DataFrag, bool)>, tables: seq<RtpsFragments.Table>, outputs: seq<Output>,
    key: SampleKey, sample: seq<Byte>, size: nat, n: nat)
    requires Run(capacity, inputs, tables, outputs) && key !in tables[0].flows
    requires SentAs(inputs, key, sample, size) && NeverScattered(inputs, key)
    requires size > 0 && 0 < |sample| <= 128 * 1024 * 1024
    requires n < |inputs| && AllArrived(inputs[..n + 1], key, |sample|, size)
    requires !AllArrived(inputs[..n], key, |sample|, size)
    requires |Rivals(inputs[..n], key)| < capacity
    ensures |outputs| == |inputs|
    ensures outputs[n] == Sample(sample)
    ensures forall i :: 0 <= i < n && inputs[i].0.key == key ==> outputs[i] == Nothing
  {
    assert 128 * 1024 * 1024 == RtpsFragments.FLOW_CAPACITY;
    hide *;
    SentIsOne(inputs, key, sample, size);
    Completes(inputs, key, sample, size, n);
    SampleYielded(capacity, inputs, tables, outputs, key, sample, n);
  }

  lemma Completes(inputs: seq<(DataFrag, bool)>, key: SampleKey, sample: seq<Byte>, size: nat, n: nat)
    requires SentAs(inputs, key, sample, size) && size > 0 && n < |inputs|
    requires AllArrived(inputs[..n + 1], key, |sample|, size) && !AllArrived(inputs[..n], key, |sample|, size)
    ensures CompletesAt(inputs, key, |sample|, n)
  {
    hide SentAs, AllArrived, CoversAll, Written;
    SentPrefix(inputs, key, sample, size, n + 1);
    forall m | 0 <= m <= n ensures !CoversAll(Written(inputs[..m], key), |sample|) {
      SentPrefix(inputs, key, sample, size, m);
      if AllArrived(inputs[..m], key, |sample|, size) {
        ArrivedGrows(inputs, key, |sample|, size, m, n);
      }
    }
  }

  // ---------- Fewer parts than intervals ----------

  lemma {:induction false} PartsCount(inputs: seq<(DataFrag, bool)>, key: SampleKey)
    ensures |Parts(inputs, key)| <= |inputs|
  {
    if inputs != [] {
      PartsCount(inputs[..|inputs| - 1], key);
    }
  }

  /** A run of at most 4096 submessages never scatters too much. */
  lemma FewNeverScatter(inputs: seq<(DataFrag, bool)>, key: SampleKey)
    requires |inputs| <= 4096
    ensures NeverScattered(inputs, key)
  {
    hide RangesRefuse, Parts, Part;
    forall i | 0 <= i < |inputs| && inputs[i].0.key == key
      ensures !RangesRefuse(Parts(inputs[..i], key), Part(inputs[i].0))
    {
      PartsCount(inputs[..i], key);
      FewAreNotRefused(Parts(inputs[..i], key), Part(inputs[i].0));
    }
  }

  // ---------- Submessages that are no part ----------

  /**
   A submessage that announces another size costs the flow of its key what it had.
   One numbered zero is refused and changes nothing, nor does one without payload, and
   a sample without bytes, too large or without memory for it is not begun.
   */
  lemma Contradictions(t: RtpsFragments.Table, capacity: nat, d: DataFrag, granted: bool)
    requires WellFormed(t, capacity)
    ensures d.payload == [] ==> Accept(t, capacity, d, granted) == (t, Nothing)
    ensures d.payload != [] && d.startingNum == 0 ==> Accept(t, capacity, d, granted) == (t, Malformed)
    ensures d.payload != [] && d.startingNum > 0 && d.key in t.flows && t.flows[d.key].size != d.sampleSize ==>
              Accept(t, capacity, d, granted).1 == Nothing && d.key !in Accept(t, capacity, d, granted).0.flows
    ensures d.payload != [] && d.startingNum > 0 && d.key !in t.flows
            && (d.sampleSize == 0 || d.sampleSize > 128 * 1024 * 1024 || !granted) ==>
              Accept(t, capacity, d, granted).1 == Nothing && d.key !in Accept(t, capacity, d, granted).0.flows
  {
    hide Effective, Write, Bounded, Fits;
  }

  /** So does a part that is apart from 4096 intervals received so far. */
  lemma TooScattered(t: RtpsFragments.Table, capacity: nat, d: DataFrag, granted: bool, sample: seq<Byte>, size: nat)
    requires WellFormed(t, capacity) && IsPart(d, sample, size) && size > 0
    requires d.key in t.flows && t.flows[d.key].size == |sample|
    requires RangesRefuse(t.flows[d.key].log, Part(d))
    ensures Accept(t, capacity, d, granted).1 == Nothing && d.key !in Accept(t, capacity, d, granted).0.flows
  {
    hide Effective, Overlay, CoversAll, RangesRefuse, Bounded, IsPart, Fits;
    PartIsSlice(d, sample, size);
    PartFields(d, sample, size);
    EffectiveFits(d, t.flows[d.key].log);
  }
}
