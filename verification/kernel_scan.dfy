/**
 Two walks over the submessages of an RTPS packet: user space follows them all, the
 kernel filter looks at no more than four and decides what it can. `Walk` says
 which submessages there are; both walks are proved against it.
 */
module KernelScan {
  import opened Basics
  import opened DiscoveryIds

  const HEADER_LEN: nat := 20
  const PREFIX_OFFSET: nat := 8
  const PREFIX_LEN: nat := 12
  const SUBMESSAGE_HEADER_LEN: nat := 4
  const READER_ID_OFFSET: nat := 8
  const WRITER_ID_OFFSET: nat := 12
  const SCAN_SUBMESSAGES: nat := 4
  const DATA: Byte := 0x15
  const DATA_FRAG: Byte := 0x16
  const SIGNATURE: seq<Byte> := [0x52, 0x54, 0x50, 0x53]

  predicate IsDiscoveryWriter(entityId: seq<Byte>) {
    || entityId == [0x00, 0x01, 0x00, 0xc2]
    || entityId == [0x00, 0x00, 0x03, 0xc2]
    || entityId == [0x00, 0x00, 0x04, 0xc2]
  }

  predicate Carries(id: Byte) {
    id == DATA || id == DATA_FRAG
  }

  // ---------- Every submessage of a payload ----------

  datatype Submessage = Submessage(start: nat, end: nat, id: Byte)

  function OctetsAt(b: seq<Byte>, at: nat): U16
    requires at + SUBMESSAGE_HEADER_LEN <= |b|
  {
    ReadU16(b[at + 2], b[at + 3], b[at + 1] % 2 == 1)
  }

  /** A zero length stands for the rest of the payload; no submessage reaches past it. */
  function EndAt(b: seq<Byte>, at: nat): (end: nat)
    requires at + SUBMESSAGE_HEADER_LEN <= |b|
    ensures at < end <= |b|
  {
    var next := at + SUBMESSAGE_HEADER_LEN + OctetsAt(b, at);
    if OctetsAt(b, at) == 0 || next > |b| then |b| else next
  }

  function Walk(b: seq<Byte>, at: nat): (w: seq<Submessage>)
    decreases |b| - at
  {
    if at + SUBMESSAGE_HEADER_LEN > |b| then []
    else [Submessage(at, EndAt(b, at), b[at])] + Walk(b, EndAt(b, at))
  }

  /** The index of the first submessage that carries data. */
  function FirstData(w: seq<Submessage>): (i: nat)
    ensures i <= |w|
    ensures i < |w| ==> Carries(w[i].id)
    ensures forall j :: 0 <= j < i ==> !Carries(w[j].id)
  {
    if w == [] || Carries(w[0].id) then 0 else 1 + FirstData(w[1..])
  }

  /** The submessages tile the payload, but for a rest too short for a header. */
  lemma {:induction false} WalkTiles(b: seq<Byte>, at: nat)
    requires at <= |b|
    ensures var w := Walk(b, at);
            && (w == [] ==> |b| < at + SUBMESSAGE_HEADER_LEN)
            && (w != [] ==> w[0].start == at && |b| < w[|w| - 1].end + SUBMESSAGE_HEADER_LEN)
            && (forall i :: 0 <= i < |w| - 1 ==> w[i].end == w[i + 1].start)
            && (forall i :: 0 <= i < |w| ==> at <= w[i].start < w[i].end <= |b| && w[i].id == b[w[i].start])
    decreases |b| - at
  {
    if at + SUBMESSAGE_HEADER_LEN <= |b| {
      WalkTiles(b, EndAt(b, at));
    }
  }

  /** User space: every submessage with its bounds. */
  method WalkPacket(payload: seq<Byte>) returns (met: seq<Submessage>)
    ensures |payload| < HEADER_LEN || payload[..4] != SIGNATURE ==> met == []
    ensures |payload| >= HEADER_LEN && payload[..4] == SIGNATURE ==> met == Walk(payload, HEADER_LEN)
  {
    met := [];
    if |payload| < HEADER_LEN || payload[..4] != SIGNATURE {
      return;
    }
    var at := HEADER_LEN;
    while at + SUBMESSAGE_HEADER_LEN <= |payload|
      invariant met + Walk(payload, at) == Walk(payload, HEADER_LEN)
      decreases |payload| - at
    {
      var id, flags := payload[at], payload[at + 1];
      var octets: nat := ReadU16(payload[at + 2], payload[at + 3], flags % 2 == 1);
      var end := if octets == 0 then |payload| else
        if at + SUBMESSAGE_HEADER_LEN + octets < |payload| then at + SUBMESSAGE_HEADER_LEN + octets else |payload|;
      if end <= at {
        break;
      }
      assert met + [Submessage(at, end, id)] + Walk(payload, end)
             == met + ([Submessage(at, end, id)] + Walk(payload, end));
      met := met + [Submessage(at, end, id)];
      at := end;
    }
  }

  // ---------- The kernel's decision ----------

  datatype Route = Route(writer: TopicGid, reader: TopicGid, isDiscovery: bool)

  datatype Classification = RouteTo(route: Route) | NotRtps | NoData | Inconclusive

  /** A load from the packet fails past its end. */
  function Load(packet: seq<Byte>, at: nat, count: nat): Option<seq<Byte>> {
    if at + count <= |packet| then Some(packet[at..at + count]) else None
  }

  predicate HasCompleteHeader(at: nat, end: nat) {
    at <= if end < SUBMESSAGE_HEADER_LEN then 0 else end - SUBMESSAGE_HEADER_LEN
  }

  function RouteAt(packet: seq<Byte>, start: nat, at: nat): Route
    requires start + HEADER_LEN <= |packet| && at + WRITER_ID_OFFSET + 4 <= |packet|
  {
    var prefix := packet[start + PREFIX_OFFSET..start + PREFIX_OFFSET + PREFIX_LEN];
    var reader := packet[at + READER_ID_OFFSET..at + READER_ID_OFFSET + 4];
    var writer := packet[at + WRITER_ID_OFFSET..at + WRITER_ID_OFFSET + 4];
    Route(TopicGid(prefix + writer), TopicGid(prefix + reader), IsDiscoveryWriter(writer))
  }

  /** The bytes where the signature belongs are there and say something else. */
  predicate Unsigned(packet: seq<Byte>, start: nat) {
    start + 4 <= |packet| && packet[start..start + 4] != SIGNATURE
  }

  /**
   What the kernel should say of the payload at `start..end`, by the full walk.
   None stands for a failed load: a data submessage without room for its entity ids.
   */
  function Decision(packet: seq<Byte>, start: nat, end: nat): Option<Classification>
    requires start <= end <= |packet|
  {
    if Unsigned(packet, start) then Some(NotRtps)
    else
      var w := Walk(packet[start..end], HEADER_LEN);
      var i := FirstData(w);
      if i < |w| && i < SCAN_SUBMESSAGES then
        WalkTiles(packet[start..end], HEADER_LEN);
        var at := start + w[i].start;
        if at + WRITER_ID_OFFSET + 4 <= |packet| then Some(RouteTo(RouteAt(packet, start, at))) else None
      else if |w| > SCAN_SUBMESSAGES then Some(Inconclusive)
      else Some(NoData)
  }

  /** The first submessage that carries data. */
  ghost predicate IsFirstData(w: seq<Submessage>, i: int) {
    0 <= i < |w| && Carries(w[i].id) && forall j :: 0 <= j < i ==> !Carries(w[j].id)
  }

  /** What the decision says of the submessages that there are. */
  lemma DecisionSays(packet: seq<Byte>, start: nat, end: nat)
    requires start <= end <= |packet| && !Unsigned(packet, start)
    ensures var w := Walk(packet[start..end], HEADER_LEN);
            var decision := Decision(packet, start, end);
            && (decision == Some(NoData) <==> |w| <= SCAN_SUBMESSAGES && forall i :: 0 <= i < |w| ==> !Carries(w[i].id))
            && (decision == Some(Inconclusive) <==>
                |w| > SCAN_SUBMESSAGES && forall i :: 0 <= i < SCAN_SUBMESSAGES ==> !Carries(w[i].id))
            && (forall route :: decision == Some(RouteTo(route)) <==>
                exists i :: IsFirstData(w, i) && i < SCAN_SUBMESSAGES
                  && start + w[i].start + WRITER_ID_OFFSET + 4 <= |packet|
                  && route == RouteAt(packet, start, start + w[i].start))
            && (decision == None <==>
                exists i :: IsFirstData(w, i) && i < SCAN_SUBMESSAGES
                  && start + w[i].start + WRITER_ID_OFFSET + 4 > |packet|)
  {
    hide RouteAt, Walk;
    var payload := packet[start..end];
    var w := Walk(payload, HEADER_LEN);
    var first := FirstData(w);
    assert first < |w| ==> IsFirstData(w, first);
    assert forall i :: IsFirstData(w, i) ==> i == first;
  }

  // ---------- What the bounded scan does, on any packet ----------

  /** From an offset on, with some submessages looked at. The header at the offset itself is loaded without a check. */
  function Scan(packet: seq<Byte>, start: nat, at: nat, end: nat, count: nat): Option<Classification>
    requires start + HEADER_LEN <= at && count <= SCAN_SUBMESSAGES
    decreases SCAN_SUBMESSAGES - count
  {
    if count == SCAN_SUBMESSAGES then Some(if HasCompleteHeader(at, end) then Inconclusive else NoData)
    else if at + SUBMESSAGE_HEADER_LEN > |packet| then None
    else if Carries(packet[at]) then
      if at + WRITER_ID_OFFSET + 4 <= |packet| then Some(RouteTo(RouteAt(packet, start, at))) else None
    else
      var next := at + SUBMESSAGE_HEADER_LEN + OctetsAt(packet, at);
      if OctetsAt(packet, at) == 0 || !HasCompleteHeader(next, end) then Some(NoData)
      else Scan(packet, start, next, end, count + 1)
  }

  function ScanPacket(packet: seq<Byte>, start: nat, end: nat): Option<Classification> {
    if start + 4 > |packet| then None
    else if packet[start..start + 4] != SIGNATURE then Some(NotRtps)
    else if start + HEADER_LEN > |packet| then None
    else Scan(packet, start, start + HEADER_LEN, end, 0)
  }

  /** The scan has seen `n` submessages without data and stands before a complete header at `at`. */
  ghost predicate Scanned(packet: seq<Byte>, start: nat, end: nat, at: nat, n: nat) {
    && start + HEADER_LEN + SUBMESSAGE_HEADER_LEN <= end <= |packet|
    && !Unsigned(packet, start)
    && start + HEADER_LEN <= at && at + SUBMESSAGE_HEADER_LEN <= end
    && var w := Walk(packet[start..end], HEADER_LEN);
       && n <= |w| && w[n..] == Walk(packet[start..end], at - start)
       && forall j :: 0 <= j < n ==> !Carries(w[j].id)
  }

  /** What one step of the scan finds, in terms of the walk. */
  lemma ScanStep(packet: seq<Byte>, start: nat, end: nat, at: nat, n: nat)
    requires Scanned(packet, start, end, at, n)
    ensures var payload := packet[start..end];
            var w := Walk(payload, HEADER_LEN);
            && n < |w| && w[n].start == at - start && w[n].id == packet[at]
            && w[n + 1..] == Walk(payload, EndAt(payload, at - start))
            && OctetsAt(payload, at - start) == OctetsAt(packet, at)
  {
    var payload := packet[start..end];
    var w := Walk(payload, HEADER_LEN);
    assert w[n..] != [] && w[n..][0] == w[n];
    assert w[n..][1..] == w[n + 1..];
    assert w[n..][1..] == Walk(payload, EndAt(payload, at - start));
  }

  lemma ScanFinds(packet: seq<Byte>, start: nat, end: nat, at: nat, n: nat)
    requires Scanned(packet, start, end, at, n) && n < SCAN_SUBMESSAGES && Carries(packet[at])
    ensures Decision(packet, start, end) ==
            if at + WRITER_ID_OFFSET + 4 <= |packet| then Some(RouteTo(RouteAt(packet, start, at))) else None
  {
    hide Walk, RouteAt;
    ScanStep(packet, start, end, at, n);
    var w := Walk(packet[start..end], HEADER_LEN);
    assert FirstData(w) == n;
  }

  /** What the walk makes of the length of a submessage. */
  lemma WalkOn(b: seq<Byte>, at: nat)
    requires at + SUBMESSAGE_HEADER_LEN <= |b|
    ensures var next := at + SUBMESSAGE_HEADER_LEN + OctetsAt(b, at);
            if OctetsAt(b, at) == 0 || next + SUBMESSAGE_HEADER_LEN > |b| then Walk(b, EndAt(b, at)) == []
            else EndAt(b, at) == next
  {
    hide OctetsAt;
  }

  lemma ScanPasses(packet: seq<Byte>, start: nat, end: nat, at: nat, n: nat)
    requires Scanned(packet, start, end, at, n) && !Carries(packet[at])
    ensures var octets := OctetsAt(packet, at);
            var next := at + SUBMESSAGE_HEADER_LEN + octets;
            if octets == 0 || next + SUBMESSAGE_HEADER_LEN > end
            then n < SCAN_SUBMESSAGES ==> Decision(packet, start, end) == Some(NoData)
            else Scanned(packet, start, end, next, n + 1)
  {
    hide RouteAt, OctetsAt, Carries, Walk, EndAt;
    ScanStep(packet, start, end, at, n);
    WalkOn(packet[start..end], at - start);
  }

  lemma ScanEnds(packet: seq<Byte>, start: nat, end: nat, at: nat)
    requires Scanned(packet, start, end, at, SCAN_SUBMESSAGES)
    ensures Decision(packet, start, end) == Some(Inconclusive)
  {
    hide Walk, RouteAt;
    ScanStep(packet, start, end, at, SCAN_SUBMESSAGES);
  }

  lemma {:induction false} ScanAgrees(packet: seq<Byte>, start: nat, end: nat, at: nat, count: nat)
    requires Scanned(packet, start, end, at, count) && count <= SCAN_SUBMESSAGES
    ensures Scan(packet, start, at, end, count) == Decision(packet, start, end)
    decreases SCAN_SUBMESSAGES - count
  {
    hide Scanned, Decision, RouteAt, OctetsAt, Carries, Scan, HasCompleteHeader;
    ScanBounds(packet, start, end, at, count);
    ScanUnfold(packet, start, at, end, count);
    if count == SCAN_SUBMESSAGES {
      ScanEnds(packet, start, end, at);
    } else if Carries(packet[at]) {
      ScanFinds(packet, start, end, at, count);
    } else {
      ScanPasses(packet, start, end, at, count);
      var next := at + SUBMESSAGE_HEADER_LEN + OctetsAt(packet, at);
      if OctetsAt(packet, at) != 0 && next + SUBMESSAGE_HEADER_LEN <= end {
        ScanAgrees(packet, start, end, next, count + 1);
      }
    }
  }

  lemma ScanUnfold(packet: seq<Byte>, start: nat, at: nat, end: nat, count: nat)
    requires start + HEADER_LEN <= at && at + SUBMESSAGE_HEADER_LEN <= end <= |packet| && count <= SCAN_SUBMESSAGES
    ensures var next := at + SUBMESSAGE_HEADER_LEN + OctetsAt(packet, at);
            Scan(packet, start, at, end, count) ==
            if count == SCAN_SUBMESSAGES then Some(Inconclusive)
            else if Carries(packet[at]) then
              if at + WRITER_ID_OFFSET + 4 <= |packet| then Some(RouteTo(RouteAt(packet, start, at))) else None
            else if OctetsAt(packet, at) == 0 || next + SUBMESSAGE_HEADER_LEN > end then Some(NoData)
            else Scan(packet, start, next, end, count + 1)
  {
    hide OctetsAt, RouteAt, Carries;
  }

  lemma ScanBounds(packet: seq<Byte>, start: nat, end: nat, at: nat, count: nat)
    requires Scanned(packet, start, end, at, count)
    ensures start + HEADER_LEN <= at && at + SUBMESSAGE_HEADER_LEN <= end <= |packet|
  {
  }

  /** For a payload of at least 24 bytes the bounded scan decides by the full walk. */
  lemma LongDecides(packet: seq<Byte>, start: nat, end: nat)
    requires start + HEADER_LEN + SUBMESSAGE_HEADER_LEN <= end <= |packet|
    ensures ScanPacket(packet, start, end) == Decision(packet, start, end)
  {
    hide Walk, Scan, RouteAt;
    if !Unsigned(packet, start) {
      var w := Walk(packet[start..end], HEADER_LEN);
      assert w[0..] == w;
      ScanAgrees(packet, start, end, start + HEADER_LEN, 0);
    }
  }

  /**
   No data submessage is ever filtered out, and a packet without data is only let
   through when undecided: what the bounded scan says of a payload with room for a
   submessage header, in terms of the submessages that there are.
   */
  lemma NeverHidesData(packet: seq<Byte>, start: nat, end: nat)
    requires start + HEADER_LEN + SUBMESSAGE_HEADER_LEN <= end <= |packet| && !Unsigned(packet, start)
    ensures var w := Walk(packet[start..end], HEADER_LEN);
            var said := ScanPacket(packet, start, end);
            && (said == Some(NoData) <==> |w| <= SCAN_SUBMESSAGES && forall i :: 0 <= i < |w| ==> !Carries(w[i].id))
            && (said == Some(Inconclusive) <==>
                |w| > SCAN_SUBMESSAGES && forall i :: 0 <= i < SCAN_SUBMESSAGES ==> !Carries(w[i].id))
            && (forall route :: said == Some(RouteTo(route)) <==>
                exists i :: IsFirstData(w, i) && i < SCAN_SUBMESSAGES
                  && start + w[i].start + WRITER_ID_OFFSET + 4 <= |packet|
                  && route == RouteAt(packet, start, start + w[i].start))
            && (said == None <==>
                exists i :: IsFirstData(w, i) && i < SCAN_SUBMESSAGES
                  && start + w[i].start + WRITER_ID_OFFSET + 4 > |packet|)
  {
    hide Walk, Scan, RouteAt, Decision, IsFirstData, ScanPacket;
    LongDecides(packet, start, end);
    DecisionSays(packet, start, end);
  }

  /** Of a shorter payload the walk meets nothing, but the scan loads the bytes behind it. */
  lemma ShortDecides(packet: seq<Byte>, start: nat, end: nat)
    requires start <= end <= |packet| && end < start + HEADER_LEN + SUBMESSAGE_HEADER_LEN && !Unsigned(packet, start)
    ensures Decision(packet, start, end) == Some(NoData)
    ensures ScanPacket(packet, start, end) == Some(NoData) <==>
            start + HEADER_LEN + SUBMESSAGE_HEADER_LEN <= |packet| && !Carries(packet[start + HEADER_LEN])
  {
    hide RouteAt, OctetsAt;
    assert Walk(packet[start..end], HEADER_LEN) == [];
  }

  /**
   The bounded scan decides by the full walk if and only if the packet is not RTPS,
   or the payload has room for a submessage header, or the bytes that are loaded in
   its place exist and do not look like data.
   */
  lemma ScanDecides(packet: seq<Byte>, start: nat, end: nat)
    requires start <= end <= |packet|
    ensures ScanPacket(packet, start, end) == Decision(packet, start, end) <==>
            || Unsigned(packet, start)
            || start + HEADER_LEN + SUBMESSAGE_HEADER_LEN <= end
            || (start + HEADER_LEN + SUBMESSAGE_HEADER_LEN <= |packet| && !Carries(packet[start + HEADER_LEN]))
  {
    hide Walk, Scan, RouteAt, Carries, OctetsAt;
    if start + HEADER_LEN + SUBMESSAGE_HEADER_LEN <= end {
      LongDecides(packet, start, end);
    } else if !Unsigned(packet, start) {
      ShortDecides(packet, start, end);
    }
  }

  /** A payload that ends with the RTPS header is routed by the bytes that follow it in the packet. */
  lemma ShortPayloadMisread()
    ensures var packet := SIGNATURE + seq(16, _ => 0 as Byte) + [DATA] + seq(15, _ => 0 as Byte);
            && Decision(packet, 0, 20) == Some(NoData)
            && ScanPacket(packet, 0, 20).Some? && ScanPacket(packet, 0, 20).value.RouteTo?
  {
    var packet := SIGNATURE + seq(16, _ => 0 as Byte) + [DATA] + seq(15, _ => 0 as Byte);
    assert packet[0..4] == SIGNATURE;
    assert packet[20] == DATA;
  }

  /** The kernel's bounded scan; where the payload is long enough it decides by the full walk. */
  method Classify(packet: seq<Byte>, start: nat, end: nat) returns (r: Option<Classification>)
    ensures r == ScanPacket(packet, start, end)
    ensures start + HEADER_LEN + SUBMESSAGE_HEADER_LEN <= end <= |packet| ==> r == Decision(packet, start, end)
  {
    hide Decision;
    if start + HEADER_LEN + SUBMESSAGE_HEADER_LEN <= end <= |packet| {
      LongDecides(packet, start, end);
    }
    var signature := Load(packet, start, 4);
    if signature.None? {
      return None;
    }
    if signature.value != SIGNATURE {
      return Some(NotRtps);
    }
    var prefix := Load(packet, start + PREFIX_OFFSET, PREFIX_LEN);
    if prefix.None? {
      return None;
    }
    var at := start + HEADER_LEN;
    var count := 0;
    while count < SCAN_SUBMESSAGES
      invariant count <= SCAN_SUBMESSAGES && start + HEADER_LEN <= at
      invariant Scan(packet, start, at, end, count) == ScanPacket(packet, start, end)
    {
      var header := Load(packet, at, SUBMESSAGE_HEADER_LEN);
      if header.None? {
        return None;
      }
      var id, flags := header.value[0], header.value[1];
      if id == DATA || id == DATA_FRAG {
        var reader := Load(packet, at + READER_ID_OFFSET, 4);
        var writer := Load(packet, at + WRITER_ID_OFFSET, 4);
        if reader.None? || writer.None? {
          return None;
        }
        return Some(RouteTo(Route(TopicGid(prefix.value + writer.value), TopicGid(prefix.value + reader.value),
                                  IsDiscoveryWriter(writer.value))));
      }
      var octets: nat := ReadU16(header.value[2], header.value[3], flags % 2 == 1);
      if octets == 0 {
        return Some(NoData);
      }
      at := at + SUBMESSAGE_HEADER_LEN + octets;
      if !HasCompleteHeader(at, end) {
        return Some(NoData);
      }
      count := count + 1;
    }
    r := if HasCompleteHeader(at, end) then Some(Inconclusive) else Some(NoData);
  }
}
