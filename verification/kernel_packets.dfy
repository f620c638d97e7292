/**
 RTPS packets as a sender writes them (section 9.4 of DDSI-RTPS 2.3), and what the
 kernel's scan and the walk of user space read in them.
 */
module KernelPackets {
  import opened Basics
  import opened DiscoveryIds
  import opened KernelScan

  /** A submessage: its id, its flags, whose lowest bit tells the byte order, and what follows its header. */
  datatype Sent = Sent(id: Byte, flags: Byte, body: seq<Byte>)

  predicate Sendable(s: Sent) {
    0 < |s.body| < 0x1_0000
  }

  function EncodeLength(n: nat, flags: Byte): (b: seq<Byte>)
    requires n < 0x1_0000
    ensures |b| == 2
  {
    if flags % 2 == 1 then [n % 0x100, n / 0x100] else [n / 0x100, n % 0x100]
  }

  function Encode(s: Sent): (b: seq<Byte>)
    requires Sendable(s)
    ensures |b| == 4 + |s.body|
  {
    [s.id, s.flags] + EncodeLength(|s.body|, s.flags) + s.body
  }

  function EncodeEach(subs: seq<Sent>): seq<Byte>
    requires forall i :: 0 <= i < |subs| ==> Sendable(subs[i])
  {
    if subs == [] then [] else Encode(subs[0]) + EncodeEach(subs[1..])
  }

  /** Protocol, version and vendor, and the GUID prefix of the sender. */
  function Header(version: seq<Byte>, prefix: seq<Byte>): (b: seq<Byte>)
    requires |version| == 4 && |prefix| == 12
    ensures |b| == 20
  {
    [0x52, 0x54, 0x50, 0x53] + version + prefix
  }

  /** The body of a data submessage: two bytes of flags, two of offset, reader, writer and the rest. */
  function DataBody(lead: seq<Byte>, reader: seq<Byte>, writer: seq<Byte>, rest: seq<Byte>): seq<Byte>
    requires |lead| == 4 && |reader| == 4 && |writer| == 4
  {
    lead + reader + writer + rest
  }

  predicate IsData(id: Byte) {
    id == 0x15 || id == 0x16
  }

  // ---------- One submessage in a packet ----------

  /** The bytes from an offset on. */
  ghost predicate At(packet: seq<Byte>, at: nat, bytes: seq<Byte>) {
    at + |bytes| <= |packet| && forall i :: 0 <= i < |bytes| ==> packet[at + i] == bytes[i]
  }

  lemma AtSplit(packet: seq<Byte>, at: nat, a: seq<Byte>, b: seq<Byte>)
    requires At(packet, at, a + b)
    ensures At(packet, at, a) && At(packet, at + |a|, b)
  {
    forall i | 0 <= i < |b| ensures packet[at + |a| + i] == b[i] {
      assert (a + b)[|a| + i] == b[i];
    }
    forall i | 0 <= i < |a| ensures packet[at + i] == a[i] {
      assert (a + b)[i] == a[i];
    }
  }

  lemma AtSlice(packet: seq<Byte>, at: nat, bytes: seq<Byte>)
    requires At(packet, at, bytes)
    ensures packet[at..at + |bytes|] == bytes
  {
  }

  /** Its header reads as what was sent. */
  lemma HeaderReads(packet: seq<Byte>, at: nat, s: Sent)
    requires Sendable(s) && At(packet, at, Encode(s))
    ensures packet[at] == s.id && OctetsAt(packet, at) == |s.body|
    ensures Carries(s.id) <==> IsData(s.id)
  {
    var b := Encode(s);
    assert b[0] == s.id && b[1] == s.flags && b[2] == EncodeLength(|s.body|, s.flags)[0];
    assert b[3] == EncodeLength(|s.body|, s.flags)[1];
    assert packet[at + 0] == b[0];
  }

  // ---------- The walk of user space ----------

  /** Where every submessage of a list begins and ends. */
  function Places(at: nat, subs: seq<Sent>): seq<Submessage>
    decreases |subs|
  {
    if subs == [] then []
    else [Submessage(at, at + 4 + |subs[0].body|, subs[0].id)] + Places(at + 4 + |subs[0].body|, subs[1..])
  }

  lemma WalkOne(b: seq<Byte>, at: nat, s: Sent)
    requires Sendable(s) && At(b, at, Encode(s))
    ensures Walk(b, at) == [Submessage(at, at + 4 + |s.body|, s.id)] + Walk(b, at + 4 + |s.body|)
  {
    HeaderReads(b, at, s);
    hide OctetsAt;
  }

  lemma WalkNone(b: seq<Byte>, at: nat)
    requires |b| < at + 4
    ensures Walk(b, at) == []
  {
  }

  lemma {:induction false} WalkEach(b: seq<Byte>, at: nat, subs: seq<Sent>)
    requires forall i :: 0 <= i < |subs| ==> Sendable(subs[i])
    requires At(b, at, EncodeEach(subs)) && |b| == at + |EncodeEach(subs)|
    ensures Walk(b, at) == Places(at, subs)
    decreases |subs|
  {
    hide Walk, Encode;
    if subs == [] {
      WalkNone(b, at);
    } else {
      AtSplit(b, at, Encode(subs[0]), EncodeEach(subs[1..]));
      WalkOne(b, at, subs[0]);
      WalkEach(b, at + 4 + |subs[0].body|, subs[1..]);
    }
  }

  /** A last submessage may leave its length out, that is, zero: it reaches to the end of the payload. */
  lemma WalkLast(b: seq<Byte>, at: nat, id: Byte, flags: Byte, body: seq<Byte>)
    requires At(b, at, [id, flags, 0, 0] + body) && |b| == at + 4 + |body|
    ensures Walk(b, at) == [Submessage(at, |b|, id)]
  {
    var header: seq<Byte> := [id, flags, 0, 0];
    AtSplit(b, at, header, body);
    assert b[at + 0] == header[0] && b[at + 2] == header[2] && b[at + 3] == header[3];
    WalkNone(b, |b|);
  }

  /** User space meets the submessages of a packet, each where it was written. */
  lemma WalkReadsPacket(version: seq<Byte>, prefix: seq<Byte>, subs: seq<Sent>)
    requires |version| == 4 && |prefix| == 12 && forall i :: 0 <= i < |subs| ==> Sendable(subs[i])
    ensures var packet := Header(version, prefix) + EncodeEach(subs);
            && |packet| >= 20 && packet[..4] == SIGNATURE && Walk(packet, 20) == Places(20, subs)
  {
    var packet := Header(version, prefix) + EncodeEach(subs);
    forall i | 0 <= i < |EncodeEach(subs)| ensures packet[20 + i] == EncodeEach(subs)[i] {
    }
    WalkEach(packet, 20, subs);
    assert packet[..4] == SIGNATURE;
  }

  // ---------- The scan of the kernel ----------

  lemma ScanOne(packet: seq<Byte>, start: nat, at: nat, end: nat, count: nat, s: Sent)
    requires Sendable(s) && At(packet, at, Encode(s)) && !IsData(s.id)
    requires start + 20 <= at && count < 4 && at + 4 + |s.body| + 4 <= end
    ensures Scan(packet, start, at, end, count) == Scan(packet, start, at + 4 + |s.body|, end, count + 1)
  {
    HeaderReads(packet, at, s);
    hide OctetsAt, RouteAt, Carries;
  }

  /** Submessages without data are passed over. */
  lemma {:induction false} ScanQuiet(packet: seq<Byte>, start: nat, at: nat, end: nat, count: nat, quiet: seq<Sent>,
                                     after: seq<Byte>)
    requires forall i :: 0 <= i < |quiet| ==> Sendable(quiet[i]) && !IsData(quiet[i].id)
    requires start + 20 <= at && count + |quiet| <= 4
    requires At(packet, at, EncodeEach(quiet) + after)
    requires at + |EncodeEach(quiet)| + 4 <= end
    ensures At(packet, at + |EncodeEach(quiet)|, after)
    ensures Scan(packet, start, at, end, count)
         == Scan(packet, start, at + |EncodeEach(quiet)|, end, count + |quiet|)
    decreases |quiet|
  {
    hide Scan, Encode;
    AtSplit(packet, at, EncodeEach(quiet), after);
    if quiet != [] {
      var first, rest := Encode(quiet[0]), EncodeEach(quiet[1..]);
      AtSplit(packet, at, first, rest);
      assert first + rest + after == first + (rest + after);
      AtSplit(packet, at, first, rest + after);
      ScanOne(packet, start, at, end, count, quiet[0]);
      ScanQuiet(packet, start, at + 4 + |quiet[0].body|, end, count + 1, quiet[1..], after);
    }
  }

  lemma ScanData(packet: seq<Byte>, start: nat, at: nat, end: nat, count: nat, s: Sent,
                 version: seq<Byte>, prefix: seq<Byte>, lead: seq<Byte>, reader: seq<Byte>, writer: seq<Byte>,
                 rest: seq<Byte>)
    requires |version| == 4 && |prefix| == 12 && |lead| == 4 && |reader| == 4 && |writer| == 4
    requires s.body == DataBody(lead, reader, writer, rest) && Sendable(s) && IsData(s.id)
    requires At(packet, start, Header(version, prefix)) && At(packet, at, Encode(s))
    requires start + 20 <= at && count < 4
    ensures Scan(packet, start, at, end, count) ==
            Some(RouteTo(Route(TopicGid(prefix + writer), TopicGid(prefix + reader),
                               writer == [0, 1, 0, 0xc2] || writer == [0, 0, 3, 0xc2] || writer == [0, 0, 4, 0xc2])))
  {
    HeaderReads(packet, at, s);
    var b := Encode(s);
    forall i | 0 <= i < 4 ensures packet[at + 8 + i] == reader[i] && packet[at + 12 + i] == writer[i] {
      assert b[8 + i] == s.body[4 + i] && b[12 + i] == s.body[8 + i];
      assert packet[at + (8 + i)] == b[8 + i] && packet[at + (12 + i)] == b[12 + i];
    }
    assert packet[at + 8..at + 12] == reader && packet[at + 12..at + 16] == writer;
    var h := Header(version, prefix);
    forall i | 0 <= i < 12 ensures packet[start + 8 + i] == prefix[i] {
      assert h[8 + i] == prefix[i] && packet[start + (8 + i)] == h[8 + i];
    }
    assert packet[start + 8..start + 20] == prefix;
    hide OctetsAt, Encode, Header, At;
  }

  /**
   A packet whose first data submessage is among its first four is routed by that
   submessage: the writer is the sender's prefix with the writer's entity id, the
   reader its prefix with the reader's, and it is discovery traffic exactly for the
   three writers that announce participants, publications and subscriptions.
   */
  lemma RoutesByFirstData(packet: seq<Byte>, start: nat, end: nat, version: seq<Byte>, prefix: seq<Byte>,
                          quiet: seq<Sent>, data: Sent, lead: seq<Byte>, reader: seq<Byte>, writer: seq<Byte>,
                          rest: seq<Byte>)
    requires |version| == 4 && |prefix| == 12 && |lead| == 4 && |reader| == 4 && |writer| == 4
    requires |quiet| < 4 && forall i :: 0 <= i < |quiet| ==> Sendable(quiet[i]) && !IsData(quiet[i].id)
    requires data.body == DataBody(lead, reader, writer, rest) && Sendable(data) && IsData(data.id)
    requires At(packet, start, Header(version, prefix) + (EncodeEach(quiet) + Encode(data)))
    requires start + 20 + |EncodeEach(quiet)| + 4 <= end
    ensures ScanPacket(packet, start, end) ==
            Some(RouteTo(Route(TopicGid(prefix + writer), TopicGid(prefix + reader),
                               writer == [0, 1, 0, 0xc2] || writer == [0, 0, 3, 0xc2] || writer == [0, 0, 4, 0xc2])))
  {
    hide Scan, Encode, EncodeEach;
    AtSplit(packet, start, Header(version, prefix), EncodeEach(quiet) + Encode(data));
    Signed(packet, start, version, prefix);
    ScanQuiet(packet, start, start + 20, end, 0, quiet, Encode(data));
    ScanData(packet, start, start + 20 + |EncodeEach(quiet)|, end, |quiet|, data, version, prefix, lead, reader,
             writer, rest);
  }

  lemma Signed(packet: seq<Byte>, start: nat, version: seq<Byte>, prefix: seq<Byte>)
    requires |version| == 4 && |prefix| == 12 && At(packet, start, Header(version, prefix))
    ensures packet[start..start + 4] == SIGNATURE
  {
    var h := Header(version, prefix);
    forall i | 0 <= i < 4 ensures packet[start + i] == SIGNATURE[i] {
      assert packet[start + i] == h[i];
    }
  }
}
