/**
 The `ros_discovery_info` message: a CDR reader that tries 16-byte GIDs first and
 24-byte GIDs when that fails. The functions named `...At` say what is read at an
 offset, `Encode` is an independent writer, and the class moves an offset along.
 */
module RosDiscoveryInfo {
  import opened Basics
  import opened DiscoveryIds

  const GID_LEN: nat := 16
  const GID_LEN_LEGACY: nat := 24
  const NODE_MIN_LEN: nat := 16
  const MAX_NODES: nat := 4096
  const MAX_GIDS: nat := 16384
  const MAX_STRING: nat := 64 * 1024

  datatype CdrError =
    | ShortHeader | UnsupportedEncapsulation(kind: U16)
    | OutOfBounds | TooLong | MissingTerminator | InvalidUtf8 | TrailingBytes

  /** Strings are kept as the bytes of their UTF-8 form; what is valid is left uninterpreted. */
  type Text = seq<Byte>
  type Utf8 = Text -> bool

  datatype NodeEntity = NodeEntity(namespace: Text, name: Text, readers: seq<TopicGid>, writers: seq<TopicGid>)

  datatype Info = Info(participant: TopicGid, nodes: seq<NodeEntity>)

  /** A value and the offset after it. */
  type Read<+T> = Result<(T, nat), CdrError>

  // ---------- What is read at an offset ----------

  function U32Of(b: seq<Byte>, littleEndian: bool): U32
    requires |b| == 4
  {
    var b0: int, b1: int, b2: int, b3: int := b[0], b[1], b[2], b[3];
    if littleEndian then b0 + 0x100 * b1 + 0x1_0000 * b2 + 0x100_0000 * b3
    else b3 + 0x100 * b2 + 0x1_0000 * b1 + 0x100_0000 * b0
  }

  function AlignedAt(length: nat, at: nat): (r: Option<nat>)
    requires at <= length
    ensures r.Some? ==> at <= r.value <= length
  {
    if at % 4 == 0 then Some(at)
    else if at + (4 - at % 4) > length then None
    else Some(at + (4 - at % 4))
  }

  function U32At(b: seq<Byte>, at: nat, littleEndian: bool): (r: Read<U32>)
    requires at <= |b|
    ensures r.Success? ==> at <= r.value.1 <= |b|
  {
    var start := AlignedAt(|b|, at);
    if start.None? || start.value + 4 > |b| then Failure(OutOfBounds)
    else Success((U32Of(b[start.value..start.value + 4], littleEndian), start.value + 4))
  }

  function StringAt(b: seq<Byte>, at: nat, littleEndian: bool, utf8: Utf8): (r: Read<Text>)
    requires at <= |b|
    ensures r.Success? ==> at <= r.value.1 <= |b|
  {
    match U32At(b, at, littleEndian)
    case Failure(e) => Failure(e)
    case Success((length, start)) =>
      if length > MAX_STRING then Failure(TooLong)
      else if length == 0 then Success(([], start))
      else if start + length > |b| then Failure(OutOfBounds)
      else if b[start + length - 1] != 0 then Failure(MissingTerminator)
      else if !utf8(b[start..start + length - 1]) then Failure(InvalidUtf8)
      else Success((b[start..start + length - 1], start + length))
  }

  function GidAt(b: seq<Byte>, at: nat, gidLen: nat): (r: Read<TopicGid>)
    requires at <= |b| && gidLen >= GID_LEN
    ensures r.Success? ==> at + gidLen == r.value.1 <= |b|
  {
    if at + gidLen > |b| then Failure(OutOfBounds) else Success((TopicGid(b[at..at + GID_LEN]), at + gidLen))
  }

  /** A length that the limit and the bytes that remain allow. */
  function LengthAt(b: seq<Byte>, at: nat, littleEndian: bool, limit: nat, minItem: nat): (r: Read<nat>)
    requires at <= |b| && minItem > 0
    ensures r.Success? ==> at <= r.value.1 <= |b|
  {
    match U32At(b, at, littleEndian)
    case Failure(e) => Failure(e)
    case Success((length, next)) =>
      if length > limit || length > (|b| - next) / minItem then Failure(TooLong) else Success((length, next))
  }

  /** What follows some items that were read already. */
  function After<T>(items: seq<T>, rest: Read<seq<T>>): Read<seq<T>> {
    match rest
    case Failure(e) => Failure(e)
    case Success((more, end)) => Success((items + more, end))
  }

  lemma AfterNone<T>(rest: Read<seq<T>>)
    ensures After([], rest) == rest
  {
    assert rest.Success? ==> [] + rest.value.0 == rest.value.0;
  }

  lemma AfterMore<T>(items: seq<T>, item: T, rest: Read<seq<T>>)
    ensures After(items, After([item], rest)) == After(items + [item], rest)
  {
    assert rest.Success? ==> items + ([item] + rest.value.0) == items + [item] + rest.value.0;
  }

  function GidsAt(b: seq<Byte>, at: nat, gidLen: nat, count: nat): (r: Read<seq<TopicGid>>)
    requires at <= |b| && gidLen >= GID_LEN
    ensures r.Success? ==> at <= r.value.1 <= |b|
    decreases count
  {
    if count == 0 then Success(([], at))
    else
      match GidAt(b, at, gidLen)
      case Failure(e) => Failure(e)
      case Success((gid, next)) =>
        After([gid], GidsAt(b, next, gidLen, count - 1))
  }

  function GidSequenceAt(b: seq<Byte>, at: nat, littleEndian: bool, gidLen: nat): (r: Read<seq<TopicGid>>)
    requires at <= |b| && gidLen >= GID_LEN
    ensures r.Success? ==> at <= r.value.1 <= |b|
  {
    match LengthAt(b, at, littleEndian, MAX_GIDS, gidLen)
    case Failure(e) => Failure(e)
    case Success((count, next)) => GidsAt(b, next, gidLen, count)
  }

  /** How a message is laid out: byte order, GID width, and what strings are valid. */
  datatype Layout = Layout(littleEndian: bool, gidLen: nat, utf8: Utf8)

  function NodeAt(b: seq<Byte>, at: nat, l: Layout): (r: Read<NodeEntity>)
    requires at <= |b| && l.gidLen >= GID_LEN
    ensures r.Success? ==> at <= r.value.1 <= |b|
  {
    match StringAt(b, at, l.littleEndian, l.utf8)
    case Failure(e) => Failure(e)
    case Success((namespace, at1)) =>
      match StringAt(b, at1, l.littleEndian, l.utf8)
      case Failure(e) => Failure(e)
      case Success((name, at2)) =>
        match GidSequenceAt(b, at2, l.littleEndian, l.gidLen)
        case Failure(e) => Failure(e)
        case Success((readers, at3)) =>
          match GidSequenceAt(b, at3, l.littleEndian, l.gidLen)
          case Failure(e) => Failure(e)
          case Success((writers, at4)) => Success((NodeEntity(namespace, name, readers, writers), at4))
  }

  function NodesAt(b: seq<Byte>, at: nat, l: Layout, count: nat): (r: Read<seq<NodeEntity>>)
    requires at <= |b| && l.gidLen >= GID_LEN
    ensures r.Success? ==> at <= r.value.1 <= |b|
    decreases count
  {
    if count == 0 then Success(([], at))
    else
      match NodeAt(b, at, l)
      case Failure(e) => Failure(e)
      case Success((node, next)) =>
        After([node], NodesAt(b, next, l, count - 1))
  }

  ghost predicate AllZero(b: seq<Byte>) {
    forall i :: 0 <= i < |b| ==> b[i] == 0
  }

  ghost function Body(b: seq<Byte>, l: Layout): Result<Info, CdrError>
    requires l.gidLen >= GID_LEN
  {
    match GidAt(b, 0, l.gidLen)
    case Failure(e) => Failure(e)
    case Success((gid, at)) =>
      match LengthAt(b, at, l.littleEndian, MAX_NODES, NODE_MIN_LEN)
      case Failure(e) => Failure(e)
      case Success((count, first)) =>
        match NodesAt(b, first, l, count)
        case Failure(e) => Failure(e)
        case Success((nodes, end)) =>
          if AllZero(b[end..]) then Success(Info(gid, nodes)) else Failure(TrailingBytes)
  }

  /** The whole payload: the encapsulation header, then either layout. */
  ghost function Parse(payload: seq<Byte>, utf8: Utf8): Result<Info, CdrError> {
    if |payload| < 4 then Failure(ShortHeader)
    else
      var kind := ReadU16(payload[0], payload[1], false);
      if kind > 1 then Failure(UnsupportedEncapsulation(kind))
      else
        var short := Body(payload[4..], Layout(kind == 1, GID_LEN, utf8));
        if short.Success? then short else Body(payload[4..], Layout(kind == 1, GID_LEN_LEGACY, utf8))
  }

  // ---------- Writing ----------

  function Zeros(n: nat): (z: seq<Byte>)
    ensures |z| == n && forall i :: 0 <= i < n ==> z[i] == 0
  {
    seq(n, _ => 0)
  }

  function U32Bytes(n: U32, littleEndian: bool): (b: seq<Byte>)
    ensures |b| == 4
  {
    var b0, b1, b2, b3 := n % 0x100, n / 0x100 % 0x100, n / 0x100 / 0x100 % 0x100, n / 0x100 / 0x100 / 0x100;
    if littleEndian then [b0, b1, b2, b3] else [b3, b2, b1, b0]
  }

  function Aligned(s: seq<Byte>): (t: seq<Byte>)
    ensures |t| % 4 == 0 && |s| <= |t| < |s| + 4
  {
    s + Zeros((4 - |s| % 4) % 4)
  }

  function WithU32(s: seq<Byte>, n: U32, littleEndian: bool): seq<Byte> {
    Aligned(s) + U32Bytes(n, littleEndian)
  }

  function WithString(s: seq<Byte>, text: Text, littleEndian: bool): seq<Byte>
    requires |text| + 1 < U32_MODULUS
  {
    WithU32(s, |text| + 1, littleEndian) + text + [0]
  }

  function WithGids(s: seq<Byte>, gids: seq<TopicGid>, gidLen: nat): seq<Byte>
    requires gidLen >= GID_LEN
    decreases |gids|
  {
    if gids == [] then s else WithGids(s + gids[0].bytes + Zeros(gidLen - GID_LEN), gids[1..], gidLen)
  }

  function WithGidSequence(s: seq<Byte>, gids: seq<TopicGid>, littleEndian: bool, gidLen: nat): seq<Byte>
    requires gidLen >= GID_LEN && |gids| < U32_MODULUS
  {
    WithGids(WithU32(s, |gids|, littleEndian), gids, gidLen)
  }

  /** Every length fits a length field. */
  predicate Encodable(v: Info) {
    && |v.participant.bytes| == GID_LEN && |v.nodes| < U32_MODULUS
    && forall i :: 0 <= i < |v.nodes| ==> EncodableNode(v.nodes[i])
  }

  predicate EncodableNode(n: NodeEntity) {
    && |n.namespace| + 1 < U32_MODULUS && |n.name| + 1 < U32_MODULUS
    && |n.readers| < U32_MODULUS && |n.writers| < U32_MODULUS
    && Sized(n.readers) && Sized(n.writers)
  }

  predicate Sized(gids: seq<TopicGid>) {
    forall i :: 0 <= i < |gids| ==> |gids[i].bytes| == GID_LEN
  }

  function WithNode(s: seq<Byte>, n: NodeEntity, littleEndian: bool, gidLen: nat): seq<Byte>
    requires gidLen >= GID_LEN && EncodableNode(n)
  {
    var named := WithString(WithString(s, n.namespace, littleEndian), n.name, littleEndian);
    WithGidSequence(WithGidSequence(named, n.readers, littleEndian, gidLen), n.writers, littleEndian, gidLen)
  }

  function WithNodes(s: seq<Byte>, nodes: seq<NodeEntity>, littleEndian: bool, gidLen: nat): seq<Byte>
    requires gidLen >= GID_LEN && forall i :: 0 <= i < |nodes| ==> EncodableNode(nodes[i])
    decreases |nodes|
  {
    hide EncodableNode, WithNode;
    if nodes == [] then s else WithNodes(WithNode(s, nodes[0], littleEndian, gidLen), nodes[1..], littleEndian, gidLen)
  }

  function EncodeBody(v: Info, littleEndian: bool, gidLen: nat): seq<Byte>
    requires gidLen >= GID_LEN && Encodable(v)
  {
    WithNodes(WithU32(v.participant.bytes + Zeros(gidLen - GID_LEN), |v.nodes|, littleEndian), v.nodes, littleEndian,
              gidLen)
  }

  function Encode(v: Info, littleEndian: bool, gidLen: nat): seq<Byte>
    requires gidLen >= GID_LEN && Encodable(v)
  {
    [0, if littleEndian then 1 else 0, 0, 0] + EncodeBody(v, littleEndian, gidLen)
  }

  // ---------- The limits ----------

  predicate InLimits(v: Info, utf8: Utf8) {
    |v.nodes| <= MAX_NODES && forall i :: 0 <= i < |v.nodes| ==> NodeInLimits(v.nodes[i], utf8)
  }

  predicate NodeInLimits(n: NodeEntity, utf8: Utf8) {
    && |n.namespace| < MAX_STRING && |n.name| < MAX_STRING
    && utf8(n.namespace) && utf8(n.name)
    && |n.readers| <= MAX_GIDS && |n.writers| <= MAX_GIDS
  }

  // ---------- Reading what was written ----------

  lemma U32RoundTrip(n: U32, littleEndian: bool)
    ensures U32Of(U32Bytes(n, littleEndian), littleEndian) == n
  {
    var q1, q2 := n / 0x100, n / 0x100 / 0x100;
    assert n == n % 0x100 + 0x100 * q1;
    assert q1 == q1 % 0x100 + 0x100 * q2;
    assert q2 == q2 % 0x100 + 0x100 * (q2 / 0x100);
  }

  lemma ReadsU32(s: seq<Byte>, n: U32, littleEndian: bool, b: seq<Byte>)
    requires WithU32(s, n, littleEndian) <= b
    ensures |s| <= |b| && U32At(b, |s|, littleEndian) == Success((n, |WithU32(s, n, littleEndian)|))
  {
    var start := |Aligned(s)|;
    U32RoundTrip(n, littleEndian);
    assert b[start..start + 4] == U32Bytes(n, littleEndian);
    hide U32Of, U32Bytes;
  }

  lemma ReadsString(s: seq<Byte>, text: Text, littleEndian: bool, utf8: Utf8, b: seq<Byte>)
    requires |text| < MAX_STRING && utf8(text) && WithString(s, text, littleEndian) <= b
    ensures |s| <= |b| && StringAt(b, |s|, littleEndian, utf8) == Success((text, |WithString(s, text, littleEndian)|))
  {
    var n := |text| + 1;
    var t := WithU32(s, n, littleEndian);
    ReadsU32(s, n, littleEndian, b);
    assert b[|t|..|t| + n - 1] == text;
    hide U32At;
  }

  lemma {:induction false} GidsLength(s: seq<Byte>, gids: seq<TopicGid>, gidLen: nat)
    requires gidLen >= GID_LEN && Sized(gids)
    ensures s <= WithGids(s, gids, gidLen)
    ensures |WithGids(s, gids, gidLen)| == |s| + gidLen * |gids|
    decreases |gids|
  {
    if gids != [] {
      GidsLength(s + gids[0].bytes + Zeros(gidLen - GID_LEN), gids[1..], gidLen);
    }
  }

  lemma {:induction false} ReadsGids(s: seq<Byte>, gids: seq<TopicGid>, gidLen: nat, b: seq<Byte>)
    requires gidLen >= GID_LEN && Sized(gids) && WithGids(s, gids, gidLen) <= b
    ensures |s| <= |b| && GidsAt(b, |s|, gidLen, |gids|) == Success((gids, |WithGids(s, gids, gidLen)|))
    decreases |gids|
  {
    GidsLength(s, gids, gidLen);
    if gids != [] {
      var next := s + gids[0].bytes + Zeros(gidLen - GID_LEN);
      GidsLength(next, gids[1..], gidLen);
      ReadsGids(next, gids[1..], gidLen, b);
      assert b[|s|..|s| + GID_LEN] == gids[0].bytes;
      assert [gids[0]] + gids[1..] == gids;
    }
  }

  lemma ReadsGidSequence(s: seq<Byte>, gids: seq<TopicGid>, littleEndian: bool, gidLen: nat, b: seq<Byte>)
    requires gidLen >= GID_LEN && Sized(gids) && |gids| <= MAX_GIDS
             && WithGidSequence(s, gids, littleEndian, gidLen) <= b
    ensures |s| <= |b|
    ensures GidSequenceAt(b, |s|, littleEndian, gidLen)
            == Success((gids, |WithGidSequence(s, gids, littleEndian, gidLen)|))
  {
    hide U32At, GidsAt, WithGids;
    var t := WithU32(s, |gids|, littleEndian);
    GidsLength(t, gids, gidLen);
    ReadsU32(s, |gids|, littleEndian, b);
    ReadsGids(t, gids, gidLen, b);
    FitsTimes(gidLen, |gids|, |b| - |t|);
  }

  lemma FitsTimes(item: nat, count: nat, room: nat)
    requires item > 0 && item * count <= room
    ensures count <= room / item
  {
    var q := room / item;
    assert room < item * (q + 1);
    assert count >= q + 1 ==> item * count >= item * (q + 1);
  }

  lemma WithGrows(s: seq<Byte>, n: NodeEntity, littleEndian: bool, gidLen: nat)
    requires gidLen >= GID_LEN && EncodableNode(n)
    ensures s <= WithNode(s, n, littleEndian, gidLen)
    ensures |WithNode(s, n, littleEndian, gidLen)| >= |s| + NODE_MIN_LEN
  {
    hide U32Bytes, Aligned, WithGids;
    var first := WithString(s, n.namespace, littleEndian);
    var named := WithString(first, n.name, littleEndian);
    AlignedGrows(s);
    AlignedGrows(first);
    GidSequenceGrows(named, n.readers, littleEndian, gidLen);
    GidSequenceGrows(WithGidSequence(named, n.readers, littleEndian, gidLen), n.writers, littleEndian, gidLen);
  }

  lemma AlignedGrows(s: seq<Byte>)
    ensures s <= Aligned(s)
  {
  }

  lemma GidSequenceGrows(s: seq<Byte>, gids: seq<TopicGid>, littleEndian: bool, gidLen: nat)
    requires gidLen >= GID_LEN && Sized(gids) && |gids| < U32_MODULUS
    ensures s <= WithGidSequence(s, gids, littleEndian, gidLen)
    ensures |WithGidSequence(s, gids, littleEndian, gidLen)| >= |s| + 4
  {
    AlignedGrows(s);
    GidsLength(WithU32(s, |gids|, littleEndian), gids, gidLen);
    assert gidLen * |gids| >= 0;
  }

  lemma ReadsNode(s: seq<Byte>, n: NodeEntity, l: Layout, b: seq<Byte>)
    requires l.gidLen >= GID_LEN && EncodableNode(n) && NodeInLimits(n, l.utf8)
    requires WithNode(s, n, l.littleEndian, l.gidLen) <= b
    ensures |s| <= |b| && NodeAt(b, |s|, l) == Success((n, |WithNode(s, n, l.littleEndian, l.gidLen)|))
  {
    hide StringAt, GidSequenceAt, WithString, WithGidSequence;
    var first := WithString(s, n.namespace, l.littleEndian);
    var named := WithString(first, n.name, l.littleEndian);
    var read := WithGidSequence(named, n.readers, l.littleEndian, l.gidLen);
    GidSequenceGrows(named, n.readers, l.littleEndian, l.gidLen);
    GidSequenceGrows(read, n.writers, l.littleEndian, l.gidLen);
    StringGrows(first, n.name, l.littleEndian);
    StringGrows(s, n.namespace, l.littleEndian);
    ReadsString(s, n.namespace, l.littleEndian, l.utf8, b);
    ReadsString(first, n.name, l.littleEndian, l.utf8, b);
    ReadsGidSequence(named, n.readers, l.littleEndian, l.gidLen, b);
    ReadsGidSequence(read, n.writers, l.littleEndian, l.gidLen, b);
  }

  lemma StringGrows(s: seq<Byte>, text: Text, littleEndian: bool)
    requires |text| + 1 < U32_MODULUS
    ensures s <= WithString(s, text, littleEndian)
  {
    AlignedGrows(s);
    hide Aligned, U32Bytes;
  }

  lemma {:induction false} NodesLength(s: seq<Byte>, nodes: seq<NodeEntity>, littleEndian: bool, gidLen: nat)
    requires gidLen >= GID_LEN && forall i :: 0 <= i < |nodes| ==> EncodableNode(nodes[i])
    ensures s <= WithNodes(s, nodes, littleEndian, gidLen)
    ensures |WithNodes(s, nodes, littleEndian, gidLen)| >= |s| + NODE_MIN_LEN * |nodes|
    decreases |nodes|
  {
    hide WithNode, EncodableNode;
    if nodes != [] {
      WithGrows(s, nodes[0], littleEndian, gidLen);
      NodesLength(WithNode(s, nodes[0], littleEndian, gidLen), nodes[1..], littleEndian, gidLen);
    }
  }

  lemma {:induction false} ReadsNodes(s: seq<Byte>, nodes: seq<NodeEntity>, l: Layout, b: seq<Byte>)
    requires l.gidLen >= GID_LEN
    requires forall i :: 0 <= i < |nodes| ==> EncodableNode(nodes[i]) && NodeInLimits(nodes[i], l.utf8)
    requires WithNodes(s, nodes, l.littleEndian, l.gidLen) <= b
    ensures |s| <= |b|
    ensures NodesAt(b, |s|, l, |nodes|) == Success((nodes, |WithNodes(s, nodes, l.littleEndian, l.gidLen)|))
    decreases |nodes|
  {
    hide WithNode, NodeAt, EncodableNode, NodeInLimits;
    NodesLength(s, nodes, l.littleEndian, l.gidLen);
    if nodes != [] {
      var next := WithNode(s, nodes[0], l.littleEndian, l.gidLen);
      NodesLength(next, nodes[1..], l.littleEndian, l.gidLen);
      ReadsNode(s, nodes[0], l, b);
      ReadsNodes(next, nodes[1..], l, b);
      assert [nodes[0]] + nodes[1..] == nodes;
    }
  }

  /** A body read with the width it was written in, followed by any zero padding. */
  lemma BodyRoundTrip(v: Info, l: Layout, pad: nat)
    requires l.gidLen >= GID_LEN && Encodable(v) && InLimits(v, l.utf8)
    ensures Body(EncodeBody(v, l.littleEndian, l.gidLen) + Zeros(pad), l) == Success(v)
  {
    hide U32At, NodesAt, WithNodes, WithU32, EncodableNode, NodeInLimits;
    var head := v.participant.bytes + Zeros(l.gidLen - GID_LEN);
    var counted := WithU32(head, |v.nodes|, l.littleEndian);
    var full := EncodeBody(v, l.littleEndian, l.gidLen);
    var b := full + Zeros(pad);
    NodesLength(counted, v.nodes, l.littleEndian, l.gidLen);
    HeadGrows(head, |v.nodes|, l.littleEndian);
    ReadsU32(head, |v.nodes|, l.littleEndian, b);
    ReadsNodes(counted, v.nodes, l, b);
    assert head <= b;
    assert b[..GID_LEN] == v.participant.bytes;
    assert b[|full|..] == Zeros(pad);
  }

  lemma HeadGrows(s: seq<Byte>, n: U32, littleEndian: bool)
    ensures s <= WithU32(s, n, littleEndian)
    ensures |s| % 4 == 0 ==> WithU32(s, n, littleEndian) == s + U32Bytes(n, littleEndian)
  {
    hide U32Bytes;
  }

  // ---------- Telling the widths apart ----------

  /** A non-zero length has a non-zero byte. */
  lemma NonZeroByte(n: U32, littleEndian: bool)
    ensures n != 0 ==> exists i :: 0 <= i < 4 && U32Bytes(n, littleEndian)[i] != 0
    ensures n == 0 ==> U32Bytes(n, littleEndian) == Zeros(4)
  {
    U32RoundTrip(n, littleEndian);
    U32RoundTrip(0, littleEndian);
    var b := U32Bytes(n, littleEndian);
    if b[0] == 0 && b[1] == 0 && b[2] == 0 && b[3] == 0 {
      assert U32Of(b, littleEndian) == 0;
    }
  }

  /**
   The 16-byte layout meets a message with 24-byte GIDs: it takes the padding of
   the first GID for an empty node list, and the node count for trailing bytes.
   */
  lemma ShortLayoutOnLong(v: Info, littleEndian: bool, utf8: Utf8, pad: nat)
    requires Encodable(v)
    ensures Body(EncodeBody(v, littleEndian, GID_LEN_LEGACY) + Zeros(pad), Layout(littleEndian, GID_LEN, utf8)) ==
            if v.nodes == [] then Success(v) else Failure(TrailingBytes)
  {
    hide U32Bytes, U32Of, WithNodes, EncodableNode, WithU32;
    var head := v.participant.bytes + Zeros(8);
    var count := U32Bytes(|v.nodes|, littleEndian);
    var counted := WithU32(head, |v.nodes|, littleEndian);
    var b := EncodeBody(v, littleEndian, GID_LEN_LEGACY) + Zeros(pad);
    NodesLength(counted, v.nodes, littleEndian, GID_LEN_LEGACY);
    HeadGrows(head, |v.nodes|, littleEndian);
    assert counted == head + count && counted <= b;
    assert b[..GID_LEN] == v.participant.bytes;
    U32RoundTrip(0, littleEndian);
    NonZeroByte(0, littleEndian);
    NonZeroByte(|v.nodes|, littleEndian);
    assert b[16..20] == Zeros(4);
    if v.nodes == [] {
      NoNodes(counted, littleEndian);
      assert b == v.participant.bytes + Zeros(8) + Zeros(4) + Zeros(pad);
    } else {
      var i :| 0 <= i < 4 && count[i] != 0;
      assert b[20..][4 + i] == count[i];
    }
  }

  lemma NoNodes(s: seq<Byte>, littleEndian: bool)
    ensures WithNodes(s, [], littleEndian, GID_LEN_LEGACY) == s
  {
  }

  // ---------- Whatever is accepted is within the limits ----------

  lemma StringWithin(b: seq<Byte>, at: nat, l: Layout)
    requires at <= |b| && l.utf8([]) && StringAt(b, at, l.littleEndian, l.utf8).Success?
    ensures var text := StringAt(b, at, l.littleEndian, l.utf8).value.0;
            |text| < MAX_STRING && l.utf8(text)
  {
  }

  lemma {:induction false} GidsWithin(b: seq<Byte>, at: nat, gidLen: nat, count: nat)
    requires at <= |b| && gidLen >= GID_LEN && GidsAt(b, at, gidLen, count).Success?
    ensures |GidsAt(b, at, gidLen, count).value.0| == count
    ensures Sized(GidsAt(b, at, gidLen, count).value.0)
    decreases count
  {
    if count > 0 {
      GidsWithin(b, at + gidLen, gidLen, count - 1);
    }
  }

  lemma GidSequenceWithin(b: seq<Byte>, at: nat, l: Layout)
    requires at <= |b| && l.gidLen >= GID_LEN && GidSequenceAt(b, at, l.littleEndian, l.gidLen).Success?
    ensures |GidSequenceAt(b, at, l.littleEndian, l.gidLen).value.0| <= MAX_GIDS
  {
    hide GidsAt;
    var (count, next) := LengthAt(b, at, l.littleEndian, MAX_GIDS, l.gidLen).value;
    GidsWithin(b, next, l.gidLen, count);
  }

  lemma NodeWithin(b: seq<Byte>, at: nat, l: Layout)
    requires at <= |b| && l.gidLen >= GID_LEN && l.utf8([]) && NodeAt(b, at, l).Success?
    ensures NodeInLimits(NodeAt(b, at, l).value.0, l.utf8)
  {
    hide StringAt, GidSequenceAt;
    var at1 := StringAt(b, at, l.littleEndian, l.utf8).value.1;
    var at2 := StringAt(b, at1, l.littleEndian, l.utf8).value.1;
    var at3 := GidSequenceAt(b, at2, l.littleEndian, l.gidLen).value.1;
    StringWithin(b, at, l);
    StringWithin(b, at1, l);
    GidSequenceWithin(b, at2, l);
    GidSequenceWithin(b, at3, l);
  }

  lemma {:induction false} NodesWithin(b: seq<Byte>, at: nat, l: Layout, count: nat)
    requires at <= |b| && l.gidLen >= GID_LEN && l.utf8([]) && NodesAt(b, at, l, count).Success?
    ensures var nodes := NodesAt(b, at, l, count).value.0;
            |nodes| == count && forall i :: 0 <= i < |nodes| ==> NodeInLimits(nodes[i], l.utf8)
    decreases count
  {
    hide NodeAt, NodeInLimits;
    if count > 0 {
      NodeWithin(b, at, l);
      NodesWithin(b, NodeAt(b, at, l).value.1, l, count - 1);
    }
  }

  lemma BodyWithin(b: seq<Byte>, l: Layout)
    requires l.gidLen >= GID_LEN && l.utf8([]) && Body(b, l).Success?
    ensures InLimits(Body(b, l).value, l.utf8)
  {
    hide NodesAt, NodeInLimits, U32At;
    var at := GidAt(b, 0, l.gidLen).value.1;
    var (count, first) := LengthAt(b, at, l.littleEndian, MAX_NODES, NODE_MIN_LEN).value;
    NodesWithin(b, first, l, count);
  }

  // ---------- The round trip ----------

  /**
   In both byte orders and both GID widths, with any zero padding after it, an
   encoded value is read back exactly when it keeps within the limits.
   */
  lemma RoundTrip(v: Info, littleEndian: bool, gidLen: nat, pad: nat, utf8: Utf8)
    requires Encodable(v) && utf8([]) && (gidLen == GID_LEN || gidLen == GID_LEN_LEGACY)
    ensures Parse(Encode(v, littleEndian, gidLen) + Zeros(pad), utf8) == Success(v) <==> InLimits(v, utf8)
  {
    hide Body, EncodeBody, InLimits;
    var payload := Encode(v, littleEndian, gidLen) + Zeros(pad);
    var short := Layout(littleEndian, GID_LEN, utf8);
    var long := Layout(littleEndian, GID_LEN_LEGACY, utf8);
    var b := EncodeBody(v, littleEndian, gidLen) + Zeros(pad);
    assert payload[4..] == b;
    if InLimits(v, utf8) {
      BodyRoundTrip(v, Layout(littleEndian, gidLen, utf8), pad);
      if gidLen == GID_LEN_LEGACY {
        ShortLayoutOnLong(v, littleEndian, utf8, pad);
      }
    }
    if Parse(payload, utf8) == Success(v) {
      if Body(b, short).Success? {
        BodyWithin(b, short);
      } else {
        BodyWithin(b, long);
      }
    }
  }

  // ---------- The reader as an object ----------

  class CdrReader {
    const bytes: seq<Byte>
    var offset: nat
    const layout: Layout

    constructor (bytes: seq<Byte>, layout: Layout)
      requires layout.gidLen >= GID_LEN
      ensures Valid() && offset == 0 && this.bytes == bytes && this.layout == layout
    {
      this.bytes, this.layout, offset := bytes, layout, 0;
    }

    predicate Valid()
      reads this
    {
      offset <= |bytes| && layout.gidLen >= GID_LEN
    }

    /** The reader did what a reading function says: the same value, and the offset after it. */
    ghost predicate Did<T(!new)>(read: Read<T>, r: Result<T, CdrError>)
      reads this
    {
      && Valid()
      && (read.Success? ==> r == Success(read.value.0) && offset == read.value.1)
      && (read.Failure? ==> r == Failure(read.error))
    }

    method Align() returns (ok: bool)
      requires Valid()
      modifies this`offset
      ensures Valid()
      ensures ok == AlignedAt(|bytes|, old(offset)).Some?
      ensures ok ==> AlignedAt(|bytes|, old(offset)) == Some(offset)
    {
      var misalignment := offset % 4;
      if misalignment == 0 {
        return true;
      }
      var next := offset + (4 - misalignment);
      if next > |bytes| {
        return false;
      }
      offset := next;
      ok := true;
    }

    method ReadU32() returns (r: Result<U32, CdrError>)
      requires Valid()
      modifies this`offset
      ensures Did(U32At(bytes, old(offset), layout.littleEndian), r)
    {
      hide U32Of;
      var ok := Align();
      if !ok || offset + 4 > |bytes| {
        return Failure(OutOfBounds);
      }
      var start := offset;
      offset := offset + 4;
      r := Success(U32Of(bytes[start..offset], layout.littleEndian));
    }

    method ReadString() returns (r: Result<Text, CdrError>)
      requires Valid()
      modifies this`offset
      ensures Did(StringAt(bytes, old(offset), layout.littleEndian, layout.utf8), r)
    {
      AlignedTwice(bytes, offset, layout.littleEndian);
      hide U32At;
      var ok := Align();
      if !ok {
        return Failure(OutOfBounds);
      }
      var length := ReadU32();
      if length.Failure? {
        return Failure(length.error);
      }
      if length.value > MAX_STRING {
        return Failure(TooLong);
      }
      if length.value == 0 {
        return Success([]);
      }
      var end := offset + length.value;
      if end > |bytes| {
        return Failure(OutOfBounds);
      }
      var start := offset;
      offset := end;
      if bytes[end - 1] != 0 {
        return Failure(MissingTerminator);
      }
      var text := bytes[start..end - 1];
      r := if layout.utf8(text) then Success(text) else Failure(InvalidUtf8);
    }

    method ReadTopicGid() returns (r: Result<TopicGid, CdrError>)
      requires Valid()
      modifies this`offset
      ensures Did(GidAt(bytes, old(offset), layout.gidLen), r)
    {
      var end := offset + layout.gidLen;
      if end > |bytes| {
        return Failure(OutOfBounds);
      }
      var slice := bytes[offset..end];
      assert slice[..GID_LEN] == bytes[offset..offset + GID_LEN];
      offset := end;
      r := Success(TopicGid(slice[..GID_LEN]));
    }

    method ReadBoundedLen(limit: nat, minItem: nat) returns (r: Result<nat, CdrError>)
      requires Valid() && minItem > 0
      modifies this`offset
      ensures Did(LengthAt(bytes, old(offset), layout.littleEndian, limit, minItem), r)
    {
      hide U32At;
      var length := ReadU32();
      if length.Failure? {
        return Failure(length.error);
      }
      if length.value > limit || length.value > (|bytes| - offset) / minItem {
        return Failure(TooLong);
      }
      r := Success(length.value);
    }

    method ReadGidSequence() returns (r: Result<seq<TopicGid>, CdrError>)
      requires Valid()
      modifies this`offset
      ensures Did(GidSequenceAt(bytes, old(offset), layout.littleEndian, layout.gidLen), r)
    {
      hide LengthAt, GidAt;
      var count := ReadBoundedLen(MAX_GIDS, layout.gidLen);
      if count.Failure? {
        return Failure(count.error);
      }
      ghost var start := offset;
      var gids := [];
      AfterNone(GidsAt(bytes, offset, layout.gidLen, count.value));
      for i := 0 to count.value
        invariant Valid()
        invariant GidsAt(bytes, start, layout.gidLen, count.value) ==
                  After(gids, GidsAt(bytes, offset, layout.gidLen, count.value - i))
      {
        ghost var before := gids;
        var gid := ReadTopicGid();
        if gid.Failure? {
          return Failure(gid.error);
        }
        gids := gids + [gid.value];
        AfterMore(before, gid.value, GidsAt(bytes, offset, layout.gidLen, count.value - i - 1));
      }
      assert gids + [] == gids;
      r := Success(gids);
    }

    method ReadNode() returns (r: Result<NodeEntity, CdrError>)
      requires Valid()
      modifies this`offset
      ensures Did(NodeAt(bytes, old(offset), layout), r)
    {
      hide StringAt, GidSequenceAt;
      var namespace := ReadString();
      if namespace.Failure? {
        return Failure(namespace.error);
      }
      var name := ReadString();
      if name.Failure? {
        return Failure(name.error);
      }
      var readers := ReadGidSequence();
      if readers.Failure? {
        return Failure(readers.error);
      }
      var writers := ReadGidSequence();
      if writers.Failure? {
        return Failure(writers.error);
      }
      r := Success(NodeEntity(namespace.value, name.value, readers.value, writers.value));
    }

    method ReadNodes(count: nat) returns (r: Result<seq<NodeEntity>, CdrError>)
      requires Valid()
      modifies this`offset
      ensures Did(NodesAt(bytes, old(offset), layout, count), r)
    {
      hide NodeAt;
      ghost var start := offset;
      var nodes := [];
      AfterNone(NodesAt(bytes, offset, layout, count));
      for i := 0 to count
        invariant Valid()
        invariant NodesAt(bytes, start, layout, count) == After(nodes, NodesAt(bytes, offset, layout, count - i))
      {
        ghost var before := nodes;
        var node := ReadNode();
        if node.Failure? {
          return Failure(node.error);
        }
        nodes := nodes + [node.value];
        AfterMore(before, node.value, NodesAt(bytes, offset, layout, count - i - 1));
      }
      assert nodes + [] == nodes;
      r := Success(nodes);
    }

    method Finish() returns (clean: bool)
      requires Valid()
      ensures clean == AllZero(bytes[offset..])
    {
      for i := offset to |bytes|
        invariant forall j :: offset <= j < i ==> bytes[j] == 0
      {
        if bytes[i] != 0 {
          assert bytes[offset..][i - offset] != 0;
          return false;
        }
      }
      clean := true;
    }
  }

  lemma AlignedTwice(b: seq<Byte>, at: nat, littleEndian: bool)
    requires at <= |b|
    ensures match AlignedAt(|b|, at)
            case None => U32At(b, at, littleEndian) == Failure(OutOfBounds)
            case Some(start) => U32At(b, at, littleEndian) == U32At(b, start, littleEndian)
  {
    hide U32Of;
  }

  method ParseBody(payload: seq<Byte>, layout: Layout) returns (r: Result<Info, CdrError>)
    requires layout.gidLen >= GID_LEN
    ensures r == Body(payload, layout)
  {
    hide GidAt, LengthAt, NodesAt, AllZero;
    var reader := new CdrReader(payload, layout);
    var gid := reader.ReadTopicGid();
    if gid.Failure? {
      return Failure(gid.error);
    }
    var count := reader.ReadBoundedLen(MAX_NODES, NODE_MIN_LEN);
    if count.Failure? {
      return Failure(count.error);
    }
    var nodes := reader.ReadNodes(count.value);
    if nodes.Failure? {
      return Failure(nodes.error);
    }
    var clean := reader.Finish();
    r := if clean then Success(Info(gid.value, nodes.value)) else Failure(TrailingBytes);
  }

  method ParseParticipantEntitiesInfo(payload: seq<Byte>, utf8: Utf8) returns (r: Result<Info, CdrError>)
    ensures r == Parse(payload, utf8)
  {
    hide Body;
    if |payload| < 4 {
      return Failure(ShortHeader);
    }
    var kind := ReadU16(payload[0], payload[1], false);
    if kind > 1 {
      return Failure(UnsupportedEncapsulation(kind));
    }
    r := ParseBody(payload[4..], Layout(kind == 1, GID_LEN, utf8));
    if r.Failure? {
      r := ParseBody(payload[4..], Layout(kind == 1, GID_LEN_LEGACY, utf8));
    }
  }
}
