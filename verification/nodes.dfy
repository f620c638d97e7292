/** The node table: ROS nodes with the endpoints they list, and six indexes over them. */
module Nodes {
  import opened Basics
  import opened DiscoveryIds

  datatype NodeKey = NodeKey(participantId: ParticipantId, participantGid: Option<TopicGid>, namespace: string,
                             name: string)

  datatype Node = Node(writerGids: set<TopicGid>, readerGids: set<TopicGid>,
                       writerIds: set<EndpointId>, readerIds: set<EndpointId>,
                       participantId: ParticipantId, firstSeen: Time, lastSeen: Time)

  /** The endpoints a sample lists, without order. */
  datatype Listing = Listing(writerGids: set<TopicGid>, readerGids: set<TopicGid>,
                             writerIds: set<EndpointId>, readerIds: set<EndpointId>)

  datatype NodeSample = NodeSample(participantGid: Option<TopicGid>, participantId: Option<ParticipantId>,
                                   namespace: string, name: string,
                                   writerGids: seq<TopicGid>, readerGids: seq<TopicGid>,
                                   writerIds: seq<EndpointId>, readerIds: seq<EndpointId>)

  datatype Table = Table(nodes: map<NodeKey, Node>,
                         writers: map<TopicGid, NodeKey>, readers: map<TopicGid, NodeKey>,
                         writerIds: map<EndpointId, NodeKey>, readerIds: map<EndpointId, NodeKey>,
                         byGid: map<TopicGid, set<NodeKey>>, byId: map<ParticipantId, set<NodeKey>>)

  // ---------- Indexes from what a node lists to the node ----------

  function Claim<K>(index: map<K, NodeKey>, ids: set<K>, key: NodeKey): map<K, NodeKey> {
    index + map i | i in ids :: key
  }

  lemma ClaimNothing<K>(index: map<K, NodeKey>, key: NodeKey)
    ensures Claim(index, {}, key) == index
  {
  }

  lemma ClaimOneMore<K>(index: map<K, NodeKey>, ids: set<K>, id: K, key: NodeKey)
    ensures Claim(index, ids + {id}, key) == Claim(index, ids, key)[id := key]
  {
  }

  /** A lookup only meets a node that lists the id. */
  ghost predicate IndexSound<K>(nodes: map<NodeKey, Node>, index: map<K, NodeKey>, ids: Node -> set<K>) {
    forall i :: i in index ==> index[i] in nodes && i in ids(nodes[index[i]])
  }

  /** Every id that a node lists is found. */
  ghost predicate IndexComplete<K(!new)>(nodes: map<NodeKey, Node>, index: map<K, NodeKey>, ids: Node -> set<K>) {
    forall k, i :: k in nodes && i in ids(nodes[k]) ==> i in index && index[i] == k
  }

  lemma ReleaseSound<K>(nodes: map<NodeKey, Node>, index: map<K, NodeKey>, ids: Node -> set<K>, key: NodeKey)
    requires IndexSound(nodes, index, ids) && key in nodes
    ensures IndexSound(nodes - {key}, index - ids(nodes[key]), ids)
  {
  }

  lemma ClaimSound<K>(nodes: map<NodeKey, Node>, index: map<K, NodeKey>, ids: Node -> set<K>, key: NodeKey, node: Node)
    requires IndexSound(nodes - {key}, index, ids)
    ensures IndexSound(nodes[key := node], Claim(index, ids(node), key), ids)
  {
    var after := Claim(index, ids(node), key);
    forall i | i in after ensures after[i] in nodes[key := node] && i in ids(nodes[key := node][after[i]]) {
      if i !in ids(node) {
        assert after[i] == index[i];
      }
    }
  }

  /** After a node arrives the index is complete exactly when no other node lists one of its ids. */
  lemma ClaimComplete<K(!new)>(nodes: map<NodeKey, Node>, index: map<K, NodeKey>, ids: Node -> set<K>, key: NodeKey,
                               node: Node)
    requires IndexSound(nodes, index, ids) && IndexComplete(nodes, index, ids)
    ensures var cleared := if key in nodes then index - ids(nodes[key]) else index;
            IndexComplete(nodes[key := node], Claim(cleared, ids(node), key), ids) <==>
            forall k :: k in nodes && k != key ==> ids(nodes[k]) !! ids(node)
  {
    var cleared := if key in nodes then index - ids(nodes[key]) else index;
    var after := Claim(cleared, ids(node), key);
    var nodes' := nodes[key := node];
    if IndexComplete(nodes', after, ids) {
      forall k, i | k in nodes && k != key && i in ids(nodes[k]) ensures i !in ids(node) {
        assert nodes'[k] == nodes[k];
        assert after[i] == k;
      }
    }
    if forall k :: k in nodes && k != key ==> ids(nodes[k]) !! ids(node) {
      forall k, i | k in nodes' && i in ids(nodes'[k]) ensures i in after && after[i] == k {
        if k != key {
          assert index[i] == k && i !in ids(node);
        }
      }
    }
  }

  // ---------- Indexes from a participant to its nodes ----------

  function Link<P>(groups: map<P, set<NodeKey>>, p: P, key: NodeKey): map<P, set<NodeKey>> {
    groups[p := (if p in groups then groups[p] else {}) + {key}]
  }

  function Unlink<P>(groups: map<P, set<NodeKey>>, p: P, key: NodeKey): map<P, set<NodeKey>> {
    if p !in groups then groups
    else if groups[p] - {key} == {} then groups - {p}
    else groups[p := groups[p] - {key}]
  }

  /** Every group holds exactly the keys of its participant, and no group is empty. */
  ghost predicate GroupsExact<P(!new)>(keys: set<NodeKey>, groups: map<P, set<NodeKey>>, of: NodeKey -> Option<P>) {
    && (forall p :: p in groups ==> groups[p] != {})
    && (forall p, k :: p in groups && k in groups[p] ==> k in keys && of(k) == Some(p))
    && (forall k :: k in keys && of(k).Some? ==> of(k).value in groups && k in groups[of(k).value])
  }

  lemma UnlinkExact<P(!new)>(keys: set<NodeKey>, groups: map<P, set<NodeKey>>, of: NodeKey -> Option<P>, key: NodeKey)
    requires GroupsExact(keys, groups, of)
    ensures GroupsExact(keys - {key}, if of(key).Some? then Unlink(groups, of(key).value, key) else groups, of)
  {
    if of(key).Some? {
      var p := of(key).value;
      var after := Unlink(groups, p, key);
      forall k | k in keys - {key} && of(k).Some? ensures of(k).value in after && k in after[of(k).value] {
        assert of(k).value == p ==> k in groups[p] - {key};
      }
      forall q, k | q in after && k in after[q] ensures k in keys - {key} {
        assert k in groups[q];
      }
    }
  }

  lemma LinkExact<P(!new)>(keys: set<NodeKey>, groups: map<P, set<NodeKey>>, of: NodeKey -> Option<P>, key: NodeKey)
    requires GroupsExact(keys, groups, of)
    ensures GroupsExact(keys + {key}, if of(key).Some? then Link(groups, of(key).value, key) else groups, of)
  {
  }

  // ---------- What the operations do to the table ----------

  function ParticipantIdOf(s: NodeSample): Option<ParticipantId> {
    if s.participantId.Some? then s.participantId
    else if s.participantGid.Some? then Some(RtpsParticipant(s.participantGid.value))
    else None
  }

  function KeyOf(s: NodeSample): Option<NodeKey> {
    if ParticipantIdOf(s).None? then None
    else Some(NodeKey(ParticipantIdOf(s).value, s.participantGid, s.namespace, s.name))
  }

  function Elements<T>(s: seq<T>): set<T> {
    set x | x in s
  }

  function RtpsIds(gids: set<TopicGid>): set<EndpointId> {
    set g | g in gids :: RtpsEndpoint(g)
  }

  function ListingOf(s: NodeSample): Listing {
    Listing(Elements(s.writerGids), Elements(s.readerGids), Elements(s.writerIds), Elements(s.readerIds))
  }

  /** The entry a listing leads to: the ids it lists and those its GIDs stand for. */
  function NodeOf(l: Listing, key: NodeKey, firstSeen: Time, now: Time): Node {
    Node(l.writerGids, l.readerGids, l.writerIds + RtpsIds(l.writerGids), l.readerIds + RtpsIds(l.readerGids),
         key.participantId, firstSeen, now)
  }

  function InsertIndexes(t: Table, key: NodeKey, node: Node): Table {
    t.(writers := Claim(t.writers, node.writerGids, key), readers := Claim(t.readers, node.readerGids, key),
       writerIds := Claim(t.writerIds, node.writerIds, key), readerIds := Claim(t.readerIds, node.readerIds, key),
       byGid := if key.participantGid.Some? then Link(t.byGid, key.participantGid.value, key) else t.byGid,
       byId := Link(t.byId, node.participantId, key))
  }

  function RemoveIndexes(t: Table, key: NodeKey, node: Node): Table {
    t.(writers := t.writers - node.writerGids, readers := t.readers - node.readerGids,
       writerIds := t.writerIds - node.writerIds, readerIds := t.readerIds - node.readerIds,
       byGid := if key.participantGid.Some? then Unlink(t.byGid, key.participantGid.value, key) else t.byGid,
       byId := Unlink(t.byId, node.participantId, key))
  }

  function Remove(t: Table, key: NodeKey): Table {
    if key !in t.nodes then t else RemoveIndexes(t.(nodes := t.nodes - {key}), key, t.nodes[key])
  }

  function FirstSeen(t: Table, key: NodeKey, now: Time): Time {
    if key in t.nodes then t.nodes[key].firstSeen else now
  }

  function PutNode(t: Table, key: NodeKey, l: Listing, now: Time): Table {
    var cleared := if key in t.nodes then RemoveIndexes(t, key, t.nodes[key]) else t;
    var node := NodeOf(l, key, FirstSeen(t, key, now), now);
    InsertIndexes(cleared.(nodes := cleared.nodes[key := node]), key, node)
  }

  function Upsert(t: Table, s: NodeSample, now: Time): Table {
    if KeyOf(s).None? then t else PutNode(t, KeyOf(s).value, ListingOf(s), now)
  }

  function RemoveEach(t: Table, keys: seq<NodeKey>): Table {
    if keys == [] then t else Remove(RemoveEach(t, keys[..|keys| - 1]), keys[|keys| - 1])
  }

  function UpsertEach(t: Table, samples: seq<NodeSample>, now: Time): Table {
    if samples == [] then t else Upsert(UpsertEach(t, samples[..|samples| - 1], now), samples[|samples| - 1], now)
  }

  function Retained(samples: seq<NodeSample>): set<NodeKey> {
    set s | s in samples && KeyOf(s).Some? :: KeyOf(s).value
  }

  function Stale(t: Table, gid: TopicGid, samples: seq<NodeSample>): set<NodeKey> {
    (if gid in t.byGid then t.byGid[gid] else {}) - Retained(samples)
  }

  // ---------- What every table keeps ----------

  ghost predicate Valid(t: Table) {
    && (forall k :: k in t.nodes ==> t.nodes[k].participantId == k.participantId)
    && IndexSound(t.nodes, t.writers, (n: Node) => n.writerGids)
    && IndexSound(t.nodes, t.readers, (n: Node) => n.readerGids)
    && IndexSound(t.nodes, t.writerIds, (n: Node) => n.writerIds)
    && IndexSound(t.nodes, t.readerIds, (n: Node) => n.readerIds)
    && GroupsExact(t.nodes.Keys, t.byGid, (k: NodeKey) => k.participantGid)
    && GroupsExact(t.nodes.Keys, t.byId, (k: NodeKey) => Some(k.participantId))
  }

  lemma RemoveKeeps(t: Table, key: NodeKey)
    requires Valid(t)
    ensures Valid(Remove(t, key))
  {
    hide IndexSound, GroupsExact, Unlink;
    if key in t.nodes {
      ReleaseSound(t.nodes, t.writers, (n: Node) => n.writerGids, key);
      ReleaseSound(t.nodes, t.readers, (n: Node) => n.readerGids, key);
      ReleaseSound(t.nodes, t.writerIds, (n: Node) => n.writerIds, key);
      ReleaseSound(t.nodes, t.readerIds, (n: Node) => n.readerIds, key);
      UnlinkExact(t.nodes.Keys, t.byGid, (k: NodeKey) => k.participantGid, key);
      UnlinkExact(t.nodes.Keys, t.byId, (k: NodeKey) => Some(k.participantId), key);
      assert (t.nodes - {key}).Keys == t.nodes.Keys - {key};
    }
  }

  /** An entry that replaces or joins others, whose own entries left the indexes before. */
  lemma EnterKeeps(t: Table, key: NodeKey, node: Node)
    requires Valid(t) && key !in t.nodes && node.participantId == key.participantId
    ensures Valid(InsertIndexes(t.(nodes := t.nodes[key := node]), key, node))
  {
    hide IndexSound, GroupsExact, Link, Claim;
    assert t.nodes - {key} == t.nodes;
    ClaimSound(t.nodes, t.writers, (n: Node) => n.writerGids, key, node);
    ClaimSound(t.nodes, t.readers, (n: Node) => n.readerGids, key, node);
    ClaimSound(t.nodes, t.writerIds, (n: Node) => n.writerIds, key, node);
    ClaimSound(t.nodes, t.readerIds, (n: Node) => n.readerIds, key, node);
    LinkExact(t.nodes.Keys, t.byGid, (k: NodeKey) => k.participantGid, key);
    LinkExact(t.nodes.Keys, t.byId, (k: NodeKey) => Some(k.participantId), key);
    assert t.nodes[key := node].Keys == t.nodes.Keys + {key};
  }

  /** Putting a node is a removal followed by an entry. */
  lemma PutIsReplacement(t: Table, key: NodeKey, l: Listing, now: Time)
    ensures var node := NodeOf(l, key, FirstSeen(t, key, now), now);
            var without := Remove(t, key);
            && key !in without.nodes
            && PutNode(t, key, l, now) == InsertIndexes(without.(nodes := without.nodes[key := node]), key, node)
  {
    hide InsertIndexes, NodeOf, Unlink;
    var node := NodeOf(l, key, FirstSeen(t, key, now), now);
    assert (t.nodes - {key})[key := node] == t.nodes[key := node];
  }

  lemma PutKeeps(t: Table, key: NodeKey, l: Listing, now: Time)
    requires Valid(t)
    ensures Valid(PutNode(t, key, l, now))
  {
    hide Valid, PutNode, Remove, InsertIndexes;
    PutIsReplacement(t, key, l, now);
    RemoveKeeps(t, key);
    EnterKeeps(Remove(t, key), key, NodeOf(l, key, FirstSeen(t, key, now), now));
  }

  lemma UpsertKeeps(t: Table, s: NodeSample, now: Time)
    requires Valid(t)
    ensures Valid(Upsert(t, s, now))
  {
    hide Valid, PutNode;
    if KeyOf(s).Some? {
      PutKeeps(t, KeyOf(s).value, ListingOf(s), now);
    }
  }

  lemma {:induction false} UpsertEachKeeps(t: Table, samples: seq<NodeSample>, now: Time)
    requires Valid(t)
    ensures Valid(UpsertEach(t, samples, now))
  {
    hide Valid, Upsert;
    if samples != [] {
      UpsertEachKeeps(t, samples[..|samples| - 1], now);
      UpsertKeeps(UpsertEach(t, samples[..|samples| - 1], now), samples[|samples| - 1], now);
    }
  }

  lemma {:induction false} RemoveEachKeeps(t: Table, keys: seq<NodeKey>)
    requires Valid(t)
    ensures Valid(RemoveEach(t, keys))
    ensures RemoveEach(t, keys).nodes == t.nodes - Elements(keys)
  {
    hide Valid;
    if keys == [] {
      assert t.nodes - Elements(keys) == t.nodes;
    } else {
      var n := |keys| - 1;
      RemoveEachKeeps(t, keys[..n]);
      RemoveKeeps(RemoveEach(t, keys[..n]), keys[n]);
      assert keys == keys[..n] + [keys[n]];
      assert t.nodes - Elements(keys) == t.nodes - Elements(keys[..n]) - {keys[n]};
    }
  }

  // ---------- Replacing the nodes of one participant ----------

  /** The last sample of a node among several. */
  ghost function LastOf(samples: seq<NodeSample>, key: NodeKey): (s: NodeSample)
    requires key in Retained(samples)
    ensures s in samples && KeyOf(s) == Some(key)
  {
    var n := |samples| - 1;
    if KeyOf(samples[n]) == Some(key) then samples[n]
    else
      assert key in Retained(samples[..n]);
      LastOf(samples[..n], key)
  }

  lemma PutNodes(t: Table, key: NodeKey, l: Listing, now: Time)
    ensures PutNode(t, key, l, now).nodes ==
            t.nodes[key := NodeOf(l, key, FirstSeen(t, key, now), now)]
  {
  }

  lemma RemovedNodes(t: Table, key: NodeKey)
    ensures Remove(t, key).nodes == t.nodes - {key}
  {
    assert key !in t.nodes ==> t.nodes - {key} == t.nodes;
  }

  /** The entry shows exactly the endpoints of a listing. */
  ghost predicate Shows(node: Node, l: Listing) {
    && node.writerGids == l.writerGids && node.writerIds == l.writerIds + RtpsIds(l.writerGids)
    && node.readerGids == l.readerGids && node.readerIds == l.readerIds + RtpsIds(l.readerGids)
  }

  lemma UpsertNodes(t: Table, s: NodeSample, now: Time)
    ensures Upsert(t, s, now).nodes ==
            match KeyOf(s)
            case None => t.nodes
            case Some(key) => t.nodes[key := NodeOf(ListingOf(s), key, FirstSeen(t, key, now), now)]
  {
  }

  lemma {:induction false} UpsertEachNodes(t: Table, samples: seq<NodeSample>, now: Time)
    ensures var after := UpsertEach(t, samples, now);
            && after.nodes.Keys == t.nodes.Keys + Retained(samples)
            && (forall k :: k in t.nodes && k !in Retained(samples) ==> after.nodes[k] == t.nodes[k])
            && (forall k :: k in Retained(samples) ==>
                after.nodes[k] == NodeOf(ListingOf(LastOf(samples, k)), k, FirstSeen(t, k, now), now))
  {
    hide Upsert, Elements, RtpsIds;
    if samples != [] {
      var n := |samples| - 1;
      UpsertEachNodes(t, samples[..n], now);
      UpsertNodes(UpsertEach(t, samples[..n], now), samples[n], now);
      RetainedSnoc(samples);
    }
  }

  lemma RetainedSnoc(samples: seq<NodeSample>)
    requires samples != []
    ensures var n := |samples| - 1;
            Retained(samples) ==
            Retained(samples[..n]) + if KeyOf(samples[n]).Some? then {KeyOf(samples[n]).value} else {}
  {
    var n := |samples| - 1;
    assert samples == samples[..n] + [samples[n]];
  }

  /**
   After a replacement the participant has exactly the nodes of the samples, each as
   its last sample says, and every node of others that no sample names is as before.
   */
  lemma ReplaceExact(t: Table, gid: TopicGid, stale: seq<NodeKey>, samples: seq<NodeSample>, now: Time)
    requires Valid(t) && Elements(stale) == Stale(t, gid, samples)
    ensures var after := UpsertEach(RemoveEach(t, stale), samples, now);
            && Valid(after)
            && (forall k: NodeKey :: k.participantGid == Some(gid) ==> (k in after.nodes <==> k in Retained(samples)))
            && Retained(samples) <= after.nodes.Keys
            && (forall k :: k in Retained(samples) ==>
                after.nodes[k] == NodeOf(ListingOf(LastOf(samples, k)), k, FirstSeen(t, k, now), now))
            && (forall k: NodeKey :: k.participantGid != Some(gid) && k !in Retained(samples) ==>
                (k in after.nodes <==> k in t.nodes) && (k in t.nodes ==> after.nodes[k] == t.nodes[k]))
  {
    hide Valid, NodeOf, UpsertEach, RemoveEach, Stale, Elements, Retained;
    var mid := RemoveEach(t, stale);
    RemoveEachKeeps(t, stale);
    UpsertEachKeeps(mid, samples, now);
    UpsertEachNodes(mid, samples, now);
    StaleExact(t, gid, samples);
  }

  lemma StaleExact(t: Table, gid: TopicGid, samples: seq<NodeSample>)
    requires Valid(t)
    ensures forall k: NodeKey :: k in Stale(t, gid, samples) <==>
            k in t.nodes && k.participantGid == Some(gid) && k !in Retained(samples)
  {
    hide IndexSound, Retained;
  }

  // ---------- Whole runs ----------

  /** Which node lists every id, when no two nodes list the same one. */
  datatype Owners = Owners(writer: TopicGid -> NodeKey, reader: TopicGid -> NodeKey,
                           writerId: EndpointId -> NodeKey, readerId: EndpointId -> NodeKey)

  ghost predicate Found<K(!new)>(nodes: map<NodeKey, Node>, index: map<K, NodeKey>, ids: Node -> set<K>,
                                 owner: K -> NodeKey) {
    && IndexSound(nodes, index, ids) && IndexComplete(nodes, index, ids)
    && (forall k, i :: k in nodes && i in ids(nodes[k]) ==> owner(i) == k)
  }

  ghost predicate AllFound(t: Table, o: Owners) {
    && Found(t.nodes, t.writers, (n: Node) => n.writerGids, o.writer)
    && Found(t.nodes, t.readers, (n: Node) => n.readerGids, o.reader)
    && Found(t.nodes, t.writerIds, (n: Node) => n.writerIds, o.writerId)
    && Found(t.nodes, t.readerIds, (n: Node) => n.readerIds, o.readerId)
  }

  /** A node lists only what belongs to it. */
  ghost predicate Respects(node: Node, key: NodeKey, o: Owners) {
    && (forall g :: g in node.writerGids ==> o.writer(g) == key)
    && (forall g :: g in node.readerGids ==> o.reader(g) == key)
    && (forall i :: i in node.writerIds ==> o.writerId(i) == key)
    && (forall i :: i in node.readerIds ==> o.readerId(i) == key)
  }

  lemma ReleaseFound<K(!new)>(nodes: map<NodeKey, Node>, index: map<K, NodeKey>, ids: Node -> set<K>,
                              owner: K -> NodeKey, key: NodeKey)
    requires Found(nodes, index, ids, owner) && key in nodes
    ensures Found(nodes - {key}, index - ids(nodes[key]), ids, owner)
  {
    ReleaseSound(nodes, index, ids, key);
    forall k, i | k in nodes && k != key && i in ids(nodes[k]) ensures i !in ids(nodes[key]) {
      assert owner(i) == k;
    }
  }

  lemma ClaimFound<K(!new)>(nodes: map<NodeKey, Node>, index: map<K, NodeKey>, ids: Node -> set<K>, owner: K -> NodeKey,
                            key: NodeKey, node: Node)
    requires Found(nodes, index, ids, owner) && key !in nodes && forall i :: i in ids(node) ==> owner(i) == key
    ensures Found(nodes[key := node], Claim(index, ids(node), key), ids, owner)
  {
    assert nodes - {key} == nodes;
    ClaimSound(nodes, index, ids, key, node);
    ClaimComplete(nodes, index, ids, key, node);
    hide IndexSound, Claim;
    forall k | k in nodes && k != key ensures ids(nodes[k]) !! ids(node) {
      assert forall i :: i in ids(nodes[k]) ==> owner(i) == k;
    }
  }

  lemma RemoveFinds(t: Table, key: NodeKey, o: Owners)
    requires AllFound(t, o)
    ensures AllFound(Remove(t, key), o)
  {
    hide Found, Unlink;
    if key in t.nodes {
      ReleaseFound(t.nodes, t.writers, (n: Node) => n.writerGids, o.writer, key);
      ReleaseFound(t.nodes, t.readers, (n: Node) => n.readerGids, o.reader, key);
      ReleaseFound(t.nodes, t.writerIds, (n: Node) => n.writerIds, o.writerId, key);
      ReleaseFound(t.nodes, t.readerIds, (n: Node) => n.readerIds, o.readerId, key);
    }
  }

  lemma EnterFinds(t: Table, key: NodeKey, node: Node, o: Owners)
    requires AllFound(t, o) && key !in t.nodes && Respects(node, key, o)
    ensures AllFound(InsertIndexes(t.(nodes := t.nodes[key := node]), key, node), o)
  {
    hide Found, Link, Claim;
    ClaimFound(t.nodes, t.writers, (n: Node) => n.writerGids, o.writer, key, node);
    ClaimFound(t.nodes, t.readers, (n: Node) => n.readerGids, o.reader, key, node);
    ClaimFound(t.nodes, t.writerIds, (n: Node) => n.writerIds, o.writerId, key, node);
    ClaimFound(t.nodes, t.readerIds, (n: Node) => n.readerIds, o.readerId, key, node);
  }

  lemma UpsertFinds(t: Table, s: NodeSample, now: Time, o: Owners)
    requires AllFound(t, o) && SampleRespects(s, o)
    ensures AllFound(Upsert(t, s, now), o)
  {
    hide AllFound, PutNode, Remove, InsertIndexes;
    if KeyOf(s).Some? {
      var key, l := KeyOf(s).value, ListingOf(s);
      PutIsReplacement(t, key, l, now);
      RemoveFinds(t, key, o);
      RespectsAnyTime(l, key, o, FirstSeen(t, key, now), now);
      EnterFinds(Remove(t, key), key, NodeOf(l, key, FirstSeen(t, key, now), now), o);
    }
  }

  ghost predicate SampleRespects(s: NodeSample, o: Owners) {
    KeyOf(s).Some? ==> Respects(NodeOf(ListingOf(s), KeyOf(s).value, 0, 0), KeyOf(s).value, o)
  }

  lemma RespectsAnyTime(l: Listing, key: NodeKey, o: Owners, firstSeen: Time, now: Time)
    requires Respects(NodeOf(l, key, 0, 0), key, o)
    ensures Respects(NodeOf(l, key, firstSeen, now), key, o)
  {
  }

  datatype Step =
    | UpsertOne(sample: NodeSample, now: Time)
    | RemoveOne(key: NodeKey)
    | Replace(stale: seq<NodeKey>, samples: seq<NodeSample>, now: Time)

  function Next(t: Table, step: Step): Table {
    match step
    case UpsertOne(s, now) => Upsert(t, s, now)
    case RemoveOne(key) => Remove(t, key)
    case Replace(stale, samples, now) => UpsertEach(RemoveEach(t, stale), samples, now)
  }

  function Run(steps: seq<Step>): Table {
    if steps == [] then Table(map[], map[], map[], map[], map[], map[], map[])
    else Next(Run(steps[..|steps| - 1]), steps[|steps| - 1])
  }

  ghost predicate StepRespects(step: Step, o: Owners) {
    match step
    case UpsertOne(s, _) => SampleRespects(s, o)
    case RemoveOne(_) => true
    case Replace(_, samples, _) => forall s :: s in samples ==> SampleRespects(s, o)
  }

  lemma {:induction false} UpsertEachFinds(t: Table, samples: seq<NodeSample>, now: Time, o: Owners)
    requires AllFound(t, o) && forall s :: s in samples ==> SampleRespects(s, o)
    ensures AllFound(UpsertEach(t, samples, now), o)
  {
    hide AllFound, SampleRespects, Upsert;
    if samples != [] {
      UpsertEachFinds(t, samples[..|samples| - 1], now, o);
      UpsertFinds(UpsertEach(t, samples[..|samples| - 1], now), samples[|samples| - 1], now, o);
    }
  }

  lemma {:induction false} RemoveEachFinds(t: Table, keys: seq<NodeKey>, o: Owners)
    requires AllFound(t, o)
    ensures AllFound(RemoveEach(t, keys), o)
  {
    hide AllFound, Remove;
    if keys != [] {
      RemoveEachFinds(t, keys[..|keys| - 1], o);
      RemoveFinds(RemoveEach(t, keys[..|keys| - 1]), keys[|keys| - 1], o);
    }
  }

  /** In every table that a run leads to all six indexes agree with the nodes. */
  lemma {:induction false} RunKeeps(steps: seq<Step>)
    ensures Valid(Run(steps))
  {
    hide Upsert, Remove, UpsertEach, RemoveEach;
    if steps != [] {
      var t := Run(steps[..|steps| - 1]);
      RunKeeps(steps[..|steps| - 1]);
      hide Valid;
      match steps[|steps| - 1]
      case UpsertOne(s, now) => UpsertKeeps(t, s, now);
      case RemoveOne(key) => RemoveKeeps(t, key);
      case Replace(stale, samples, now) =>
        RemoveEachKeeps(t, stale);
        UpsertEachKeeps(RemoveEach(t, stale), samples, now);
    }
  }

  /** As long as no two nodes list the same id, every listed id is found, in every table that a run leads to. */
  lemma {:induction false} RunFinds(steps: seq<Step>, o: Owners)
    requires forall i :: 0 <= i < |steps| ==> StepRespects(steps[i], o)
    ensures AllFound(Run(steps), o)
  {
    hide Upsert, Remove, UpsertEach, RemoveEach, SampleRespects;
    if steps != [] {
      var t, last := Run(steps[..|steps| - 1]), steps[|steps| - 1];
      RunFinds(steps[..|steps| - 1], o);
      hide AllFound;
      assert StepRespects(last, o);
      match last
      case UpsertOne(s, now) => UpsertFinds(t, s, now, o);
      case RemoveOne(key) => RemoveFinds(t, key, o);
      case Replace(stale, samples, now) =>
        RemoveEachFinds(t, stale, o);
        UpsertEachFinds(RemoveEach(t, stale), samples, now, o);
    }
  }

  // ---------- The table as an object ----------

  class NodeTable {
    var nodes: map<NodeKey, Node>
    var writerIndex: map<TopicGid, NodeKey>
    var readerIndex: map<TopicGid, NodeKey>
    var writerIdIndex: map<EndpointId, NodeKey>
    var readerIdIndex: map<EndpointId, NodeKey>
    var participantIndex: map<TopicGid, set<NodeKey>>
    var participantIdIndex: map<ParticipantId, set<NodeKey>>

    constructor ()
      ensures Valid(Now()) && nodes == map[]
    {
      nodes, writerIndex, readerIndex, writerIdIndex, readerIdIndex := map[], map[], map[], map[], map[];
      participantIndex, participantIdIndex := map[], map[];
    }

    function Now(): Table
      reads this
    {
      Table(nodes, writerIndex, readerIndex, writerIdIndex, readerIdIndex, participantIndex, participantIdIndex)
    }

    /** The node found for a writer lists that writer. */
    method NodeForWriter(gid: TopicGid) returns (found: Option<Node>)
      requires Valid(Now())
      ensures found.Some? <==> gid in writerIndex
      ensures found.Some? ==> found.value == nodes[writerIndex[gid]] && gid in found.value.writerGids
    {
      if gid !in writerIndex || writerIndex[gid] !in nodes {
        return None;
      }
      found := Some(nodes[writerIndex[gid]]);
    }

    /** The nodes of a participant are found under its GID, all of them. */
    method NodesForParticipant(gid: TopicGid) returns (found: set<NodeKey>)
      requires Valid(Now())
      ensures forall k :: k in found <==> k in nodes && k.participantGid == Some(gid)
    {
      found := if gid in participantIndex then set k | k in participantIndex[gid] && k in nodes else {};
    }

    static method ReleaseEach<K(==)>(index: map<K, NodeKey>, ids: set<K>) returns (index': map<K, NodeKey>)
      ensures index' == index - ids
    {
      index' := index;
      var remaining := ids;
      while remaining != {}
        invariant remaining <= ids && index' == index - (ids - remaining)
        decreases |remaining|
      {
        var id :| id in remaining;
        remaining := remaining - {id};
        index' := index' - {id};
      }
    }

    static method ClaimEach<K(==)>(index: map<K, NodeKey>, ids: set<K>, key: NodeKey) returns (index': map<K, NodeKey>)
      ensures index' == Claim(index, ids, key)
    {
      hide Claim;
      index' := index;
      var remaining := ids;
      ghost var done: set<K> := {};
      ClaimNothing(index, key);
      while remaining != {}
        invariant done + remaining == ids && done !! remaining
        invariant index' == Claim(index, done, key)
        decreases |remaining|
      {
        var id :| id in remaining;
        ClaimOneMore(index, done, id, key);
        remaining, done := remaining - {id}, done + {id};
        index' := index'[id := key];
      }
      assert done == ids;
    }

    method AddToIndexes(key: NodeKey, node: Node)
      modifies this
      ensures Now() == InsertIndexes(old(Now()), key, node)
    {
      hide Claim;
      if key.participantGid.Some? {
        participantIndex := Link(participantIndex, key.participantGid.value, key);
      }
      participantIdIndex := Link(participantIdIndex, node.participantId, key);
      writerIndex := ClaimEach(writerIndex, node.writerGids, key);
      readerIndex := ClaimEach(readerIndex, node.readerGids, key);
      writerIdIndex := ClaimEach(writerIdIndex, node.writerIds, key);
      readerIdIndex := ClaimEach(readerIdIndex, node.readerIds, key);
    }

    method RemoveFromIndexes(key: NodeKey, node: Node)
      modifies this
      ensures Now() == RemoveIndexes(old(Now()), key, node)
    {
      writerIndex := ReleaseEach(writerIndex, node.writerGids);
      readerIndex := ReleaseEach(readerIndex, node.readerGids);
      writerIdIndex := ReleaseEach(writerIdIndex, node.writerIds);
      readerIdIndex := ReleaseEach(readerIdIndex, node.readerIds);
      if key.participantGid.Some? {
        participantIndex := Unlink(participantIndex, key.participantGid.value, key);
      }
      participantIdIndex := Unlink(participantIdIndex, node.participantId, key);
    }

    method UpsertSample(s: NodeSample, now: Time)
      requires Valid(Now())
      modifies this
      ensures Valid(Now()) && Now() == Upsert(old(Now()), s, now)
    {
      hide Valid, InsertIndexes, RemoveIndexes, NodeOf;
      UpsertKeeps(Now(), s, now);
      RemoveIndexesNodes(Now(), s);
      if KeyOf(s).None? {
        return;
      }
      var key := KeyOf(s).value;
      if key in nodes {
        RemoveFromIndexes(key, nodes[key]);
      }
      var firstSeen := if key in nodes then nodes[key].firstSeen else now;
      var node := NodeOf(ListingOf(s), key, firstSeen, now);
      nodes := nodes[key := node];
      AddToIndexes(key, node);
    }

    method RemoveNode(key: NodeKey) returns (removed: Option<Node>)
      requires Valid(Now())
      modifies this
      ensures Valid(Now()) && Now() == Remove(old(Now()), key)
      ensures removed == if key in old(nodes) then Some(old(nodes)[key]) else None
    {
      hide Valid, RemoveIndexes;
      RemoveKeeps(Now(), key);
      if key !in nodes {
        return None;
      }
      removed := Some(nodes[key]);
      nodes := nodes - {key};
      RemoveFromIndexes(key, removed.value);
    }

    /** The stale keys leave in the order of their set, `stale`. */
    method ReplaceParticipantNodes(gid: TopicGid, samples: seq<NodeSample>, now: Time)
      returns (ghost stale: seq<NodeKey>)
      requires Valid(Now())
      modifies this
      ensures Valid(Now())
      ensures Elements(stale) == Stale(old(Now()), gid, samples)
      ensures Now() == UpsertEach(RemoveEach(old(Now()), stale), samples, now)
    {
      hide Valid, RemoveEach, UpsertEach, Elements, Retained;
      var keys := (if gid in participantIndex then participantIndex[gid] else {}) - Retained(samples);
      stale := RemoveNodes(keys);
      UpsertSamples(samples, now);
    }

    method RemoveNodes(keys: set<NodeKey>) returns (ghost order: seq<NodeKey>)
      requires Valid(Now())
      modifies this
      ensures Valid(Now()) && Elements(order) == keys && Now() == RemoveEach(old(Now()), order)
    {
      hide Valid, Remove;
      order := [];
      var remaining := keys;
      while remaining != {}
        invariant Valid(Now())
        invariant Elements(order) + remaining == keys
        invariant Now() == RemoveEach(old(Now()), order)
        decreases |remaining|
      {
        var key :| key in remaining;
        remaining := remaining - {key};
        var _ := RemoveNode(key);
        assert (order + [key])[..|order|] == order;
        order := order + [key];
      }
    }

    method UpsertSamples(samples: seq<NodeSample>, now: Time)
      requires Valid(Now())
      modifies this
      ensures Valid(Now()) && Now() == UpsertEach(old(Now()), samples, now)
    {
      hide Valid, Upsert;
      for i := 0 to |samples|
        invariant Valid(Now())
        invariant Now() == UpsertEach(old(Now()), samples[..i], now)
      {
        assert samples[..i + 1][..i] == samples[..i];
        UpsertSample(samples[i], now);
      }
      assert samples[..|samples|] == samples;
    }
  }

  lemma RemoveIndexesNodes(t: Table, s: NodeSample)
    ensures KeyOf(s).Some? && KeyOf(s).value in t.nodes ==>
            RemoveIndexes(t, KeyOf(s).value, t.nodes[KeyOf(s).value]).nodes == t.nodes
  {
  }
}
