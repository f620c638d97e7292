/** What the node table shows of a participant, in the terms of the samples that list its nodes. */
module NodeListings {
  import opened Basics
  import opened DiscoveryIds
  import opened Nodes

  /** The sample names this node: its participant by id or else by GID, its GID, namespace and name. */
  predicate NamesNode(s: NodeSample, key: NodeKey) {
    && s.namespace == key.namespace && s.name == key.name && s.participantGid == key.participantGid
    && (if s.participantId.Some? then s.participantId == Some(key.participantId)
        else s.participantGid.Some? && key.participantId == RtpsParticipant(s.participantGid.value))
  }

  lemma NamesIsKey(s: NodeSample, key: NodeKey)
    ensures NamesNode(s, key) <==> KeyOf(s) == Some(key)
  {
  }

  /** The entry lists what the sample lists, an RTPS endpoint also by its GID. */
  ghost predicate ListsAs(node: Node, s: NodeSample) {
    && (forall g :: g in node.writerGids <==> g in s.writerGids)
    && (forall g :: g in node.readerGids <==> g in s.readerGids)
    && (forall id :: id in node.writerIds <==>
          id in s.writerIds || exists g :: g in s.writerGids && id == RtpsEndpoint(g))
    && (forall id :: id in node.readerIds <==>
          id in s.readerIds || exists g :: g in s.readerGids && id == RtpsEndpoint(g))
  }

  lemma ListingLists(s: NodeSample, key: NodeKey, firstSeen: Time, now: Time)
    ensures ListsAs(NodeOf(ListingOf(s), key, firstSeen, now), s)
    ensures NodeOf(ListingOf(s), key, firstSeen, now).firstSeen == firstSeen
    ensures NodeOf(ListingOf(s), key, firstSeen, now).lastSeen == now
    ensures NodeOf(ListingOf(s), key, firstSeen, now).participantId == key.participantId
  {
  }

  /** The last of several samples that names a node. */
  ghost predicate LastNaming(samples: seq<NodeSample>, key: NodeKey, i: nat) {
    i < |samples| && NamesNode(samples[i], key) && forall j :: i < j < |samples| ==> !NamesNode(samples[j], key)
  }

  lemma {:induction false} LastIs(samples: seq<NodeSample>, key: NodeKey, i: nat)
    requires LastNaming(samples, key, i)
    ensures key in Retained(samples) && LastOf(samples, key) == samples[i]
    decreases |samples|
  {
    hide NamesNode;
    NamesIsKey(samples[i], key);
    assert samples[i] in samples;
    var n := |samples| - 1;
    NamesIsKey(samples[n], key);
    if i < n {
      assert !NamesNode(samples[n], key);
      LastIs(samples[..n], key, i);
    }
  }

  lemma RetainedNamed(samples: seq<NodeSample>, key: NodeKey)
    ensures key in Retained(samples) <==> exists i :: 0 <= i < |samples| && NamesNode(samples[i], key)
  {
    hide NamesNode;
    forall i | 0 <= i < |samples| {
      NamesIsKey(samples[i], key);
    }
    if key in Retained(samples) {
      var s :| s in samples && KeyOf(s) == Some(key);
      var i :| 0 <= i < |samples| && samples[i] == s;
      assert NamesNode(samples[i], key);
    }
  }

  /**
   When the samples of a participant replace its nodes, each node shows what the last
   sample that names it lists, first seen when it first was; a node of the participant
   that no sample names is gone; every other node is as it was.
   */
  lemma ReplacedBySamples(t: Table, gid: TopicGid, stale: seq<NodeKey>, samples: seq<NodeSample>, now: Time)
    requires Valid(t) && Elements(stale) == Stale(t, gid, samples)
    ensures var after := UpsertEach(RemoveEach(t, stale), samples, now);
            && (forall key, i: nat :: LastNaming(samples, key, i) ==>
                  && key in after.nodes && ListsAs(after.nodes[key], samples[i])
                  && after.nodes[key].lastSeen == now
                  && after.nodes[key].firstSeen == if key in t.nodes then t.nodes[key].firstSeen else now)
            && (forall key :: (forall i :: 0 <= i < |samples| ==> !NamesNode(samples[i], key)) ==>
                  if key.participantGid == Some(gid) then key !in after.nodes
                  else
                    && (key in after.nodes <==> key in t.nodes)
                    && (key in t.nodes ==> after.nodes[key] == t.nodes[key]))
  {
    ReplaceExact(t, gid, stale, samples, now);
    hide Valid, NodeOf, ListingOf, UpsertEach, RemoveEach, Stale, Elements, Retained, NamesNode, ListsAs, LastNaming;
    forall key, i: nat | LastNaming(samples, key, i)
      ensures var after := UpsertEach(RemoveEach(t, stale), samples, now);
              && key in after.nodes && ListsAs(after.nodes[key], samples[i])
              && after.nodes[key].lastSeen == now
              && after.nodes[key].firstSeen == if key in t.nodes then t.nodes[key].firstSeen else now
    {
      LastIs(samples, key, i);
      ListingLists(samples[i], key, FirstSeen(t, key, now), now);
    }
    forall key | forall i :: 0 <= i < |samples| ==> !NamesNode(samples[i], key) ensures key !in Retained(samples) {
      RetainedNamed(samples, key);
    }
  }
}
