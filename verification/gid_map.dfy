/**
 The kernel's map of topic GIDs and its mirror in user space. Kernel calls may be
 refused at any point; after every step both sides still hold the same keys.
 */
module GidMap {
  import opened Basics
  import opened DiscoveryIds
  import opened Directories
  import Discovery

  const MAX_TOPIC_GIDS: nat := 1024
  const ROS_DISCOVERY_INFO_TOPIC: string := "/ros_discovery_info"

  datatype Metadata = Metadata(topicName: string, typeName: Option<string>, participantGid: Option<TopicGid>)

  datatype Mode = All | Nothing | Explicit(topics: set<string>)

  datatype Stats = Stats(inserted: nat, updated: nat, removed: nat, retained: nat)

  type Selection = map<TopicGid, Metadata>

  // ---------- What is selected ----------

  function NormalizeTopic(name: string): string {
    if "rt/" <= name then "/" + name[3..]
    else if "/" <= name then name
    else "/" + name
  }

  /** Names come out absolute, and normalising twice is normalising once. */
  lemma NormalizeTwice(name: string)
    ensures "/" <= NormalizeTopic(name)
    ensures NormalizeTopic(NormalizeTopic(name)) == NormalizeTopic(name)
  {
    var once := NormalizeTopic(name);
    assert once[0] == '/';
  }

  predicate Matches(mode: Mode, topic: string) {
    topic == ROS_DISCOVERY_INFO_TOPIC || mode.All? || (mode.Explicit? && topic in mode.topics)
  }

  type Entries = map<EndpointId, Entry<Discovery.EndpointData>>

  /** The entry of the RTPS endpoint with a GID, when it has a topic. */
  predicate HasTopic(entries: Entries, gid: TopicGid) {
    RtpsEndpoint(gid) in entries && entries[RtpsEndpoint(gid)].data.details.topicName.Some?
  }

  function TopicOf(entries: Entries, gid: TopicGid): string
    requires HasTopic(entries, gid)
  {
    NormalizeTopic(entries[RtpsEndpoint(gid)].data.details.topicName.value)
  }

  /** Normalisation of type names is left uninterpreted. */
  type TypeNames = string -> string

  function BuildMetadata(data: Discovery.EndpointData, topic: string, types: TypeNames): Metadata {
    Metadata(NormalizeTopic(topic),
             match data.details.typeName { case None => None case Some(name) => Some(types(name)) },
             data.participantGid)
  }

  ghost predicate ByPublication(t: Discovery.Table, mode: Mode, gid: TopicGid) {
    HasTopic(t.publications.entries, gid) && Matches(mode, TopicOf(t.publications.entries, gid))
  }

  ghost predicate BySubscription(t: Discovery.Table, gid: TopicGid) {
    HasTopic(t.subscriptions.entries, gid) && TopicOf(t.subscriptions.entries, gid) == ROS_DISCOVERY_INFO_TOPIC
  }

  /** Where a selected GID is taken from. */
  ghost function SourceOf(t: Discovery.Table, gid: TopicGid): Entries {
    if BySubscription(t, gid) then t.subscriptions.entries else t.publications.entries
  }

  /** Publications of matching topics, and the subscriptions of the discovery topic, which come last. */
  ghost predicate IsSelection(s: Selection, t: Discovery.Table, mode: Mode, types: TypeNames) {
    && (forall g :: g in s <==> ByPublication(t, mode, g) || BySubscription(t, g))
    && (forall g :: g in s ==> s[g].topicName == TopicOf(SourceOf(t, g), g))
    && (forall g :: g in s ==>
        var data := SourceOf(t, g)[RtpsEndpoint(g)].data;
        s[g] == BuildMetadata(data, s[g].topicName, types))
  }

  /** There is one selection for a table and a mode. */
  lemma SelectionUnique(a: Selection, b: Selection, t: Discovery.Table, mode: Mode, types: TypeNames)
    requires IsSelection(a, t, mode, types) && IsSelection(b, t, mode, types)
    ensures a == b
  {
    hide ByPublication, BySubscription, BuildMetadata;
    assert a.Keys == b.Keys;
  }

  // ---------- The mirror ----------

  class RecorderTopicGidMap {
    /** The keys the kernel holds; only the kernel calls below change them. */
    var kernel: set<TopicGid>
    var current: Selection
    var mode: Mode
    const types: TypeNames

    constructor (types: TypeNames)
      ensures Mirrored() && current == map[] && mode == Nothing && this.types == types
    {
      kernel, current, mode, this.types := {}, map[], Nothing, types;
    }

    ghost predicate Mirrored()
      reads this
    {
      kernel == current.Keys && |kernel| <= MAX_TOPIC_GIDS
    }

    /** The kernel may refuse; then its map is unchanged. */
    method KernelRemove(gid: TopicGid) returns (ok: bool, ghost refused: bool)
      modifies this`kernel
      ensures ok == (gid in old(kernel) && !refused)
      ensures kernel == if ok then old(kernel) - {gid} else old(kernel)
    {
      var refuses: bool := *;
      refused := refuses;
      ok := gid in kernel && !refuses;
      if ok {
        kernel := kernel - {gid};
      }
    }

    /** A new key needs room in the kernel's map. */
    method KernelInsert(gid: TopicGid) returns (ok: bool, ghost refused: bool)
      modifies this`kernel
      ensures ok == (!refused && (gid in old(kernel) || |old(kernel)| < MAX_TOPIC_GIDS))
      ensures kernel == if ok then old(kernel) + {gid} else old(kernel)
    {
      var refuses: bool := *;
      refused := refuses;
      ok := !refuses && (gid in kernel || |kernel| < MAX_TOPIC_GIDS);
      if ok {
        kernel := kernel + {gid};
      }
    }

    /** One removal: both sides lose the key, or neither. */
    method RemoveOne(gid: TopicGid) returns (ok: bool, ghost refused: bool)
      requires Mirrored() && gid in current
      modifies this`kernel, this`current
      ensures Mirrored()
      ensures current == if ok then old(current) - {gid} else old(current)
      ensures ok == !refused
    {
      ok, refused := KernelRemove(gid);
      if ok {
        assert kernel <= old(kernel);
        SubsetSize(kernel, old(kernel));
        current := current - {gid};
      }
    }

    /** One insertion or update: both sides gain the key, or neither. */
    method PutOne(gid: TopicGid, metadata: Metadata, ghost next: set<TopicGid>) returns (ok: bool, ghost refused: bool)
      requires Mirrored() && current.Keys <= next && gid in next && |next| <= MAX_TOPIC_GIDS
      modifies this`kernel, this`current
      ensures Mirrored()
      ensures current == if ok then old(current)[gid := metadata] else old(current)
      ensures ok == !refused
    {
      if gid !in current {
        SubsetSize(kernel + {gid}, next);
      }
      ok, refused := KernelInsert(gid);
      if ok {
        SubsetSize(kernel, next);
        current := current[gid := metadata];
      }
    }

    /**
     Whatever the kernel refuses, both sides agree afterwards; only a refusal makes
     the call fail, never a lack of room; and success means the selection is in force.
     */
    method Sync(next: Selection) returns (stats: Option<Stats>, ghost refused: bool)
      requires Mirrored() && |next| <= MAX_TOPIC_GIDS
      modifies this`kernel, this`current
      ensures Mirrored()
      ensures stats.Some? <==> !refused
      ensures stats.Some? ==> current == next
      ensures forall g :: g in current ==>
        (g in next && current[g] == next[g]) || (g in old(current) && current[g] == old(current)[g])
      ensures stats.Some? ==>
        && stats.value.removed == |old(current).Keys - next.Keys|
        && stats.value.inserted == |next.Keys - old(current).Keys|
        && stats.value.updated == |Changed(old(current), next)|
        && stats.value.inserted + stats.value.updated + stats.value.retained == |next|
    {
      hide Changed;
      var ok, removed;
      ok, removed, refused := RemoveStale(next);
      if !ok {
        return None, refused;
      }
      stats, refused := PutAll(next, removed, old(current));
    }

    /** First the keys that are no longer selected leave, so that there is room for the others. */
    method RemoveStale(next: Selection) returns (ok: bool, removed: nat, ghost refused: bool)
      requires Mirrored()
      modifies this`kernel, this`current
      ensures Mirrored()
      ensures ok == !refused
      ensures !refused ==> current == Without(old(current), old(current).Keys - next.Keys)
      ensures !refused ==> removed == |old(current).Keys - next.Keys|
      ensures forall g :: g in current ==> g in old(current) && current[g] == old(current)[g]
    {
      hide Mirrored, Without;
      ok, removed, refused := true, 0, false;
      ghost var before := current;
      var stale := set g | g in current && g !in next;
      ghost var all := stale;
      assert all == before.Keys - next.Keys;
      WithoutNone(before, all);
      while stale != {}
        invariant Mirrored() && ok && !refused
        invariant stale <= all && removed + |stale| == |all|
        invariant current == Without(before, all - stale)
        decreases |stale|
      {
        var gid :| gid in stale;
        WithoutOne(before, all, stale, gid);
        WithoutWithin(before, all - stale);
        stale := stale - {gid};
        ok, refused := RemoveOne(gid);
        if !ok {
          return;
        }
        removed := removed + 1;
      }
      assert all - stale == all;
      WithoutWithin(before, all);
    }

    /** Then every selected key is inserted, updated or left as it is. */
    method PutAll(next: Selection, removed: nat, ghost before: Selection)
      returns (stats: Option<Stats>, ghost refused: bool)
      requires Mirrored() && |next| <= MAX_TOPIC_GIDS
      requires current == Without(before, before.Keys - next.Keys)
      modifies this`kernel, this`current
      ensures Mirrored()
      ensures stats.Some? <==> !refused
      ensures stats.Some? ==> current == next
      ensures forall g :: g in current ==>
                (g in next && current[g] == next[g]) || (g in before && current[g] == before[g])
      ensures stats.Some? ==>
        && stats.value.removed == removed
        && stats.value.inserted == |next.Keys - before.Keys|
        && stats.value.updated == |Changed(before, next)|
        && stats.value.inserted + stats.value.updated + stats.value.retained == |next|
    {
      hide Changed, Partly, Mirrored, Without;
      refused := false;
      var inserted, updated, retained := 0, 0, 0;
      var remaining := next.Keys;
      PartlyFirst(before, next);
      while remaining != {}
        invariant Mirrored() && !refused
        invariant Partly(current, before, next, remaining)
        invariant inserted + Arriving(before, remaining) == Arriving(before, next.Keys)
        invariant updated + Changing(before, next, remaining) == Changing(before, next, next.Keys)
        invariant inserted + updated + retained + |remaining| == |next|
        decreases |remaining|
      {
        hide Arriving, Changing;
        var gid :| gid in remaining;
        PartlyWithin(current, before, next, remaining);
        PartlyPut(current, before, next, remaining, gid);
        CountOne(before, next, remaining, gid);
        remaining := remaining - {gid};
        var ok;
        if gid in current && current[gid] == next[gid] {
          retained := retained + 1;
        } else {
          var known := gid in current;
          ok, refused := PutOne(gid, next[gid], next.Keys);
          if !ok {
            return None, refused;
          }
          if known {
            updated := updated + 1;
          } else {
            inserted := inserted + 1;
          }
        }
      }
      PartlyDone(current, before, next);
      CountNone(before, next);
      stats := Some(Stats(inserted, updated, removed, retained));
    }

    /** A selection too large for the kernel is refused as a whole. */
    method RebuildFromTable(table: Discovery.DiscoveryTable)
      returns (stats: Option<Stats>, ghost selected: Selection, ghost refused: bool)
      requires Mirrored()
      modifies this`kernel, this`current
      ensures Mirrored()
      ensures IsSelection(selected, table.Now(), mode, types)
      ensures forall s :: IsSelection(s, table.Now(), mode, types) ==> s == selected
      ensures |selected| > MAX_TOPIC_GIDS ==> stats.None? && current == old(current) && kernel == old(kernel)
      ensures |selected| <= MAX_TOPIC_GIDS ==> (stats.Some? <==> !refused)
      ensures stats.Some? ==> current == selected
    {
      hide IsSelection;
      refused := false;
      var next := SelectFromTable(table);
      selected := next;
      forall s | IsSelection(s, table.Now(), mode, types) ensures s == selected {
        SelectionUnique(s, selected, table.Now(), mode, types);
      }
      if |next| > MAX_TOPIC_GIDS {
        return None, selected, refused;
      }
      stats, refused := Sync(next);
    }

    method SelectFromTable(table: Discovery.DiscoveryTable) returns (selected: Selection)
      ensures IsSelection(selected, table.Now(), mode, types)
    {
      hide BuildMetadata, NormalizeTopic, Matches;
      var pubs, subs := table.publications, table.subscriptions;
      selected := map[];
      var remaining := pubs.Keys;
      while remaining != {}
        invariant remaining <= pubs.Keys
        invariant forall g :: g in selected <==>
          RtpsEndpoint(g) !in remaining && HasTopic(pubs, g) && Matches(mode, TopicOf(pubs, g))
        invariant forall g :: g in selected ==>
          selected[g] == BuildMetadata(pubs[RtpsEndpoint(g)].data, TopicOf(pubs, g), types)
        decreases |remaining|
      {
        var id :| id in remaining;
        remaining := remaining - {id};
        var data := pubs[id].data;
        if id.RtpsGid().Some? && data.details.topicName.Some? {
          var topic := NormalizeTopic(data.details.topicName.value);
          if Matches(mode, topic) {
            selected := selected[id.gid := BuildMetadata(data, topic, types)];
          }
        }
      }
      ghost var published := selected;
      remaining := subs.Keys;
      while remaining != {}
        invariant remaining <= subs.Keys
        invariant forall g :: g in selected <==>
          g in published || (RtpsEndpoint(g) !in remaining && BySubscription(table.Now(), g))
        invariant forall g :: g in selected ==>
          selected[g] == if RtpsEndpoint(g) !in remaining && BySubscription(table.Now(), g)
                         then BuildMetadata(subs[RtpsEndpoint(g)].data, TopicOf(subs, g), types)
                         else published[g]
        decreases |remaining|
      {
        var id :| id in remaining;
        remaining := remaining - {id};
        var data := subs[id].data;
        if id.RtpsGid().Some? && data.details.topicName.Some? {
          var topic := NormalizeTopic(data.details.topicName.value);
          if topic == ROS_DISCOVERY_INFO_TOPIC {
            selected := selected[id.gid := BuildMetadata(data, topic, types)];
          }
        }
      }
      forall g | g in selected
        ensures selected[g].topicName == TopicOf(if BySubscription(table.Now(), g) then subs else pubs, g)
      {
        TopicNamed(if BySubscription(table.Now(), g) then subs else pubs, g, types);
      }
    }
  }

  lemma TopicNamed(entries: Entries, g: TopicGid, types: TypeNames)
    requires HasTopic(entries, g)
    ensures BuildMetadata(entries[RtpsEndpoint(g)].data, TopicOf(entries, g), types).topicName == TopicOf(entries, g)
  {
    NormalizeTwice(entries[RtpsEndpoint(g)].data.details.topicName.value);
  }

  /** The keys whose metadata a new selection changes. */
  ghost function Changed(before: Selection, next: Selection): set<TopicGid> {
    set g | g in before && g in next && before[g] != next[g]
  }

  ghost function Without(s: Selection, gone: set<TopicGid>): Selection {
    s - gone
  }

  lemma WithoutNone(s: Selection, all: set<TopicGid>)
    ensures Without(s, all - all) == s
  {
  }

  lemma WithoutOne(s: Selection, all: set<TopicGid>, left: set<TopicGid>, g: TopicGid)
    requires g in left && left <= all
    ensures g in s ==> g in Without(s, all - left)
    ensures Without(s, all - left) - {g} == Without(s, all - (left - {g}))
  {
  }

  lemma WithoutWithin(s: Selection, gone: set<TopicGid>)
    ensures forall k :: k in Without(s, gone) ==> k in s && Without(s, gone)[k] == s[k]
  {
  }

  /** The keys outside `remaining` have been put, the others are as they were. */
  ghost predicate Partly(current: Selection, before: Selection, next: Selection, remaining: set<TopicGid>) {
    && remaining <= next.Keys
    && (forall g :: g in current <==> g in next && (g in remaining ==> g in before))
    && (forall g :: g in current ==> current[g] == if g in remaining then before[g] else next[g])
  }

  lemma PartlyFirst(before: Selection, next: Selection)
    ensures Partly(Without(before, before.Keys - next.Keys), before, next, next.Keys)
  {
  }

  lemma PartlyPut(current: Selection, before: Selection, next: Selection, remaining: set<TopicGid>, g: TopicGid)
    requires Partly(current, before, next, remaining) && g in remaining
    ensures g in next
    ensures g in current <==> g in before
    ensures g in current ==> current[g] == before[g]
    ensures Partly(current[g := next[g]], before, next, remaining - {g})
    ensures g in current && current[g] == next[g] ==> Partly(current, before, next, remaining - {g})
  {
  }

  lemma PartlyWithin(current: Selection, before: Selection, next: Selection, remaining: set<TopicGid>)
    requires Partly(current, before, next, remaining)
    ensures current.Keys <= next.Keys
    ensures forall g :: g in current ==>
              (g in next && current[g] == next[g]) || (g in before && current[g] == before[g])
  {
  }

  lemma PartlyDone(current: Selection, before: Selection, next: Selection)
    requires Partly(current, before, next, {})
    ensures current == next
  {
  }

  /** How many of some keys are new, and how many change. */
  ghost function Arriving(before: Selection, keys: set<TopicGid>): nat {
    |keys - before.Keys|
  }

  ghost function Changing(before: Selection, next: Selection, keys: set<TopicGid>): nat {
    |Changed(before, next) * keys|
  }

  lemma CountOne(before: Selection, next: Selection, remaining: set<TopicGid>, g: TopicGid)
    requires g in next && g in remaining
    ensures Arriving(before, remaining) == Arriving(before, remaining - {g}) + if g in before then 0 else 1
    ensures Changing(before, next, remaining) ==
            Changing(before, next, remaining - {g}) + if g in before && before[g] != next[g] then 1 else 0
  {
    ShrinksBy(remaining, before.Keys, Changed(before, next), g);
  }

  lemma CountNone(before: Selection, next: Selection)
    ensures Arriving(before, {}) == 0 && Changing(before, next, {}) == 0
    ensures Arriving(before, next.Keys) == |next.Keys - before.Keys|
    ensures Changing(before, next, next.Keys) == |Changed(before, next)|
  {
    assert Changed(before, next) * next.Keys == Changed(before, next);
    assert Changed(before, next) * {} == {};
  }

  lemma ShrinksBy<T>(s: set<T>, b: set<T>, c: set<T>, x: T)
    requires x in s
    ensures |s - b| == |(s - {x}) - b| + if x in b then 0 else 1
    ensures |c * s| == |c * (s - {x})| + if x in c then 1 else 0
  {
    if x in b {
      assert (s - {x}) - b == s - b;
    } else {
      assert s - b == ((s - {x}) - b) + {x};
    }
    if x in c {
      assert c * s == c * (s - {x}) + {x};
    } else {
      assert c * s == c * (s - {x});
    }
  }
}
