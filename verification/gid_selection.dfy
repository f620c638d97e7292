/** Which topics the recorder's modes select, in terms of the names that endpoints announce. */
module GidSelection {
  import opened Basics
  import opened DiscoveryIds
  import opened GidMap
  import Discovery

  /** A name as ROS writes it: a DDS name without its prefix, an absolute name, or a relative one. */
  predicate Names(raw: string, name: string) {
    || raw == "rt/" + name
    || raw == "/" + name
    || (raw == name && !("/" <= raw) && !("rt/" <= raw))
  }

  lemma AbsoluteName(raw: string, name: string)
    requires Names(raw, name)
    ensures NormalizeTopic(raw) == "/" + name && NormalizeTopic("/" + name) == "/" + name
  {
    if raw == "rt/" + name {
      assert raw[3..] == name;
    }
    assert ("/" + name)[0] == '/' && "rt/"[0] == 'r';
  }

  /** The topic that carries the graph itself. */
  predicate IsGraphTopic(name: string) {
    name == "ros_discovery_info"
  }

  lemma GraphTopic(name: string)
    ensures "/" + name == ROS_DISCOVERY_INFO_TOPIC <==> IsGraphTopic(name)
  {
    assert ROS_DISCOVERY_INFO_TOPIC == "/" + "ros_discovery_info";
    if "/" + name == ROS_DISCOVERY_INFO_TOPIC {
      assert ("/" + name)[1..] == name;
      assert ROS_DISCOVERY_INFO_TOPIC[1..] == "ros_discovery_info";
    }
  }

  /** The endpoint of a GID announces this topic. */
  ghost predicate Announces(entries: Entries, gid: TopicGid, name: string) {
    && RtpsEndpoint(gid) in entries && entries[RtpsEndpoint(gid)].data.details.topicName.Some?
    && Names(entries[RtpsEndpoint(gid)].data.details.topicName.value, name)
  }

  /**
   A publication is selected when all topics are recorded, when its topic is one of the
   named ones, and in any mode when it carries the graph. The selection says its
   absolute topic, its type, and its participant.
   */
  lemma PublicationSelected(s: Selection, t: Discovery.Table, mode: Mode, types: TypeNames, gid: TopicGid, name: string)
    requires IsSelection(s, t, mode, types) && Announces(t.publications.entries, gid, name)
    requires forall graph :: IsGraphTopic(graph) ==> !Announces(t.subscriptions.entries, gid, graph)
    ensures gid in s <==>
            || IsGraphTopic(name)
            || mode == All
            || (mode.Explicit? && "/" + name in mode.topics)
    ensures gid in s ==>
              var data := t.publications.entries[RtpsEndpoint(gid)].data;
              && s[gid].topicName == "/" + name && s[gid].participantGid == data.participantGid
              && s[gid].typeName == (if data.details.typeName.Some? then Some(types(data.details.typeName.value))
                                     else None)
  {
    AbsoluteName(t.publications.entries[RtpsEndpoint(gid)].data.details.topicName.value, name);
    GraphTopic(name);
    NoGraphReader(t, gid);
    hide NormalizeTopic, Names, IsGraphTopic;
  }

  /** A subscription without the graph as its topic is none that the selection takes. */
  lemma NoGraphReader(t: Discovery.Table, gid: TopicGid)
    requires forall graph :: IsGraphTopic(graph) ==> !Announces(t.subscriptions.entries, gid, graph)
    ensures !BySubscription(t, gid)
  {
    if BySubscription(t, gid) {
      var raw := t.subscriptions.entries[RtpsEndpoint(gid)].data.details.topicName.value;
      var graph := "ros_discovery_info";
      GraphRaw(raw);
      assert IsGraphTopic(graph) && Announces(t.subscriptions.entries, gid, graph);
    }
  }

  lemma GraphRaw(raw: string)
    requires NormalizeTopic(raw) == ROS_DISCOVERY_INFO_TOPIC
    ensures Names(raw, "ros_discovery_info")
  {
    var graph := "ros_discovery_info";
    assert ROS_DISCOVERY_INFO_TOPIC == "/" + graph;
    if "rt/" <= raw {
      assert raw == "rt/" + raw[3..];
      assert ("/" + raw[3..])[1..] == raw[3..] && ("/" + graph)[1..] == graph;
    } else if !("/" <= raw) {
      assert ("/" + raw)[1..] == raw && ("/" + graph)[1..] == graph;
    }
  }

  /** A subscription of the graph's topic is selected in every mode, and its entry is the one that counts. */
  lemma GraphReaderSelected(s: Selection, t: Discovery.Table, mode: Mode, types: TypeNames, gid: TopicGid, name: string)
    requires IsSelection(s, t, mode, types) && IsGraphTopic(name) && Announces(t.subscriptions.entries, gid, name)
    ensures gid in s && s[gid].topicName == "/ros_discovery_info"
    ensures s[gid].participantGid == t.subscriptions.entries[RtpsEndpoint(gid)].data.participantGid
  {
    AbsoluteName(t.subscriptions.entries[RtpsEndpoint(gid)].data.details.topicName.value, name);
    GraphTopic(name);
    hide NormalizeTopic, Names;
  }

  /** A GID that no endpoint of the table has is not selected. */
  lemma StrangerNotSelected(s: Selection, t: Discovery.Table, mode: Mode, types: TypeNames, gid: TopicGid)
    requires IsSelection(s, t, mode, types)
    requires RtpsEndpoint(gid) !in t.publications.entries && RtpsEndpoint(gid) !in t.subscriptions.entries
    ensures gid !in s
  {
  }
}
