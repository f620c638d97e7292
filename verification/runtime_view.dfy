/**
 What the discovery and node tables show of Zenoh, in terms of what key expressions
 parse to, and which flows hold which key expressions, in terms of what happened.
 */
module RuntimeView {
  import opened Basics
  import opened DiscoveryIds
  import opened ZenohEntities
  import opened ZenohFlows
  import opened RuntimeGraph
  import Directories
  import Discovery
  import Nodes

  // ---------- What an entity is to the tables ----------

  predicate Writes(info: EntityInfo) {
    info.kind == Publisher || info.kind == ServiceClient
  }

  predicate Reads(info: EntityInfo) {
    info.kind == Subscription || info.kind == ServiceServer
  }

  function Participant(info: EntityInfo): ParticipantId {
    ZenohParticipant(info.node.domainId, info.node.zid, info.node.nodeId)
  }

  /** The tag of the kind as rmw_zenoh writes it. */
  function Tag(kind: EntityKind): string {
    if kind == Publisher then "MP" else if kind == Subscription then "MS"
    else if kind == ServiceServer then "SS" else if kind == ServiceClient then "SC" else "NN"
  }

  function Endpoint(info: EntityInfo): EndpointId {
    ZenohEndpoint(info.node.domainId, info.node.zid, info.node.nodeId, info.node.entityId, Tag(info.kind))
  }

  function NodeName(info: EntityInfo): Nodes.NodeKey {
    Nodes.NodeKey(Participant(info), None, info.node.namespace, info.node.nodeName)
  }

  /** The entry of an endpoint carries its topic and its participant. */
  ghost predicate Carries(d: Discovery.Endpoints, info: EntityInfo) {
    && info.topic.Some? && Endpoint(info) in d.entries
    && d.entries[Endpoint(info)].data.participantId == Some(Participant(info))
    && d.entries[Endpoint(info)].data.details ==
       Discovery.EndpointDetails(Some(info.topic.value.name), Some(info.topic.value.typeName),
                                 Some(info.topic.value.typeHash))
  }

  ghost predicate HeldAs(w: World, env: Env, k: string, info: EntityInfo) {
    (exists f :: Holds(w.graph.entities, f, k)) && env.parse(k) == Some(info)
  }

  /** A writer is among the publications and the writers of its node, and so on for the other kinds. */
  ghost predicate InView(w: World, env: Env, k: string, info: EntityInfo) {
    var gid := env.gidOf(Entity(k, info));
    && Participant(info) in w.discovery.participants.entries
    && NodeName(info) in w.table.nodes
    && (Writes(info) ==>
          && Carries(w.discovery.publications, info)
          && Endpoint(info) in w.table.nodes[NodeName(info)].writerIds
          && gid in w.table.nodes[NodeName(info)].writerGids)
    && (Reads(info) ==>
          && Carries(w.discovery.subscriptions, info)
          && Endpoint(info) in w.table.nodes[NodeName(info)].readerIds
          && gid in w.table.nodes[NodeName(info)].readerGids)
  }

  ghost predicate IsHeld(w: World, env: Env, k: string, info: EntityInfo) {
    HeldAs(w, env, k, info)
  }

  ghost predicate SomeWriter(w: World, env: Env, id: EndpointId) {
    exists k, info :: IsHeld(w, env, k, info) && Writes(info) && Endpoint(info) == id
  }

  ghost predicate SomeReader(w: World, env: Env, id: EndpointId) {
    exists k, info :: IsHeld(w, env, k, info) && Reads(info) && Endpoint(info) == id
  }

  ghost predicate SomeOfNode(w: World, env: Env, key: Nodes.NodeKey) {
    exists k, info :: IsHeld(w, env, k, info) && NodeName(info) == key
  }

  ghost predicate SomeOfParticipant(w: World, env: Env, id: ParticipantId) {
    exists k, info :: IsHeld(w, env, k, info) && Participant(info) == id
  }

  /** Everything that is held is in view, and nothing else of Zenoh is. */
  ghost predicate ShowsHeld(w: World, env: Env) {
    && (forall k, info :: HeldAs(w, env, k, info) ==> InView(w, env, k, info))
    && (forall id :: id in w.discovery.publications.entries && id.ZenohEndpoint? ==> SomeWriter(w, env, id))
    && (forall id :: id in w.discovery.subscriptions.entries && id.ZenohEndpoint? ==> SomeReader(w, env, id))
    && (forall id :: id in w.discovery.participants.entries && id.ZenohParticipant? ==> SomeOfParticipant(w, env, id))
    && (forall key: Nodes.NodeKey ::
          key in w.table.nodes && key.participantId.ZenohParticipant? && key.participantGid == None ==>
          && SomeOfNode(w, env, key)
          && (forall id :: id in w.table.nodes[key].writerIds && id.ZenohEndpoint? ==> SomeWriter(w, env, id))
          && (forall id :: id in w.table.nodes[key].readerIds && id.ZenohEndpoint? ==> SomeReader(w, env, id)))
  }

  // ---------- From references to entities ----------

  /** The reference that a key expression stands for, by what it parses to. */
  lemma RefOfInfo(env: Env, k: string, info: EntityInfo)
    requires env.parse(k) == Some(info) && (info.kind == NodeEntity || info.topic.Some?)
    ensures RefFor(env, k).Some?
    ensures var ref := RefFor(env, k).value;
            && TableKey(ref.key) == NodeName(info) && ref.key.participantId == Participant(info)
            && (ref.NodeRef? <==> info.kind == NodeEntity)
            && (ref.EndpointRef? ==>
                  && ref.id == Endpoint(info) && ref.gid == env.gidOf(Entity(k, info)) && ref.topic == info.topic.value
                  && (ref.role == Writer <==> Writes(info)) && (ref.role == Reader <==> Reads(info)))
  {
  }

  lemma HeldHasMeaning(w: World, env: Env, k: string, info: EntityInfo)
    requires HeldAs(w, env, k, info) && TopicsGiven(env.parse)
    ensures k in MeaningOf(w.graph, env) && MeaningOf(w.graph, env)[k] == RefFor(env, k).value
    ensures info.kind == NodeEntity || info.topic.Some?
  {
    RefOfInfo(env, k, info);
    hide RefFor;
  }

  lemma MeaningIsHeld(w: World, env: Env, k: string)
    requires Related(w.graph, env) && k in MeaningOf(w.graph, env) && TopicsGiven(env.parse)
    ensures env.parse(k).Some? && HeldAs(w, env, k, env.parse(k).value)
    ensures env.parse(k).value.kind == NodeEntity || env.parse(k).value.topic.Some?
    ensures MeaningOf(w.graph, env)[k] == RefFor(env, k).value
  {
    var flow :| flow in w.graph.entities[k];
    assert Holds(w.graph.entities, flow, k);
  }

  /** The node entry shows what its key expressions stand for. */
  lemma NodeEntry(m: Meaning, w: World, key: RuntimeGraph.NodeName)
    requires Mirrors(m, w) && key.participantId.ZenohParticipant?
    ensures TableKey(key) in w.table.nodes <==> Named(m, key)
    ensures TableKey(key) in w.table.nodes ==> Nodes.Shows(w.table.nodes[TableKey(key)], NodeFor(m, key).listing)
  {
    hide NodeFor, Nodes.Shows, Distinct, Within;
  }

  lemma EndpointListed(m: Meaning, k: string)
    requires k in m && m[k].EndpointRef?
    ensures m[k].role == Writer ==> m[k].id in NodeFor(m, m[k].key).listing.writerIds
                                    && m[k].gid in NodeFor(m, m[k].key).listing.writerGids
    ensures m[k].role == Reader ==> m[k].id in NodeFor(m, m[k].key).listing.readerIds
                                    && m[k].gid in NodeFor(m, m[k].key).listing.readerGids
    ensures Named(m, m[k].key)
  {
    assert IsEndpoint(m[k], m[k].key, m[k].role);
  }

  /** The entry of an endpoint is that of the key expression that stands for it. */
  lemma EndpointEntry(m: Meaning, w: World, k: string)
    requires Mirrors(m, w) && Full(m, w.discovery) && k in m && m[k].EndpointRef?
    ensures var d := if m[k].role == Writer then w.discovery.publications else w.discovery.subscriptions;
            m[k].id in d.entries && d.entries[m[k].id].data == DataOf(m[k])
  {
    hide NodesExact, TableExact, DataOf, ParticipantsExact;
    var d := if m[k].role == Writer then w.discovery.publications else w.discovery.subscriptions;
    assert Zenoh(m[k]);
    assert EndsWithin(m, m[k].role, d) && m[k].id in d.entries;
    var j :| Publishes(m, j, m[k].role, m[k].id) && d.entries[m[k].id].data == DataOf(m[j]);
    SameThing(m, m[k].role, m[k].id, j, k);
  }

  lemma SameThing(m: Meaning, role: Role, id: EndpointId, j: string, k: string)
    requires Distinct(m) && Publishes(m, j, role, id) && Publishes(m, k, role, id)
    ensures j == k
  {
    assert Clash(m[j], m[k]);
  }

  lemma KeyBack(a: RuntimeGraph.NodeName, b: RuntimeGraph.NodeName)
    requires TableKey(a) == TableKey(b)
    ensures a == b
  {
  }

  /** The endpoint that a key expression stands for is in its table and in its node. */
  lemma EndpointInView(m: Meaning, w: World, k: string)
    requires Mirrors(m, w) && Full(m, w.discovery) && k in m && m[k].EndpointRef?
    ensures var ref := m[k];
            var d := if ref.role == Writer then w.discovery.publications else w.discovery.subscriptions;
            && ref.id in d.entries && d.entries[ref.id].data.participantId == Some(ref.key.participantId)
            && d.entries[ref.id].data.details ==
               Discovery.EndpointDetails(Some(ref.topic.name), Some(ref.topic.typeName), Some(ref.topic.typeHash))
            && TableKey(ref.key) in w.table.nodes
            && (var node := w.table.nodes[TableKey(ref.key)];
                if ref.role == Writer then ref.id in node.writerIds && ref.gid in node.writerGids
                else ref.id in node.readerIds && ref.gid in node.readerGids)
  {
    EndpointEntry(m, w, k);
    EndpointListed(m, k);
    MirrorsZenoh(m, w, k);
    hide Mirrors, Full, NodeFor, Named, TableKey;
    NodeEntry(m, w, m[k].key);
  }

  lemma NodeInView(m: Meaning, w: World, k: string)
    requires Mirrors(m, w) && k in m
    ensures TableKey(m[k].key) in w.table.nodes && m[k].key.participantId in w.discovery.participants.entries
  {
    MirrorsZenoh(m, w, k);
    hide Mirrors, NodeFor, TableKey;
    NodeEntry(m, w, m[k].key);
    assert Named(m, m[k].key);
  }

  lemma HeldInView(w: World, env: Env, k: string, info: EntityInfo)
    requires ShowsExactly(w, env) && TopicsGiven(env.parse) && HeldAs(w, env, k, info)
    ensures InView(w, env, k, info)
  {
    var m := MeaningOf(w.graph, env);
    HeldHasMeaning(w, env, k, info);
    RefOfInfo(env, k, info);
    hide MeaningOf, RefFor, Mirrors, Full, Related, TopicsGiven, Nodes.Valid, TableKey, Writes, Reads, Endpoint,
        Participant, HeldAs;
    NodeInView(m, w, k);
    if m[k].EndpointRef? {
      EndpointInView(m, w, k);
    } else {
      NoRole(info);
    }
  }

  lemma NoRole(info: EntityInfo)
    requires info.kind == NodeEntity
    ensures !Writes(info) && !Reads(info)
  {
  }

  lemma MirrorsZenoh(m: Meaning, w: World, k: string)
    requires Mirrors(m, w) && k in m
    ensures Zenoh(m[k]) && m[k].key.participantId in w.discovery.participants.entries
  {
    hide NodesExact, TableExact, EndsWithin, Distinct;
    assert Zenoh(m[k]);
    assert HasParticipant(m, m[k].key.participantId);
  }

  /** What a reference among the held ones says of an entity that is held. */
  lemma WriterHeld(w: World, env: Env, k: string)
    requires Related(w.graph, env) && TopicsGiven(env.parse)
    requires k in MeaningOf(w.graph, env) && MeaningOf(w.graph, env)[k].EndpointRef?
    ensures var ref := MeaningOf(w.graph, env)[k];
            if ref.role == Writer then SomeWriter(w, env, ref.id) else SomeReader(w, env, ref.id)
  {
    MeaningIsHeld(w, env, k);
    var info := env.parse(k).value;
    RefOfInfo(env, k, info);
    hide MeaningOf, RefFor, Related, Endpoint, TopicsGiven, HeldAs;
    assert IsHeld(w, env, k, info) by { IsHeldAs(w, env, k, info); }
  }

  lemma IsHeldAs(w: World, env: Env, k: string, info: EntityInfo)
    ensures IsHeld(w, env, k, info) <==> HeldAs(w, env, k, info)
  {
  }

  lemma NamedHeld(w: World, env: Env, key: RuntimeGraph.NodeName)
    requires Related(w.graph, env) && TopicsGiven(env.parse) && Named(MeaningOf(w.graph, env), key)
    ensures SomeOfNode(w, env, TableKey(key)) && SomeOfParticipant(w, env, key.participantId)
  {
    var m := MeaningOf(w.graph, env);
    var k :| k in m && m[k].key == key;
    MeaningIsHeld(w, env, k);
    RefOfInfo(env, k, env.parse(k).value);
    hide MeaningOf, RefFor, Related, TopicsGiven, TableKey, HeldAs;
    assert IsHeld(w, env, k, env.parse(k).value) by { IsHeldAs(w, env, k, env.parse(k).value); }
  }

  lemma EndpointsHeld(w: World, env: Env, role: Role, id: EndpointId)
    requires ShowsExactly(w, env) && TopicsGiven(env.parse) && id.ZenohEndpoint?
    requires id in (if role == Writer then w.discovery.publications else w.discovery.subscriptions).entries
    ensures if role == Writer then SomeWriter(w, env, id) else SomeReader(w, env, id)
  {
    hide MeaningOf, NodesExact, TableExact, ParticipantsExact, Distinct, DataOf, Full, Related, SomeWriter, SomeReader,
        TopicsGiven, Nodes.Valid;
    var m := MeaningOf(w.graph, env);
    var d := if role == Writer then w.discovery.publications else w.discovery.subscriptions;
    assert EndsWithin(m, role, d);
    var k :| Publishes(m, k, role, id) && d.entries[id].data == DataOf(m[k]);
    WriterHeld(w, env, k);
  }

  lemma NodeListsHeld(w: World, env: Env, key: RuntimeGraph.NodeName, role: Role, id: EndpointId)
    requires ShowsExactly(w, env) && TopicsGiven(env.parse) && key.participantId.ZenohParticipant? && id.ZenohEndpoint?
    requires TableKey(key) in w.table.nodes
    requires var node := w.table.nodes[TableKey(key)]; id in (if role == Writer then node.writerIds else node.readerIds)
    ensures if role == Writer then SomeWriter(w, env, id) else SomeReader(w, env, id)
  {
    var m := MeaningOf(w.graph, env);
    hide MeaningOf, Mirrors, Full, Related, SomeWriter, SomeReader, TopicsGiven, Nodes.Valid, TableKey;
    NodeEntry(m, w, key);
    assert id in IdsOf(m, key, role);
    var k :| k in m && IsEndpoint(m[k], key, role) && m[k].id == id;
    WriterHeld(w, env, k);
  }

  lemma NodeHeld(w: World, env: Env, key: Nodes.NodeKey)
    requires ShowsExactly(w, env) && TopicsGiven(env.parse)
    requires key in w.table.nodes && key.participantId.ZenohParticipant? && key.participantGid == None
    ensures SomeOfNode(w, env, key)
    ensures forall id :: id in w.table.nodes[key].writerIds && id.ZenohEndpoint? ==> SomeWriter(w, env, id)
    ensures forall id :: id in w.table.nodes[key].readerIds && id.ZenohEndpoint? ==> SomeReader(w, env, id)
  {
    var name := RuntimeGraph.NodeName(key.participantId, key.namespace, key.name);
    assert TableKey(name) == key;
    hide MeaningOf, Mirrors, Full, Related, SomeWriter, SomeReader, TopicsGiven, Nodes.Valid, TableKey, SomeOfNode,
        SomeOfParticipant;
    NodeEntry(MeaningOf(w.graph, env), w, name);
    NamedHeld(w, env, name);
    forall id | id in w.table.nodes[key].writerIds && id.ZenohEndpoint? ensures SomeWriter(w, env, id) {
      NodeListsHeld(w, env, name, Writer, id);
    }
    forall id | id in w.table.nodes[key].readerIds && id.ZenohEndpoint? ensures SomeReader(w, env, id) {
      NodeListsHeld(w, env, name, Reader, id);
    }
  }

  lemma ParticipantHeld(w: World, env: Env, id: ParticipantId)
    requires ShowsExactly(w, env) && TopicsGiven(env.parse)
    requires id in w.discovery.participants.entries && id.ZenohParticipant?
    ensures SomeOfParticipant(w, env, id)
  {
    hide MeaningOf, NodesExact, TableExact, EndsWithin, Distinct, Full, Related, TopicsGiven, Nodes.Valid, SomeOfNode,
        SomeOfParticipant;
    var m := MeaningOf(w.graph, env);
    assert HasParticipant(m, id);
    var k :| k in m && m[k].key.participantId == id;
    assert Named(m, m[k].key);
    NamedHeld(w, env, m[k].key);
  }

  lemma ExactShowsHeld(w: World, env: Env)
    requires ShowsExactly(w, env) && TopicsGiven(env.parse)
    ensures ShowsHeld(w, env)
  {
    hide ShowsExactly, InView, SomeWriter, SomeReader, SomeOfNode, SomeOfParticipant, HeldAs, TopicsGiven;
    forall k, info | HeldAs(w, env, k, info) ensures InView(w, env, k, info) {
      HeldInView(w, env, k, info);
    }
    forall id | id in w.discovery.publications.entries && id.ZenohEndpoint? ensures SomeWriter(w, env, id) {
      EndpointsHeld(w, env, Writer, id);
    }
    forall id | id in w.discovery.subscriptions.entries && id.ZenohEndpoint? ensures SomeReader(w, env, id) {
      EndpointsHeld(w, env, Reader, id);
    }
    forall id | id in w.discovery.participants.entries && id.ZenohParticipant? ensures SomeOfParticipant(w, env, id) {
      ParticipantHeld(w, env, id);
    }
    forall key: Nodes.NodeKey |
      key in w.table.nodes && key.participantId.ZenohParticipant? && key.participantGid == None
      ensures SomeOfNode(w, env, key)
      ensures forall id :: id in w.table.nodes[key].writerIds && id.ZenohEndpoint? ==> SomeWriter(w, env, id)
      ensures forall id :: id in w.table.nodes[key].readerIds && id.ZenohEndpoint? ==> SomeReader(w, env, id)
    {
      NodeHeld(w, env, key);
    }
  }

  // ---------- Announcements that fit ----------

  /** Two entities that would share an entry of a table. */
  ghost predicate SameEntry(a: Entity, b: Entity, gidOf: Entity -> TopicGid) {
    || (a.info.kind == NodeEntity && b.info.kind == NodeEntity && NodeName(a.info) == NodeName(b.info))
    || (((Writes(a.info) && Writes(b.info)) || (Reads(a.info) && Reads(b.info)))
        && (Endpoint(a.info) == Endpoint(b.info) || gidOf(a) == gidOf(b)))
  }

  /** The newcomer shares no entry with what is held, and its participant has no other node. */
  ghost predicate Fits(w: World, e: Entity, env: Env) {
    && env.parse(e.keyexpr) == Some(e.info)
    && forall k, info :: HeldAs(w, env, k, info) && k != e.keyexpr ==>
         && !SameEntry(Entity(k, info), e, env.gidOf)
         && (Participant(info) == Participant(e.info) ==> NodeName(info) == NodeName(e.info))
  }

  /** Announcements fit, and other traffic names no Zenoh entity. */
  ghost predicate Orderly(w: World, step: Step, env: Env) {
    match step
    case Announce(_, e, _) => Fits(w, e, env)
    case OtherSample(sample, _) => NamesOthers(w.discovery, sample)
    case OtherNodes(_, samples, _, _) => forall s :: s in samples ==> s.participantGid.Some?
    case _ => true
  }

  lemma FitsApart(w: World, e: Entity, env: Env, k: string)
    requires Related(w.graph, env) && TopicsGiven(env.parse) && Fits(w, e, env)
    requires k in MeaningOf(w.graph, env) && k != e.keyexpr && RefOf(e, env.gidOf).Some?
    ensures var a, b := MeaningOf(w.graph, env)[k], RefOf(e, env.gidOf).value;
            !Clash(a, b) && !Clash(b, a) && (a.key.participantId == b.key.participantId ==> a.key == b.key)
  {
    MeaningIsHeld(w, env, k);
    var info := env.parse(k).value;
    RefOfInfo(env, k, info);
    RefOfInfo(env, e.keyexpr, e.info);
    assert RefFor(env, e.keyexpr) == RefOf(e, env.gidOf);
    assert HeldAs(w, env, k, info);
    var a, b := RefFor(env, k).value, RefOf(e, env.gidOf).value;
    hide RefFor, RefOf, MeaningOf, Related, TopicsGiven, HeldAs, Endpoint, Participant;
    assert TableKey(a.key) == TableKey(b.key) ==> a.key == b.key;
  }

  /** A reference that is apart from all others may be added. */
  lemma DistinctAdd(m: Meaning, k: string, ref: EntityRef)
    requires Distinct(m)
    requires forall j :: j in m && j != k ==>
               && !Clash(m[j], ref) && !Clash(ref, m[j])
               && (m[j].key.participantId == ref.key.participantId ==> m[j].key == ref.key)
    ensures Distinct(m[k := ref])
  {
    hide Clash;
  }

  lemma FitsDistinct(w: World, e: Entity, env: Env)
    requires ShowsExactly(w, env) && TopicsGiven(env.parse) && Fits(w, e, env)
    ensures ParseLiveliness(env.parse, e.keyexpr) == Some(e)
    ensures RefOf(e, env.gidOf).Some? ==> Distinct(MeaningOf(w.graph, env)[e.keyexpr := RefOf(e, env.gidOf).value])
  {
    FitsParses(w, e, env);
    hide RefOf, MeaningOf, Clash, Distinct, Fits, TopicsGiven, Related, Full, NodesExact, TableExact, Within, Zenoh,
        Nodes.Valid;
    var m := MeaningOf(w.graph, env);
    if RefOf(e, env.gidOf).Some? {
      forall k | k in m && k != e.keyexpr
        ensures var a, b := m[k], RefOf(e, env.gidOf).value;
                !Clash(a, b) && !Clash(b, a) && (a.key.participantId == b.key.participantId ==> a.key == b.key)
      {
        FitsApart(w, e, env, k);
      }
      DistinctAdd(m, e.keyexpr, RefOf(e, env.gidOf).value);
    }
  }

  lemma FitsParses(w: World, e: Entity, env: Env)
    requires Fits(w, e, env)
    ensures ParseLiveliness(env.parse, e.keyexpr) == Some(e)
  {
  }

  lemma OrderlyExpected(w: World, step: Step, env: Env)
    requires ShowsExactly(w, env) && TopicsGiven(env.parse) && Orderly(w, step, env)
    ensures Expected(w, step, env)
  {
    hide ShowsExactly, TopicsGiven, Fits, RefOf, MeaningOf, Distinct;
    if step.Announce? {
      FitsDistinct(w, step.entity, env);
    }
  }

  lemma {:induction false} RunExact(worlds: seq<World>, steps: seq<Step>, env: Env, n: nat)
    requires IsRun(worlds, steps, env) && TopicsGiven(env.parse) && env.clock.ttl > 0 && n <= |steps|
    requires forall i :: 0 <= i < |steps| ==> Orderly(worlds[i], steps[i], env)
    ensures ShowsExactly(worlds[n], env)
    decreases n
  {
    hide ShowsExactly, Orderly, Expected, Possible, Next, TopicsGiven;
    if n == 0 {
      EmptyShows(env);
    } else {
      RunExact(worlds, steps, env, n - 1);
      OrderlyExpected(worlds[n - 1], steps[n - 1], env);
      StepShows(worlds[n - 1], steps[n - 1], env);
    }
  }

  /**
   After every run, with any RTPS traffic on the same tables: a held key expression
   that parses to a publisher or service client has its endpoint among the publications
   and among the writers of its node, one that parses to a subscription or service
   server among the subscriptions and the readers, each under its topic, and nothing
   else of Zenoh is in the tables.
   */
  lemma RunShowsHeld(worlds: seq<World>, steps: seq<Step>, env: Env, n: nat)
    requires IsRun(worlds, steps, env) && TopicsGiven(env.parse) && env.clock.ttl > 0 && n <= |steps|
    requires forall i :: 0 <= i < |steps| ==> Orderly(worlds[i], steps[i], env)
    ensures ShowsHeld(worlds[n], env)
  {
    hide Next, Possible, TopicsGiven, Orderly, ShowsExactly, ShowsHeld;
    RunExact(worlds, steps, env, n);
    ExactShowsHeld(worlds[n], env);
  }

  // ---------- Who holds what ----------

  /** When a flow was last heard of: the last announcement or touch. */
  function Heard(steps: seq<Step>, n: nat, flow: Direction): Time
    requires n <= |steps|
  {
    if n == 0 then 0
    else
      match steps[n - 1]
      case Announce(f, _, now) => if f == flow then now else Heard(steps, n - 1, flow)
      case Touch(f, now) => if f == flow then now else Heard(steps, n - 1, flow)
      case _ => Heard(steps, n - 1, flow)
  }

  /** The flow of the program's own queries: loopback to loopback, without ports. */
  const OWN_QUERIES := Direction(Tcp, FlowTuple([127, 0, 0, 1], [127, 0, 0, 1], 0, 0))

  /**
   A flow holds a key expression from its announcement until its withdrawal, or until a
   periodic sweep finds that nothing was heard of the flow for longer than the timeout.
   */
  function Holding(steps: seq<Step>, n: nat, flow: Direction, k: string): bool
    requires n <= |steps|
  {
    if n == 0 then false
    else
      var before := Holding(steps, n - 1, flow, k);
      match steps[n - 1]
      case Announce(f, e, _) => before || (f == flow && e.keyexpr == k)
      case Withdraw(f, j, _) => before && !(f == flow && j == k)
      case Periodic(_, now, timeout) => before && (flow == OWN_QUERIES || now <= Heard(steps, n - 1, flow) + timeout)
      case _ => before
  }

  ghost predicate HoldsAsTold(w: World, steps: seq<Step>, n: nat)
    requires n <= |steps|
  {
    && (forall f, k :: Holds(w.graph.entities, f, k) <==> Holding(steps, n, f, k))
    && (forall f, k :: Holds(w.graph.entities, f, k) ==>
        f in w.graph.lastSeen && w.graph.lastSeen[f] == Heard(steps, n, f))
  }

  lemma InsertTells(w: World, steps: seq<Step>, n: nat, flow: Direction, e: Entity, now: Time, env: Env)
    requires n < |steps| && steps[n] == Announce(flow, e, now) && HoldsAsTold(w, steps, n) && Related(w.graph, env)
    requires ParseLiveliness(env.parse, e.keyexpr) == Some(e) && RefOf(e, env.gidOf).Some?
    ensures HoldsAsTold(Insert(w, flow, e, now, env), steps, n + 1)
  {
    InsertRelates(w, flow, e, now, env);
    InsertRelation(w, flow, e, now, env);
    hide Insert, Holds, Related, RefOf, ParseLiveliness;
  }

  /** How one more step that is no announcement or touch changes the story. */
  lemma ToldNext(steps: seq<Step>, n: nat, f: Direction, k: string)
    requires n < |steps| && (steps[n].Withdraw? || steps[n].Periodic?)
    ensures Heard(steps, n + 1, f) == Heard(steps, n, f)
    ensures steps[n].Withdraw? ==>
              (Holding(steps, n + 1, f, k) <==>
               Holding(steps, n, f, k) && !(f == steps[n].flow && k == steps[n].keyexpr))
    ensures steps[n].Periodic? ==>
              (Holding(steps, n + 1, f, k) <==>
               Holding(steps, n, f, k) && (f == OWN_QUERIES || steps[n].now <= Heard(steps, n, f) + steps[n].timeout))
  {
  }

  lemma RemoveTells(w: World, steps: seq<Step>, n: nat, flow: Direction, k: string, now: Time, env: Env)
    requires n < |steps| && steps[n] == Withdraw(flow, k, now) && HoldsAsTold(w, steps, n) && Related(w.graph, env)
    ensures HoldsAsTold(Remove(w, flow, k, now), steps, n + 1)
  {
    var after := Remove(w, flow, k, now);
    RemoveRelates(w, flow, k, now, env);
    RemoveRelation(w, flow, k, now);
    hide Remove, Heard, Holding;
    forall f, j
      ensures Holds(after.graph.entities, f, j) <==> Holding(steps, n + 1, f, j)
      ensures Holds(after.graph.entities, f, j) ==>
                f in after.graph.lastSeen && after.graph.lastSeen[f] == Heard(steps, n + 1, f)
    {
      ToldNext(steps, n, f, j);
      if Holds(after.graph.entities, f, j) {
        assert Holds(w.graph.entities, f, j);
        assert Lists(after.graph.flowEntities, f, j);
      }
    }
    hide Holds, Related;
  }

  lemma TouchTells(w: World, steps: seq<Step>, n: nat, flow: Direction, now: Time, env: Env)
    requires n < |steps| && steps[n] == Touch(flow, now) && HoldsAsTold(w, steps, n) && Related(w.graph, env)
    ensures HoldsAsTold(w.(graph := Touched(w.graph, flow, now)), steps, n + 1)
  {
    var after := Touched(w.graph, flow, now);
    assert after.entities == w.graph.entities;
    forall f, k | Holds(after.entities, f, k)
      ensures f in after.lastSeen && after.lastSeen[f] == Heard(steps, n + 1, f)
    {
      assert Holds(w.graph.entities, f, k);
      assert Lists(w.graph.flowEntities, f, k);
    }
    hide Holds, Related;
  }

  lemma SweepTells(w: World, steps: seq<Step>, n: nat, sweep: Sweep, now: Time, timeout: nat, env: Env)
    requires n < |steps| && steps[n] == Periodic(sweep, now, timeout) && HoldsAsTold(w, steps, n)
    requires MaySweep(w, sweep, now, timeout, env) && Related(w.graph, env) && Nodes.Valid(w.table)
    ensures HoldsAsTold(Swept(w, sweep, now, timeout, env), steps, n + 1)
  {
    hide *;
    SweepHolds(w, sweep, now, timeout, env);
    SweptGraph(w, sweep, now, timeout, env);
    SilenceTells(w, Swept(w, sweep, now, timeout, env), steps, n);
  }

  /** The silent flows let go of everything; the others keep what they hold and when they were seen. */
  lemma SilenceTells(w: World, after: World, steps: seq<Step>, n: nat)
    requires n < |steps| && steps[n].Periodic? && HoldsAsTold(w, steps, n)
    requires forall f, k :: Holds(after.graph.entities, f, k) <==>
               Holds(w.graph.entities, f, k) && !Silent(w.graph.lastSeen, f, steps[n].now, steps[n].timeout)
    requires forall f :: f in w.graph.lastSeen && !Silent(w.graph.lastSeen, f, steps[n].now, steps[n].timeout) ==>
               f in after.graph.lastSeen && after.graph.lastSeen[f] == w.graph.lastSeen[f]
    ensures HoldsAsTold(after, steps, n + 1)
  {
    hide Holds, Silent, Heard, Holding;
    forall f, k
      ensures Holds(after.graph.entities, f, k) <==> Holding(steps, n + 1, f, k)
      ensures Holds(after.graph.entities, f, k) ==>
                f in after.graph.lastSeen && after.graph.lastSeen[f] == Heard(steps, n + 1, f)
    {
      assert Holds(w.graph.entities, f, k) <==> Holding(steps, n, f, k);
      ToldNext(steps, n, f, k);
      if Holds(w.graph.entities, f, k) {
        SilentByTime(w.graph.lastSeen, f, steps[n].now, steps[n].timeout);
      }
    }
  }

  lemma SilentByTime(lastSeen: map<Direction, Time>, f: Direction, now: Time, timeout: nat)
    requires f in lastSeen
    ensures Silent(lastSeen, f, now, timeout) <==> f != OWN_QUERIES && lastSeen[f] + timeout < now
  {
  }

  lemma SweepHolds(w: World, sweep: Sweep, now: Time, timeout: nat, env: Env)
    requires MaySweep(w, sweep, now, timeout, env) && Related(w.graph, env) && Nodes.Valid(w.table)
    ensures forall f, k :: Holds(Swept(w, sweep, now, timeout, env).graph.entities, f, k) <==>
              Holds(w.graph.entities, f, k) && !Silent(w.graph.lastSeen, f, now, timeout)
  {
    hide *;
    SweepShows(w, sweep, now, timeout, env);
  }

  /** The flows that stay keep the time they were last seen. */
  lemma SweptGraph(w: World, sweep: Sweep, now: Time, timeout: nat, env: Env)
    requires MaySweep(w, sweep, now, timeout, env) && Related(w.graph, env)
    ensures forall f :: f in w.graph.lastSeen && !Silent(w.graph.lastSeen, f, now, timeout) ==>
              var after := Swept(w, sweep, now, timeout, env).graph.lastSeen;
              f in after && after[f] == w.graph.lastSeen[f]
  {
    hide ExpireAll, Refreshing, PartEach, PartInTurn, PartsLeft, Visits, InTurn, Related, Keeps, HoldsBut, Silent,
        FlowsOf,
        Discovery.AfterSweep;
    SilentSeen(w, sweep.expiry, now, timeout);
    ExpireAllKeeps(w, sweep.expiry, now, env);
    RefreshGraph(ExpireAll(w, sweep.expiry, now), sweep.visit, now, env.clock);
  }

  lemma RefreshGraph(w: World, visit: Visit, now: Time, clock: Discovery.Clock)
    requires Visits(w.graph, visit)
    ensures Refreshing(w, visit, now, clock).graph == w.graph
  {
    hide RefreshNodes, RefreshEnds;
  }

  lemma OtherTells(w: World, w': World, steps: seq<Step>, n: nat)
    requires n < |steps| && HoldsAsTold(w, steps, n) && w'.graph == w.graph
    requires !steps[n].Announce? && !steps[n].Touch? && !steps[n].Withdraw? && !steps[n].Periodic?
    ensures HoldsAsTold(w', steps, n + 1)
  {
    hide Holds;
  }

  lemma StepTells(w: World, steps: seq<Step>, n: nat, env: Env)
    requires n < |steps| && HoldsAsTold(w, steps, n) && ShowsExactly(w, env) && Possible(w, steps[n], env)
    requires TopicsGiven(env.parse) && Orderly(w, steps[n], env)
    ensures HoldsAsTold(Next(w, steps[n], env), steps, n + 1)
  {
    OrderlyExpected(w, steps[n], env);
    hide HoldsAsTold, Related, Mirrors, Full, MeaningOf, Insert, Remove, Refreshing, Swept, Touched, MaySweep, Orderly,
        Discovery.AfterSample, Nodes.UpsertEach, Nodes.RemoveEach, RefOf, ParseLiveliness, TopicsGiven, Distinct;
    match steps[n]
    case Announce(flow, e, now) =>
      RefGiven(e, env);
      InsertTells(w, steps, n, flow, e, now, env);
    case Withdraw(flow, k, now) => RemoveTells(w, steps, n, flow, k, now, env);
    case Touch(flow, now) => TouchTells(w, steps, n, flow, now, env);
    case Periodic(sweep, now, timeout) => SweepTells(w, steps, n, sweep, now, timeout, env);
    case Refresh(visit, now) =>
      RefreshGraph(w, visit, now, env.clock);
      OtherTells(w, Next(w, steps[n], env), steps, n);
    case OtherSample(sample, now) => OtherTells(w, Next(w, steps[n], env), steps, n);
    case OtherNodes(gid, samples, stale, now) => OtherTells(w, Next(w, steps[n], env), steps, n);
  }

  /** In every run, who holds what is what the announcements, withdrawals and silences say. */
  lemma {:induction false} RunHolds(worlds: seq<World>, steps: seq<Step>, env: Env, n: nat)
    requires IsRun(worlds, steps, env) && TopicsGiven(env.parse) && env.clock.ttl > 0 && n <= |steps|
    requires forall i :: 0 <= i < |steps| ==> Orderly(worlds[i], steps[i], env)
    ensures HoldsAsTold(worlds[n], steps, n)
    decreases n
  {
    hide HoldsAsTold, ShowsExactly, Orderly, Possible, Next, TopicsGiven;
    if n == 0 {
      EmptyTells(steps);
    } else {
      RunHolds(worlds, steps, env, n - 1);
      RunExact(worlds, steps, env, n - 1);
      StepTells(worlds[n - 1], steps, n - 1, env);
    }
  }

  lemma EmptyTells(steps: seq<Step>)
    ensures HoldsAsTold(EmptyWorld(), steps, 0)
  {
  }
}
