/**
 The runtime's view of Zenoh liveliness: which flows hold which key expressions,
 the ROS nodes they imply, and the discovery and node tables that show them.
 */
module RuntimeGraph {
  import opened Basics
  import opened DiscoveryIds
  import opened Directories
  import opened ZenohEntities
  import opened ZenohFlows
  import FifoOrder
  import Discovery
  import Nodes

  datatype NodeName = NodeName(participantId: ParticipantId, namespace: string, name: string)

  datatype Node = Node(alive: bool, listing: Nodes.Listing)

  datatype Role = Writer | Reader

  datatype EntityRef =
    | NodeRef(key: NodeName)
    | EndpointRef(role: Role, key: NodeName, id: EndpointId, gid: TopicGid, topic: TopicInfo)

  datatype Graph = Graph(nodes: map<NodeName, Node>, entities: map<string, map<Direction, EntityRef>>,
                         flowEntities: map<Direction, set<string>>, lastSeen: map<Direction, Time>)

  /** The graph with the two tables it drives. */
  datatype World = World(graph: Graph, discovery: Discovery.Table, table: Nodes.Table)

  /** Parsing of key expressions and the hash that makes GIDs are left uninterpreted. */
  datatype Env = Env(parse: Parser, gidOf: Entity -> TopicGid, clock: Discovery.Clock)

  // ---------- From entities to table keys ----------

  function ParticipantOf(e: Entity): ParticipantId {
    ZenohParticipant(e.info.node.domainId, e.info.node.zid, e.info.node.nodeId)
  }

  function KindTag(kind: EntityKind): string {
    match kind
    case NodeEntity => "NN"
    case Publisher => "MP"
    case Subscription => "MS"
    case ServiceServer => "SS"
    case ServiceClient => "SC"
  }

  function EndpointIdOf(e: Entity): EndpointId {
    ZenohEndpoint(e.info.node.domainId, e.info.node.zid, e.info.node.nodeId, e.info.node.entityId, KindTag(e.info.kind))
  }

  function NameOf(e: Entity): NodeName {
    NodeName(ParticipantOf(e), e.info.node.namespace, e.info.node.nodeName)
  }

  /** Publishers and service clients write; subscriptions and service servers read. */
  function RefOf(e: Entity, gidOf: Entity -> TopicGid): Option<EntityRef> {
    if e.info.kind.NodeEntity? then Some(NodeRef(NameOf(e)))
    else if e.info.topic.None? then None
    else
      var role := if e.info.kind.Publisher? || e.info.kind.ServiceClient? then Writer else Reader;
      Some(EndpointRef(role, NameOf(e), EndpointIdOf(e), gidOf(e), e.info.topic.value))
  }

  /** What a key expression stands for. */
  function RefFor(env: Env, k: string): Option<EntityRef> {
    match ParseLiveliness(env.parse, k)
    case None => None
    case Some(e) => RefOf(e, env.gidOf)
  }

  function TableKey(key: NodeName): Nodes.NodeKey {
    Nodes.NodeKey(key.participantId, None, key.namespace, key.name)
  }

  function ParticipantSampleOf(id: ParticipantId): Discovery.Sample {
    Discovery.ParticipantSeen(Discovery.ParticipantSample(None, Some(id), None))
  }

  function DataOf(ref: EntityRef): Discovery.EndpointData
    requires ref.EndpointRef?
  {
    Discovery.EndpointData(None, Some(ref.key.participantId),
      Discovery.EndpointDetails(Some(ref.topic.name), Some(ref.topic.typeName), Some(ref.topic.typeHash)))
  }

  function SampleOf(ref: EntityRef): Discovery.Sample
    requires ref.EndpointRef?
  {
    var sample := Discovery.EndpointSample(Some(ref.gid), Some(ref.id), None, Some(ref.key.participantId),
                                           DataOf(ref).details);
    if ref.role.Writer? then Discovery.PublicationSeen(sample) else Discovery.SubscriptionSeen(sample)
  }

  // ---------- What the operations do ----------

  function EmptyListing(): Nodes.Listing {
    Nodes.Listing({}, {}, {}, {})
  }

  function AddTo(l: Nodes.Listing, ref: EntityRef): Nodes.Listing
    requires ref.EndpointRef?
  {
    if ref.role.Writer? then l.(writerIds := l.writerIds + {ref.id}, writerGids := l.writerGids + {ref.gid})
    else l.(readerIds := l.readerIds + {ref.id}, readerGids := l.readerGids + {ref.gid})
  }

  function TakeFrom(l: Nodes.Listing, ref: EntityRef): Nodes.Listing
    requires ref.EndpointRef?
  {
    if ref.role.Writer? then l.(writerIds := l.writerIds - {ref.id}, writerGids := l.writerGids - {ref.gid})
    else l.(readerIds := l.readerIds - {ref.id}, readerGids := l.readerGids - {ref.gid})
  }

  function Shown(g: Graph, ref: EntityRef): Node {
    var node := if ref.key in g.nodes then g.nodes[ref.key] else Node(false, EmptyListing());
    if ref.NodeRef? then node.(alive := true) else node.(listing := AddTo(node.listing, ref))
  }

  /** The node that an entity belongs to comes into view; its sample goes out when it changed. */
  function ShowNode(w: World, ref: EntityRef, now: Time): World {
    var node := Shown(w.graph, ref);
    World(w.graph.(nodes := w.graph.nodes[ref.key := node]), w.discovery,
          if ref.key in w.graph.nodes && w.graph.nodes[ref.key] == node then w.table
          else Nodes.PutNode(w.table, TableKey(ref.key), node.listing, now))
  }

  function EndpointsFor(d: Discovery.Table, role: Role): Discovery.Endpoints {
    if role.Writer? then d.publications else d.subscriptions
  }

  ghost function ShowEndpoint(d: Discovery.Table, ref: EntityRef, first: bool, now: Time,
                              clock: Discovery.Clock): Discovery.Table {
    if ref.EndpointRef? && (first || ref.id !in EndpointsFor(d, ref.role).entries)
    then Discovery.AfterSample(d, SampleOf(ref), now, clock).0
    else d
  }

  function RefsOf(g: Graph, k: string): map<Direction, EntityRef> {
    if k in g.entities then g.entities[k] else map[]
  }

  function Listed(g: Graph, flow: Direction, k: string): Graph {
    g.(flowEntities := g.flowEntities[flow := (if flow in g.flowEntities then g.flowEntities[flow] else {}) + {k}])
  }

  function Unlisted(g: Graph, flow: Direction, k: string): Graph {
    if flow !in g.flowEntities then g
    else if g.flowEntities[flow] - {k} == {} then
      g.(flowEntities := g.flowEntities - {flow}, lastSeen := g.lastSeen - {flow})
    else g.(flowEntities := g.flowEntities[flow := g.flowEntities[flow] - {k}])
  }

  /** The participant of a key expression that nobody held before. */
  ghost function Introduced(d: Discovery.Table, id: ParticipantId, first: bool, now: Time, clock: Discovery.Clock)
    : Discovery.Table
  {
    if first then Discovery.AfterSample(d, ParticipantSampleOf(id), now, clock).0 else d
  }

  ghost function Insert(w: World, flow: Direction, e: Entity, now: Time, env: Env): World {
    var k := e.keyexpr;
    var g := w.graph.(lastSeen := w.graph.lastSeen[flow := now]);
    if flow in RefsOf(g, k) then w.(graph := Listed(g, flow, k))
    else
      var first := k !in g.entities;
      var d := Introduced(w.discovery, ParticipantOf(e), first, now, env.clock);
      match RefOf(e, env.gidOf)
      case None => World(g, d, w.table)
      case Some(ref) =>
        var shown := ShowNode(World(g, d, w.table), ref, now);
        var g' := Listed(shown.graph, flow, k);
        World(g'.(entities := g'.entities[k := RefsOf(g, k)[flow := ref]]),
              ShowEndpoint(d, ref, first, now, env.clock), shown.table)
  }

  /** A node without tokens leaves together with its participant. */
  ghost function SyncNode(w: World, key: NodeName, now: Time): World {
    if key !in w.graph.nodes then w
    else
      var node := w.graph.nodes[key];
      if node.alive || node.listing.writerIds != {} || node.listing.readerIds != {} then
        w.(table := Nodes.PutNode(w.table, TableKey(key), node.listing, now))
      else
        World(w.graph.(nodes := w.graph.nodes - {key}),
              Discovery.AfterRemoval(w.discovery, key.participantId),
              Nodes.Remove(w.table, TableKey(key)))
  }

  function Hidden(node: Node, ref: EntityRef): Node {
    if ref.NodeRef? then node.(alive := false) else node.(listing := TakeFrom(node.listing, ref))
  }

  function DropEndpoint(d: Discovery.Table, ref: EntityRef): Discovery.Table {
    if ref.NodeRef? then d
    else if ref.role.Writer? then d.(publications := Drop(d.publications, ref.id))
    else d.(subscriptions := Drop(d.subscriptions, ref.id))
  }

  /** The last holder of an entity let go of it. */
  ghost function RemoveRef(w: World, ref: EntityRef, now: Time): World {
    var g := if ref.key in w.graph.nodes
             then w.graph.(nodes := w.graph.nodes[ref.key := Hidden(w.graph.nodes[ref.key], ref)])
             else w.graph;
    SyncNode(World(g, DropEndpoint(w.discovery, ref), w.table), ref.key, now)
  }

  ghost function Remove(w: World, flow: Direction, k: string, now: Time): World {
    if flow !in RefsOf(w.graph, k) then w
    else
      var refs := w.graph.entities[k] - {flow};
      var g := Unlisted(w.graph.(entities := w.graph.entities[k := refs]), flow, k);
      if refs != map[] then w.(graph := g)
      else RemoveRef(w.(graph := g.(entities := g.entities - {k})), w.graph.entities[k][flow], now)
  }

  // ---------- The relation between flows and key expressions ----------

  ghost predicate Holds(entities: map<string, map<Direction, EntityRef>>, flow: Direction, k: string) {
    k in entities && flow in entities[k]
  }

  ghost predicate Lists(flowEntities: map<Direction, set<string>>, flow: Direction, k: string) {
    flow in flowEntities && k in flowEntities[flow]
  }

  /** Both directions of the relation are the same, and neither keeps empty sets. */
  ghost predicate Inverse(entities: map<string, map<Direction, EntityRef>>, flowEntities: map<Direction, set<string>>) {
    && (forall k :: k in entities ==> entities[k] != map[])
    && (forall f :: f in flowEntities ==> flowEntities[f] != {})
    && (forall f, k :: Holds(entities, f, k) <==> Lists(flowEntities, f, k))
  }

  /** Every reference is the one its key expression stands for. */
  ghost predicate Parsed(entities: map<string, map<Direction, EntityRef>>, env: Env) {
    forall k, f :: Holds(entities, f, k) ==> RefFor(env, k) == Some(entities[k][f])
  }

  ghost predicate Related(g: Graph, env: Env) {
    && Inverse(g.entities, g.flowEntities)
    && g.flowEntities.Keys <= g.lastSeen.Keys
    && Parsed(g.entities, env)
  }

  lemma InsertRelation(w: World, flow: Direction, e: Entity, now: Time, env: Env)
    ensures var after := Insert(w, flow, e, now, env).graph;
            var k := e.keyexpr;
            var ref := RefOf(e, env.gidOf);
            && after.lastSeen == w.graph.lastSeen[flow := now]
            && after.flowEntities ==
               (if flow in RefsOf(w.graph, k) || ref.Some? then Listed(w.graph, flow, k).flowEntities
                else w.graph.flowEntities)
            && after.entities ==
               (if flow !in RefsOf(w.graph, k) && ref.Some?
                then w.graph.entities[k := RefsOf(w.graph, k)[flow := ref.value]] else w.graph.entities)
  {
    hide RefOf, Discovery.AfterSample, ShowNode, ShowEndpoint;
    var g := w.graph.(lastSeen := w.graph.lastSeen[flow := now]);
    var ref := RefOf(e, env.gidOf);
    if flow !in RefsOf(g, e.keyexpr) && ref.Some? {
      var first := e.keyexpr !in g.entities;
      var d := Introduced(w.discovery, ParticipantOf(e), first, now, env.clock);
      ShowRelation(World(g, d, w.table), ref.value, now);
    }
  }

  lemma ShowRelation(w: World, ref: EntityRef, now: Time)
    ensures var g := ShowNode(w, ref, now).graph;
            g.entities == w.graph.entities && g.flowEntities == w.graph.flowEntities && g.lastSeen == w.graph.lastSeen
  {
    hide Shown, Nodes.PutNode;
  }

  lemma ListedLists(g: Graph, flow: Direction, k: string)
    requires forall f :: f in g.flowEntities ==> g.flowEntities[f] != {}
    ensures var after := Listed(g, flow, k).flowEntities;
            && (forall f, j :: Lists(after, f, j) <==> Lists(g.flowEntities, f, j) || (f == flow && j == k))
            && (forall f :: f in after ==> after[f] != {})
            && after.Keys == g.flowEntities.Keys + {flow}
  {
  }

  lemma EntitiesSet(g: Graph, flow: Direction, k: string, ref: EntityRef, env: Env)
    requires Parsed(g.entities, env) && RefFor(env, k) == Some(ref)
    requires forall j :: j in g.entities ==> g.entities[j] != map[]
    ensures var after := g.entities[k := RefsOf(g, k)[flow := ref]];
            && (forall f, j :: Holds(after, f, j) <==> Holds(g.entities, f, j) || (f == flow && j == k))
            && (forall j :: j in after ==> after[j] != map[])
            && Parsed(after, env)
  {
    hide RefFor;
    assert flow in RefsOf(g, k)[flow := ref];
  }

  lemma InverseAdd(entities: map<string, map<Direction, EntityRef>>, flowEntities: map<Direction, set<string>>,
                   entities': map<string, map<Direction, EntityRef>>, flowEntities': map<Direction, set<string>>,
                   flow: Direction, k: string)
    requires Inverse(entities, flowEntities)
    requires forall j :: j in entities' ==> entities'[j] != map[]
    requires forall f :: f in flowEntities' ==> flowEntities'[f] != {}
    requires forall f, j :: Holds(entities', f, j) <==> Holds(entities, f, j) || (f == flow && j == k)
    requires forall f, j :: Lists(flowEntities', f, j) <==> Lists(flowEntities, f, j) || (f == flow && j == k)
    ensures Inverse(entities', flowEntities')
  {
    hide Holds, Lists;
  }

  lemma InsertRelates(w: World, flow: Direction, e: Entity, now: Time, env: Env)
    requires Related(w.graph, env) && ParseLiveliness(env.parse, e.keyexpr) == Some(e)
    ensures Related(Insert(w, flow, e, now, env).graph, env)
    ensures var after := Insert(w, flow, e, now, env).graph;
            forall f, k :: Holds(after.entities, f, k) <==>
              Holds(w.graph.entities, f, k) || (f == flow && k == e.keyexpr && RefOf(e, env.gidOf).Some?)
  {
    var k := e.keyexpr;
    var ref := RefOf(e, env.gidOf);
    assert RefFor(env, k) == ref;
    hide Insert, Listed, RefOf, RefFor;
    var after := Insert(w, flow, e, now, env).graph;
    InsertRelation(w, flow, e, now, env);
    ListedLists(w.graph, flow, k);
    if flow in RefsOf(w.graph, k) {
      assert Holds(w.graph.entities, flow, k);
      InverseAdd(w.graph.entities, w.graph.flowEntities, after.entities, after.flowEntities, flow, k);
    } else if ref.Some? {
      EntitiesSet(w.graph, flow, k, ref.value, env);
      InverseAdd(w.graph.entities, w.graph.flowEntities, after.entities, after.flowEntities, flow, k);
    }
  }

  lemma UnlistedLists(g: Graph, flow: Direction, k: string)
    requires forall f :: f in g.flowEntities ==> g.flowEntities[f] != {}
    ensures var after := Unlisted(g, flow, k);
            && (forall f, j :: Lists(after.flowEntities, f, j) <==>
                  Lists(g.flowEntities, f, j) && !(f == flow && j == k))
            && (forall f :: f in after.flowEntities ==> after.flowEntities[f] != {})
            && (g.flowEntities.Keys <= g.lastSeen.Keys ==> after.flowEntities.Keys <= after.lastSeen.Keys)
  {
    var after := Unlisted(g, flow, k).flowEntities;
    forall f, j ensures Lists(after, f, j) <==> Lists(g.flowEntities, f, j) && !(f == flow && j == k) {
      assert f == flow && f in g.flowEntities && j != k ==> (j in g.flowEntities[f] <==> j in g.flowEntities[f] - {k});
    }
  }

  lemma RemoveRefRelation(w: World, ref: EntityRef, now: Time)
    ensures var after := RemoveRef(w, ref, now).graph;
            && after.entities == w.graph.entities && after.flowEntities == w.graph.flowEntities
            && after.lastSeen == w.graph.lastSeen
  {
    hide Discovery.AfterRemoval, Nodes.PutNode, Nodes.Remove, DropEndpoint, Hidden;
  }

  lemma UnlistedParts(g: Graph, flow: Direction, k: string, entities: map<string, map<Direction, EntityRef>>)
    ensures Unlisted(g.(entities := entities), flow, k) == Unlisted(g, flow, k).(entities := entities)
    ensures Unlisted(g, flow, k).nodes == g.nodes
  {
  }

  /** What the tables receive does not touch the relation. */
  lemma RemoveRelation(w: World, flow: Direction, k: string, now: Time)
    ensures var after := Remove(w, flow, k, now).graph;
            if flow !in RefsOf(w.graph, k) then after == w.graph
            else
              var rest := w.graph.entities[k] - {flow};
              && after.entities == (if rest == map[] then w.graph.entities - {k} else w.graph.entities[k := rest])
              && after.flowEntities == Unlisted(w.graph, flow, k).flowEntities
              && after.lastSeen == Unlisted(w.graph, flow, k).lastSeen
  {
    hide RemoveRef, Unlisted;
    if flow in RefsOf(w.graph, k) {
      var rest := w.graph.entities[k] - {flow};
      UnlistedParts(w.graph, flow, k, w.graph.entities[k := rest]);
      var g := Unlisted(w.graph, flow, k);
      RemoveRefRelation(w.(graph := g.(entities := w.graph.entities[k := rest] - {k})), w.graph.entities[k][flow], now);
      assert w.graph.entities[k := rest] - {k} == w.graph.entities - {k};
    }
  }

  lemma EntitiesTake(g: Graph, flow: Direction, k: string, env: Env)
    requires Parsed(g.entities, env) && flow in RefsOf(g, k)
    requires forall j :: j in g.entities ==> g.entities[j] != map[]
    ensures var rest := g.entities[k] - {flow};
            var after := if rest == map[] then g.entities - {k} else g.entities[k := rest];
            && (forall f, j :: Holds(after, f, j) <==> Holds(g.entities, f, j) && !(f == flow && j == k))
            && (forall j :: j in after ==> after[j] != map[])
            && Parsed(after, env)
  {
    hide RefFor;
    var rest := g.entities[k] - {flow};
    assert forall f :: f in rest <==> f in g.entities[k] && f != flow;
  }

  lemma InverseTake(entities: map<string, map<Direction, EntityRef>>, flowEntities: map<Direction, set<string>>,
                    entities': map<string, map<Direction, EntityRef>>, flowEntities': map<Direction, set<string>>,
                    flow: Direction, k: string)
    requires Inverse(entities, flowEntities)
    requires forall j :: j in entities' ==> entities'[j] != map[]
    requires forall f :: f in flowEntities' ==> flowEntities'[f] != {}
    requires forall f, j :: Holds(entities', f, j) <==> Holds(entities, f, j) && !(f == flow && j == k)
    requires forall f, j :: Lists(flowEntities', f, j) <==> Lists(flowEntities, f, j) && !(f == flow && j == k)
    ensures Inverse(entities', flowEntities')
  {
    hide Holds, Lists;
  }

  lemma NotHeld(g: Graph, flow: Direction, k: string)
    requires flow !in RefsOf(g, k)
    ensures !Holds(g.entities, flow, k)
  {
  }

  lemma RemoveRelates(w: World, flow: Direction, k: string, now: Time, env: Env)
    requires Related(w.graph, env)
    ensures Related(Remove(w, flow, k, now).graph, env)
    ensures var after := Remove(w, flow, k, now).graph;
            forall f, j :: Holds(after.entities, f, j) <==> Holds(w.graph.entities, f, j) && !(f == flow && j == k)
  {
    hide Remove, Unlisted, RefFor, Parsed, Holds, Lists;
    RemoveRelation(w, flow, k, now);
    if flow in RefsOf(w.graph, k) {
      var after := Remove(w, flow, k, now).graph;
      UnlistedLists(w.graph, flow, k);
      EntitiesTake(w.graph, flow, k, env);
      InverseTake(w.graph.entities, w.graph.flowEntities, after.entities, after.flowEntities, flow, k);
    } else {
      NotHeld(w.graph, flow, k);
    }
  }

  // ---------- What the tables show ----------

  /** What the held key expressions stand for. */
  type Meaning = map<string, EntityRef>

  ghost function MeaningOf(g: Graph, env: Env): Meaning {
    map k | k in g.entities && RefFor(env, k).Some? :: RefFor(env, k).value
  }

  ghost predicate Clash(a: EntityRef, b: EntityRef) {
    if a.NodeRef? then b.NodeRef? && a.key == b.key
    else b.EndpointRef? && a.role == b.role && (a.id == b.id || a.gid == b.gid)
  }

  /** Key expressions stand for different things, and a participant has one node. */
  ghost predicate Distinct(m: Meaning) {
    && (forall j, k :: j in m && k in m && j != k ==> !Clash(m[j], m[k]))
    && (forall j, k :: j in m && k in m && m[j].key.participantId == m[k].key.participantId ==> m[j].key == m[k].key)
  }

  ghost predicate Zenoh(ref: EntityRef) {
    && ref.key.participantId.ZenohParticipant?
    && (ref.EndpointRef? ==> ref.id.ZenohEndpoint?)
  }

  ghost predicate IsEndpoint(ref: EntityRef, key: NodeName, role: Role) {
    ref.EndpointRef? && ref.key == key && ref.role == role
  }

  ghost function IdsOf(m: Meaning, key: NodeName, role: Role): set<EndpointId> {
    set k | k in m && IsEndpoint(m[k], key, role) :: m[k].id
  }

  ghost function GidsFor(m: Meaning, key: NodeName, role: Role): set<TopicGid> {
    set k | k in m && IsEndpoint(m[k], key, role) :: m[k].gid
  }

  /** The node that the key expressions describe. */
  ghost function NodeFor(m: Meaning, key: NodeName): Node {
    Node(exists k :: k in m && m[k] == NodeRef(key),
         Nodes.Listing(GidsFor(m, key, Writer), GidsFor(m, key, Reader), IdsOf(m, key, Writer), IdsOf(m, key, Reader)))
  }

  ghost predicate Named(m: Meaning, key: NodeName) {
    exists k :: k in m && m[k].key == key
  }

  ghost predicate NodesExact(m: Meaning, nodes: map<NodeName, Node>) {
    forall key :: (key in nodes <==> Named(m, key)) && (key in nodes ==> nodes[key] == NodeFor(m, key))
  }

  /** The Zenoh part of the node table shows exactly these nodes. */
  ghost predicate TableExact(nodes: map<NodeName, Node>, table: map<Nodes.NodeKey, Nodes.Node>) {
    forall key: NodeName :: key.participantId.ZenohParticipant? ==>
      (TableKey(key) in table <==> key in nodes) &&
      (key in nodes ==> Nodes.Shows(table[TableKey(key)], nodes[key].listing))
  }

  ghost predicate Publishes(m: Meaning, k: string, role: Role, id: EndpointId) {
    k in m && m[k].EndpointRef? && m[k].role == role && m[k].id == id
  }

  /** Every Zenoh endpoint in the table is one that a held key expression stands for. */
  ghost predicate EndsWithin(m: Meaning, role: Role, d: Discovery.Endpoints) {
    forall id :: id in d.entries && id.ZenohEndpoint? ==>
      exists k :: Publishes(m, k, role, id) && d.entries[id].data == DataOf(m[k])
  }

  /** Every endpoint that a held key expression stands for is in the table. */
  ghost predicate EndsFull(m: Meaning, role: Role, d: Discovery.Endpoints) {
    forall k :: k in m && m[k].EndpointRef? && m[k].role == role ==> m[k].id in d.entries
  }

  ghost predicate HasParticipant(m: Meaning, id: ParticipantId) {
    exists k :: k in m && m[k].key.participantId == id
  }

  ghost predicate ParticipantsExact(m: Meaning, d: Discovery.Participants) {
    forall id: ParticipantId :: id.ZenohParticipant? ==>
      (id in d.entries <==> HasParticipant(m, id)) && (id in d.entries ==> d.entries[id].expiresAt == None)
  }

  ghost predicate Within(m: Meaning, d: Discovery.Table) {
    && ParticipantsExact(m, d.participants)
    && EndsWithin(m, Writer, d.publications)
    && EndsWithin(m, Reader, d.subscriptions)
  }

  ghost predicate Full(m: Meaning, d: Discovery.Table) {
    EndsFull(m, Writer, d.publications) && EndsFull(m, Reader, d.subscriptions)
  }

  ghost predicate Mirrors(m: Meaning, w: World) {
    && Distinct(m)
    && (forall k :: k in m ==> Zenoh(m[k]))
    && NodesExact(m, w.graph.nodes)
    && TableExact(w.graph.nodes, w.table.nodes)
    && Within(m, w.discovery)
  }

  // ---------- Nodes follow the key expressions ----------

  lemma NodeForAdd(m: Meaning, k: string, ref: EntityRef, key: NodeName)
    requires k in m ==> m[k] == ref
    ensures var m' := m[k := ref];
            && (Named(m', key) <==> Named(m, key) || key == ref.key)
            && NodeFor(m', key) ==
               (if key != ref.key then NodeFor(m, key)
                else if ref.NodeRef? then NodeFor(m, key).(alive := true)
                else NodeFor(m, key).(listing := AddTo(NodeFor(m, key).listing, ref)))
  {
    var m' := m[k := ref];
    assert m'[k] == ref;
    forall j | j in m ensures j in m' && m'[j] == m[j] {
    }
    forall role
      ensures IdsOf(m', key, role) == IdsOf(m, key, role) + if IsEndpoint(ref, key, role) then {ref.id} else {}
    {
      IdsAdd(m, k, ref, key, role);
    }
    forall role
      ensures GidsFor(m', key, role) == GidsFor(m, key, role) + if IsEndpoint(ref, key, role) then {ref.gid} else {}
    {
      IdsAdd(m, k, ref, key, role);
    }
    hide IdsOf, GidsFor;
  }

  lemma IdsAdd(m: Meaning, k: string, ref: EntityRef, key: NodeName, role: Role)
    requires k in m ==> m[k] == ref
    ensures IdsOf(m[k := ref], key, role) == IdsOf(m, key, role) + if IsEndpoint(ref, key, role) then {ref.id} else {}
    ensures GidsFor(m[k := ref], key, role) ==
            GidsFor(m, key, role) + if IsEndpoint(ref, key, role) then {ref.gid} else {}
  {
    var m' := m[k := ref];
    assert m'[k] == ref && k in m';
    assert forall j :: j in m ==> j in m' && m'[j] == m[j];
  }

  lemma NodeForTake(m: Meaning, k: string, key: NodeName)
    requires k in m && Distinct(m)
    ensures var m' := m - {k};
            var ref := m[k];
            && (key != ref.key ==> (Named(m', key) <==> Named(m, key)))
            && NodeFor(m', key) == (if key != ref.key then NodeFor(m, key) else Hidden(NodeFor(m, key), ref))
  {
    var m' := m - {k};
    var ref := m[k];
    assert forall j :: j in m' <==> j in m && j != k;
    assert forall j :: j in m' ==> m'[j] == m[j];
    forall role {
      IdsTake(m, k, key, role);
    }
    hide IdsOf, GidsFor;
  }

  lemma IdsTake(m: Meaning, k: string, key: NodeName, role: Role)
    requires k in m && Distinct(m)
    ensures IdsOf(m - {k}, key, role) == IdsOf(m, key, role) - if IsEndpoint(m[k], key, role) then {m[k].id} else {}
    ensures GidsFor(m - {k}, key, role) ==
            GidsFor(m, key, role) - if IsEndpoint(m[k], key, role) then {m[k].gid} else {}
  {
    var m' := m - {k};
    forall j | j in m && j != k ensures j in m' && m'[j] == m[j] && !Clash(m[j], m[k]) {
    }
    assert IsEndpoint(m[k], key, role) ==> m[k].id in IdsOf(m, key, role) && m[k].gid in GidsFor(m, key, role);
  }

  /** A node without tokens is one that no held key expression names. */
  lemma EmptyUnnamed(m: Meaning, key: NodeName)
    ensures var node := NodeFor(m, key);
            node.alive || node.listing.writerIds != {} || node.listing.readerIds != {} <==> Named(m, key)
    ensures !Named(m, key) ==> NodeFor(m, key) == Node(false, EmptyListing())
  {
    var node := NodeFor(m, key);
    if k :| k in m && m[k].key == key {
      if m[k].EndpointRef? {
        assert m[k].id in IdsOf(m, key, m[k].role);
      }
    }
  }

  /** An entity arrives: its node shows it, and the node table follows. */
  lemma ShowNodeExact(m: Meaning, w: World, k: string, ref: EntityRef, now: Time)
    requires k in m ==> m[k] == ref
    requires NodesExact(m, w.graph.nodes) && TableExact(w.graph.nodes, w.table.nodes)
    ensures var after := ShowNode(w, ref, now);
            NodesExact(m[k := ref], after.graph.nodes) && TableExact(after.graph.nodes, after.table.nodes)
  {
    hide NodeFor, Named, Nodes.PutNode;
    var after := ShowNode(w, ref, now);
    EmptyUnnamed(m, ref.key);
    forall key ensures (key in after.graph.nodes <==> Named(m[k := ref], key))
                    && (key in after.graph.nodes ==> after.graph.nodes[key] == NodeFor(m[k := ref], key)) {
      NodeForAdd(m, k, ref, key);
    }
    PutExact(w.graph.nodes, w.table, ref.key, after.graph.nodes[ref.key], now);
  }

  lemma PutExact(nodes: map<NodeName, Node>, table: Nodes.Table, key: NodeName, node: Node, now: Time)
    requires TableExact(nodes, table.nodes)
    ensures TableExact(nodes[key := node], Nodes.PutNode(table, TableKey(key), node.listing, now).nodes)
    ensures key in nodes && nodes[key] == node ==> TableExact(nodes[key := node], table.nodes)
  {
    hide Nodes.PutNode;
    Nodes.PutNodes(table, TableKey(key), node.listing, now);
  }

  /** An entity leaves; its node shows what is left, or leaves too. */
  lemma NodesTake(m: Meaning, k: string, nodes: map<NodeName, Node>)
    requires k in m && Distinct(m) && NodesExact(m, nodes)
    ensures var ref := m[k];
            var hidden := Hidden(nodes[ref.key], ref);
            && ref.key in nodes
            && (hidden.alive || hidden.listing.writerIds != {} || hidden.listing.readerIds != {} <==>
                Named(m - {k}, ref.key))
            && NodesExact(m - {k}, if Named(m - {k}, ref.key) then nodes[ref.key := hidden] else nodes - {ref.key})
  {
    hide NodeFor, Named;
    var ref := m[k];
    NamedByMember(m, k);
    EmptyUnnamed(m - {k}, ref.key);
    var after := if Named(m - {k}, ref.key) then nodes[ref.key := Hidden(nodes[ref.key], ref)] else nodes - {ref.key};
    NodeForTake(m, k, ref.key);
    forall key
      ensures (key in after <==> Named(m - {k}, key)) && (key in after ==> after[key] == NodeFor(m - {k}, key))
    {
      NodeForTake(m, k, key);
    }
  }

  lemma NamedByMember(m: Meaning, k: string)
    requires k in m
    ensures Named(m, m[k].key)
  {
  }

  lemma TableTake(nodes: map<NodeName, Node>, table: Nodes.Table, key: NodeName)
    requires TableExact(nodes, table.nodes)
    ensures TableExact(nodes - {key}, Nodes.Remove(table, TableKey(key)).nodes)
  {
    hide Nodes.Remove;
    Nodes.RemovedNodes(table, TableKey(key));
  }

  // ---------- Endpoints and participants follow the key expressions ----------

  /** The same endpoints with the same data; only times may differ. */
  ghost predicate SameEnds(d: Discovery.Endpoints, d': Discovery.Endpoints) {
    d.entries.Keys == d'.entries.Keys && forall id :: id in d.entries ==> d'.entries[id].data == d.entries[id].data
  }

  lemma SameEndsKeep(m: Meaning, role: Role, d: Discovery.Endpoints, d': Discovery.Endpoints)
    requires SameEnds(d, d')
    ensures EndsWithin(m, role, d) ==> EndsWithin(m, role, d')
    ensures EndsFull(m, role, d) ==> EndsFull(m, role, d')
  {
    hide Publishes;
  }

  lemma ParticipantArrives(t: Discovery.Table, id: ParticipantId, now: Time, clock: Discovery.Clock)
    requires id.ZenohParticipant?
    ensures var after := Discovery.AfterSample(t, ParticipantSampleOf(id), now, clock).0;
            && SameEnds(t.publications, after.publications) && SameEnds(t.subscriptions, after.subscriptions)
            && after.participants.entries.Keys == t.participants.entries.Keys + {id}
            && (forall p :: p in t.participants.entries && p != id ==>
                after.participants.entries[p] == t.participants.entries[p])
            && after.participants.entries[id].expiresAt == None
  {
  }

  lemma ParticipantKept(m: Meaning, k: string, ref: EntityRef, t: Discovery.Table, now: Time, clock: Discovery.Clock)
    requires Within(m, t) && Zenoh(ref) && k !in m
    ensures var after := Discovery.AfterSample(t, ParticipantSampleOf(ref.key.participantId), now, clock).0;
            && ParticipantsExact(m[k := ref], after.participants)
            && EndsWithin(m, Writer, after.publications) && EndsWithin(m, Reader, after.subscriptions)
            && (Full(m, t) ==> Full(m, after))
  {
    hide Discovery.AfterSample, SameEnds, EndsWithin, EndsFull, HasParticipant;
    var after := Discovery.AfterSample(t, ParticipantSampleOf(ref.key.participantId), now, clock).0;
    ParticipantArrives(t, ref.key.participantId, now, clock);
    SameEndsKeep(m, Writer, t.publications, after.publications);
    SameEndsKeep(m, Reader, t.subscriptions, after.subscriptions);
    forall p: ParticipantId
      ensures HasParticipant(m[k := ref], p) <==> HasParticipant(m, p) || p == ref.key.participantId
    {
      HasParticipantAdd(m, k, ref, p);
    }
  }

  lemma HasParticipantAdd(m: Meaning, k: string, ref: EntityRef, p: ParticipantId)
    requires k !in m
    ensures HasParticipant(m[k := ref], p) <==> HasParticipant(m, p) || p == ref.key.participantId
  {
    var m' := m[k := ref];
    assert m'[k] == ref;
    assert forall j :: j in m ==> j in m' && m'[j] == m[j];
  }

  lemma EndpointArrives(t: Discovery.Table, ref: EntityRef, now: Time, clock: Discovery.Clock)
    requires ref.EndpointRef?
    ensures var after := Discovery.AfterSample(t, SampleOf(ref), now, clock).0;
            var entries := EndpointsFor(t, ref.role).entries;
            && after.participants == t.participants
            && EndpointsFor(after, OtherRole(ref.role)) == EndpointsFor(t, OtherRole(ref.role))
            && EndpointsFor(after, ref.role).entries.Keys == entries.Keys + {ref.id}
            && (forall id :: id in entries && id != ref.id ==> EndpointsFor(after, ref.role).entries[id] == entries[id])
            && EndpointsFor(after, ref.role).entries[ref.id].data == DataOf(ref)
            && EndpointsFor(after, ref.role).entries[ref.id].expiresAt ==
               Discovery.EndpointDeadline(t.participants, Some(ref.key.participantId), now, clock)
  {
  }

  function OtherRole(role: Role): Role {
    if role.Writer? then Reader else Writer
  }

  lemma EndsGrow(m: Meaning, k: string, ref: EntityRef, role: Role, d: Discovery.Endpoints)
    requires k in m ==> m[k] == ref
    requires EndsWithin(m, role, d)
    ensures EndsWithin(m[k := ref], role, d)
  {
    var m' := m[k := ref];
    forall id | id in d.entries && id.ZenohEndpoint?
      ensures exists j :: Publishes(m', j, role, id) && d.entries[id].data == DataOf(m'[j])
    {
      var j :| Publishes(m, j, role, id) && d.entries[id].data == DataOf(m[j]);
      assert Publishes(m', j, role, id);
    }
  }

  /** The endpoint of the arriving entity is in the table afterwards. */
  lemma ShowEndpointWithin(m: Meaning, k: string, ref: EntityRef, t: Discovery.Table, first: bool, now: Time,
                           clock: Discovery.Clock)
    requires k in m ==> m[k] == ref
    requires EndsWithin(m, Writer, t.publications) && EndsWithin(m, Reader, t.subscriptions)
    ensures var after := ShowEndpoint(t, ref, first, now, clock);
            && after.participants == t.participants
            && EndsWithin(m[k := ref], Writer, after.publications)
            && EndsWithin(m[k := ref], Reader, after.subscriptions)
            && (Full(m, t) ==> Full(m[k := ref], after))
  {
    hide EndsWithin, EndsFull, Discovery.AfterSample;
    EndsGrow(m, k, ref, Writer, t.publications);
    EndsGrow(m, k, ref, Reader, t.subscriptions);
    FullGrows(m, k, ref, Writer, t.publications);
    FullGrows(m, k, ref, Reader, t.subscriptions);
    if ref.EndpointRef? {
      EndpointArrives(t, ref, now, clock);
      var after := Discovery.AfterSample(t, SampleOf(ref), now, clock).0;
      EndsPut(m, k, ref, EndpointsFor(t, ref.role), EndpointsFor(after, ref.role));
    }
  }

  lemma FullGrows(m: Meaning, k: string, ref: EntityRef, role: Role, d: Discovery.Endpoints)
    requires k in m ==> m[k] == ref
    ensures EndsFull(m, role, d) && (ref.EndpointRef? && ref.role == role ==> ref.id in d.entries) ==>
            EndsFull(m[k := ref], role, d)
  {
  }

  lemma EndsPut(m: Meaning, k: string, ref: EntityRef, d: Discovery.Endpoints, d': Discovery.Endpoints)
    requires ref.EndpointRef? && EndsWithin(m[k := ref], ref.role, d)
    requires d'.entries.Keys == d.entries.Keys + {ref.id} && d'.entries[ref.id].data == DataOf(ref)
    requires forall id :: id in d.entries && id != ref.id ==> d'.entries[id] == d.entries[id]
    ensures EndsWithin(m[k := ref], ref.role, d')
    ensures EndsFull(m, ref.role, d) ==> EndsFull(m[k := ref], ref.role, d')
  {
    assert Publishes(m[k := ref], k, ref.role, ref.id);
  }

  lemma EndsDrop(m: Meaning, k: string, role: Role, d: Discovery.Endpoints)
    requires k in m && Distinct(m) && EndsWithin(m, role, d)
    ensures var ref := m[k];
            var after := if ref.EndpointRef? && ref.role == role then Drop(d, ref.id) else d;
            && EndsWithin(m - {k}, role, after)
            && (EndsFull(m, role, d) ==> EndsFull(m - {k}, role, after))
  {
    var ref := m[k];
    var after := if ref.EndpointRef? && ref.role == role then Drop(d, ref.id) else d;
    var m' := m - {k};
    forall id | id in after.entries && id.ZenohEndpoint?
      ensures exists j :: Publishes(m', j, role, id) && after.entries[id].data == DataOf(m'[j])
    {
      var j :| Publishes(m, j, role, id) && d.entries[id].data == DataOf(m[j]);
      assert Publishes(m', j, role, id);
    }
    if EndsFull(m, role, d) {
      forall j | j in m' && m'[j].EndpointRef? && m'[j].role == role ensures m'[j].id in after.entries {
        assert m'[j] == m[j] && !Clash(m[j], m[k]);
      }
    }
  }

  /** A participant leaves of which no held key expression speaks: no Zenoh endpoint goes with it. */
  lemma EndsSurvive(m: Meaning, role: Role, d: Discovery.Endpoints, id: ParticipantId)
    requires EndsWithin(m, role, d) && !HasParticipant(m, id) && forall k :: k in m ==> Zenoh(m[k])
    ensures EndsWithin(m, role, DropAll(d, Discovery.EndpointsOf(d, id)))
    ensures EndsFull(m, role, d) ==> EndsFull(m, role, DropAll(d, Discovery.EndpointsOf(d, id)))
  {
    forall e | e in d.entries && e.ZenohEndpoint? ensures e !in Discovery.EndpointsOf(d, id) {
      var k :| Publishes(m, k, role, e) && d.entries[e].data == DataOf(m[k]);
      assert m[k].key.participantId != id;
    }
  }

  // ---------- The operations keep the mirror ----------

  lemma RefIsZenoh(e: Entity, env: Env)
    requires RefOf(e, env.gidOf).Some?
    ensures Zenoh(RefOf(e, env.gidOf).value) && RefOf(e, env.gidOf).value.key.participantId == ParticipantOf(e)
  {
  }

  lemma MeaningAfterInsert(w: World, flow: Direction, e: Entity, now: Time, env: Env)
    requires ParseLiveliness(env.parse, e.keyexpr) == Some(e) && RefOf(e, env.gidOf).Some?
    ensures MeaningOf(Insert(w, flow, e, now, env).graph, env)
            == MeaningOf(w.graph, env)[e.keyexpr := RefOf(e, env.gidOf).value]
    ensures e.keyexpr in w.graph.entities <==> e.keyexpr in MeaningOf(w.graph, env)
    ensures e.keyexpr in w.graph.entities ==> MeaningOf(w.graph, env)[e.keyexpr] == RefOf(e, env.gidOf).value
  {
    assert RefFor(env, e.keyexpr) == RefOf(e, env.gidOf);
    hide Insert, RefOf, RefFor;
    InsertRelation(w, flow, e, now, env);
  }

  /** An entity that a flow announces is shown, and nothing else changes. */
  lemma InsertMirrors(w: World, flow: Direction, e: Entity, now: Time, env: Env)
    requires ParseLiveliness(env.parse, e.keyexpr) == Some(e) && RefOf(e, env.gidOf).Some?
    requires Mirrors(MeaningOf(w.graph, env), w)
    requires Distinct(MeaningOf(w.graph, env)[e.keyexpr := RefOf(e, env.gidOf).value])
    ensures var after := Insert(w, flow, e, now, env);
            && Mirrors(MeaningOf(after.graph, env), after)
            && (Full(MeaningOf(w.graph, env), w.discovery) ==> Full(MeaningOf(after.graph, env), after.discovery))
  {
    hide RefOf, RefFor, MeaningOf, Distinct, Full, NodesExact, TableExact, Zenoh, ShowNode, ShowEndpoint, Within,
        Discovery.AfterSample;
    var k := e.keyexpr;
    var m := MeaningOf(w.graph, env);
    var ref := RefOf(e, env.gidOf).value;
    RefIsZenoh(e, env);
    MeaningAfterInsert(w, flow, e, now, env);
    if flow in RefsOf(w.graph, k) {
      assert m[k := ref] == m;
    } else {
      var first := k !in w.graph.entities;
      var g := w.graph.(lastSeen := w.graph.lastSeen[flow := now]);
      var d := Introduced(w.discovery, ParticipantOf(e), first, now, env.clock);
      InsertShape(w, flow, e, now, env);
      ShowNodeExact(m, World(g, d, w.table), k, ref, now);
      InsertDiscovery(m, w.discovery, k, ref, first, now, env.clock, w.graph, env);
    }
  }

  lemma InsertShape(w: World, flow: Direction, e: Entity, now: Time, env: Env)
    requires RefOf(e, env.gidOf).Some? && flow !in RefsOf(w.graph, e.keyexpr)
    ensures var first := e.keyexpr !in w.graph.entities;
            var g := w.graph.(lastSeen := w.graph.lastSeen[flow := now]);
            var ref := RefOf(e, env.gidOf).value;
            var d := Introduced(w.discovery, ParticipantOf(e), first, now, env.clock);
            var shown := ShowNode(World(g, d, w.table), ref, now);
            var after := Insert(w, flow, e, now, env);
            && after.graph.nodes == shown.graph.nodes
            && after.table == shown.table
            && after.discovery == ShowEndpoint(d, ref, first, now, env.clock)
  {
    hide RefOf, Discovery.AfterSample, Nodes.PutNode, Shown, ShowEndpoint;
  }

  lemma InsertDiscovery(m: Meaning, t: Discovery.Table, k: string, ref: EntityRef, first: bool, now: Time,
                        clock: Discovery.Clock,
                        g: Graph, env: Env)
    requires m == MeaningOf(g, env) && first == (k !in g.entities) && Within(m, t) && Zenoh(ref)
    requires k in g.entities ==> k in m && m[k] == ref
    ensures var d := Introduced(t, ref.key.participantId, first, now, clock);
            var after := ShowEndpoint(d, ref, first, now, clock);
            Within(m[k := ref], after) && (Full(m, t) ==> Full(m[k := ref], after))
  {
    hide Full, EndsWithin, EndsFull, ParticipantsExact, ShowEndpoint, Discovery.AfterSample, Zenoh, RefFor;
    var d := Introduced(t, ref.key.participantId, first, now, clock);
    if first {
      ParticipantKept(m, k, ref, t, now, clock);
    } else {
      assert m[k := ref] == m;
    }
    ShowEndpointWithin(m, k, ref, d, first, now, clock);
  }

  lemma MeaningAfterRemove(w: World, flow: Direction, k: string, now: Time, env: Env)
    requires Parsed(w.graph.entities, env) && flow in RefsOf(w.graph, k)
    ensures k in MeaningOf(w.graph, env) && MeaningOf(w.graph, env)[k] == w.graph.entities[k][flow]
    ensures MeaningOf(Remove(w, flow, k, now).graph, env) ==
            if w.graph.entities[k] - {flow} == map[] then MeaningOf(w.graph, env) - {k} else MeaningOf(w.graph, env)
  {
    hide RefFor, Remove, Unlisted;
    RemoveRelation(w, flow, k, now);
    assert Holds(w.graph.entities, flow, k);
  }

  lemma HasParticipantTake(m: Meaning, k: string, p: ParticipantId)
    requires k in m && Distinct(m)
    ensures HasParticipant(m - {k}, p) <==>
            HasParticipant(m, p) && (p == m[k].key.participantId ==> Named(m - {k}, m[k].key))
  {
    var m' := m - {k};
    assert forall j :: j in m' <==> j in m && j != k;
    assert forall j :: j in m' ==> m'[j] == m[j];
    if j :| j in m && m[j].key.participantId == p && (p == m[k].key.participantId ==> Named(m', m[k].key)) {
      if j == k {
        var i :| i in m' && m'[i].key == m[k].key;
      }
    }
  }

  /** The last holder of an entity is gone: it alone disappears from the tables. */
  lemma RemoveRefMirrors(m: Meaning, w: World, k: string, now: Time)
    requires Mirrors(m, w) && k in m
    ensures var after := RemoveRef(w, m[k], now);
            Mirrors(m - {k}, after) && (Full(m, w.discovery) ==> Full(m - {k}, after.discovery))
  {
    hide NodesExact, TableExact, Zenoh, EndsWithin, EndsFull, DropAll, Drop, ParticipantsExact, HasParticipant, Named,
        Hidden,
         Nodes.PutNode, Nodes.Remove, Distinct;
    var ref := m[k];
    var m' := m - {k};
    var d := DropEndpoint(w.discovery, ref);
    NodesTake(m, k, w.graph.nodes);
    var hidden := Hidden(w.graph.nodes[ref.key], ref);
    DistinctTake(m, k);
    EndsDrop(m, k, Writer, w.discovery.publications);
    EndsDrop(m, k, Reader, w.discovery.subscriptions);
    forall p: ParticipantId {
      HasParticipantTake(m, k, p);
    }
    RemoveParticipantExact(m, m', ref.key, w.discovery.participants);
    if Named(m', ref.key) {
      PutExact(w.graph.nodes, w.table, ref.key, hidden, now);
    } else {
      TableTake(w.graph.nodes, w.table, ref.key);
      assert w.graph.nodes[ref.key := hidden] - {ref.key} == w.graph.nodes - {ref.key};
      EndsSurvive(m', Writer, d.publications, ref.key.participantId);
      EndsSurvive(m', Reader, d.subscriptions, ref.key.participantId);
      ParticipantListed(m, k, w.discovery.participants);
    }
  }

  lemma ParticipantListed(m: Meaning, k: string, d: Discovery.Participants)
    requires k in m && ParticipantsExact(m, d) && Zenoh(m[k])
    ensures m[k].key.participantId in d.entries
  {
    assert HasParticipant(m, m[k].key.participantId);
  }

  lemma DistinctTake(m: Meaning, k: string)
    requires Distinct(m)
    ensures Distinct(m - {k})
  {
    hide Clash;
  }

  lemma RemoveParticipantExact(m: Meaning, m': Meaning, key: NodeName, d: Discovery.Participants)
    requires ParticipantsExact(m, d)
    requires forall p: ParticipantId ::
      HasParticipant(m', p) <==> HasParticipant(m, p) && (p == key.participantId ==> Named(m', key))
    ensures ParticipantsExact(m', if Named(m', key) then d else Drop(d, key.participantId))
  {
    hide HasParticipant, Named;
  }

  lemma RemoveMirrors(w: World, flow: Direction, k: string, now: Time, env: Env)
    requires Parsed(w.graph.entities, env) && Mirrors(MeaningOf(w.graph, env), w)
    ensures var after := Remove(w, flow, k, now);
            && Mirrors(MeaningOf(after.graph, env), after)
            && (Full(MeaningOf(w.graph, env), w.discovery) ==> Full(MeaningOf(after.graph, env), after.discovery))
  {
    hide MeaningOf, Full, RemoveRef, Unlisted, Distinct, NodesExact, TableExact, Within;
    if flow in RefsOf(w.graph, k) {
      MeaningAfterRemove(w, flow, k, now, env);
      var refs := w.graph.entities[k] - {flow};
      UnlistedParts(w.graph, flow, k, w.graph.entities[k := refs]);
      if refs == map[] {
        var g := Unlisted(w.graph.(entities := w.graph.entities[k := refs]), flow, k);
        var mid := w.(graph := g.(entities := g.entities - {k}));
        RemoveRefMirrors(MeaningOf(w.graph, env), mid, k, now);
      }
    }
  }

  // ---------- Sweeps and refreshes ----------

  /** A sweep may hide endpoints, but shows nothing that is not held and leaves participants and nodes. */
  lemma SweepMirrors(m: Meaning, w: World, now: Time)
    requires Mirrors(m, w)
    ensures Mirrors(m, w.(discovery := Discovery.AfterSweep(w.discovery, now)))
  {
    hide NodesExact, TableExact, Distinct, Publishes, HasParticipant;
  }

  /** The endpoints of some key expressions are in the table, good until after `now`. */
  ghost predicate Refreshed(m: Meaning, keys: set<string>, role: Role, d: Discovery.Endpoints, now: Time) {
    forall k :: k in keys && k in m && m[k].EndpointRef? && m[k].role == role ==>
      m[k].id in d.entries && !Expired(d.entries[m[k].id].expiresAt, now)
  }

  /** A sweep hides nothing that is held if and only if all of it is announced until after `now`. */
  lemma SweepShowsAll(m: Meaning, t: Discovery.Table, now: Time)
    ensures Full(m, Discovery.AfterSweep(t, now)) <==>
            Refreshed(m, m.Keys, Writer, t.publications, now) && Refreshed(m, m.Keys, Reader, t.subscriptions, now)
  {
    var after := Discovery.AfterSweep(t, now);
    SweepEnds(m, Writer, t.publications, after.publications, now);
    SweepEnds(m, Reader, t.subscriptions, after.subscriptions, now);
    hide EndsFull, Refreshed;
  }

  lemma SweepEnds(m: Meaning, role: Role, d: Discovery.Endpoints, d': Discovery.Endpoints, now: Time)
    requires d' == DropAll(d, ExpiredIds(d, now))
    ensures EndsFull(m, role, d') <==> Refreshed(m, m.Keys, role, d, now)
  {
    assert forall id :: id in d'.entries <==> id in d.entries && !Expired(d.entries[id].expiresAt, now);
    hide DropAll, ExpiredIds, Expired;
  }

  lemma RefreshNodeMirrors(m: Meaning, w: World, key: NodeName, now: Time, clock: Discovery.Clock)
    requires Mirrors(m, w) && key in w.graph.nodes
    ensures Mirrors(m, World(w.graph,
              Discovery.AfterSample(w.discovery, ParticipantSampleOf(key.participantId), now, clock).0,
              Nodes.PutNode(w.table, TableKey(key), w.graph.nodes[key].listing, now)))
  {
    hide NodeFor, Distinct, Discovery.AfterSample, EndsWithin, TableExact, Nodes.PutNode, SameEnds;
    var k :| k in m && m[k].key == key;
    var after := Discovery.AfterSample(w.discovery, ParticipantSampleOf(key.participantId), now, clock).0;
    assert HasParticipant(m, key.participantId);
    ParticipantArrives(w.discovery, key.participantId, now, clock);
    SameEndsKeep(m, Writer, w.discovery.publications, after.publications);
    SameEndsKeep(m, Reader, w.discovery.subscriptions, after.subscriptions);
    assert w.graph.nodes[key := w.graph.nodes[key]] == w.graph.nodes;
    PutExact(w.graph.nodes, w.table, key, w.graph.nodes[key], now);
    hide HasParticipant, Named;
  }

  /** One endpoint is announced again; all announced so far stay refreshed. */
  lemma RefreshEndpoint(m: Meaning, t: Discovery.Table, k: string, keys: set<string>, now: Time, clock: Discovery.Clock)
    requires Within(m, t) && k in m && m[k].EndpointRef? && Zenoh(m[k]) && clock.ttl > 0
    requires Refreshed(m, keys, Writer, t.publications, now) && Refreshed(m, keys, Reader, t.subscriptions, now)
    ensures var after := Discovery.AfterSample(t, SampleOf(m[k]), now, clock).0;
            && Within(m, after)
            && Refreshed(m, keys + {k}, Writer, after.publications, now)
            && Refreshed(m, keys + {k}, Reader, after.subscriptions, now)
  {
    hide Discovery.AfterSample, EndsWithin;
    var ref := m[k];
    var after := Discovery.AfterSample(t, SampleOf(ref), now, clock).0;
    EndpointArrives(t, ref, now, clock);
    assert m[k := ref] == m;
    EndsPut(m, k, ref, EndpointsFor(t, ref.role), EndpointsFor(after, ref.role));
    hide HasParticipant;
  }

  // ---------- Other traffic on the same tables ----------

  /** A discovery sample that names no Zenoh participant or endpoint. */
  ghost predicate NamesOthers(t: Discovery.Table, sample: Discovery.Sample) {
    match sample
    case ParticipantSeen(p) =>
      var id := Discovery.ParticipantIdOf(p);
      id.Some? ==> id.value.RtpsParticipant?
    case PublicationSeen(e) =>
      var id := Discovery.EndpointIdOf(e);
      id.Some? ==> id.value.RtpsEndpoint?
    case SubscriptionSeen(e) =>
      var id := Discovery.EndpointIdOf(e);
      id.Some? ==> id.value.RtpsEndpoint?
    case UnknownBuiltin => true
    case Disposed(kind, gid) =>
      && (gid in t.participants.index ==> t.participants.index[gid].RtpsParticipant?)
      && (gid in t.publications.index ==> t.publications.index[gid].RtpsEndpoint?)
      && (gid in t.subscriptions.index ==> t.subscriptions.index[gid].RtpsEndpoint?)
  }

  /** The Zenoh entries are the same, but for times. */
  ghost predicate SameZenohEnds(d: Discovery.Endpoints, d': Discovery.Endpoints) {
    forall id: EndpointId :: id.ZenohEndpoint? ==>
      (id in d.entries <==> id in d'.entries) && (id in d.entries ==> d'.entries[id].data == d.entries[id].data)
  }

  lemma SameZenohKeep(m: Meaning, role: Role, d: Discovery.Endpoints, d': Discovery.Endpoints)
    requires SameZenohEnds(d, d') && forall k :: k in m ==> Zenoh(m[k])
    ensures EndsWithin(m, role, d) ==> EndsWithin(m, role, d')
    ensures EndsFull(m, role, d) ==> EndsFull(m, role, d')
  {
    hide Publishes;
  }

  lemma OthersPut(d: Discovery.Endpoints, e: Discovery.EndpointSample, now: Time, expiresAt: Option<Time>)
    requires Discovery.EndpointIdOf(e).Some? ==> Discovery.EndpointIdOf(e).value.RtpsEndpoint?
    ensures SameZenohEnds(d, Discovery.UpsertEndpoint(d, e, now, expiresAt).0)
  {
  }

  lemma OthersDisposed(m: Meaning, t: Discovery.Table, kind: Discovery.BuiltinKind, gid: TopicGid)
    requires Within(m, t) && NamesOthers(t, Discovery.Disposed(kind, gid)) && forall k :: k in m ==> Zenoh(m[k])
    ensures var after := Discovery.ApplyDisposal(t, kind, gid).0;
            Within(m, after) && (Full(m, t) ==> Full(m, after))
  {
    hide EndsWithin, EndsFull, Zenoh, DropAll, HasParticipant;
    SameZenohDispose(t.publications, gid);
    SameZenohDispose(t.subscriptions, gid);
    SameZenohKeep(m, Writer, t.publications, Dispose(t.publications, gid));
    SameZenohKeep(m, Reader, t.subscriptions, Dispose(t.subscriptions, gid));
    if gid in t.participants.index {
      var id := t.participants.index[gid];
      NoRtpsParticipant(m, id);
      EndsSurvive(m, Writer, t.publications, id);
      EndsSurvive(m, Reader, t.subscriptions, id);
    }
  }

  lemma SameZenohDispose(d: Discovery.Endpoints, gid: TopicGid)
    ensures gid in d.index && d.index[gid].RtpsEndpoint? ==> SameZenohEnds(d, Dispose(d, gid))
    ensures gid !in d.index ==> Dispose(d, gid) == d && SameZenohEnds(d, d)
  {
  }

  lemma NoRtpsParticipant(m: Meaning, id: ParticipantId)
    requires id.RtpsParticipant? && forall k :: k in m ==> Zenoh(m[k])
    ensures !HasParticipant(m, id)
  {
  }

  /** RTPS discovery leaves the Zenoh part of the tables alone. */
  lemma OthersKeep(m: Meaning, t: Discovery.Table, sample: Discovery.Sample, now: Time, clock: Discovery.Clock)
    requires Within(m, t) && NamesOthers(t, sample) && forall k :: k in m ==> Zenoh(m[k])
    ensures var after := Discovery.AfterSample(t, sample, now, clock).0;
            Within(m, after) && (Full(m, t) ==> Full(m, after))
  {
    hide EndsWithin, EndsFull, Zenoh, HasParticipant, Discovery.ApplyDisposal, Discovery.UpsertEndpoint, SameZenohEnds;
    match sample
    case ParticipantSeen(p) =>
      var after := Discovery.AfterSample(t, sample, now, clock).0;
      RefreshSame(t, p, now, clock);
      SameZenohKeep(m, Writer, t.publications, after.publications);
      SameZenohKeep(m, Reader, t.subscriptions, after.subscriptions);
    case PublicationSeen(e) =>
      var expiresAt := Discovery.EndpointDeadline(t.participants, Discovery.EndpointParticipantId(e), now, clock);
      OthersPut(t.publications, e, now, expiresAt);
      SameZenohKeep(m, Writer, t.publications, Discovery.UpsertEndpoint(t.publications, e, now, expiresAt).0);
    case SubscriptionSeen(e) =>
      var expiresAt := Discovery.EndpointDeadline(t.participants, Discovery.EndpointParticipantId(e), now, clock);
      OthersPut(t.subscriptions, e, now, expiresAt);
      SameZenohKeep(m, Reader, t.subscriptions, Discovery.UpsertEndpoint(t.subscriptions, e, now, expiresAt).0);
    case UnknownBuiltin =>
    case Disposed(kind, gid) => OthersDisposed(m, t, kind, gid);
  }

  lemma RefreshSame(t: Discovery.Table, p: Discovery.ParticipantSample, now: Time, clock: Discovery.Clock)
    ensures var after := Discovery.UpsertParticipant(t, p, now, clock).0;
            SameZenohEnds(t.publications, after.publications) && SameZenohEnds(t.subscriptions, after.subscriptions)
  {
    hide Discovery.ParticipantDeadline, AddTime;
  }

  /** Replacing the nodes of a participant with a GID leaves the Zenoh nodes alone. */
  lemma ReplaceOthers(nodes: map<NodeName, Node>, t: Nodes.Table, gid: TopicGid, stale: seq<Nodes.NodeKey>,
                      samples: seq<Nodes.NodeSample>, now: Time)
    requires Nodes.Valid(t) && Nodes.Elements(stale) == Nodes.Stale(t, gid, samples) && TableExact(nodes, t.nodes)
    requires forall s :: s in samples ==> s.participantGid.Some?
    ensures TableExact(nodes, Nodes.UpsertEach(Nodes.RemoveEach(t, stale), samples, now).nodes)
  {
    hide Nodes.Valid, Nodes.UpsertEach, Nodes.RemoveEach, Nodes.Stale, Nodes.Elements, Nodes.Shows, Nodes.NodeOf;
    Nodes.ReplaceExact(t, gid, stale, samples, now);
    assert forall k :: k in Nodes.Retained(samples) ==> k.participantGid.Some?;
  }

  lemma ReplaceMirrors(m: Meaning, w: World, gid: TopicGid, stale: seq<Nodes.NodeKey>, samples: seq<Nodes.NodeSample>,
                       now: Time)
    requires Mirrors(m, w) && Nodes.Valid(w.table) && Nodes.Elements(stale) == Nodes.Stale(w.table, gid, samples)
    requires forall s :: s in samples ==> s.participantGid.Some?
    ensures Mirrors(m, w.(table := Nodes.UpsertEach(Nodes.RemoveEach(w.table, stale), samples, now)))
  {
    hide NodesExact, TableExact, Distinct, Within, Zenoh, Nodes.Valid, Nodes.UpsertEach, Nodes.RemoveEach, Nodes.Stale,
        Nodes.Elements;
    ReplaceOthers(w.graph.nodes, w.table, gid, stale, samples, now);
  }

  lemma OthersMirror(m: Meaning, w: World, sample: Discovery.Sample, now: Time, clock: Discovery.Clock)
    requires Mirrors(m, w) && NamesOthers(w.discovery, sample)
    ensures var after := Discovery.AfterSample(w.discovery, sample, now, clock).0;
            Mirrors(m, w.(discovery := after)) && (Full(m, w.discovery) ==> Full(m, after))
  {
    hide NodesExact, TableExact, Distinct, Within, Full, NamesOthers, Discovery.AfterSample;
    OthersKeep(m, w.discovery, sample, now, clock);
  }

  lemma InsertValid(w: World, flow: Direction, e: Entity, now: Time, env: Env)
    requires Nodes.Valid(w.table)
    ensures Nodes.Valid(Insert(w, flow, e, now, env).table)
  {
    hide Nodes.Valid, Nodes.PutNode, RefOf, Shown, ShowEndpoint, Discovery.AfterSample;
    var ref := RefOf(e, env.gidOf);
    if ref.Some? {
      Nodes.PutKeeps(w.table, TableKey(ref.value.key), Shown(w.graph, ref.value).listing, now);
      ShownSame(w.graph, w.graph.(lastSeen := w.graph.lastSeen[flow := now]), ref.value);
    }
  }

  lemma ShownSame(g: Graph, g': Graph, ref: EntityRef)
    requires g.nodes == g'.nodes
    ensures Shown(g, ref) == Shown(g', ref)
  {
  }

  lemma RemoveValid(w: World, flow: Direction, k: string, now: Time)
    requires Nodes.Valid(w.table)
    ensures Nodes.Valid(Remove(w, flow, k, now).table)
  {
    hide Nodes.Valid, RemoveRef, Unlisted;
    if flow in RefsOf(w.graph, k) {
      var refs := w.graph.entities[k] - {flow};
      var g := Unlisted(w.graph.(entities := w.graph.entities[k := refs]), flow, k);
      RemoveRefValid(w.(graph := g.(entities := g.entities - {k})), w.graph.entities[k][flow], now);
    }
  }

  lemma RemoveRefValid(w: World, ref: EntityRef, now: Time)
    requires Nodes.Valid(w.table)
    ensures Nodes.Valid(RemoveRef(w, ref, now).table)
  {
    hide Nodes.Valid, Nodes.PutNode, Nodes.Remove, Hidden, DropEndpoint, Discovery.AfterRemoval;
    if ref.key in w.graph.nodes {
      Nodes.PutKeeps(w.table, TableKey(ref.key), Hidden(w.graph.nodes[ref.key], ref).listing, now);
      Nodes.RemoveKeeps(w.table, TableKey(ref.key));
    }
  }

  // ---------- Flows expire ----------

  function ActiveDiscovery(): Direction {
    Direction(Tcp, FlowTuple([127, 0, 0, 1], [127, 0, 0, 1], 0, 0))
  }

  /** A passively observed flow that was silent for longer than the timeout. */
  predicate Silent(lastSeen: map<Direction, Time>, flow: Direction, now: Time, timeout: nat) {
    flow in lastSeen && flow != ActiveDiscovery() && lastSeen[flow] + timeout < now
  }

  ghost function RemoveKeys(w: World, flow: Direction, keys: seq<string>, now: Time): World {
    if keys == [] then w else Remove(RemoveKeys(w, flow, keys[..|keys| - 1], now), flow, keys[|keys| - 1], now)
  }

  function Forgotten(g: Graph, flow: Direction): Graph {
    g.(flowEntities := g.flowEntities - {flow}, lastSeen := g.lastSeen - {flow})
  }

  /** One flow lets go of its key expressions, in the order given. */
  ghost function ExpireOne(w: World, flow: Direction, keys: seq<string>, now: Time): World {
    RemoveKeys(w.(graph := Forgotten(w.graph, flow)), flow, keys, now)
  }

  /** A flow and its key expressions, in the order in which they are met. */
  type Leaving = (Direction, seq<string>)

  ghost function ExpireAll(w: World, order: seq<Leaving>, now: Time): World {
    if order == [] then w
    else
      var (flow, keys) := order[|order| - 1];
      ExpireOne(ExpireAll(w, order[..|order| - 1], now), flow, keys, now)
  }

  ghost predicate ListsKeys(g: Graph, flow: Direction, keys: seq<string>) {
    FifoOrder.NoDuplicates(keys) && forall k :: k in keys <==> Lists(g.flowEntities, flow, k)
  }

  /** Different flows, each with the keys it lists when its turn comes. */
  ghost predicate InTurn(w: World, order: seq<Leaving>, now: Time) {
    && (forall i, j :: 0 <= i < j < |order| ==> order[i].0 != order[j].0)
    && (forall i :: 0 <= i < |order| ==> ListsKeys(ExpireAll(w, order[..i], now).graph, order[i].0, order[i].1))
  }

  ghost function FlowsOf(order: seq<Leaving>): set<Direction> {
    set i | 0 <= i < |order| :: order[i].0
  }

  /** The order is one in which exactly the silent flows leave. */
  ghost predicate ExpiresAs(w: World, order: seq<Leaving>, now: Time, timeout: nat) {
    InTurn(w, order, now) && forall f :: f in FlowsOf(order) <==> Silent(w.graph.lastSeen, f, now, timeout)
  }

  /** The graph as it was before a silent flow began to let go of its key expressions. */
  ghost function Unexpired(g: Graph, flow: Direction, remaining: set<string>, seen: Time): Graph {
    if remaining == {} then g
    else g.(flowEntities := g.flowEntities[flow := remaining], lastSeen := g.lastSeen[flow := seen])
  }

  lemma ExpireStep(w: World, flow: Direction, remaining: set<string>, seen: Time, k: string, now: Time, env: Env)
    requires k in remaining && flow !in w.graph.flowEntities
    requires Related(Unexpired(w.graph, flow, remaining, seen), env)
    ensures var after := Remove(w, flow, k, now).graph;
            && Related(Unexpired(after, flow, remaining - {k}, seen), env)
            && after.flowEntities == w.graph.flowEntities && after.lastSeen == w.graph.lastSeen
            && (forall f, j :: Holds(after.entities, f, j) <==> Holds(w.graph.entities, f, j) && !(f == flow && j == k))
  {
    var g := Unexpired(w.graph, flow, remaining, seen);
    assert Lists(g.flowEntities, flow, k);
    assert Holds(g.entities, flow, k);
    UnexpiredUnlisted(w.graph, flow, remaining, seen, k);
    RemoveRelates(w.(graph := g), flow, k, now, env);
    RemoveRelation(w, flow, k, now);
    RemoveRelation(w.(graph := g), flow, k, now);
    hide Remove, Unlisted, RefFor, Inverse, Parsed;
    assert g.entities == w.graph.entities;
  }

  lemma UnexpiredUnlisted(g: Graph, flow: Direction, remaining: set<string>, seen: Time, k: string)
    requires k in remaining && flow !in g.flowEntities
    ensures Unlisted(g, flow, k) == g
    ensures Unlisted(Unexpired(g, flow, remaining, seen), flow, k).flowEntities ==
            Unexpired(g, flow, remaining - {k}, seen).flowEntities
    ensures Unlisted(Unexpired(g, flow, remaining, seen), flow, k).lastSeen.Keys <=
            Unexpired(g, flow, remaining - {k}, seen).lastSeen.Keys
  {
  }

  /** What the tables show does not depend on the flows' own lists. */
  lemma MirrorsFrame(w: World, g: Graph, env: Env)
    requires g.entities == w.graph.entities && g.nodes == w.graph.nodes
    ensures MeaningOf(g, env) == MeaningOf(w.graph, env)
    ensures Mirrors(MeaningOf(w.graph, env), w) ==> Mirrors(MeaningOf(g, env), w.(graph := g))
  {
    hide RefFor, NodesExact, TableExact, Distinct, Zenoh, Within;
  }

  lemma UnexpiredStart(g: Graph, flow: Direction, env: Env)
    requires Related(g, env) && flow in g.lastSeen
    ensures var remaining := if flow in g.flowEntities then g.flowEntities[flow] else {};
            var without := g.(flowEntities := g.flowEntities - {flow}, lastSeen := g.lastSeen - {flow});
            Related(Unexpired(without, flow, remaining, g.lastSeen[flow]), env)
  {
    hide Parsed;
    if flow in g.flowEntities {
      assert (g.flowEntities - {flow})[flow := g.flowEntities[flow]] == g.flowEntities;
      assert (g.lastSeen - {flow})[flow := g.lastSeen[flow]] == g.lastSeen;
    } else {
      assert g.flowEntities - {flow} == g.flowEntities;
    }
  }

  lemma ParsedUnexpired(g: Graph, flow: Direction, remaining: set<string>, seen: Time, env: Env)
    requires Related(Unexpired(g, flow, remaining, seen), env)
    ensures Parsed(g.entities, env)
  {
    hide Parsed;
  }

  /** A flow without a list of key expressions holds none. */
  lemma RelatedHolds(g: Graph, flow: Direction, env: Env)
    requires Related(g, env) && flow !in g.flowEntities
    ensures forall k :: !Holds(g.entities, flow, k)
  {
    forall k ensures !Holds(g.entities, flow, k) {
      assert !Lists(g.flowEntities, flow, k);
    }
  }

  /** What any step on one flow's key expressions keeps. */
  ghost predicate Keeps(w: World, w': World, env: Env) {
    && (Nodes.Valid(w.table) ==> Nodes.Valid(w'.table))
    && (Mirrors(MeaningOf(w.graph, env), w) ==> Mirrors(MeaningOf(w'.graph, env), w'))
    && (Mirrors(MeaningOf(w.graph, env), w) && Full(MeaningOf(w.graph, env), w.discovery) ==>
        Full(MeaningOf(w'.graph, env), w'.discovery))
  }

  lemma KeepsOn(a: World, b: World, c: World, env: Env)
    requires Keeps(a, b, env) && Keeps(b, c, env)
    ensures Keeps(a, c, env) && Keeps(a, a, env)
  {
    hide Mirrors, Full, MeaningOf, Nodes.Valid;
  }

  lemma RemoveKept(w: World, flow: Direction, k: string, now: Time, env: Env)
    requires Parsed(w.graph.entities, env)
    ensures Keeps(w, Remove(w, flow, k, now), env)
  {
    hide Mirrors, Full, MeaningOf, Nodes.Valid, Remove, Parsed;
    if Nodes.Valid(w.table) {
      RemoveValid(w, flow, k, now);
    }
    if Mirrors(MeaningOf(w.graph, env), w) {
      RemoveMirrors(w, flow, k, now, env);
    }
  }

  /** The relation without some key expressions of one flow. */
  ghost predicate HoldsWithout(g: Graph, before: Graph, flow: Direction, keys: seq<string>) {
    forall f, k :: Holds(g.entities, f, k) <==> Holds(before.entities, f, k) && !(f == flow && k in keys)
  }

  lemma {:induction false} RemoveKeysKeep(w: World, flow: Direction, keys: seq<string>, all: set<string>, seen: Time,
                                          now: Time, env: Env)
    requires FifoOrder.NoDuplicates(keys) && flow !in w.graph.flowEntities && forall k :: k in keys ==> k in all
    requires Related(Unexpired(w.graph, flow, all, seen), env)
    ensures var after := RemoveKeys(w, flow, keys, now);
            && Related(Unexpired(after.graph, flow, all - (set k | k in keys), seen), env)
            && after.graph.flowEntities == w.graph.flowEntities && after.graph.lastSeen == w.graph.lastSeen
            && HoldsWithout(after.graph, w.graph, flow, keys)
            && Keeps(w, after, env)
    decreases |keys|
  {
    hide Related, Keeps, HoldsWithout, Remove, Parsed, Unexpired;
    if keys == [] {
      RemoveNone(w, flow, all, env);
    } else {
      var n := |keys| - 1;
      var mid := RemoveKeys(w, flow, keys[..n], now);
      KeysSnoc(keys, all);
      var remaining := all - (set k | k in keys[..n]);
      RemoveKeysKeep(w, flow, keys[..n], all, seen, now, env);
      ExpireStep(mid, flow, remaining, seen, keys[n], now, env);
      ParsedUnexpired(mid.graph, flow, remaining, seen, env);
      RemoveKept(mid, flow, keys[n], now, env);
      KeepsOn(w, mid, Remove(mid, flow, keys[n], now), env);
      HoldsSnoc(Remove(mid, flow, keys[n], now).graph, mid.graph, w.graph, flow, keys);
    }
  }

  lemma RemoveNone(w: World, flow: Direction, all: set<string>, env: Env)
    ensures all - (set k | k in []) == all
    ensures HoldsWithout(w.graph, w.graph, flow, []) && Keeps(w, w, env)
  {
    hide Mirrors, Full, MeaningOf, Nodes.Valid;
  }

  lemma KeysSnoc(keys: seq<string>, all: set<string>)
    requires keys != [] && FifoOrder.NoDuplicates(keys) && forall k :: k in keys ==> k in all
    ensures var n := |keys| - 1;
            var remaining := all - (set k | k in keys[..n]);
            && FifoOrder.NoDuplicates(keys[..n]) && (forall k :: k in keys[..n] ==> k in all)
            && keys[n] in remaining && remaining - {keys[n]} == all - (set k | k in keys)
  {
    var n := |keys| - 1;
    assert keys == keys[..n] + [keys[n]];
  }

  lemma HoldsSnoc(g: Graph, mid: Graph, before: Graph, flow: Direction, keys: seq<string>)
    requires keys != [] && HoldsWithout(mid, before, flow, keys[..|keys| - 1])
    requires forall f, k :: Holds(g.entities, f, k) <==>
             Holds(mid.entities, f, k) && !(f == flow && k == keys[|keys| - 1])
    ensures HoldsWithout(g, before, flow, keys)
  {
    hide Holds;
    assert keys == keys[..|keys| - 1] + [keys[|keys| - 1]];
  }

  /** A flow that lets go of everything it lists holds nothing, and all else stands. */
  lemma ExpireOneKeeps(w: World, flow: Direction, keys: seq<string>, now: Time, env: Env)
    requires Related(w.graph, env) && flow in w.graph.lastSeen && ListsKeys(w.graph, flow, keys)
    ensures var after := ExpireOne(w, flow, keys, now);
            && Related(after.graph, env)
            && after.graph.lastSeen == w.graph.lastSeen - {flow}
            && after.graph.flowEntities == w.graph.flowEntities - {flow}
            && (forall f, k :: Holds(after.graph.entities, f, k) <==> Holds(w.graph.entities, f, k) && f != flow)
            && Keeps(w, after, env)
  {
    hide Related, Keeps, RemoveKeys, HoldsWithout;
    var g := Forgotten(w.graph, flow);
    var all := if flow in w.graph.flowEntities then w.graph.flowEntities[flow] else {};
    UnexpiredStart(w.graph, flow, env);
    assert all == set k | k in keys;
    RemoveKeysKeep(w.(graph := g), flow, keys, all, w.graph.lastSeen[flow], now, env);
    var after := ExpireOne(w, flow, keys, now);
    assert Unexpired(after.graph, flow, all - (set k | k in keys), w.graph.lastSeen[flow]) == after.graph;
    ForgottenKeeps(w, flow, env);
    KeepsOn(w, w.(graph := g), after, env);
    RelatedHolds(after.graph, flow, env);
    OnlyThisFlow(after.graph, g, w.graph, flow, keys);
  }

  lemma ForgottenKeeps(w: World, flow: Direction, env: Env)
    ensures Keeps(w, w.(graph := Forgotten(w.graph, flow)), env)
  {
    hide Mirrors, Full, MeaningOf, Nodes.Valid;
    MirrorsFrame(w, Forgotten(w.graph, flow), env);
  }

  lemma OnlyThisFlow(g: Graph, mid: Graph, before: Graph, flow: Direction, keys: seq<string>)
    requires HoldsWithout(g, mid, flow, keys) && mid.entities == before.entities
    requires forall k :: !Holds(g.entities, flow, k)
    ensures forall f, k :: Holds(g.entities, f, k) <==> Holds(before.entities, f, k) && f != flow
  {
    hide Holds;
  }

  ghost predicate HoldsBut(g: Graph, before: Graph, gone: set<Direction>) {
    forall f, k :: Holds(g.entities, f, k) <==> Holds(before.entities, f, k) && f !in gone
  }

  lemma {:induction false} ExpireAllKeeps(w: World, order: seq<Leaving>, now: Time, env: Env)
    requires Related(w.graph, env) && InTurn(w, order, now) && FlowsOf(order) <= w.graph.lastSeen.Keys
    ensures var after := ExpireAll(w, order, now);
            && Related(after.graph, env)
            && after.graph.lastSeen == w.graph.lastSeen - FlowsOf(order)
            && HoldsBut(after.graph, w.graph, FlowsOf(order))
            && Keeps(w, after, env)
    decreases |order|
  {
    hide Related, Keeps, ListsKeys, Holds, ExpireOne;
    if order == [] {
      ExpireNone(w, env);
    } else {
      var n := |order| - 1;
      var (flow, keys) := order[n];
      var mid := ExpireAll(w, order[..n], now);
      OrderSnoc(w, order, now);
      ExpireAllKeeps(w, order[..n], now, env);
      ExpireOneKeeps(mid, flow, keys, now, env);
      KeepsOn(w, mid, ExpireOne(mid, flow, keys, now), env);
    }
  }

  lemma ExpireNone(w: World, env: Env)
    ensures w.graph.lastSeen - FlowsOf([]) == w.graph.lastSeen
    ensures HoldsBut(w.graph, w.graph, FlowsOf([])) && Keeps(w, w, env)
  {
    hide Mirrors, Full, MeaningOf, Nodes.Valid;
  }

  lemma OrderSnoc(w: World, order: seq<Leaving>, now: Time)
    requires order != [] && InTurn(w, order, now)
    ensures var n := |order| - 1;
            && InTurn(w, order[..n], now) && order[n].0 !in FlowsOf(order[..n])
            && FlowsOf(order) == FlowsOf(order[..n]) + {order[n].0}
            && ListsKeys(ExpireAll(w, order[..n], now).graph, order[n].0, order[n].1)
  {
    hide ListsKeys, ExpireAll;
    var n := |order| - 1;
    forall i | 0 <= i < n ensures order[..n][..i] == order[..i] {
    }
    assert order == order[..n] + [order[n]];
  }

  /** One more flow leaves in its turn. */
  lemma OrderMore(w: World, order: seq<Leaving>, next: Leaving, now: Time)
    requires InTurn(w, order, now) && next.0 !in FlowsOf(order)
    requires ListsKeys(ExpireAll(w, order, now).graph, next.0, next.1)
    ensures InTurn(w, order + [next], now) && FlowsOf(order + [next]) == FlowsOf(order) + {next.0}
    ensures ExpireAll(w, order + [next], now) == ExpireOne(ExpireAll(w, order, now), next.0, next.1, now)
  {
    hide ListsKeys, ExpireOne;
    var longer := order + [next];
    assert longer[..|order|] == order;
    forall i | 0 <= i < |order| ensures longer[..i] == order[..i] {
    }
    forall i | 0 <= i < |order| ensures longer[i].0 != next.0 {
      assert order[i].0 in FlowsOf(order);
    }
  }

  // ---------- What is held is announced again ----------

  ghost function RefreshNodes(w: World, names: seq<NodeName>, now: Time, clock: Discovery.Clock): World
    requires forall i :: 0 <= i < |names| ==> names[i] in w.graph.nodes
    ensures RefreshNodes(w, names, now, clock).graph == w.graph
  {
    if names == [] then w
    else
      var key := names[|names| - 1];
      var rest := RefreshNodes(w, names[..|names| - 1], now, clock);
      World(w.graph, Discovery.AfterSample(rest.discovery, ParticipantSampleOf(key.participantId), now, clock).0,
            Nodes.PutNode(rest.table, TableKey(key), w.graph.nodes[key].listing, now))
  }

  /** A key expression and the flow whose reference is taken. */
  type Taken = (string, Direction)

  /** The reference of the active discovery when there is one, or else any. */
  ghost predicate MayTake(g: Graph, taken: Taken) {
    && taken.0 in g.entities && taken.1 in g.entities[taken.0]
    && (ActiveDiscovery() in g.entities[taken.0] ==> taken.1 == ActiveDiscovery())
  }

  ghost function RefreshEnds(w: World, refs: seq<Taken>, now: Time, clock: Discovery.Clock): World
    requires forall i :: 0 <= i < |refs| ==> MayTake(w.graph, refs[i])
    ensures RefreshEnds(w, refs, now, clock).graph == w.graph && RefreshEnds(w, refs, now, clock).table == w.table
  {
    if refs == [] then w
    else
      var rest := RefreshEnds(w, refs[..|refs| - 1], now, clock);
      var (k, flow) := refs[|refs| - 1];
      assert MayTake(w.graph, refs[|refs| - 1]);
      var ref := w.graph.entities[k][flow];
      if ref.NodeRef? then rest
      else rest.(discovery := Discovery.AfterSample(rest.discovery, SampleOf(ref), now, clock).0)
  }

  /** The orders in which nodes and key expressions are met. */
  datatype Visit = Visit(names: seq<NodeName>, refs: seq<Taken>)

  ghost predicate Visits(g: Graph, visit: Visit) {
    && (forall key :: key in visit.names <==> key in g.nodes)
    && (forall i :: 0 <= i < |visit.refs| ==> MayTake(g, visit.refs[i]))
    && (forall k :: k in g.entities ==> exists i :: 0 <= i < |visit.refs| && visit.refs[i].0 == k)
  }

  ghost function Refreshing(w: World, visit: Visit, now: Time, clock: Discovery.Clock): World
    requires Visits(w.graph, visit)
  {
    RefreshEnds(RefreshNodes(w, visit.names, now, clock), visit.refs, now, clock)
  }

  lemma MeaningKeys(g: Graph, env: Env)
    requires Related(g, env)
    ensures MeaningOf(g, env).Keys == g.entities.Keys
  {
    hide RefFor;
    forall k | k in g.entities ensures k in MeaningOf(g, env) {
      var flow :| flow in g.entities[k];
      assert Holds(g.entities, flow, k);
    }
  }

  lemma RefreshedNone(m: Meaning, t: Discovery.Table, now: Time)
    ensures Refreshed(m, {}, Writer, t.publications, now) && Refreshed(m, {}, Reader, t.subscriptions, now)
  {
  }

  lemma RefreshOne(m: Meaning, w: World, k: string, keys: set<string>, now: Time, clock: Discovery.Clock)
    requires Mirrors(m, w) && k in m && clock.ttl > 0
    requires Refreshed(m, keys, Writer, w.discovery.publications, now)
    requires Refreshed(m, keys, Reader, w.discovery.subscriptions, now)
    ensures var after := if m[k].NodeRef? then w.discovery
                         else Discovery.AfterSample(w.discovery, SampleOf(m[k]), now, clock).0;
            && Mirrors(m, w.(discovery := after))
            && Refreshed(m, keys + {k}, Writer, after.publications, now)
            && Refreshed(m, keys + {k}, Reader, after.subscriptions, now)
  {
    hide NodesExact, TableExact, Distinct, Within, Discovery.AfterSample;
    if m[k].EndpointRef? {
      RefreshEndpoint(m, w.discovery, k, keys, now, clock);
    }
  }

  lemma {:induction false} RefreshNodesMirror(w: World, names: seq<NodeName>, now: Time, env: Env)
    requires forall i :: 0 <= i < |names| ==> names[i] in w.graph.nodes
    ensures var after := RefreshNodes(w, names, now, env.clock);
            && (Nodes.Valid(w.table) ==> Nodes.Valid(after.table))
            && (Mirrors(MeaningOf(w.graph, env), w) ==> Mirrors(MeaningOf(w.graph, env), after))
    decreases |names|
  {
    hide Mirrors, MeaningOf, Nodes.Valid, Nodes.PutNode, Discovery.AfterSample;
    if names != [] {
      var n := |names| - 1;
      var rest := RefreshNodes(w, names[..n], now, env.clock);
      RefreshNodesMirror(w, names[..n], now, env);
      if Nodes.Valid(rest.table) {
        Nodes.PutKeeps(rest.table, TableKey(names[n]), w.graph.nodes[names[n]].listing, now);
      }
      if Mirrors(MeaningOf(w.graph, env), rest) {
        RefreshNodeMirrors(MeaningOf(w.graph, env), rest, names[n], now, env.clock);
      }
    }
  }

  ghost function KeysOf(refs: seq<Taken>): set<string> {
    set i | 0 <= i < |refs| :: refs[i].0
  }

  ghost predicate AllRefreshed(m: Meaning, keys: set<string>, t: Discovery.Table, now: Time) {
    Refreshed(m, keys, Writer, t.publications, now) && Refreshed(m, keys, Reader, t.subscriptions, now)
  }

  lemma {:induction false} RefreshEndsMirror(w: World, refs: seq<Taken>, now: Time, env: Env)
    requires Parsed(w.graph.entities, env) && env.clock.ttl > 0
    requires forall i :: 0 <= i < |refs| ==> MayTake(w.graph, refs[i])
    requires Mirrors(MeaningOf(w.graph, env), w)
    ensures var after := RefreshEnds(w, refs, now, env.clock);
            && Mirrors(MeaningOf(w.graph, env), after)
            && AllRefreshed(MeaningOf(w.graph, env), KeysOf(refs), after.discovery, now)
    decreases |refs|
  {
    hide Mirrors, MeaningOf, Discovery.AfterSample, MayTake, Parsed, Refreshed;
    var m := MeaningOf(w.graph, env);
    if refs == [] {
      RefreshedNone(m, w.discovery, now);
      assert KeysOf(refs) == {};
    } else {
      var n := |refs| - 1;
      var rest := RefreshEnds(w, refs[..n], now, env.clock);
      RefreshEndsMirror(w, refs[..n], now, env);
      TakenMeans(w.graph, refs[n], env);
      RefreshOne(m, rest, refs[n].0, KeysOf(refs[..n]), now, env.clock);
      assert refs == refs[..n] + [refs[n]];
      assert KeysOf(refs) == KeysOf(refs[..n]) + {refs[n].0};
    }
  }

  /** All references of a key expression are what it stands for. */
  lemma TakenMeans(g: Graph, taken: Taken, env: Env)
    requires Parsed(g.entities, env) && MayTake(g, taken)
    ensures taken.0 in MeaningOf(g, env) && MeaningOf(g, env)[taken.0] == g.entities[taken.0][taken.1]
  {
    hide RefFor;
    assert Holds(g.entities, taken.1, taken.0);
  }

  /** After a refresh everything that is held is announced until after `now`. */
  lemma RefreshShowsAll(w: World, visit: Visit, now: Time, env: Env)
    requires Visits(w.graph, visit) && Related(w.graph, env)
    ensures var after := Refreshing(w, visit, now, env.clock);
            && after.graph == w.graph
            && (Nodes.Valid(w.table) ==> Nodes.Valid(after.table))
            && (Mirrors(MeaningOf(w.graph, env), w) && env.clock.ttl > 0 ==>
                && Mirrors(MeaningOf(w.graph, env), after)
                && AllRefreshed(MeaningOf(w.graph, env), MeaningOf(w.graph, env).Keys, after.discovery, now)
                && Full(MeaningOf(w.graph, env), after.discovery))
  {
    hide Mirrors, MeaningOf, RefreshNodes, RefreshEnds, MayTake, Related, Refreshed;
    var m := MeaningOf(w.graph, env);
    RelatedParsed(w.graph, env);
    RefreshNodesMirror(w, visit.names, now, env);
    var mid := RefreshNodes(w, visit.names, now, env.clock);
    if Mirrors(m, w) && env.clock.ttl > 0 {
      RefreshEndsMirror(mid, visit.refs, now, env);
      MeaningKeys(w.graph, env);
      forall k | k in m ensures k in KeysOf(visit.refs) {
        var i :| 0 <= i < |visit.refs| && visit.refs[i].0 == k;
      }
      var after := Refreshing(w, visit, now, env.clock);
      RefreshedMore(m, KeysOf(visit.refs), after.discovery, now);
    }
  }

  lemma RefreshedMore(m: Meaning, keys: set<string>, t: Discovery.Table, now: Time)
    requires AllRefreshed(m, keys, t, now) && m.Keys <= keys
    ensures AllRefreshed(m, m.Keys, t, now) && Full(m, t)
  {
  }

  lemma RelatedParsed(g: Graph, env: Env)
    requires Related(g, env)
    ensures Parsed(g.entities, env)
  {
    hide Parsed;
  }

  // ---------- The periodic sweep ----------

  /** A participant that left, and its nodes in the order in which they leave. */
  type Parting = (TopicGid, seq<Nodes.NodeKey>)

  ghost function PartEach(t: Nodes.Table, partings: seq<Parting>): Nodes.Table {
    if partings == [] then t
    else Nodes.RemoveEach(PartEach(t, partings[..|partings| - 1]), partings[|partings| - 1].1)
  }

  ghost predicate PartInTurn(t: Nodes.Table, partings: seq<Parting>) {
    forall i :: 0 <= i < |partings| ==>
      Nodes.Elements(partings[i].1) == Nodes.Stale(PartEach(t, partings[..i]), partings[i].0, [])
  }

  /** The choices that a periodic sweep leaves open: in which order tables are walked. */
  datatype Sweep = Sweep(expiry: seq<Leaving>, visit: Visit, partings: seq<Parting>)

  ghost function Announced(w: World, sweep: Sweep, now: Time, env: Env): World
    requires Visits(ExpireAll(w, sweep.expiry, now).graph, sweep.visit)
  {
    Refreshing(ExpireAll(w, sweep.expiry, now), sweep.visit, now, env.clock)
  }

  /** The participants that a sweep of the discovery table removes part, those with a GID. */
  ghost predicate PartsLeft(t: Discovery.Table, partings: seq<Parting>, now: Time) {
    forall g :: Parts(partings, g) <==> GidLeaves(t, g, now)
  }

  ghost predicate Parts(partings: seq<Parting>, gid: TopicGid) {
    exists i :: 0 <= i < |partings| && partings[i].0 == gid
  }

  ghost predicate GidLeaves(t: Discovery.Table, gid: TopicGid, now: Time) {
    exists id :: Leaves(t, id, now) && t.participants.entries[id].gid == Some(gid)
  }

  ghost predicate Leaves(t: Discovery.Table, id: ParticipantId, now: Time) {
    id in t.participants.entries && id !in Discovery.AfterSweep(t, now).participants.entries
  }

  ghost predicate MaySweep(w: World, sweep: Sweep, now: Time, timeout: nat, env: Env) {
    && ExpiresAs(w, sweep.expiry, now, timeout)
    && Visits(ExpireAll(w, sweep.expiry, now).graph, sweep.visit)
    && PartInTurn(Announced(w, sweep, now, env).table, sweep.partings)
    && PartsLeft(Announced(w, sweep, now, env).discovery, sweep.partings, now)
  }

  ghost function Swept(w: World, sweep: Sweep, now: Time, timeout: nat, env: Env): World
    requires MaySweep(w, sweep, now, timeout, env)
  {
    var announced := Announced(w, sweep, now, env);
    World(announced.graph, Discovery.AfterSweep(announced.discovery, now), PartEach(announced.table, sweep.partings))
  }

  lemma {:induction false} PartEachMirrors(m: Meaning, w: World, partings: seq<Parting>, now: Time)
    requires Nodes.Valid(w.table) && PartInTurn(w.table, partings)
    ensures Nodes.Valid(PartEach(w.table, partings))
    ensures Mirrors(m, w) ==> Mirrors(m, w.(table := PartEach(w.table, partings)))
    decreases |partings|
  {
    hide Mirrors, Nodes.Valid, Nodes.RemoveEach, Nodes.Stale, Nodes.Elements;
    if partings != [] {
      var n := |partings| - 1;
      forall i | 0 <= i < n ensures partings[..n][..i] == partings[..i] {
      }
      PartEachMirrors(m, w, partings[..n], now);
      var rest := w.(table := PartEach(w.table, partings[..n]));
      Nodes.RemoveEachKeeps(rest.table, partings[n].1);
      if Mirrors(m, rest) {
        ReplaceMirrors(m, rest, partings[n].0, partings[n].1, [], now);
        NoSamples(Nodes.RemoveEach(rest.table, partings[n].1), now);
      }
    }
  }

  lemma NoSamples(t: Nodes.Table, now: Time)
    ensures Nodes.UpsertEach(t, [], now) == t
  {
  }

  /** After the periodic sweep the tables show exactly what is held, whatever they had hidden before. */
  lemma SweepShows(w: World, sweep: Sweep, now: Time, timeout: nat, env: Env)
    requires MaySweep(w, sweep, now, timeout, env) && Related(w.graph, env) && Nodes.Valid(w.table)
    ensures var after := Swept(w, sweep, now, timeout, env);
            && Related(after.graph, env) && Nodes.Valid(after.table)
            && (forall f, k :: Holds(after.graph.entities, f, k) <==>
                Holds(w.graph.entities, f, k) && !Silent(w.graph.lastSeen, f, now, timeout))
            && (Mirrors(MeaningOf(w.graph, env), w) && env.clock.ttl > 0 ==>
                Mirrors(MeaningOf(after.graph, env), after) && Full(MeaningOf(after.graph, env), after.discovery))
  {
    hide Mirrors, MeaningOf, Related, Nodes.Valid, ExpireAll, Refreshing, PartEach, PartInTurn, Full, Visits, Holds,
        InTurn,
         Discovery.AfterSweep, Silent, FlowsOf;
    SilentSeen(w, sweep.expiry, now, timeout);
    var expired := ExpireAll(w, sweep.expiry, now);
    ExpireAllKeeps(w, sweep.expiry, now, env);
    KeepsFacts(w, expired, env);
    var announced := Announced(w, sweep, now, env);
    RefreshShowsAll(expired, sweep.visit, now, env);
    var m := MeaningOf(announced.graph, env);
    var swept := announced.(discovery := Discovery.AfterSweep(announced.discovery, now));
    if Mirrors(m, announced) {
      SweepMirrors(m, announced, now);
    }
    SweepShowsAll(m, announced.discovery, now);
    PartEachMirrors(m, swept, sweep.partings, now);
    hide Refreshed, HoldsBut;
    HoldsButAll(expired.graph, w.graph, FlowsOf(sweep.expiry));
  }

  lemma SilentSeen(w: World, order: seq<Leaving>, now: Time, timeout: nat)
    requires ExpiresAs(w, order, now, timeout)
    ensures InTurn(w, order, now) && FlowsOf(order) <= w.graph.lastSeen.Keys
    ensures forall f :: f in FlowsOf(order) <==> Silent(w.graph.lastSeen, f, now, timeout)
  {
    hide InTurn, FlowsOf;
  }

  lemma KeepsFacts(w: World, w': World, env: Env)
    requires Keeps(w, w', env)
    ensures Nodes.Valid(w.table) ==> Nodes.Valid(w'.table)
    ensures Mirrors(MeaningOf(w.graph, env), w) ==> Mirrors(MeaningOf(w'.graph, env), w')
    ensures Mirrors(MeaningOf(w.graph, env), w) && Full(MeaningOf(w.graph, env), w.discovery) ==>
            Full(MeaningOf(w'.graph, env), w'.discovery)
  {
    hide Mirrors, Full, MeaningOf, Nodes.Valid;
  }

  lemma HoldsButAll(g: Graph, before: Graph, gone: set<Direction>)
    requires HoldsBut(g, before, gone)
    ensures forall f, k :: Holds(g.entities, f, k) <==> Holds(before.entities, f, k) && f !in gone
  {
    hide Holds;
  }

  // ---------- Whole runs ----------

  datatype Step =
    | Announce(flow: Direction, entity: Entity, now: Time)
    | Withdraw(flow: Direction, keyexpr: string, now: Time)
    | Touch(flow: Direction, now: Time)
    | Refresh(visit: Visit, now: Time)
    | Periodic(sweep: Sweep, now: Time, timeout: nat)
    | OtherSample(sample: Discovery.Sample, now: Time)
    | OtherNodes(gid: TopicGid, samples: seq<Nodes.NodeSample>, stale: seq<Nodes.NodeKey>, now: Time)

  /** The step is one that can happen: what it leaves open is resolved in a possible way. */
  ghost predicate Possible(w: World, step: Step, env: Env) {
    match step
    case Refresh(visit, _) => Visits(w.graph, visit)
    case Periodic(sweep, now, timeout) => MaySweep(w, sweep, now, timeout, env)
    case OtherNodes(gid, samples, stale, _) => Nodes.Elements(stale) == Nodes.Stale(w.table, gid, samples)
    case _ => true
  }

  function Touched(g: Graph, flow: Direction, now: Time): Graph {
    if flow in g.flowEntities then g.(lastSeen := g.lastSeen[flow := now]) else g
  }

  ghost function Next(w: World, step: Step, env: Env): World
    requires Possible(w, step, env)
  {
    match step
    case Announce(flow, e, now) => Insert(w, flow, e, now, env)
    case Withdraw(flow, k, now) => Remove(w, flow, k, now)
    case Touch(flow, now) => w.(graph := Touched(w.graph, flow, now))
    case Refresh(visit, now) => Refreshing(w, visit, now, env.clock)
    case Periodic(sweep, now, timeout) => Swept(w, sweep, now, timeout, env)
    case OtherSample(sample, now) => w.(discovery := Discovery.AfterSample(w.discovery, sample, now, env.clock).0)
    case OtherNodes(gid, samples, stale, now) =>
      w.(table := Nodes.UpsertEach(Nodes.RemoveEach(w.table, stale), samples, now))
  }

  ghost predicate IsRun(worlds: seq<World>, steps: seq<Step>, env: Env) {
    && |worlds| == |steps| + 1 && worlds[0] == EmptyWorld()
    && forall i :: 0 <= i < |steps| ==>
         Possible(worlds[i], steps[i], env) && worlds[i + 1] == Next(worlds[i], steps[i], env)
  }

  function EmptyWorld(): World {
    World(Graph(map[], map[], map[], map[]), Discovery.EmptyTable(),
          Nodes.Table(map[], map[], map[], map[], map[], map[], map[]))
  }

  /** Every entity the parser makes out carries a topic unless it is a node. */
  ghost predicate TopicsGiven(parse: Parser) {
    forall k :: parse(k).Some? ==> (parse(k).value.kind.NodeEntity? <==> parse(k).value.topic.None?)
  }

  lemma RefGiven(e: Entity, env: Env)
    requires TopicsGiven(env.parse) && ParseLiveliness(env.parse, e.keyexpr) == Some(e)
    ensures RefOf(e, env.gidOf).Some?
  {
  }

  /**
   An announced key expression is parsed and stands for something else than those
   that are held; other traffic names no Zenoh entity.
   */
  ghost predicate Expected(w: World, step: Step, env: Env) {
    match step
    case Announce(_, e, _) =>
      && ParseLiveliness(env.parse, e.keyexpr) == Some(e)
      && (RefOf(e, env.gidOf).Some? ==> Distinct(MeaningOf(w.graph, env)[e.keyexpr := RefOf(e, env.gidOf).value]))
    case OtherSample(sample, _) => NamesOthers(w.discovery, sample)
    case OtherNodes(_, samples, _, _) => forall s :: s in samples ==> s.participantGid.Some?
    case _ => true
  }

  /** The tables show exactly what is held. */
  ghost predicate ShowsExactly(w: World, env: Env) {
    && Related(w.graph, env) && Nodes.Valid(w.table)
    && Mirrors(MeaningOf(w.graph, env), w) && Full(MeaningOf(w.graph, env), w.discovery)
  }

  lemma StepShows(w: World, step: Step, env: Env)
    requires ShowsExactly(w, env) && Possible(w, step, env) && Expected(w, step, env)
    requires TopicsGiven(env.parse) && env.clock.ttl > 0
    ensures ShowsExactly(Next(w, step, env), env)
  {
    hide Related, Mirrors, MeaningOf, Distinct, Full, Insert, Remove, RefOf, ParseLiveliness, Nodes.Valid,
        Nodes.UpsertEach,
         Nodes.RemoveEach, Nodes.Elements, Nodes.Stale, NamesOthers, Discovery.AfterSample, TopicsGiven, MaySweep,
         Visits, Swept,
         Refreshing;
    var m := MeaningOf(w.graph, env);
    match step
    case Announce(flow, e, now) =>
      RefGiven(e, env);
      InsertRelates(w, flow, e, now, env);
      InsertMirrors(w, flow, e, now, env);
      InsertValid(w, flow, e, now, env);
    case Withdraw(flow, k, now) =>
      RemoveRelates(w, flow, k, now, env);
      RelatedParsed(w.graph, env);
      RemoveKept(w, flow, k, now, env);
      KeepsFacts(w, Remove(w, flow, k, now), env);
    case Touch(flow, now) =>
      TouchRelates(w.graph, flow, now, env);
      MirrorsFrame(w, Touched(w.graph, flow, now), env);
    case Refresh(visit, now) => RefreshShowsAll(w, visit, now, env);
    case Periodic(sweep, now, timeout) => SweepShows(w, sweep, now, timeout, env);
    case OtherSample(sample, now) => OthersMirror(m, w, sample, now, env.clock);
    case OtherNodes(gid, samples, stale, now) =>
      ReplaceMirrors(m, w, gid, stale, samples, now);
      Nodes.RemoveEachKeeps(w.table, stale);
      Nodes.UpsertEachKeeps(Nodes.RemoveEach(w.table, stale), samples, now);
  }

  lemma TouchRelates(g: Graph, flow: Direction, now: Time, env: Env)
    requires Related(g, env)
    ensures Related(Touched(g, flow, now), env)
  {
    hide Inverse, Parsed;
  }

  lemma EmptyShows(env: Env)
    ensures ShowsExactly(EmptyWorld(), env)
  {
    assert MeaningOf(EmptyWorld().graph, env) == map[];
  }

  /**
   After any run of announcements, withdrawals, refreshes and periodic sweeps, with
   any RTPS traffic on the same tables in between, the tables show exactly the Zenoh
   nodes, publications and subscriptions that a held key expression stands for.
   */
  lemma {:induction false} RunMirrors(worlds: seq<World>, steps: seq<Step>, env: Env)
    requires IsRun(worlds, steps, env) && TopicsGiven(env.parse) && env.clock.ttl > 0
    requires forall i :: 0 <= i < |steps| ==> Expected(worlds[i], steps[i], env)
    ensures ShowsExactly(worlds[|steps|], env)
    decreases |steps|
  {
    hide ShowsExactly, Expected, Possible, Next, TopicsGiven;
    if steps == [] {
      EmptyShows(env);
    } else {
      var n := |steps| - 1;
      assert worlds[..n + 1][n] == worlds[n];
      assert IsRun(worlds[..n + 1], steps[..n], env);
      RunMirrors(worlds[..n + 1], steps[..n], env);
      StepShows(worlds[n], steps[n], env);
    }
  }

  // ---------- What asks for a redraw ----------

  ghost predicate NodeNews(w: World, ref: EntityRef) {
    ref.key !in w.graph.nodes || w.graph.nodes[ref.key] != Shown(w.graph, ref)
  }

  ghost predicate EndpointNews(d: Discovery.Table, ref: EntityRef, first: bool, now: Time, clock: Discovery.Clock) {
    && ref.EndpointRef? && (first || ref.id !in EndpointsFor(d, ref.role).entries)
    && Discovery.AfterSample(d, SampleOf(ref), now, clock).1 != Discovery.Noop
  }

  /** The first holder, a node that changes or an endpoint that was hidden. */
  ghost predicate InsertNews(w: World, flow: Direction, e: Entity, now: Time, env: Env) {
    && flow !in RefsOf(w.graph, e.keyexpr)
    && var first := e.keyexpr !in w.graph.entities;
       match RefOf(e, env.gidOf)
       case None =>
         first && Discovery.AfterSample(w.discovery, ParticipantSampleOf(ParticipantOf(e)), now, env.clock).1
                  != Discovery.Noop
       case Some(ref) =>
         || first || NodeNews(w, ref)
         || EndpointNews(Introduced(w.discovery, ParticipantOf(e), first, now, env.clock), ref, first, now, env.clock)
  }

  /** An endpoint that was shown, or any change to a node. */
  ghost predicate RefNews(w: World, ref: EntityRef) {
    (ref.EndpointRef? && ref.id in EndpointsFor(w.discovery, ref.role).entries) || ref.key in w.graph.nodes
  }

  ghost predicate RemoveNews(w: World, flow: Direction, k: string) {
    && flow in RefsOf(w.graph, k) && w.graph.entities[k] - {flow} == map[]
    && RefNews(w, w.graph.entities[k][flow])
  }

  ghost predicate KeysNews(w: World, flow: Direction, keys: seq<string>, now: Time) {
    keys != [] &&
    var earlier := keys[..|keys| - 1];
    KeysNews(w, flow, earlier, now) || RemoveNews(RemoveKeys(w, flow, earlier, now), flow, keys[|keys| - 1])
  }

  ghost predicate ExpiryNews(w: World, order: seq<Leaving>, now: Time) {
    order != [] &&
    var earlier := order[..|order| - 1];
    var (flow, keys) := order[|order| - 1];
    var rest := ExpireAll(w, earlier, now);
    ExpiryNews(w, earlier, now) || KeysNews(rest.(graph := Forgotten(rest.graph, flow)), flow, keys, now)
  }

  ghost predicate NodesNews(w: World, names: seq<NodeName>, now: Time, clock: Discovery.Clock)
    requires forall i :: 0 <= i < |names| ==> names[i] in w.graph.nodes
  {
    names != [] &&
    var earlier := names[..|names| - 1];
    var key := names[|names| - 1];
    var rest := RefreshNodes(w, earlier, now, clock);
    || NodesNews(w, earlier, now, clock) || TableKey(key) !in rest.table.nodes
    || Discovery.AfterSample(rest.discovery, ParticipantSampleOf(key.participantId), now, clock).1
       == Discovery.Inserted
  }

  ghost predicate EndsNews(w: World, refs: seq<Taken>, now: Time, clock: Discovery.Clock)
    requires forall i :: 0 <= i < |refs| ==> MayTake(w.graph, refs[i])
  {
    refs != [] &&
    var earlier := refs[..|refs| - 1];
    var taken := refs[|refs| - 1];
    assert MayTake(w.graph, taken);
    var ref := w.graph.entities[taken.0][taken.1];
    || EndsNews(w, earlier, now, clock)
    || (ref.EndpointRef?
        && ref.id !in EndpointsFor(RefreshEnds(w, earlier, now, clock).discovery, ref.role).entries)
  }

  ghost predicate RefreshNews(w: World, visit: Visit, now: Time, clock: Discovery.Clock)
    requires Visits(w.graph, visit)
  {
    NodesNews(w, visit.names, now, clock) || EndsNews(RefreshNodes(w, visit.names, now, clock), visit.refs, now, clock)
  }

  /** A flow expired, something came into view, or some entry was stale. */
  ghost predicate SweepNews(w: World, sweep: Sweep, now: Time, timeout: nat, env: Env)
    requires MaySweep(w, sweep, now, timeout, env)
  {
    var announced := Announced(w, sweep, now, env);
    var left := Discovery.AfterSweep(announced.discovery, now);
    || ExpiryNews(w, sweep.expiry, now)
    || RefreshNews(ExpireAll(w, sweep.expiry, now), sweep.visit, now, env.clock)
    || |left.participants.entries| < |announced.discovery.participants.entries|
    || |left.publications.entries| < |announced.discovery.publications.entries|
    || |left.subscriptions.entries| < |announced.discovery.subscriptions.entries|
  }

  // ---------- The graph as an object ----------

  method SeqOf<T(==)>(s: set<T>) returns (q: seq<T>)
    ensures Nodes.Elements(q) == s
  {
    q := [];
    var remaining := s;
    while remaining != {}
      invariant Nodes.Elements(q) + remaining == s
      decreases |remaining|
    {
      var x :| x in remaining;
      remaining := remaining - {x};
      q := q + [x];
    }
  }

  class RuntimeZenohGraph {
    var nodes: map<NodeName, Node>
    var entities: map<string, map<Direction, EntityRef>>
    var flowEntities: map<Direction, set<string>>
    var flowLastSeen: map<Direction, Time>
    const env: Env

    constructor (env: Env)
      ensures this.env == env && entities == map[] && nodes == map[]
      ensures Related(Now(), env)
    {
      this.env := env;
      nodes, entities, flowEntities, flowLastSeen := map[], map[], map[], map[];
    }

    function Now(): Graph
      reads this
    {
      Graph(nodes, entities, flowEntities, flowLastSeen)
    }

    ghost function State(discovery: Discovery.DiscoveryTable, table: Nodes.NodeTable): World
      reads this, discovery, table
    {
      World(Now(), discovery.Now(), table.Now())
    }

    ghost function Held(): Meaning
      reads this
    {
      MeaningOf(Now(), env)
    }

    ghost predicate Valid(discovery: Discovery.DiscoveryTable, table: Nodes.NodeTable)
      reads discovery, table
    {
      && discovery.Valid() && Nodes.Valid(table.Now())
      && discovery.clock == env.clock
    }

    /** Nodes, publications and subscriptions show nothing but what is held. */
    ghost predicate Exact(discovery: Discovery.DiscoveryTable, table: Nodes.NodeTable)
      reads this, discovery, table
    {
      Mirrors(Held(), State(discovery, table))
    }

    /** They show all that is held. */
    ghost predicate Complete(discovery: Discovery.DiscoveryTable)
      reads this, discovery
    {
      Full(Held(), discovery.Now())
    }

    method UpsertNodeSample(key: NodeName, node: Node, now: Time, table: Nodes.NodeTable)
      requires Nodes.Valid(table.Now())
      modifies table
      ensures Nodes.Valid(table.Now())
      ensures table.Now() == Nodes.PutNode(old(table.Now()), TableKey(key), node.listing, now)
    {
      hide Nodes.Valid, Nodes.PutNode;
      var writerGids := SeqOf(node.listing.writerGids);
      var readerGids := SeqOf(node.listing.readerGids);
      var writerIds := SeqOf(node.listing.writerIds);
      var readerIds := SeqOf(node.listing.readerIds);
      var sample := Nodes.NodeSample(None, Some(key.participantId), key.namespace, key.name,
                                     writerGids, readerGids, writerIds, readerIds);
      table.UpsertSample(sample, now);
    }

    /** Announce an entity held by a flow; true asks for a redraw. */
    method InsertEntity(flow: Direction, e: Entity, now: Time, discovery: Discovery.DiscoveryTable,
                        table: Nodes.NodeTable)
      returns (dirty: bool)
      requires Valid(discovery, table) && Related(Now(), env)
      requires ParseLiveliness(env.parse, e.keyexpr) == Some(e)
      modifies this, discovery, table
      ensures Valid(discovery, table) && Related(Now(), env)
      ensures State(discovery, table) == Insert(old(State(discovery, table)), flow, e, now, env)
      ensures dirty == InsertNews(old(State(discovery, table)), flow, e, now, env)
      ensures forall f, k :: Holds(entities, f, k) <==>
        old(Holds(entities, f, k)) || (f == flow && k == e.keyexpr && RefOf(e, env.gidOf).Some?)
      ensures var ref := RefOf(e, env.gidOf);
              old(Exact(discovery, table)) && ref.Some? && Distinct(old(Held())[e.keyexpr := ref.value]) ==>
                && Held() == old(Held())[e.keyexpr := ref.value]
                && Exact(discovery, table)
                && (old(Complete(discovery)) ==> Complete(discovery))
    {
      hide Related, Mirrors, MeaningOf, Distinct, Full, Insert, RefOf, Holds, InsertNews;
      ghost var before := State(discovery, table);
      ghost var ref := RefOf(e, env.gidOf);
      InsertRelates(before, flow, e, now, env);
      if ref.Some? {
        MeaningAfterInsert(before, flow, e, now, env);
        if Mirrors(MeaningOf(before.graph, env), before)
            && Distinct(MeaningOf(before.graph, env)[e.keyexpr := ref.value]) {
          InsertMirrors(before, flow, e, now, env);
        }
      }
      dirty := ApplyInsert(flow, e, now, discovery, table);
    }

    method ApplyInsert(flow: Direction, e: Entity, now: Time, discovery: Discovery.DiscoveryTable,
                       table: Nodes.NodeTable)
      returns (dirty: bool)
      requires Valid(discovery, table)
      modifies this, discovery, table
      ensures Valid(discovery, table)
      ensures State(discovery, table) == Insert(old(State(discovery, table)), flow, e, now, env)
      ensures dirty == InsertNews(old(State(discovery, table)), flow, e, now, env)
    {
      hide Discovery.Kept, Nodes.Valid, Discovery.AfterSample, RefOf, ShowNode, ShowEndpoint, NodeNews, EndpointNews;
      dirty := false;
      var k := e.keyexpr;
      if k in entities && flow in entities[k] {
        flowLastSeen := flowLastSeen[flow := now];
        InsertFlowEntity(flow, k);
        return false;
      }
      flowLastSeen := flowLastSeen[flow := now];
      var first := k !in entities;
      if first {
        var change := discovery.ApplySample(ParticipantSampleOf(ParticipantOf(e)), now);
        dirty := change != Discovery.Noop;
      }
      var maybe := RefOf(e, env.gidOf);
      if maybe.None? {
        return;
      }
      var ref := maybe.value;
      NewsOfNode(State(discovery, table), old(State(discovery, table)), ref);
      var node := ShowNodeOf(ref, now, discovery, table);
      var endpoint := ShowEndpointOf(ref, first, now, discovery);
      dirty := dirty || node || endpoint || first;
      InsertFlowEntity(flow, k);
      entities := entities[k := (if k in entities then entities[k] else map[])[flow := ref]];
    }

    method ShowNodeOf(ref: EntityRef, now: Time, ghost discovery: Discovery.DiscoveryTable, table: Nodes.NodeTable)
      returns (changed: bool)
      requires Nodes.Valid(table.Now())
      modifies this`nodes, table
      ensures Nodes.Valid(table.Now())
      ensures State(discovery, table) == ShowNode(old(State(discovery, table)), ref, now)
      ensures Now() == old(Now()).(nodes := nodes)
      ensures changed == NodeNews(old(State(discovery, table)), ref)
    {
      hide Nodes.Valid, Nodes.PutNode, Shown;
      var node := Shown(Now(), ref);
      changed := ref.key !in nodes || nodes[ref.key] != node;
      if changed {
        UpsertNodeSample(ref.key, node, now, table);
      }
      nodes := nodes[ref.key := node];
    }

    method ShowEndpointOf(ref: EntityRef, first: bool, now: Time, discovery: Discovery.DiscoveryTable)
      returns (changed: bool)
      requires discovery.Valid() && discovery.clock == env.clock
      modifies discovery
      ensures discovery.Valid()
      ensures discovery.Now() == ShowEndpoint(old(discovery.Now()), ref, first, now, env.clock)
      ensures changed == EndpointNews(old(discovery.Now()), ref, first, now, env.clock)
    {
      hide Discovery.Kept, Discovery.AfterSample;
      changed := false;
      if ref.EndpointRef? {
        var known := if ref.role.Writer? then ref.id in discovery.publications else ref.id in discovery.subscriptions;
        if first || !known {
          var change := discovery.ApplySample(SampleOf(ref), now);
          changed := change != Discovery.Noop;
        }
      }
    }

    method InsertFlowEntity(flow: Direction, k: string)
      modifies this`flowEntities
      ensures Now() == Listed(old(Now()), flow, k)
    {
      flowEntities := flowEntities[flow := (if flow in flowEntities then flowEntities[flow] else {}) + {k}];
    }

    method RemoveFlowEntity(flow: Direction, k: string)
      modifies this`flowEntities, this`flowLastSeen
      ensures Now() == Unlisted(old(Now()), flow, k)
    {
      if flow !in flowEntities {
        return;
      }
      flowEntities := flowEntities[flow := flowEntities[flow] - {k}];
      if flowEntities[flow] == {} {
        flowEntities := flowEntities - {flow};
        flowLastSeen := flowLastSeen - {flow};
        assert flowEntities == old(flowEntities) - {flow};
      }
    }

    /** Withdraw a key expression held by a flow; true asks for a redraw. */
    method RemoveEntityFromFlow(flow: Direction, k: string, now: Time, discovery: Discovery.DiscoveryTable,
                                table: Nodes.NodeTable)
      returns (dirty: bool)
      requires Valid(discovery, table)
      modifies this, discovery, table
      ensures Valid(discovery, table)
      ensures State(discovery, table) == Remove(old(State(discovery, table)), flow, k, now)
      ensures dirty == RemoveNews(old(State(discovery, table)), flow, k)
      ensures old(Parsed(entities, env) && Exact(discovery, table)) ==>
        Exact(discovery, table) && (old(Complete(discovery)) ==> Complete(discovery))
    {
      hide Mirrors, MeaningOf, Full, Remove, Parsed, RemoveNews;
      ghost var before := State(discovery, table);
      if Parsed(entities, env) && Exact(discovery, table) {
        RemoveMirrors(before, flow, k, now, env);
      }
      dirty := ApplyRemove(flow, k, now, discovery, table);
    }

    method ApplyRemove(flow: Direction, k: string, now: Time, discovery: Discovery.DiscoveryTable,
                       table: Nodes.NodeTable)
      returns (dirty: bool)
      requires Valid(discovery, table)
      modifies this, discovery, table
      ensures Valid(discovery, table)
      ensures State(discovery, table) == Remove(old(State(discovery, table)), flow, k, now)
      ensures dirty == RemoveNews(old(State(discovery, table)), flow, k)
    {
      hide Discovery.Kept, Nodes.Valid, RemoveRef, Unlisted, RefNews;
      if k !in entities || flow !in entities[k] {
        return false;
      }
      var ref := entities[k][flow];
      entities := entities[k := entities[k] - {flow}];
      var final := |entities[k]| == 0;
      assert final <==> entities[k] == map[];
      RemoveFlowEntity(flow, k);
      UnlistedParts(old(Now()), flow, k, entities);
      if !final {
        return false;
      }
      entities := entities - {k};
      NewsOfRef(State(discovery, table), old(State(discovery, table)), ref);
      dirty := RemoveEntityRef(ref, now, discovery, table);
    }

    method RemoveEntityRef(ref: EntityRef, now: Time, discovery: Discovery.DiscoveryTable, table: Nodes.NodeTable)
      returns (dirty: bool)
      requires Valid(discovery, table)
      modifies this`nodes, discovery, table
      ensures Valid(discovery, table)
      ensures State(discovery, table) == RemoveRef(old(State(discovery, table)), ref, now)
      ensures dirty == RefNews(old(State(discovery, table)), ref)
    {
      hide Discovery.Kept, Nodes.Valid, SyncNode, Drop, Hidden;
      dirty := false;
      if ref.EndpointRef? {
        if ref.role.Writer? {
          var removed := discovery.RemovePublicationById(ref.id);
          dirty := removed.Some?;
        } else {
          var removed := discovery.RemoveSubscriptionById(ref.id);
          dirty := removed.Some?;
        }
      }
      if ref.key in nodes {
        nodes := nodes[ref.key := Hidden(nodes[ref.key], ref)];
      }
      var synced := SyncOrRemoveNode(ref.key, now, discovery, table);
      dirty := dirty || synced;
    }

    method SyncOrRemoveNode(key: NodeName, now: Time, discovery: Discovery.DiscoveryTable, table: Nodes.NodeTable)
      returns (dirty: bool)
      requires Valid(discovery, table)
      modifies this`nodes, discovery, table
      ensures Valid(discovery, table)
      ensures State(discovery, table) == SyncNode(old(State(discovery, table)), key, now)
      ensures dirty <==> key in old(nodes)
    {
      hide Discovery.Kept, Nodes.Valid, Nodes.PutNode, Nodes.Remove, Discovery.AfterRemoval;
      if key !in nodes {
        return false;
      }
      dirty := true;
      var node := nodes[key];
      if node.alive || node.listing.writerIds != {} || node.listing.readerIds != {} {
        UpsertNodeSample(key, node, now, table);
        return;
      }
      nodes := nodes - {key};
      var _ := table.RemoveNode(TableKey(key));
      var _ := discovery.RemoveParticipantById(key.participantId);
    }

    method TouchFlow(flow: Direction, now: Time)
      modifies this`flowLastSeen
      ensures Now() == Touched(old(Now()), flow, now)
    {
      if flow in flowEntities {
        flowLastSeen := flowLastSeen[flow := now];
      }
    }

    /** One silent flow lets go of all its key expressions. */
    method ExpireFlow(flow: Direction, now: Time, discovery: Discovery.DiscoveryTable, table: Nodes.NodeTable)
      returns (dirty: bool, ghost keys: seq<string>)
      requires Valid(discovery, table)
      modifies this, discovery, table
      ensures Valid(discovery, table)
      ensures ListsKeys(old(Now()), flow, keys)
      ensures State(discovery, table) == ExpireOne(old(State(discovery, table)), flow, keys, now)
      ensures dirty == var w := old(State(discovery, table));
                       KeysNews(w.(graph := Forgotten(w.graph, flow)), flow, keys, now)
    {
      hide Valid, Remove, FifoOrder.NoDuplicates, RemoveNews;
      dirty, keys := false, [];
      flowLastSeen := flowLastSeen - {flow};
      var remaining := if flow in flowEntities then flowEntities[flow] else {};
      flowEntities := flowEntities - {flow};
      ghost var start := State(discovery, table);
      NoneTaken<string>();
      while remaining != {}
        invariant Valid(discovery, table)
        invariant State(discovery, table) == RemoveKeys(start, flow, keys, now)
        invariant dirty == KeysNews(start, flow, keys, now)
        invariant FifoOrder.NoDuplicates(keys) && forall k :: k in keys ==> k !in remaining
        invariant forall k :: Lists(old(flowEntities), flow, k) <==> k in keys || k in remaining
        decreases |remaining|
      {
        var k :| k in remaining;
        remaining := remaining - {k};
        var gone := RemoveEntityFromFlow(flow, k, now, discovery, table);
        dirty := dirty || gone;
        assert (keys + [k])[..|keys|] == keys;
        OneMoreTaken(keys, k);
        keys := keys + [k];
      }
    }

    /** Silent flows let go of everything; the others keep what they hold. */
    method ExpireInactiveFlows(now: Time, timeout: nat, discovery: Discovery.DiscoveryTable, table: Nodes.NodeTable)
      returns (dirty: bool, ghost order: seq<Leaving>)
      requires Valid(discovery, table)
      modifies this, discovery, table
      ensures Valid(discovery, table)
      ensures ExpiresAs(old(State(discovery, table)), order, now, timeout)
      ensures State(discovery, table) == ExpireAll(old(State(discovery, table)), order, now)
      ensures dirty == ExpiryNews(old(State(discovery, table)), order, now)
    {
      hide Valid, Silent, InTurn, ExpireOne, FlowsOf, ListsKeys, ExpiryNews, KeysNews;
      dirty, order := false, [];
      var remaining := set f | f in flowLastSeen && Silent(flowLastSeen, f, now, timeout);
      ghost var start := State(discovery, table);
      ghost var expired := remaining;
      SilentSet(flowLastSeen, expired, now, timeout);
      NobodyLeft(start, now);
      while remaining != {}
        invariant Valid(discovery, table)
        invariant State(discovery, table) == ExpireAll(start, order, now)
        invariant dirty == ExpiryNews(start, order, now)
        invariant InTurn(start, order, now) && remaining <= expired && FlowsOf(order) == expired - remaining
        decreases |remaining|
      {
        hide ExpireAll;
        var flow :| flow in remaining;
        var expired';
        ghost var keys;
        expired', keys := ExpireFlow(flow, now, discovery, table);
        OrderMore(start, order, (flow, keys), now);
        ExpiryNewsSnoc(start, order, (flow, keys), now);
        dirty := dirty || expired';
        assert expired - (remaining - {flow}) == (expired - remaining) + {flow};
        remaining := remaining - {flow};
        order := order + [(flow, keys)];
      }
      assert expired - remaining == expired;
    }

    /** Everything that is held is announced to the tables again. */
    method RefreshDiscovery(now: Time, discovery: Discovery.DiscoveryTable, table: Nodes.NodeTable)
      returns (dirty: bool, ghost visit: Visit)
      requires Valid(discovery, table) && (forall k :: k in entities ==> entities[k] != map[])
      modifies discovery, table
      ensures Valid(discovery, table)
      ensures Visits(Now(), visit)
      ensures State(discovery, table) == Refreshing(old(State(discovery, table)), visit, now, env.clock)
      ensures dirty == RefreshNews(old(State(discovery, table)), visit, now, env.clock)
    {
      hide Valid, RefreshNodes, RefreshEnds, MayTake, NodesNews, EndsNews;
      var nodesDirty, endsDirty;
      ghost var names, refs;
      nodesDirty, names := RefreshNodeSamples(now, discovery, table);
      endsDirty, refs := RefreshEndpoints(now, discovery, table);
      dirty, visit := nodesDirty || endsDirty, Visit(names, refs);
    }

    method RefreshNodeSamples(now: Time, discovery: Discovery.DiscoveryTable, table: Nodes.NodeTable)
      returns (dirty: bool, ghost names: seq<NodeName>)
      requires Valid(discovery, table)
      modifies discovery, table
      ensures Valid(discovery, table)
      ensures forall key :: key in names <==> key in nodes
      ensures State(discovery, table) == RefreshNodes(old(State(discovery, table)), names, now, env.clock)
      ensures dirty == NodesNews(old(State(discovery, table)), names, now, env.clock)
    {
      hide Nodes.Valid, Discovery.Kept, Nodes.PutNode, Discovery.AfterSample;
      dirty, names := false, [];
      ghost var start := State(discovery, table);
      var remaining := nodes.Keys;
      while remaining != {}
        invariant Valid(discovery, table) && remaining <= nodes.Keys
        invariant forall key :: key in names <==> key in nodes && key !in remaining
        invariant State(discovery, table) == RefreshNodes(start, names, now, env.clock)
        invariant dirty == NodesNews(start, names, now, env.clock)
        decreases |remaining|
      {
        var key :| key in remaining;
        remaining := remaining - {key};
        assert (names + [key])[..|names|] == names;
        dirty := dirty || TableKey(key) !in table.nodes;
        var change := discovery.ApplySample(ParticipantSampleOf(key.participantId), now);
        dirty := dirty || change == Discovery.Inserted;
        UpsertNodeSample(key, nodes[key], now, table);
        names := names + [key];
      }
    }

    method RefreshEndpoints(now: Time, discovery: Discovery.DiscoveryTable, table: Nodes.NodeTable)
      returns (dirty: bool, ghost refs: seq<Taken>)
      requires Valid(discovery, table) && (forall k :: k in entities ==> entities[k] != map[])
      modifies discovery
      ensures Valid(discovery, table)
      ensures forall i :: 0 <= i < |refs| ==> MayTake(Now(), refs[i])
      ensures forall k :: k in entities ==> exists i :: 0 <= i < |refs| && refs[i].0 == k
      ensures State(discovery, table) == RefreshEnds(old(State(discovery, table)), refs, now, env.clock)
      ensures dirty == EndsNews(old(State(discovery, table)), refs, now, env.clock)
    {
      hide Nodes.Valid, Discovery.Kept, Announcing, Again, MayTake, RefreshEnds, EndsNews;
      dirty, refs := false, [];
      ghost var start := State(discovery, table);
      var remaining := entities.Keys;
      NoRefs(start, now, env.clock);
      while remaining != {}
        invariant Valid(discovery, table) && remaining <= entities.Keys
        invariant Announcing(start, refs, remaining, now, env.clock, State(discovery, table), dirty)
        decreases |remaining|
      {
        var k :| k in remaining;
        var news;
        ghost var flow;
        ghost var before := State(discovery, table);
        news, flow := RefreshEndpoint(k, now, discovery);
        OneMoreRef(start, refs, (k, flow), remaining, now, env.clock, before, dirty, State(discovery, table), news);
        remaining, dirty, refs := remaining - {k}, dirty || news, refs + [(k, flow)];
      }
      AllTaken(start, refs, now, env.clock, State(discovery, table), dirty);
    }

    /** Announce one key expression again; true when its endpoint was hidden. */
    method RefreshEndpoint(k: string, now: Time, discovery: Discovery.DiscoveryTable)
      returns (news: bool, ghost flow: Direction)
      requires discovery.Valid() && discovery.clock == env.clock && k in entities && entities[k] != map[]
      modifies discovery
      ensures discovery.Valid() && MayTake(Now(), (k, flow))
      ensures (discovery.Now(), news) == Again(old(discovery.Now()), entities[k][flow], now, env.clock)
    {
      hide Discovery.Kept, Discovery.AfterSample, SampleOf;
      var ref;
      ref, flow := FirstEntityRef(k);
      news := false;
      if ref.EndpointRef? {
        var known := if ref.role.Writer? then ref.id in discovery.publications else ref.id in discovery.subscriptions;
        news := !known;
        var _ := discovery.ApplySample(SampleOf(ref), now);
      }
    }

    method FirstEntityRef(k: string) returns (ref: EntityRef, ghost flow: Direction)
      requires k in entities && entities[k] != map[]
      ensures MayTake(Now(), (k, flow)) && ref == entities[k][flow]
    {
      if ActiveDiscovery() in entities[k] {
        ref, flow := entities[k][ActiveDiscovery()], ActiveDiscovery();
      } else {
        var any :| any in entities[k];
        ref, flow := entities[k][any], any;
      }
    }
  }

  lemma NewsOfNode(w: World, w0: World, ref: EntityRef)
    requires w.graph.nodes == w0.graph.nodes
    ensures NodeNews(w, ref) == NodeNews(w0, ref)
  {
  }

  lemma NewsOfRef(w: World, w0: World, ref: EntityRef)
    requires w.graph.nodes == w0.graph.nodes && w.discovery == w0.discovery
    ensures RefNews(w, ref) == RefNews(w0, ref)
  {
  }

  lemma ExpiryNewsSnoc(w: World, order: seq<Leaving>, next: Leaving, now: Time)
    ensures var rest := ExpireAll(w, order, now);
            ExpiryNews(w, order + [next], now) <==>
            ExpiryNews(w, order, now) || KeysNews(rest.(graph := Forgotten(rest.graph, next.0)), next.0, next.1, now)
  {
    hide KeysNews, ExpireAll;
    assert (order + [next])[..|order|] == order;
  }

  /** One key expression announced again, and whether its endpoint was hidden. */
  ghost function Again(d: Discovery.Table, ref: EntityRef, now: Time, clock: Discovery.Clock): (Discovery.Table, bool) {
    if ref.NodeRef? then (d, false)
    else (Discovery.AfterSample(d, SampleOf(ref), now, clock).0, ref.id !in EndpointsFor(d, ref.role).entries)
  }

  /** All key expressions but the remaining ones have been announced again. */
  ghost predicate Announcing(w: World, refs: seq<Taken>, remaining: set<string>, now: Time, clock: Discovery.Clock,
                             current: World, dirty: bool)
  {
    && (forall i :: 0 <= i < |refs| ==> MayTake(w.graph, refs[i]))
    && KeysOf(refs) == w.graph.entities.Keys - remaining
    && current == RefreshEnds(w, refs, now, clock)
    && dirty == EndsNews(w, refs, now, clock)
  }

  lemma NoRefs(w: World, now: Time, clock: Discovery.Clock)
    ensures Announcing(w, [], w.graph.entities.Keys, now, clock, w, false)
  {
  }

  lemma OneMoreRef(w: World, refs: seq<Taken>, next: Taken, remaining: set<string>, now: Time, clock: Discovery.Clock,
                   current: World, dirty: bool, after: World, news: bool)
    requires Announcing(w, refs, remaining, now, clock, current, dirty)
    requires MayTake(w.graph, next) && next.0 in remaining && remaining <= w.graph.entities.Keys
    requires (after.discovery, news) == Again(current.discovery, w.graph.entities[next.0][next.1], now, clock)
    requires after.graph == current.graph && after.table == current.table
    ensures Announcing(w, refs + [next], remaining - {next.0}, now, clock, after, dirty || news)
  {
    hide Discovery.AfterSample, SampleOf, EndpointsFor;
    var longer := refs + [next];
    assert longer[..|refs|] == refs;
    assert KeysOf(longer) == KeysOf(refs) + {next.0} by {
      assert forall i :: 0 <= i < |refs| ==> longer[i] == refs[i];
      assert longer[|refs|] == next;
    }
  }

  lemma AllTaken(w: World, refs: seq<Taken>, now: Time, clock: Discovery.Clock, current: World, dirty: bool)
    requires Announcing(w, refs, {}, now, clock, current, dirty)
    ensures forall i :: 0 <= i < |refs| ==> MayTake(w.graph, refs[i])
    ensures current == RefreshEnds(w, refs, now, clock) && dirty == EndsNews(w, refs, now, clock)
    ensures forall k :: k in w.graph.entities ==> exists i :: 0 <= i < |refs| && refs[i].0 == k
  {
    hide RefreshEnds, EndsNews, MayTake;
    forall k | k in w.graph.entities ensures exists i :: 0 <= i < |refs| && refs[i].0 == k {
      assert k in KeysOf(refs);
    }
  }

  lemma NoneTaken<T>()
    ensures FifoOrder.NoDuplicates<T>([])
  {
  }

  lemma OneMoreTaken(keys: seq<string>, k: string)
    requires FifoOrder.NoDuplicates(keys) && k !in keys
    ensures FifoOrder.NoDuplicates(keys + [k])
  {
  }

  lemma SilentSet(lastSeen: map<Direction, Time>, silent: set<Direction>, now: Time, timeout: nat)
    requires silent == set f | f in lastSeen && Silent(lastSeen, f, now, timeout)
    ensures forall f :: f in silent <==> Silent(lastSeen, f, now, timeout)
  {
  }

  lemma NobodyLeft(w: World, now: Time)
    ensures InTurn(w, [], now) && FlowsOf([]) == {} && !ExpiryNews(w, [], now)
  {
  }

  /**
   The periodic sweep: silent flows expire, what is held is announced again, stale
   entries leave, and the nodes of participants that left go with them.
   */
  method DiscoverySweep(graph: RuntimeZenohGraph, now: Time, timeout: nat, discovery: Discovery.DiscoveryTable,
                        table: Nodes.NodeTable)
    returns (dirty: bool, ghost sweep: Sweep)
    requires graph.Valid(discovery, table) && Related(graph.Now(), graph.env)
    modifies graph, discovery, table
    ensures graph.Valid(discovery, table)
    ensures MaySweep(old(graph.State(discovery, table)), sweep, now, timeout, graph.env)
    ensures graph.State(discovery, table) == Swept(old(graph.State(discovery, table)), sweep, now, timeout, graph.env)
    ensures dirty == SweepNews(old(graph.State(discovery, table)), sweep, now, timeout, graph.env)
  {
    hide Related, Nodes.Valid, Nodes.RemoveEach, Nodes.Stale, Nodes.Elements, Discovery.Kept, Discovery.AfterSweep,
        ExpireAll, Visits, Refreshing, ExpiresAs, ExpiryNews, RefreshNews;
    ghost var start := graph.State(discovery, table);
    var expired, refreshed;
    ghost var order, visit;
    expired, order := graph.ExpireInactiveFlows(now, timeout, discovery, table);
    NoEmptyRefs(start, order, now, timeout, graph.env);
    refreshed, visit := graph.RefreshDiscovery(now, discovery, table);
    ghost var announced := graph.State(discovery, table);
    var stats := discovery.ExpireStale(now);
    dirty := expired || refreshed || stats.participantsRemoved > 0
             || stats.publicationsRemoved > 0 || stats.subscriptionsRemoved > 0;
    ghost var partings: seq<Parting> := [];
    if dirty {
      for i := 0 to |stats.removedParticipantGids|
        modifies table
        invariant graph.Valid(discovery, table)
        invariant table.Now() == PartEach(announced.table, partings) && PartInTurn(announced.table, partings)
        invariant |partings| == i && forall j :: 0 <= j < i ==> partings[j].0 == stats.removedParticipantGids[j]
      {
        ghost var stale := table.ReplaceParticipantNodes(stats.removedParticipantGids[i], [], now);
        NoSamples(Nodes.RemoveEach(PartEach(announced.table, partings), stale), now);
        PartMore(announced.table, partings, (stats.removedParticipantGids[i], stale));
        partings := partings + [(stats.removedParticipantGids[i], stale)];
      }
    } else {
      NobodyParted(announced.discovery, stats.removedParticipantGids, now);
    }
    PartedAre(announced.discovery, stats.removedParticipantGids, partings, now);
    sweep := Sweep(order, visit, partings);
  }

  /** When no participant leaves, there is none to part. */
  lemma NobodyParted(t: Discovery.Table, gids: seq<TopicGid>, now: Time)
    requires forall g :: g in gids <==> GidLeaves(t, g, now)
    ensures |Discovery.AfterSweep(t, now).participants.entries| >= |t.participants.entries| ==> gids == []
  {
    var all, left := t.participants.entries, Discovery.AfterSweep(t, now).participants.entries;
    assert left.Keys <= all.Keys && |left| == |left.Keys| && |all| == |all.Keys|;
    assert gids == [] || gids[0] in gids;
    if |left| >= |all| {
      SameKeys(left.Keys, all.Keys);
    }
  }

  lemma SameKeys<T>(a: set<T>, b: set<T>)
    requires a <= b && |a| >= |b|
    ensures a == b
  {
    if !(b <= a) {
      var x :| x in b && x !in a;
      SubsetSize(a, b - {x});
    }
  }

  lemma PartedAre(t: Discovery.Table, gids: seq<TopicGid>, partings: seq<Parting>, now: Time)
    requires forall g :: g in gids <==> GidLeaves(t, g, now)
    requires |partings| == |gids| && forall j :: 0 <= j < |gids| ==> partings[j].0 == gids[j]
    ensures PartsLeft(t, partings, now)
  {
    hide GidLeaves;
    forall g ensures Parts(partings, g) <==> g in gids {
      if g in gids {
        var i :| 0 <= i < |gids| && gids[i] == g;
        assert partings[i].0 == g;
      }
    }
  }

  lemma PartMore(t: Nodes.Table, partings: seq<Parting>, next: Parting)
    requires PartInTurn(t, partings) && Nodes.Elements(next.1) == Nodes.Stale(PartEach(t, partings), next.0, [])
    ensures PartInTurn(t, partings + [next])
    ensures PartEach(t, partings + [next]) == Nodes.RemoveEach(PartEach(t, partings), next.1)
  {
    hide Nodes.RemoveEach, Nodes.Stale, Nodes.Elements;
    var longer := partings + [next];
    assert longer[..|partings|] == partings;
    forall i | 0 <= i < |partings| ensures longer[..i] == partings[..i] {
    }
  }

  lemma NoEmptyRefs(w: World, order: seq<Leaving>, now: Time, timeout: nat, env: Env)
    requires Related(w.graph, env) && ExpiresAs(w, order, now, timeout)
    ensures forall k :: k in ExpireAll(w, order, now).graph.entities ==>
            ExpireAll(w, order, now).graph.entities[k] != map[]
  {
    hide Keeps, ExpireAll, InTurn, HoldsBut, Parsed;
    SilentSeen(w, order, now, timeout);
    ExpireAllKeeps(w, order, now, env);
  }
}
