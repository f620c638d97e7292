/**
 When the runtime asks for a redraw. Only then are the topic filter and the display
 brought up to date, so a step that does not ask must not have changed what they show.
 */
module RuntimeNews {
  import opened Basics
  import opened DiscoveryIds
  import opened Directories
  import opened ZenohEntities
  import opened ZenohFlows
  import opened RuntimeGraph
  import Discovery
  import Nodes

  // ---------- One announcement, one withdrawal ----------

  ghost predicate SameTables(a: World, b: World) {
    a.discovery == b.discovery && a.table == b.table
  }

  /** What is announced always finds its place in the discovery table. */
  lemma NeverNoop(t: Discovery.Table, id: ParticipantId, ref: EntityRef, now: Time, clock: Discovery.Clock)
    ensures Discovery.AfterSample(t, ParticipantSampleOf(id), now, clock).1 != Discovery.Noop
    ensures ref.EndpointRef? ==> Discovery.AfterSample(t, SampleOf(ref), now, clock).1 != Discovery.Noop
  {
    hide Discovery.ParticipantDeadline, Discovery.EndpointDeadline, Put, Discovery.Refresh;
  }

  /** An announcement that does not ask for a redraw leaves both tables as they were. */
  lemma InsertQuiet(w: World, flow: Direction, e: Entity, now: Time, env: Env)
    requires !InsertNews(w, flow, e, now, env)
    ensures SameTables(Insert(w, flow, e, now, env), w)
  {
    hide RefOf, AddTo, Nodes.PutNode, Listed, Discovery.AfterSample, SampleOf, ParticipantSampleOf;
    var ref := RefOf(e, env.gidOf);
    var some := if ref.Some? then ref.value else NodeRef(NameOf(e));
    NeverNoop(w.discovery, ParticipantOf(e), some, now, env.clock);
  }

  lemma HiddenAlready(d: Discovery.Table, ref: EntityRef)
    requires ref.EndpointRef? ==> ref.id !in EndpointsFor(d, ref.role).entries
    ensures DropEndpoint(d, ref) == d
  {
  }

  /** A withdrawal that does not ask for a redraw leaves both tables as they were. */
  lemma RemoveQuiet(w: World, flow: Direction, k: string, now: Time)
    requires !RemoveNews(w, flow, k)
    ensures SameTables(Remove(w, flow, k, now), w)
  {
    hide Nodes.PutNode, Nodes.Remove, Discovery.AfterRemoval, DropEndpoint, Hidden;
    if flow in RefsOf(w.graph, k) && w.graph.entities[k] - {flow} == map[] {
      HiddenAlready(w.discovery, w.graph.entities[k][flow]);
      UnlistedParts(w.graph, flow, k, w.graph.entities[k := map[]]);
    }
  }

  // ---------- Exactly when ----------

  ghost predicate HeldBySome(w: World, k: string) {
    exists flow :: Holds(w.graph.entities, flow, k)
  }

  ghost predicate HeldByOther(w: World, flow: Direction, k: string) {
    exists other :: other != flow && Holds(w.graph.entities, other, k)
  }

  /** What a held key expression stands for is part of its node already. */
  lemma ShownAlready(m: Meaning, nodes: map<NodeName, Node>, g: Graph, k: string)
    requires NodesExact(m, nodes) && k in m && g.nodes == nodes
    ensures m[k].key in nodes && Shown(g, m[k]) == nodes[m[k].key]
  {
    var ref := m[k];
    assert Named(m, ref.key);
    assert nodes[ref.key] == NodeFor(m, ref.key);
    if ref.EndpointRef? {
      assert IsEndpoint(ref, ref.key, ref.role);
      assert ref.id in IdsOf(m, ref.key, ref.role) && ref.gid in GidsFor(m, ref.key, ref.role);
    }
  }

  lemma FirstHolder(w: World, env: Env, k: string)
    requires Related(w.graph, env)
    ensures k in w.graph.entities <==> HeldBySome(w, k)
  {
    if k in w.graph.entities {
      assert w.graph.entities[k] != map[];
      var flow :| flow in w.graph.entities[k];
      assert Holds(w.graph.entities, flow, k);
    }
  }

  /** While the tables show what is held, an announcement asks for a redraw exactly when nobody held it before. */
  lemma InsertTells(w: World, flow: Direction, e: Entity, now: Time, env: Env)
    requires ShowsExactly(w, env) && ParseLiveliness(env.parse, e.keyexpr) == Some(e) && RefOf(e, env.gidOf).Some?
    ensures InsertNews(w, flow, e, now, env) <==> !HeldBySome(w, e.keyexpr)
  {
    FirstHolder(w, env, e.keyexpr);
    var m := MeaningOf(w.graph, env);
    var k := e.keyexpr;
    assert RefFor(env, k) == RefOf(e, env.gidOf);
    if k in w.graph.entities {
      assert k in m && m[k] == RefOf(e, env.gidOf).value;
      hide MeaningOf, RefOf, RefFor, Mirrors, Full, Related, HeldBySome, NodeNews, EndpointNews, Nodes.Valid;
      NoNews(m, w, k, now, env.clock);
    } else {
      hide ShowsExactly, MeaningOf, RefOf, RefFor, HeldBySome, NodeNews, EndpointNews, Introduced;
    }
  }

  /** A held key expression brings its node and its endpoint nothing new. */
  lemma NoNews(m: Meaning, w: World, k: string, now: Time, clock: Discovery.Clock)
    requires Mirrors(m, w) && Full(m, w.discovery) && k in m
    ensures !NodeNews(w, m[k]) && !EndpointNews(w.discovery, m[k], false, now, clock)
  {
    MirrorParts(m, w);
    hide Mirrors, Shown, NodesExact, Discovery.AfterSample, SampleOf;
    ShownAlready(m, w.graph.nodes, w.graph, k);
  }

  lemma MirrorParts(m: Meaning, w: World)
    requires Mirrors(m, w)
    ensures NodesExact(m, w.graph.nodes)
  {
  }

  /** A withdrawal asks for a redraw exactly when the flow held it and no other does. */
  lemma RemoveTells(w: World, flow: Direction, k: string, env: Env)
    requires ShowsExactly(w, env)
    ensures RemoveNews(w, flow, k) <==> Holds(w.graph.entities, flow, k) && !HeldByOther(w, flow, k)
  {
    if flow in RefsOf(w.graph, k) {
      var refs := w.graph.entities[k];
      OnlyHolder(refs, flow);
      assert (exists other :: other in refs - {flow}) <==> HeldByOther(w, flow, k) by {
        forall other ensures other in refs - {flow} <==> other != flow && Holds(w.graph.entities, other, k) {
        }
      }
      HeldNode(w, env, flow, k);
    }
  }

  lemma OnlyHolder(refs: map<Direction, EntityRef>, flow: Direction)
    ensures refs - {flow} == map[] <==> !(exists other :: other in refs - {flow})
  {
    if refs - {flow} != map[] {
      assert (refs - {flow}).Keys != {};
      var other :| other in (refs - {flow}).Keys;
    }
  }

  lemma HeldNode(w: World, env: Env, flow: Direction, k: string)
    requires ShowsExactly(w, env) && Holds(w.graph.entities, flow, k)
    ensures w.graph.entities[k][flow].key in w.graph.nodes
  {
    var m := MeaningOf(w.graph, env);
    RelatedParsed(w.graph, env);
    assert RefFor(env, k) == Some(w.graph.entities[k][flow]);
    assert k in m && m[k] == w.graph.entities[k][flow];
    MirrorParts(m, w);
    hide MeaningOf, RefFor, Mirrors, Related, Shown;
    ShownAlready(m, w.graph.nodes, w.graph, k);
  }

  // ---------- Silent flows ----------

  lemma {:induction false} KeysQuiet(w: World, flow: Direction, keys: seq<string>, now: Time)
    requires !KeysNews(w, flow, keys, now)
    ensures SameTables(RemoveKeys(w, flow, keys, now), w)
    decreases |keys|
  {
    hide Remove, RemoveNews;
    if keys != [] {
      var n := |keys| - 1;
      KeysQuiet(w, flow, keys[..n], now);
      RemoveQuiet(RemoveKeys(w, flow, keys[..n], now), flow, keys[n], now);
    }
  }

  /** When the expiry of silent flows does not ask for a redraw, nothing they held was shown for them alone. */
  lemma {:induction false} ExpiryQuiet(w: World, order: seq<Leaving>, now: Time)
    requires !ExpiryNews(w, order, now)
    ensures SameTables(ExpireAll(w, order, now), w)
    decreases |order|
  {
    hide RemoveKeys, KeysNews;
    if order != [] {
      var n := |order| - 1;
      var (flow, keys) := order[n];
      ExpiryQuiet(w, order[..n], now);
      var rest := ExpireAll(w, order[..n], now);
      KeysQuiet(rest.(graph := Forgotten(rest.graph, flow)), flow, keys, now);
    }
  }

  // ---------- Announcing again ----------

  /** The participants, endpoints and nodes that are in view. */
  datatype View = View(participants: set<ParticipantId>, writers: set<EndpointId>, readers: set<EndpointId>,
                       nodes: set<Nodes.NodeKey>)

  ghost function ViewOf(w: World): View {
    View(w.discovery.participants.entries.Keys, w.discovery.publications.entries.Keys,
         w.discovery.subscriptions.entries.Keys, w.table.nodes.Keys)
  }

  ghost predicate Within(a: View, b: View) {
    a.participants <= b.participants && a.writers <= b.writers && a.readers <= b.readers && a.nodes <= b.nodes
  }

  lemma ParticipantView(t: Discovery.Table, id: ParticipantId, now: Time, clock: Discovery.Clock)
    ensures var (t', change) := Discovery.AfterSample(t, ParticipantSampleOf(id), now, clock);
            && t'.participants.entries.Keys == t.participants.entries.Keys + {id}
            && t'.publications.entries.Keys == t.publications.entries.Keys
            && t'.subscriptions.entries.Keys == t.subscriptions.entries.Keys
            && (change == Discovery.Inserted <==> id !in t.participants.entries)
  {
  }

  lemma EndpointView(t: Discovery.Table, ref: EntityRef, now: Time, clock: Discovery.Clock)
    requires ref.EndpointRef?
    ensures var t' := Discovery.AfterSample(t, SampleOf(ref), now, clock).0;
            && EndpointsFor(t', ref.role).entries.Keys == EndpointsFor(t, ref.role).entries.Keys + {ref.id}
            && t'.participants == t.participants
            && (ref.role.Writer? ==> t'.subscriptions == t.subscriptions)
            && (ref.role.Reader? ==> t'.publications == t.publications)
  {
  }

  lemma NodeView(t: Nodes.Table, key: Nodes.NodeKey, l: Nodes.Listing, now: Time)
    ensures Nodes.PutNode(t, key, l, now).nodes.Keys == t.nodes.Keys + {key}
  {
    hide Nodes.NodeOf, Nodes.Claim, Nodes.Link, Nodes.Unlink;
  }

  lemma {:induction false} NodesTell(w: World, names: seq<NodeName>, now: Time, clock: Discovery.Clock)
    requires forall i :: 0 <= i < |names| ==> names[i] in w.graph.nodes
    ensures var after := ViewOf(RefreshNodes(w, names, now, clock));
            Within(ViewOf(w), after) && (NodesNews(w, names, now, clock) <==> after != ViewOf(w))
    decreases |names|
  {
    hide Nodes.PutNode, Discovery.AfterSample, ParticipantSampleOf, TableKey;
    if names != [] {
      var n := |names| - 1;
      NodesTell(w, names[..n], now, clock);
      var rest := RefreshNodes(w, names[..n], now, clock);
      ParticipantView(rest.discovery, names[n].participantId, now, clock);
      NodeView(rest.table, TableKey(names[n]), w.graph.nodes[names[n]].listing, now);
    }
  }

  lemma {:induction false} EndsTell(w: World, refs: seq<Taken>, now: Time, clock: Discovery.Clock)
    requires forall i :: 0 <= i < |refs| ==> MayTake(w.graph, refs[i])
    ensures var after := ViewOf(RefreshEnds(w, refs, now, clock));
            Within(ViewOf(w), after) && (EndsNews(w, refs, now, clock) <==> after != ViewOf(w))
    decreases |refs|
  {
    hide Discovery.AfterSample, SampleOf;
    if refs != [] {
      var n := |refs| - 1;
      EndsTell(w, refs[..n], now, clock);
      assert MayTake(w.graph, refs[n]);
      var ref := w.graph.entities[refs[n].0][refs[n].1];
      if ref.EndpointRef? {
        EndpointView(RefreshEnds(w, refs[..n], now, clock).discovery, ref, now, clock);
      }
    }
  }

  /**
   In whatever order tables are walked, a refresh hides nothing, and it asks for a
   redraw if and only if some participant, endpoint or node came into view.
   */
  lemma RefreshTells(w: World, visit: Visit, now: Time, clock: Discovery.Clock)
    requires Visits(w.graph, visit)
    ensures var after := ViewOf(Refreshing(w, visit, now, clock));
            Within(ViewOf(w), after) && (RefreshNews(w, visit, now, clock) <==> after != ViewOf(w))
  {
    hide RefreshNodes, RefreshEnds, NodesNews, EndsNews, MayTake;
    NodesTell(w, visit.names, now, clock);
    EndsTell(RefreshNodes(w, visit.names, now, clock), visit.refs, now, clock);
  }

  // ---------- The periodic sweep ----------

  lemma SameKeysOf<K, V>(a: map<K, V>, b: map<K, V>)
    requires a.Keys <= b.Keys && |a| >= |b|
    ensures a.Keys == b.Keys
  {
    assert |a| == |a.Keys| && |b| == |b.Keys|;
    SameKeys(a.Keys, b.Keys);
  }

  lemma NoneLeft(t: Discovery.Table, now: Time)
    requires var left := Discovery.AfterSweep(t, now);
             && |left.participants.entries| >= |t.participants.entries|
             && |left.publications.entries| >= |t.publications.entries|
             && |left.subscriptions.entries| >= |t.subscriptions.entries|
    ensures var left := Discovery.AfterSweep(t, now);
            && left.participants.entries.Keys == t.participants.entries.Keys
            && left.publications.entries.Keys == t.publications.entries.Keys
            && left.subscriptions.entries.Keys == t.subscriptions.entries.Keys
  {
    var left := Discovery.AfterSweep(t, now);
    SameKeysOf(left.participants.entries, t.participants.entries);
    SameKeysOf(left.publications.entries, t.publications.entries);
    SameKeysOf(left.subscriptions.entries, t.subscriptions.entries);
  }

  lemma NonePart(t: Discovery.Table, partings: seq<Parting>, now: Time)
    requires PartsLeft(t, partings, now)
    requires Discovery.AfterSweep(t, now).participants.entries.Keys == t.participants.entries.Keys
    ensures partings == []
  {
    assert forall g :: !GidLeaves(t, g, now);
    assert partings == [] || Parts(partings, partings[0].0);
  }

  /** A periodic sweep that does not ask for a redraw leaves in view exactly what was in view. */
  lemma SweepQuiet(w: World, sweep: Sweep, now: Time, timeout: nat, env: Env)
    requires MaySweep(w, sweep, now, timeout, env) && !SweepNews(w, sweep, now, timeout, env)
    ensures ViewOf(Swept(w, sweep, now, timeout, env)) == ViewOf(w)
  {
    hide ExpireAll, ExpiryNews, Refreshing, RefreshNews, Discovery.AfterSweep, PartInTurn, PartsLeft, ExpiresAs, Visits;
    ExpiryQuiet(w, sweep.expiry, now);
    RefreshTells(ExpireAll(w, sweep.expiry, now), sweep.visit, now, env.clock);
    var announced := Announced(w, sweep, now, env);
    NoneLeft(announced.discovery, now);
    NonePart(announced.discovery, sweep.partings, now);
  }
}
