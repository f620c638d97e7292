/** ROS entities as Zenoh liveliness tokens announce them. */
module ZenohEntities {
  import opened Basics

  datatype EntityKind = NodeEntity | Publisher | Subscription | ServiceServer | ServiceClient

  datatype NodeInfo = NodeInfo(domainId: nat, zid: string, nodeId: string, entityId: string,
                               enclave: string, namespace: string, nodeName: string)

  datatype TopicInfo = TopicInfo(name: string, typeName: string, typeHash: string, qos: string)

  datatype EntityInfo = EntityInfo(kind: EntityKind, node: NodeInfo, topic: Option<TopicInfo>)

  datatype Entity = Entity(keyexpr: string, info: EntityInfo)

  /** Splitting a key expression into its parts is left uninterpreted. */
  type Parser = string -> Option<EntityInfo>

  function ParseLiveliness(parse: Parser, keyexpr: string): Option<Entity> {
    match parse(keyexpr)
    case None => None
    case Some(info) => Some(Entity(keyexpr, info))
  }
}

/**
 The liveliness graph: every flow direction declares tokens, and an entity lives
 while some token names it. `AfterMessages` and `RemoveFlow` say what happens
 to the tables; the class keeps the reference counts and returns the events.
 */
module Liveliness {
  import opened Basics
  import opened FifoOrder
  import opened ZenohEntities
  import opened ZenohFlows

  /** Identifiers are only compared; scope 0 means that there is no prefix. */
  type ExprId = int
  type TokenId = int

  datatype Mapping = Sender | Receiver

  datatype WireExpr = WireExpr(scope: ExprId, suffix: string, mapping: Mapping)

  datatype Body =
    | DeclareKeyExpr(exprId: ExprId, expr: WireExpr)
    | UndeclareKeyExpr(exprId: ExprId)
    | DeclareToken(tokenId: TokenId, expr: WireExpr)
    | UndeclareToken(tokenId: TokenId)
    | OtherBody

  datatype Message = Close | Frame(bodies: seq<Body>) | OtherMessage

  datatype Token = Token(keyexpr: string, entity: Option<Entity>)

  datatype Tables = Tables(
    keyexprs: map<Direction, map<ExprId, string>>,
    tokens: map<Direction, map<TokenId, Token>>,
    order: seq<Direction>)

  datatype Event = Discovered(entity: Entity) | Undiscovered(entity: Entity)

  // ---------- What messages do to the tables ----------

  /** A key expression in full: the suffix alone, or joined to the prefix declared for its scope. */
  function Resolve(keyexprs: map<Direction, map<ExprId, string>>, direction: Direction,
                   expr: WireExpr): Option<string> {
    if expr.scope == 0 then Some(expr.suffix)
    else
      var from := if expr.mapping.Sender? then direction else direction.Reverse();
      if from in keyexprs && expr.scope in keyexprs[from] then Some(keyexprs[from][expr.scope] + expr.suffix)
      else None
  }

  function TokensOf(t: Tables, direction: Direction): map<TokenId, Token> {
    if direction in t.tokens then t.tokens[direction] else map[]
  }

  function KeyExprsOf(t: Tables, direction: Direction): map<ExprId, string> {
    if direction in t.keyexprs then t.keyexprs[direction] else map[]
  }

  function ProcessBody(t: Tables, direction: Direction, body: Body, parse: Parser): Tables {
    match body
    case DeclareKeyExpr(id, expr) =>
      (match Resolve(t.keyexprs, direction, expr)
       case None => t
       case Some(full) => t.(keyexprs := t.keyexprs[direction := KeyExprsOf(t, direction)[id := full]]))
    case UndeclareKeyExpr(id) =>
      if direction in t.keyexprs then t.(keyexprs := t.keyexprs[direction := t.keyexprs[direction] - {id}]) else t
    case DeclareToken(id, expr) =>
      (match Resolve(t.keyexprs, direction, expr)
       case None => t
       case Some(full) =>
         t.(tokens := t.tokens[direction := TokensOf(t, direction)[id := Token(full, ParseLiveliness(parse, full))]]))
    case UndeclareToken(id) =>
      if direction in t.tokens then t.(tokens := t.tokens[direction := t.tokens[direction] - {id}]) else t
    case OtherBody => t
  }

  function ProcessBodies(t: Tables, direction: Direction, bodies: seq<Body>, parse: Parser): Tables {
    if bodies == [] then t
    else ProcessBody(ProcessBodies(t, direction, bodies[..|bodies| - 1], parse), direction, bodies[|bodies| - 1], parse)
  }

  function RemoveFlow(t: Tables, direction: Direction): Tables {
    Tables(t.keyexprs - {direction}, t.tokens - {direction}, Unlist(t.order, direction))
  }

  /** A new direction enters; the oldest ones leave while the table is full. */
  function MakeRoom(t: Tables, capacity: nat): Tables
    decreases |t.order|
  {
    if |t.keyexprs| >= capacity && t.order != [] then
      MakeRoom(Tables(t.keyexprs - {t.order[0]}, t.tokens - {t.order[0]}, t.order[1..]), capacity)
    else
      t
  }

  function EnterFlow(t: Tables, capacity: nat, direction: Direction): Tables {
    if direction in t.keyexprs then t
    else
      var room := MakeRoom(t, capacity);
      Tables(room.keyexprs[direction := map[]], room.tokens, room.order + [direction])
  }

  /** Messages up to the first Close, which removes the flow. */
  function ProcessEach(t: Tables, direction: Direction, messages: seq<Message>, parse: Parser): Tables
    decreases |messages|
  {
    if messages == [] then t
    else
      match messages[0]
      case Close => RemoveFlow(t, direction)
      case Frame(bodies) => ProcessEach(ProcessBodies(t, direction, bodies, parse), direction, messages[1..], parse)
      case OtherMessage => ProcessEach(t, direction, messages[1..], parse)
  }

  function AfterMessages(t: Tables, capacity: nat, direction: Direction, messages: seq<Message>,
                         parse: Parser): Tables {
    if direction !in t.keyexprs && capacity == 0 then t
    else ProcessEach(EnterFlow(t, capacity, direction), direction, messages, parse)
  }

  /** The body changes what a token id stands for: an undeclaration, or a declaration that resolves. */
  ghost predicate Decides(t: Tables, direction: Direction, body: Body, id: TokenId) {
    || body == UndeclareToken(id)
    || (body.DeclareToken? && body.tokenId == id && Resolve(t.keyexprs, direction, body.expr).Some?)
  }

  function TokenAt(t: Tables, direction: Direction, id: TokenId): Option<Token> {
    if id in TokensOf(t, direction) then Some(TokensOf(t, direction)[id]) else None
  }

  lemma BodyToken(t: Tables, direction: Direction, body: Body, id: TokenId, parse: Parser)
    ensures var after := ProcessBody(t, direction, body, parse);
            && TokenAt(after, direction, id) ==
               (if !Decides(t, direction, body, id) then TokenAt(t, direction, id)
                else if body.UndeclareToken? then None
                else
                  var full := Resolve(t.keyexprs, direction, body.expr).value;
                  Some(Token(full, ParseLiveliness(parse, full))))
            && (forall d :: d != direction ==>
                  TokensOf(after, d) == TokensOf(t, d) && KeyExprsOf(after, d) == KeyExprsOf(t, d))
  {
    hide Resolve, ParseLiveliness;
  }

  /**
   After any run of bodies a token id stands for what the last body that decides it
   says, with the prefixes declared at that point; other directions are untouched.
   */
  lemma {:induction false} TokenIsLast(t: Tables, direction: Direction, bodies: seq<Body>, id: TokenId, parse: Parser,
                                       last: nat)
    requires last < |bodies| && Decides(ProcessBodies(t, direction, bodies[..last], parse), direction, bodies[last], id)
    requires forall j :: last < j < |bodies| ==>
      !Decides(ProcessBodies(t, direction, bodies[..j], parse), direction, bodies[j], id)
    ensures TokenAt(ProcessBodies(t, direction, bodies, parse), direction, id) ==
            if bodies[last].UndeclareToken? then None
            else
              var known := ProcessBodies(t, direction, bodies[..last], parse).keyexprs;
              var full := Resolve(known, direction, bodies[last].expr).value;
              Some(Token(full, ParseLiveliness(parse, full)))
    decreases |bodies|
  {
    hide Resolve, ParseLiveliness, ProcessBody, TokenAt;
    var n := |bodies| - 1;
    var before := ProcessBodies(t, direction, bodies[..n], parse);
    BodyToken(before, direction, bodies[n], id, parse);
    if last < n {
      assert bodies[..n][..last] == bodies[..last];
      forall j | last < j < n
        ensures !Decides(ProcessBodies(t, direction, bodies[..n][..j], parse), direction, bodies[..n][j], id) {
        assert bodies[..n][..j] == bodies[..j];
      }
      TokenIsLast(t, direction, bodies[..n], id, parse, last);
    }
  }

  // ---------- Reference counts ----------

  type TokenTables = map<Direction, map<TokenId, Token>>

  ghost predicate Names(token: Token, keyexpr: string) {
    token.entity.Some? && token.entity.value.keyexpr == keyexpr
  }

  /** The token entries that name an entity, over all flows. */
  ghost function Holders(tokens: TokenTables, keyexpr: string): set<(Direction, TokenId)> {
    set d, id | d in tokens && id in tokens[d] && Names(tokens[d][id], keyexpr) :: (d, id)
  }

  /** The reference-counted graph. */
  datatype Graph = Graph(entities: map<string, Entity>, refCounts: map<string, nat>)

  /** Counts are the numbers of token entries, and the entities are those with a count. */
  ghost predicate Exact(tokens: TokenTables, g: Graph) {
    && g.entities.Keys == g.refCounts.Keys
    && (forall k :: CountExact(tokens, g, k))
  }

  ghost predicate CountExact(tokens: TokenTables, g: Graph, k: string) {
    && |Holders(tokens, k)| == (if k in g.refCounts then g.refCounts[k] else 0)
    && (k in g.refCounts ==> g.refCounts[k] > 0)
    && (k in g.entities ==> g.entities[k].keyexpr == k)
  }

  function Insert(g: Graph, entity: Entity): (Graph, bool) {
    var k := entity.keyexpr;
    if k in g.refCounts then (g.(refCounts := g.refCounts[k := g.refCounts[k] + 1]), false)
    else (Graph(g.entities[k := entity], g.refCounts[k := 1]), true)
  }

  function Remove(g: Graph, k: string): (Graph, Option<Entity>) {
    if k !in g.refCounts then (g, None)
    else if g.refCounts[k] > 1 then (g.(refCounts := g.refCounts[k := g.refCounts[k] - 1]), None)
    else (Graph(g.entities - {k}, g.refCounts - {k}), if k in g.entities then Some(g.entities[k]) else None)
  }

  /** One more token names the entity. */
  lemma InsertExact(tokens: TokenTables, tokens': TokenTables, g: Graph, entity: Entity, at: (Direction, TokenId))
    requires Exact(tokens, g) && at !in Holders(tokens, entity.keyexpr)
    requires forall k :: Holders(tokens', k) == Holders(tokens, k) + if k == entity.keyexpr then {at} else {}
    ensures Exact(tokens', Insert(g, entity).0)
    ensures Replay(g.entities, if Insert(g, entity).1 then [Discovered(entity)] else [])
            == Some(Insert(g, entity).0.entities)
  {
    hide Holders;
    forall k ensures CountExact(tokens', Insert(g, entity).0, k) {
      assert CountExact(tokens, g, k);
    }
    ReplayOne(g.entities, Discovered(entity));
  }

  /** One token fewer names the entity. */
  lemma RemoveExact(tokens: TokenTables, tokens': TokenTables, g: Graph, key: string, at: (Direction, TokenId))
    requires Exact(tokens, g) && at in Holders(tokens, key)
    requires forall k :: Holders(tokens', k) == Holders(tokens, k) - if k == key then {at} else {}
    ensures Exact(tokens', Remove(g, key).0)
    ensures Replay(g.entities, match Remove(g, key).1 { case None => [] case Some(gone) => [Undiscovered(gone)] })
         == Some(Remove(g, key).0.entities)
  {
    hide Holders, Replay, CountExact, Remove;
    assert CountExact(tokens, g, key);
    forall k ensures CountExact(tokens', Remove(g, key).0, k) {
      RemoveExactAt(tokens, tokens', g, key, at, k);
    }
    CountedPositive(tokens, g, key);
    RemoveKeys(g, key);
    NamedByKey(tokens, g, key);
    RemoveReplays(g, key);
  }

  lemma RemoveExactAt(tokens: TokenTables, tokens': TokenTables, g: Graph, key: string, at: (Direction, TokenId),
                      k: string)
    requires CountExact(tokens, g, k) && g.entities.Keys == g.refCounts.Keys && at in Holders(tokens, key)
    requires Holders(tokens', k) == Holders(tokens, k) - if k == key then {at} else {}
    ensures CountExact(tokens', Remove(g, key).0, k)
  {
    hide Holders;
    assert k == key ==> |Holders(tokens', k)| == |Holders(tokens, k)| - 1;
  }

  lemma NamedByKey(tokens: TokenTables, g: Graph, key: string)
    requires CountExact(tokens, g, key)
    ensures key in g.entities ==> g.entities[key].keyexpr == key
  {
  }

  lemma RemoveKeys(g: Graph, key: string)
    requires g.entities.Keys == g.refCounts.Keys
    ensures Remove(g, key).0.entities.Keys == Remove(g, key).0.refCounts.Keys
  {
  }

  lemma RemoveReplays(g: Graph, key: string)
    requires key in g.entities ==> g.entities[key].keyexpr == key
    requires g.entities.Keys == g.refCounts.Keys
    ensures Replay(g.entities, match Remove(g, key).1 { case None => [] case Some(gone) => [Undiscovered(gone)] })
         == Some(Remove(g, key).0.entities)
  {
    if key in g.entities {
      ReplayOne(g.entities, Undiscovered(g.entities[key]));
    }
  }

  lemma ReplayOne(live: map<string, Entity>, e: Event)
    ensures Replay(live, []) == Some(live)
    ensures Replay(live, [e]) == Apply(live, e)
  {
    assert [e][..0] == [];
  }

  lemma ReplayNothing(live: map<string, Entity>)
    ensures Replay(live, []) == Some(live)
  {
  }

  lemma HasMember(ids: set<TokenId>)
    requires ids != {}
    ensures exists id :: id in ids
  {
    assert (forall id :: id !in ids) ==> ids == {};
  }

  lemma CountedPositive(tokens: TokenTables, g: Graph, k: string)
    requires Exact(tokens, g)
    ensures k in g.refCounts ==> g.refCounts[k] > 0
  {
    assert CountExact(tokens, g, k);
  }

  lemma CapacityPositive(t: Tables, capacity: nat, d: Direction, parse: Parser)
    requires WellFormed(t, capacity, parse)
    ensures d in t.keyexprs ==> capacity > 0
  {
    if d in t.keyexprs {
      assert t.keyexprs.Keys != {};
    }
  }

  /** The same holders, the same graph. */
  lemma SameExact(tokens: TokenTables, tokens': TokenTables, g: Graph)
    requires Exact(tokens, g) && forall k :: Holders(tokens', k) == Holders(tokens, k)
    ensures Exact(tokens', g)
  {
    hide Holders;
    forall k ensures CountExact(tokens', g, k) {
      assert CountExact(tokens, g, k);
    }
  }

  lemma HoldersSet(tokens: TokenTables, d: Direction, id: TokenId, token: Token, k: string)
    requires d in tokens
    ensures Holders(tokens[d := tokens[d][id := token]], k)
         == Holders(tokens, k) - {(d, id)} + if Names(token, k) then {(d, id)} else {}
  {
    hide Names;
  }

  lemma HoldersUnset(tokens: TokenTables, d: Direction, id: TokenId, k: string)
    requires d in tokens
    ensures Holders(tokens[d := tokens[d] - {id}], k) == Holders(tokens, k) - {(d, id)}
  {
    hide Names;
  }

  /** An empty table of tokens holds nothing. */
  lemma HoldersEmpty(tokens: TokenTables, d: Direction, k: string)
    ensures Holders(tokens[d := map[]], k) == Holders(tokens - {d}, k)
    ensures d !in tokens ==> Holders(tokens[d := map[]], k) == Holders(tokens, k)
  {
    hide Names;
  }

  // ---------- Events ----------

  /** The live entities after an event; None when the event contradicts them. */
  ghost function Apply(live: map<string, Entity>, e: Event): Option<map<string, Entity>> {
    match e
    case Discovered(entity) =>
      if entity.keyexpr in live then None else Some(live[entity.keyexpr := entity])
    case Undiscovered(entity) =>
      if entity.keyexpr in live && live[entity.keyexpr] == entity then Some(live - {entity.keyexpr}) else None
  }

  ghost function Replay(live: map<string, Entity>, events: seq<Event>): Option<map<string, Entity>> {
    if events == [] then Some(live)
    else
      match Replay(live, events[..|events| - 1])
      case None => None
      case Some(before) => Apply(before, events[|events| - 1])
  }

  lemma {:induction false} ReplayConcat(live: map<string, Entity>, a: seq<Event>, b: seq<Event>)
    ensures Replay(live, a + b) ==
            match Replay(live, a) { case None => None case Some(mid) => Replay(mid, b) }
    decreases |b|
  {
    if b == [] {
      assert a + b == a;
    } else {
      var n := |b| - 1;
      assert (a + b)[..|a + b| - 1] == a + b[..n];
      ReplayConcat(live, a, b[..n]);
      assert (a + b)[|a + b| - 1] == b[n];
    }
  }

  // ---------- The tables as an object ----------

  ghost predicate WellFormed(t: Tables, capacity: nat, parse: Parser) {
    && Lists(t.order, t.keyexprs)
    && |t.keyexprs| <= capacity
    && t.tokens.Keys <= t.keyexprs.Keys
    && (forall d, id :: d in t.tokens && id in t.tokens[d] ==> AnnouncesItself(t.tokens[d][id], parse))
  }

  /** The entity of a token is the one its key expression announces. */
  ghost predicate AnnouncesItself(token: Token, parse: Parser) {
    token.entity == ParseLiveliness(parse, token.keyexpr)
  }

  ghost predicate EntitiesParsed(entities: map<string, Entity>, parse: Parser) {
    forall k :: k in entities ==> ParseLiveliness(parse, k) == Some(entities[k])
  }

  /** The live entities are a function of the token tables. */
  lemma LiveAreTheNamed(tokens: TokenTables, g: Graph, parse: Parser, k: string)
    requires Exact(tokens, g) && EntitiesParsed(g.entities, parse)
    ensures k in g.entities <==> exists d, id :: d in tokens && id in tokens[d] && Names(tokens[d][id], k)
    ensures k in g.entities ==> ParseLiveliness(parse, k) == Some(g.entities[k])
    ensures k in g.refCounts ==> g.refCounts[k] == |Holders(tokens, k)|
  {
    assert CountExact(tokens, g, k);
    if d, id :| d in tokens && id in tokens[d] && Names(tokens[d][id], k) {
      assert (d, id) in Holders(tokens, k);
    }
    if k in g.entities {
      var at :| at in Holders(tokens, k);
      assert Names(tokens[at.0][at.1], k);
    }
  }

  lemma KeyExprsKeep(t: Tables, capacity: nat, direction: Direction, exprs: map<ExprId, string>, parse: Parser)
    requires WellFormed(t, capacity, parse) && direction in t.keyexprs
    ensures WellFormed(t.(keyexprs := t.keyexprs[direction := exprs]), capacity, parse)
  {
    ListsSet(t.order, t.keyexprs, direction, exprs);
    hide Lists;
  }

  lemma TokensKeep(t: Tables, capacity: nat, direction: Direction, tokens: map<TokenId, Token>, parse: Parser)
    requires WellFormed(t, capacity, parse) && direction in t.keyexprs
    requires forall id :: id in tokens ==> AnnouncesItself(tokens[id], parse)
    ensures WellFormed(t.(tokens := t.tokens[direction := tokens]), capacity, parse)
  {
    hide Lists, AnnouncesItself;
  }

  lemma BodyKeeps(t: Tables, capacity: nat, direction: Direction, body: Body, parse: Parser)
    requires WellFormed(t, capacity, parse) && direction in t.keyexprs
    ensures WellFormed(ProcessBody(t, direction, body, parse), capacity, parse)
    ensures direction in ProcessBody(t, direction, body, parse).keyexprs
  {
    hide ParseLiveliness, Resolve, Lists;
    var full := if body.DeclareKeyExpr? || body.DeclareToken? then Resolve(t.keyexprs, direction, body.expr) else None;
    match body
    case DeclareKeyExpr(id, expr) =>
      if full.Some? {
        KeyExprsKeep(t, capacity, direction, KeyExprsOf(t, direction)[id := full.value], parse);
      }
    case UndeclareKeyExpr(id) => KeyExprsKeep(t, capacity, direction, t.keyexprs[direction] - {id}, parse);
    case DeclareToken(id, expr) =>
      if full.Some? {
        var token := Token(full.value, ParseLiveliness(parse, full.value));
        TokensKeep(t, capacity, direction, TokensOf(t, direction)[id := token], parse);
      }
    case UndeclareToken(id) =>
      if direction in t.tokens {
        TokensKeep(t, capacity, direction, t.tokens[direction] - {id}, parse);
      }
    case OtherBody =>
  }

  lemma EnterKeeps(t: Tables, capacity: nat, d: Direction, parse: Parser)
    requires WellFormed(t, capacity, parse) && d !in t.keyexprs && capacity > 0
    requires |t.keyexprs| < capacity || t.order == []
    ensures WellFormed(Tables(t.keyexprs[d := map[]], t.tokens, t.order + [d]), capacity, parse)
  {
    ListsSize(t.order, t.keyexprs);
    ListsAdd(t.order, t.keyexprs, d, map[]);
  }

  lemma RemoveFlowKeeps(t: Tables, capacity: nat, direction: Direction, parse: Parser)
    requires WellFormed(t, capacity, parse)
    ensures WellFormed(RemoveFlow(t, direction), capacity, parse)
  {
    ListsRemove(t.order, t.keyexprs, direction);
    RemovedSize(t.keyexprs, direction);
  }

  /** A token table loses one entry after another; what it held is withdrawn from the graph. */
  lemma UnsetExact(tokens: TokenTables, g: Graph, d: Direction, id: TokenId)
    requires Exact(tokens, g) && d in tokens && id in tokens[d]
    ensures var token := tokens[d][id];
            var tokens' := tokens[d := tokens[d] - {id}];
            match token.entity
            case None => Exact(tokens', g)
            case Some(entity) =>
              && Exact(tokens', Remove(g, entity.keyexpr).0)
              && Replay(g.entities, match Remove(g, entity.keyexpr).1
                                    { case None => [] case Some(gone) => [Undiscovered(gone)] })
                 == Some(Remove(g, entity.keyexpr).0.entities)
  {
    var token := tokens[d][id];
    var tokens' := tokens[d := tokens[d] - {id}];
    forall k ensures Holders(tokens', k) == Holders(tokens, k) - {(d, id)} {
      HoldersUnset(tokens, d, id, k);
    }
    forall k ensures (d, id) in Holders(tokens, k) <==> Names(token, k) {
    }
    hide Holders;
    match token.entity
    case None => SameExact(tokens, tokens', g);
    case Some(entity) => RemoveExact(tokens, tokens', g, entity.keyexpr, (d, id));
  }

  /** A new token entry announces its entity to the graph. */
  lemma SetExact(tokens: TokenTables, g: Graph, d: Direction, id: TokenId, token: Token)
    requires Exact(tokens, g) && d in tokens && id !in tokens[d]
    ensures var tokens' := tokens[d := tokens[d][id := token]];
            match token.entity
            case None => Exact(tokens', g)
            case Some(entity) =>
              && Exact(tokens', Insert(g, entity).0)
              && Replay(g.entities, if Insert(g, entity).1 then [Discovered(entity)] else [])
                 == Some(Insert(g, entity).0.entities)
  {
    var tokens' := tokens[d := tokens[d][id := token]];
    forall k ensures Holders(tokens', k) == Holders(tokens, k) + if Names(token, k) then {(d, id)} else {} {
      HoldersSet(tokens, d, id, token, k);
      assert (d, id) !in Holders(tokens, k);
    }
    assert forall k :: (d, id) !in Holders(tokens, k);
    hide Holders;
    match token.entity
    case None => SameExact(tokens, tokens', g);
    case Some(entity) => InsertExact(tokens, tokens', g, entity, (d, id));
  }

  /** Redeclaring a token for the same entity changes nothing in the graph. */
  lemma ResetExact(tokens: TokenTables, g: Graph, d: Direction, id: TokenId, token: Token)
    requires Exact(tokens, g) && d in tokens && id in tokens[d]
    requires forall k :: Names(token, k) <==> Names(tokens[d][id], k)
    ensures Exact(tokens[d := tokens[d][id := token]], g)
  {
    var tokens' := tokens[d := tokens[d][id := token]];
    forall k ensures Holders(tokens', k) == Holders(tokens, k) {
      HoldersSet(tokens, d, id, token, k);
      assert (d, id) in Holders(tokens, k) <==> Names(tokens[d][id], k);
    }
    SameExact(tokens, tokens', g);
  }

  /** An empty token table may come or go. */
  lemma EmptyExact(tokens: TokenTables, g: Graph, d: Direction)
    ensures Exact(tokens[d := map[]], g) ==> Exact(tokens - {d}, g)
    ensures d !in tokens && Exact(tokens, g) ==> Exact(tokens[d := map[]], g)
  {
    forall k {
      HoldersEmpty(tokens, d, k);
    }
    hide Holders;
    if Exact(tokens[d := map[]], g) {
      SameExact(tokens[d := map[]], tokens - {d}, g);
    }
    if d !in tokens && Exact(tokens, g) {
      SameExact(tokens, tokens[d := map[]], g);
    }
  }

  class ZenohSemanticState {
    var keyexprs: map<Direction, map<ExprId, string>>
    var tokens: TokenTables
    var order: seq<Direction>
    var entities: map<string, Entity>
    var refCounts: map<string, nat>
    const capacity: nat
    const parse: Parser

    constructor (capacity: nat, parse: Parser)
      ensures Valid() && this.capacity == capacity && this.parse == parse
      ensures Now() == Tables(map[], map[], []) && entities == map[]
    {
      this.capacity, this.parse := capacity, parse;
      keyexprs, tokens, order := map[], map[], [];
      entities, refCounts := map[], map[];
      new;
      assert forall k :: Holders(tokens, k) == {};
    }

    function Now(): Tables
      reads this
    {
      Tables(keyexprs, tokens, order)
    }

    ghost function Counted(): Graph
      reads this
    {
      Graph(entities, refCounts)
    }

    /** The graph is exact for a set of token tables. */
    ghost predicate Agrees(tokens: TokenTables)
      reads this`entities, this`refCounts
    {
      Exact(tokens, Graph(entities, refCounts)) && EntitiesParsed(entities, parse)
    }

    ghost predicate Valid()
      reads this
    {
      WellFormed(Now(), capacity, parse) && Agrees(tokens)
    }

    method GraphInsert(entity: Entity) returns (isNew: bool)
      requires entity.keyexpr in refCounts ==> refCounts[entity.keyexpr] > 0
      modifies this`entities, this`refCounts
      ensures (Counted(), isNew) == Insert(old(Counted()), entity)
    {
      var k := entity.keyexpr;
      ghost var was := refCounts;
      if k !in refCounts {
        refCounts := refCounts[k := 0];
      }
      refCounts := refCounts[k := refCounts[k] + 1];
      assert refCounts == was[k := if k in was then was[k] + 1 else 1];
      isNew := refCounts[k] == 1;
      if isNew {
        entities := entities[k := entity];
      }
    }

    method GraphRemove(k: string) returns (gone: Option<Entity>)
      requires k in refCounts ==> refCounts[k] > 0
      modifies this`entities, this`refCounts
      ensures (Counted(), gone) == Remove(old(Counted()), k)
    {
      if k !in refCounts {
        return None;
      }
      refCounts := refCounts[k := refCounts[k] - 1];
      if refCounts[k] > 0 {
        return None;
      }
      refCounts := refCounts - {k};
      assert refCounts == old(refCounts) - {k};
      gone := if k in entities then Some(entities[k]) else None;
      entities := entities - {k};
    }

    /** A token entry is gone: its entity is withdrawn, and the event says so if it was the last. */
    method Withdraw(entity: Option<Entity>, ghost before: TokenTables, ghost d: Direction, ghost id: TokenId)
      returns (events: seq<Event>)
      requires Agrees(before) && d in before && id in before[d] && before[d][id].entity == entity
      modifies this`entities, this`refCounts
      ensures Agrees(before[d := before[d] - {id}])
      ensures Replay(old(entities), events) == Some(entities)
    {
      hide Exact, Replay;
      ReplayNothing(entities);
      UnsetExact(before, Counted(), d, id);
      events := [];
      if entity.Some? {
        CountedPositive(before, Counted(), entity.value.keyexpr);
        var gone := GraphRemove(entity.value.keyexpr);
        if gone.Some? {
          events := [Undiscovered(gone.value)];
        }
      }
    }

    /** A new token entry announces its entity. */
    method Announce(entity: Option<Entity>, ghost before: TokenTables, ghost d: Direction, ghost id: TokenId,
                    ghost token: Token)
      returns (events: seq<Event>)
      requires Agrees(before) && d in before && id !in before[d] && token.entity == entity
               && AnnouncesItself(token, parse)
      modifies this`entities, this`refCounts
      ensures Agrees(before[d := before[d][id := token]])
      ensures Replay(old(entities), events) == Some(entities)
    {
      hide Exact, Replay;
      ReplayNothing(entities);
      SetExact(before, Counted(), d, id, token);
      events := [];
      if entity.Some? {
        CountedPositive(before, Counted(), entity.value.keyexpr);
        var isNew := GraphInsert(entity.value);
        if isNew {
          events := [Discovered(entity.value)];
        }
      }
    }

    /** The entries leave in the order of a hash table, that is, in any order. */
    method RemoveTokenTable(d: Direction) returns (events: seq<Event>)
      requires Agrees(tokens)
      modifies this`tokens, this`entities, this`refCounts
      ensures tokens == old(tokens) - {d}
      ensures Agrees(tokens)
      ensures Replay(old(entities), events) == Some(entities)
    {
      hide Exact, Replay, EntitiesParsed;
      ReplayNothing(entities);
      events := [];
      if d !in tokens {
        assert tokens - {d} == tokens;
        return;
      }
      var remaining := tokens[d];
      assert (tokens - {d})[d := remaining] == tokens;
      tokens := tokens - {d};
      while remaining.Keys != {}
        invariant tokens == old(tokens) - {d}
        invariant Agrees(tokens[d := remaining])
        invariant Replay(old(entities), events) == Some(entities)
        decreases |remaining|
      {
        HasMember(remaining.Keys);
        var id :| id in remaining.Keys;
        ghost var before := tokens[d := remaining];
        assert before[d := before[d] - {id}] == tokens[d := remaining - {id}];
        var entity := remaining[id].entity;
        RemovedSize(remaining, id);
        remaining := remaining - {id};
        var withdrawn := Withdraw(entity, before, d, id);
        ReplayConcat(old(entities), events, withdrawn);
        events := events + withdrawn;
      }
      EmptyExact(tokens, Counted(), d);
      assert tokens - {d} == tokens;
    }

    method RemoveFlowDirectionState(d: Direction) returns (events: seq<Event>)
      requires Agrees(tokens)
      modifies this`keyexprs, this`tokens, this`entities, this`refCounts
      ensures keyexprs == old(keyexprs) - {d} && tokens == old(tokens) - {d}
      ensures Agrees(tokens)
      ensures Replay(old(entities), events) == Some(entities)
    {
      keyexprs := keyexprs - {d};
      events := RemoveTokenTable(d);
    }

    method RemoveFlowDirection(d: Direction) returns (events: seq<Event>)
      requires Valid()
      modifies this
      ensures Valid() && Now() == RemoveFlow(old(Now()), d)
      ensures Replay(old(entities), events) == Some(entities)
    {
      hide Agrees, Replay, WellFormed;
      RemoveFlowKeeps(Now(), capacity, d, parse);
      order := Unlist(order, d);
      events := RemoveFlowDirectionState(d);
    }

    method EnsureFlowDirection(d: Direction) returns (events: seq<Event>)
      requires Valid() && capacity > 0
      modifies this
      ensures Valid() && Now() == EnterFlow(old(Now()), capacity, d)
      ensures d in keyexprs
      ensures Replay(old(entities), events) == Some(entities)
    {
      hide Agrees, Replay, WellFormed;
      ReplayNothing(entities);
      events := [];
      if d in keyexprs {
        return;
      }
      while |keyexprs| >= capacity && order != []
        invariant Valid() && d !in keyexprs
        invariant MakeRoom(Now(), capacity) == MakeRoom(old(Now()), capacity)
        invariant Replay(old(entities), events) == Some(entities)
        decreases |order|
      {
        var oldest := order[0];
        RemoveFlowKeeps(Now(), capacity, oldest, parse);
        assert Unlist(order, oldest) == order[1..];
        order := order[1..];
        var withdrawn := RemoveFlowDirectionState(oldest);
        ReplayConcat(old(entities), events, withdrawn);
        events := events + withdrawn;
      }
      EnterKeeps(Now(), capacity, d, parse);
      keyexprs := keyexprs[d := map[]];
      order := order + [d];
    }

    method ResolveWireExpr(d: Direction, expr: WireExpr) returns (full: Option<string>)
      ensures full == Resolve(keyexprs, d, expr)
    {
      if expr.scope == 0 {
        return Some(expr.suffix);
      }
      var from := if expr.mapping.Sender? then d else d.Reverse();
      if from !in keyexprs || expr.scope !in keyexprs[from] {
        return None;
      }
      full := Some(keyexprs[from][expr.scope] + expr.suffix);
    }

    method DeclareNewToken(d: Direction, id: TokenId, full: string) returns (events: seq<Event>)
      requires Agrees(tokens)
      modifies this`tokens, this`entities, this`refCounts
      ensures tokens == old(tokens)[d := old(TokensOf(Now(), d))[id := Token(full, ParseLiveliness(parse, full))]]
      ensures Agrees(tokens)
      ensures Replay(old(entities), events) == Some(entities)
    {
      hide Exact, Replay, EntitiesParsed, ParseLiveliness;
      ReplayNothing(entities);
      events := [];
      EmptyExact(tokens, Counted(), d);
      if d !in tokens {
        tokens := tokens[d := map[]];
      }
      ghost var before := tokens;
      var entity := ParseLiveliness(parse, full);
      var token := Token(full, entity);
      var known := id in tokens[d];
      var oldEntity := if known then tokens[d][id].entity else None;
      tokens := tokens[d := tokens[d][id := token]];
      var sameEntity := match (oldEntity, entity)
        case (None, None) => true
        case (Some(a), Some(b)) => a.keyexpr == b.keyexpr
        case _ => false;
      if sameEntity {
        if known {
          ResetExact(before, Counted(), d, id, token);
        } else {
          SetExact(before, Counted(), d, id, token);
        }
        return;
      }
      ghost var without := before[d := before[d] - {id}];
      assert (before[d] - {id})[id := token] == before[d][id := token];
      assert without[d := without[d][id := token]] == tokens;
      if known {
        events := Withdraw(oldEntity, before, d, id);
      } else {
        assert before[d] - {id} == before[d];
        assert without == before;
      }
      var announced := Announce(entity, without, d, id, token);
      ReplayConcat(old(entities), events, announced);
      events := events + announced;
    }

    method ProcessDeclareBody(d: Direction, body: Body) returns (events: seq<Event>)
      requires Valid() && d in keyexprs
      modifies this
      ensures Valid() && Now() == ProcessBody(old(Now()), d, body, parse)
      ensures d in keyexprs
      ensures Replay(old(entities), events) == Some(entities)
    {
      hide Agrees, Replay, WellFormed, Resolve;
      ReplayNothing(entities);
      BodyKeeps(Now(), capacity, d, body, parse);
      events := [];
      match body {
        case DeclareKeyExpr(id, expr) =>
          var full := ResolveWireExpr(d, expr);
          if full.Some? {
            keyexprs := keyexprs[d := keyexprs[d][id := full.value]];
          }
        case UndeclareKeyExpr(id) =>
          keyexprs := keyexprs[d := keyexprs[d] - {id}];
        case DeclareToken(id, expr) =>
          var full := ResolveWireExpr(d, expr);
          if full.Some? {
            events := DeclareNewToken(d, id, full.value);
          }
        case UndeclareToken(id) =>
          if d in tokens {
            ghost var before := tokens;
            if id in tokens[d] {
              var entity := tokens[d][id].entity;
              tokens := tokens[d := tokens[d] - {id}];
              events := Withdraw(entity, before, d, id);
            } else {
              assert tokens[d] - {id} == tokens[d];
              assert tokens[d := tokens[d] - {id}] == tokens;
            }
          }
        case OtherBody =>
      }
    }

    method ProcessFrame(d: Direction, bodies: seq<Body>) returns (events: seq<Event>)
      requires Valid() && d in keyexprs
      modifies this
      ensures Valid() && Now() == ProcessBodies(old(Now()), d, bodies, parse)
      ensures d in keyexprs
      ensures Replay(old(entities), events) == Some(entities)
    {
      hide Valid, Replay, ProcessBody;
      ReplayNothing(entities);
      events := [];
      for i := 0 to |bodies|
        invariant Valid() && d in keyexprs
        invariant Now() == ProcessBodies(old(Now()), d, bodies[..i], parse)
        invariant Replay(old(entities), events) == Some(entities)
      {
        var more := ProcessDeclareBody(d, bodies[i]);
        assert bodies[..i + 1][..i] == bodies[..i];
        ReplayConcat(old(entities), events, more);
        events := events + more;
      }
      assert bodies[..|bodies|] == bodies;
    }

    method ProcessMessages(d: Direction, messages: seq<Message>) returns (events: seq<Event>)
      requires Valid()
      modifies this
      ensures Valid() && Now() == AfterMessages(old(Now()), capacity, d, messages, parse)
      ensures Replay(old(entities), events) == Some(entities)
    {
      hide Agrees, Replay, ProcessBodies, EnterFlow;
      ReplayNothing(entities);
      if d !in keyexprs && capacity == 0 {
        return [];
      }
      CapacityPositive(Now(), capacity, d, parse);
      events := EnsureFlowDirection(d);
      ghost var entered := Now();
      for i := 0 to |messages|
        invariant Valid() && d in keyexprs
        invariant ProcessEach(Now(), d, messages[i..], parse) == ProcessEach(entered, d, messages, parse)
        invariant Replay(old(entities), events) == Some(entities)
      {
        var more: seq<Event> := [];
        ReplayNothing(entities);
        ghost var mid := entities;
        match messages[i] {
          case Close => more := RemoveFlowDirection(d);
          case Frame(bodies) => more := ProcessFrame(d, bodies);
          case OtherMessage =>
        }
        ReplayConcat(old(entities), events, more);
        events := events + more;
        if messages[i].Close? {
          break;
        }
      }
    }
  }

  // ---------- Whole runs ----------

  datatype Call = Process(direction: Direction, messages: seq<Message>) | CloseFlow(direction: Direction)

  /** The tables after a run of calls, from empty ones. */
  function TablesAfter(calls: seq<Call>, capacity: nat, parse: Parser): Tables {
    if calls == [] then Tables(map[], map[], [])
    else
      var before := TablesAfter(calls[..|calls| - 1], capacity, parse);
      match calls[|calls| - 1]
      case Process(direction, messages) => AfterMessages(before, capacity, direction, messages, parse)
      case CloseFlow(direction) => RemoveFlow(before, direction)
  }

  /** The live entities are those that some token entry names, each the one its key expression announces. */
  ghost predicate LiveExactly(entities: map<string, Entity>, tokens: TokenTables, parse: Parser) {
    forall k :: if Holders(tokens, k) == {} then k !in entities
                else k in entities && ParseLiveliness(parse, k) == Some(entities[k])
  }

  lemma LiveByHolders(tokens: TokenTables, g: Graph, parse: Parser)
    requires Exact(tokens, g) && EntitiesParsed(g.entities, parse)
    ensures LiveExactly(g.entities, tokens, parse)
    ensures forall k :: |Holders(tokens, k)| == if k in g.refCounts then g.refCounts[k] else 0
  {
    hide Holders, ParseLiveliness;
    forall k
      ensures |Holders(tokens, k)| == if k in g.refCounts then g.refCounts[k] else 0
      ensures Holders(tokens, k) == {} <==> k !in g.entities
    {
      assert CountExact(tokens, g, k);
    }
  }

  /**
   Any run of messages and closed flows, through redeclarations, undeclarations, Close
   and evictions: the tables are those of the calls, every count is the number of
   token entries that name the entity, the live entities are those that are named,
   and all the events returned replay from nothing to them.
   */
  method RunCalls(calls: seq<Call>, capacity: nat, parse: Parser)
    returns (state: ZenohSemanticState, events: seq<Event>)
    ensures state.Now() == TablesAfter(calls, capacity, parse)
    ensures forall k :: |Holders(state.tokens, k)| == if k in state.refCounts then state.refCounts[k] else 0
    ensures LiveExactly(state.entities, state.tokens, parse)
    ensures Replay(map[], events) == Some(state.entities)
  {
    hide Replay, Exact, EntitiesParsed, WellFormed, LiveExactly, Holders, AfterMessages, RemoveFlow;
    state := new ZenohSemanticState(capacity, parse);
    events := [];
    ReplayNothing(map[]);
    for i := 0 to |calls|
      invariant state.Valid() && fresh(state) && state.capacity == capacity && state.parse == parse
      invariant state.Now() == TablesAfter(calls[..i], capacity, parse)
      invariant Replay(map[], events) == Some(state.entities)
    {
      var more;
      match calls[i] {
        case Process(direction, messages) => more := state.ProcessMessages(direction, messages);
        case CloseFlow(direction) => more := state.RemoveFlowDirection(direction);
      }
      assert calls[..i + 1][..i] == calls[..i];
      ReplayConcat(map[], events, more);
      events := events + more;
    }
    assert calls[..|calls|] == calls;
    LiveByHolders(state.tokens, state.Counted(), parse);
  }
}
