/**
 What tokens stand for over whole runs, in terms of what was declared: key expressions
 by the prefixes in force when they were declared, tokens likewise. `Means`, `Reads` and
 `Stands` read a run of declarations; the theorems say that the tables agree with them.
 */
module TokenRuns {
  import opened Basics
  import opened FifoOrder
  import opened ZenohEntities
  import opened ZenohFlows
  import opened Liveliness

  // ---------- A run as a list of declarations ----------

  datatype Deed =
    | Enters(direction: Direction)
    | Declares(direction: Direction, body: Body)
    | Leaves(direction: Direction)

  function DeedsOfBodies(d: Direction, bodies: seq<Body>): seq<Deed> {
    if bodies == [] then [] else DeedsOfBodies(d, bodies[..|bodies| - 1]) + [Declares(d, bodies[|bodies| - 1])]
  }

  /** What comes after a Close counts for nothing. */
  function DeedsOfMessages(d: Direction, messages: seq<Message>): seq<Deed> {
    if messages == [] then []
    else
      match messages[0]
      case Close => [Leaves(d)]
      case Frame(bodies) => DeedsOfBodies(d, bodies) + DeedsOfMessages(d, messages[1..])
      case OtherMessage => DeedsOfMessages(d, messages[1..])
  }

  function DeedsOf(calls: seq<Call>): seq<Deed> {
    if calls == [] then []
    else
      DeedsOf(calls[..|calls| - 1]) +
      match calls[|calls| - 1]
      case Process(d, messages) => [Enters(d)] + DeedsOfMessages(d, messages)
      case CloseFlow(d) => [Leaves(d)]
  }

  // ---------- What the declarations say ----------

  /** The opposite direction of a flow. */
  function Opposite(d: Direction): Direction {
    Direction(d.protocol, FlowTuple(d.flow.dstIp, d.flow.srcIp, d.flow.dstPort, d.flow.srcPort))
  }

  /** Whose declarations a scope refers to: those of the sender, or of the other side. */
  function OwnerOf(d: Direction, mapping: Mapping): Direction {
    if mapping == Sender then d else Opposite(d)
  }

  /** What key expression i of a direction means after n deeds: what the last deed that touches it says. */
  function Meaning(deeds: seq<Deed>, n: nat, d: Direction, i: ExprId): Option<string>
    requires n <= |deeds|
    decreases n, 0
  {
    if n == 0 then None
    else
      var before := Meaning(deeds, n - 1, d, i);
      if deeds[n - 1].direction != d then before
      else
        match deeds[n - 1]
        case Leaves(_) => None
        case Declares(_, UndeclareKeyExpr(id)) => if id == i then None else before
        case Declares(_, DeclareKeyExpr(id, expr)) =>
          var read := Reading(deeds, n - 1, d, expr);
          if id == i && read.Some? then read else before
        case _ => before
  }

  /** What a wire expression reads as: its suffix, behind the prefix that its scope means, if it means one. */
  function Reading(deeds: seq<Deed>, n: nat, d: Direction, expr: WireExpr): Option<string>
    requires n <= |deeds|
    decreases n, 1
  {
    if expr.scope == 0 then Some(expr.suffix)
    else
      match Meaning(deeds, n, OwnerOf(d, expr.mapping), expr.scope)
      case None => None
      case Some(prefix) => Some(prefix + expr.suffix)
  }

  /** The key expression that a token stands for after n deeds. */
  function Standing(deeds: seq<Deed>, n: nat, d: Direction, id: TokenId): Option<string>
    requires n <= |deeds|
  {
    if n == 0 then None
    else
      var before := Standing(deeds, n - 1, d, id);
      if deeds[n - 1].direction != d then before
      else
        match deeds[n - 1]
        case Leaves(_) => None
        case Declares(_, UndeclareToken(token)) => if token == id then None else before
        case Declares(_, DeclareToken(token, expr)) =>
          var read := Reading(deeds, n - 1, d, expr);
          if token == id && read.Some? then read else before
        case _ => before
  }

  // ---------- The tables of a run ----------

  function Do(t: Tables, capacity: nat, deed: Deed, parse: Parser): Tables {
    match deed
    case Enters(d) => EnterFlow(t, capacity, d)
    case Declares(d, body) => ProcessBody(t, d, body, parse)
    case Leaves(d) => RemoveFlow(t, d)
  }

  function TablesAt(deeds: seq<Deed>, n: nat, capacity: nat, parse: Parser): Tables
    requires n <= |deeds|
  {
    if n == 0 then Tables(map[], map[], [])
    else Do(TablesAt(deeds, n - 1, capacity, parse), capacity, deeds[n - 1], parse)
  }

  /** Deeds done one after the other. */
  function DoAll(t: Tables, capacity: nat, deeds: seq<Deed>, parse: Parser): Tables {
    if deeds == [] then t else Do(DoAll(t, capacity, deeds[..|deeds| - 1], parse), capacity, deeds[|deeds| - 1], parse)
  }

  lemma {:induction false} DoConcat(t: Tables, capacity: nat, a: seq<Deed>, b: seq<Deed>, parse: Parser)
    ensures DoAll(t, capacity, a + b, parse) == DoAll(DoAll(t, capacity, a, parse), capacity, b, parse)
    decreases |b|
  {
    hide Do;
    if b == [] {
      assert a + b == a;
    } else {
      var n := |b| - 1;
      assert (a + b)[..|a + b| - 1] == a + b[..n] && (a + b)[|a + b| - 1] == b[n];
      DoConcat(t, capacity, a, b[..n], parse);
    }
  }

  lemma {:induction false} DoIsTables(deeds: seq<Deed>, n: nat, capacity: nat, parse: Parser)
    requires n <= |deeds|
    ensures DoAll(Tables(map[], map[], []), capacity, deeds[..n], parse) == TablesAt(deeds, n, capacity, parse)
    decreases n
  {
    hide Do;
    if n > 0 {
      DoIsTables(deeds, n - 1, capacity, parse);
      assert deeds[..n][..n - 1] == deeds[..n - 1];
    }
  }

  lemma {:induction false} DoBodies(t: Tables, capacity: nat, d: Direction, bodies: seq<Body>, parse: Parser)
    ensures DoAll(t, capacity, DeedsOfBodies(d, bodies), parse) == ProcessBodies(t, d, bodies, parse)
    decreases |bodies|
  {
    hide ProcessBody;
    if bodies != [] {
      var n := |bodies| - 1;
      DoBodies(t, capacity, d, bodies[..n], parse);
      var deeds := DeedsOfBodies(d, bodies);
      assert deeds[..|deeds| - 1] == DeedsOfBodies(d, bodies[..n]);
    }
  }

  lemma DoOne(t: Tables, capacity: nat, deed: Deed, parse: Parser)
    ensures DoAll(t, capacity, [deed], parse) == Do(t, capacity, deed, parse)
  {
    assert [deed][..0] == [];
    hide Do;
  }

  lemma {:induction false} DoMessages(t: Tables, capacity: nat, d: Direction, messages: seq<Message>, parse: Parser)
    ensures DoAll(t, capacity, DeedsOfMessages(d, messages), parse) == ProcessEach(t, d, messages, parse)
    decreases |messages|
  {
    hide DoAll, ProcessBodies, RemoveFlow, DeedsOfBodies;
    if messages == [] {
      DoNothing(t, capacity, parse);
    } else {
      match messages[0]
      case Close => DoOne(t, capacity, Leaves(d), parse);
      case Frame(bodies) =>
        DoBodies(t, capacity, d, bodies, parse);
        DoConcat(t, capacity, DeedsOfBodies(d, bodies), DeedsOfMessages(d, messages[1..]), parse);
        DoMessages(ProcessBodies(t, d, bodies, parse), capacity, d, messages[1..], parse);
      case OtherMessage => DoMessages(t, capacity, d, messages[1..], parse);
    }
  }

  lemma DoNothing(t: Tables, capacity: nat, parse: Parser)
    ensures DoAll(t, capacity, [], parse) == t
  {
  }

  /** The tables after a run of calls are those after its declarations. */
  lemma {:induction false} CallsAreDeeds(calls: seq<Call>, capacity: nat, parse: Parser)
    requires capacity > 0
    ensures TablesAfter(calls, capacity, parse) == DoAll(Tables(map[], map[], []), capacity, DeedsOf(calls), parse)
    decreases |calls|
  {
    hide DoAll, ProcessEach, EnterFlow, RemoveFlow, DeedsOfMessages;
    var empty := Tables(map[], map[], []);
    if calls == [] {
      DoNothing(empty, capacity, parse);
    } else {
      var n := |calls| - 1;
      CallsAreDeeds(calls[..n], capacity, parse);
      var before := TablesAfter(calls[..n], capacity, parse);
      match calls[n]
      case Process(d, messages) =>
        var deeds := DeedsOfMessages(d, messages);
        DoConcat(empty, capacity, DeedsOf(calls[..n]), [Enters(d)] + deeds, parse);
        DoConcat(before, capacity, [Enters(d)], deeds, parse);
        DoOne(before, capacity, Enters(d), parse);
        DoMessages(EnterFlow(before, capacity, d), capacity, d, messages, parse);
      case CloseFlow(d) =>
        DoConcat(empty, capacity, DeedsOf(calls[..n]), [Leaves(d)], parse);
        DoOne(before, capacity, Leaves(d), parse);
    }
  }

  // ---------- The tables of a run are well-formed ----------

  /** A direction declares only after it has entered. */
  ghost predicate Orderly(deeds: seq<Deed>) {
    forall m :: 0 <= m < |deeds| && deeds[m].Declares? ==>
      m > 0 && deeds[m - 1].direction == deeds[m].direction && !deeds[m - 1].Leaves?
  }

  /** Behind an entry or a declaration of the direction. */
  ghost predicate OrderlyBehind(d: Direction, deeds: seq<Deed>) {
    Orderly([Enters(d)] + deeds)
  }

  lemma {:induction false} BodiesOrderly(d: Direction, bodies: seq<Body>)
    ensures var deeds := DeedsOfBodies(d, bodies);
            |deeds| == |bodies| && forall m :: 0 <= m < |deeds| ==> deeds[m] == Declares(d, bodies[m])
  {
    if bodies != [] {
      BodiesOrderly(d, bodies[..|bodies| - 1]);
    }
  }

  lemma {:induction false} MessagesOrderly(d: Direction, messages: seq<Message>)
    ensures OrderlyBehind(d, DeedsOfMessages(d, messages))
    ensures forall m :: 0 <= m < |DeedsOfMessages(d, messages)| ==> DeedsOfMessages(d, messages)[m].direction == d
  {
    if messages != [] {
      match messages[0]
      case Close =>
      case Frame(bodies) =>
        BodiesOrderly(d, bodies);
        MessagesOrderly(d, messages[1..]);
        BehindBodies(d, bodies, DeedsOfMessages(d, messages[1..]));
      case OtherMessage => MessagesOrderly(d, messages[1..]);
    }
  }

  lemma BehindBodies(d: Direction, bodies: seq<Body>, deeds: seq<Deed>)
    requires OrderlyBehind(d, deeds)
    requires forall m :: 0 <= m < |deeds| ==> deeds[m].direction == d
    ensures OrderlyBehind(d, DeedsOfBodies(d, bodies) + deeds)
  {
    BodiesOrderly(d, bodies);
    var first := DeedsOfBodies(d, bodies);
    var all, rest := [Enters(d)] + (first + deeds), [Enters(d)] + deeds;
    forall m | 0 <= m < |all| && all[m].Declares?
      ensures m > 0 && all[m - 1].direction == all[m].direction && !all[m - 1].Leaves?
    {
      if m > |first| {
        assert all[m] == rest[m - |first|];
        assert m > |first| + 1 ==> all[m - 1] == rest[m - |first| - 1];
      }
    }
  }

  lemma OrderlyConcat(a: seq<Deed>, b: seq<Deed>)
    requires Orderly(a) && Orderly(b)
    ensures Orderly(a + b)
  {
    forall m | 0 <= m < |a + b| && (a + b)[m].Declares?
      ensures m > 0 && (a + b)[m - 1].direction == (a + b)[m].direction && !(a + b)[m - 1].Leaves?
    {
      if m >= |a| {
        assert (a + b)[m] == b[m - |a|];
        assert (a + b)[m - 1] == b[m - |a| - 1];
      }
    }
  }

  /** The declarations of a run of calls are orderly. */
  lemma {:induction false} CallsOrderly(calls: seq<Call>)
    ensures Orderly(DeedsOf(calls))
  {
    if calls != [] {
      var n := |calls| - 1;
      CallsOrderly(calls[..n]);
      match calls[n]
      case Process(d, messages) =>
        MessagesOrderly(d, messages);
        OrderlyConcat(DeedsOf(calls[..n]), [Enters(d)] + DeedsOfMessages(d, messages));
      case CloseFlow(d) => OrderlyConcat(DeedsOf(calls[..n]), [Leaves(d)]);
    }
  }

  /** At most one direction leaves to make room. */
  lemma RoomForOne(t: Tables, capacity: nat, parse: Parser)
    requires WellFormed(t, capacity, parse) && capacity > 0
    ensures var room := MakeRoom(t, capacity);
            && WellFormed(room, capacity, parse) && |room.keyexprs| < capacity
            && (|t.keyexprs| < capacity ==> room == t)
            && (|t.keyexprs| == capacity ==>
                  t.order != [] && room == RemoveFlow(t, t.order[0]) && room.order == t.order[1..])
            && (forall d :: d in room.keyexprs ==> d in t.keyexprs)
  {
    ListsSize(t.order, t.keyexprs);
    hide WellFormed, Lists;
    if |t.keyexprs| >= capacity {
      RemoveFlowKeeps(t, capacity, t.order[0], parse);
      OneFewer(t, capacity, parse);
    }
  }

  lemma OneFewer(t: Tables, capacity: nat, parse: Parser)
    requires WellFormed(t, capacity, parse) && t.order != []
    ensures |(t.keyexprs - {t.order[0]})| == |t.keyexprs| - 1
  {
    assert t.order[0] in t.order;
    RemovedSize(t.keyexprs, t.order[0]);
  }

  lemma EnterFlowKeeps(t: Tables, capacity: nat, d: Direction, parse: Parser)
    requires WellFormed(t, capacity, parse) && capacity > 0
    ensures WellFormed(EnterFlow(t, capacity, d), capacity, parse) && d in EnterFlow(t, capacity, d).keyexprs
  {
    hide WellFormed, MakeRoom;
    if d !in t.keyexprs {
      RoomForOne(t, capacity, parse);
      EnterKeeps(MakeRoom(t, capacity), capacity, d, parse);
    }
  }

  lemma {:induction false} RunWellFormed(deeds: seq<Deed>, n: nat, capacity: nat, parse: Parser)
    requires Orderly(deeds) && n <= |deeds| && capacity > 0
    ensures WellFormed(TablesAt(deeds, n, capacity, parse), capacity, parse)
    ensures n > 0 && !deeds[n - 1].Leaves? ==> deeds[n - 1].direction in TablesAt(deeds, n, capacity, parse).keyexprs
    decreases n
  {
    hide WellFormed, ProcessBody, EnterFlow, RemoveFlow;
    if n == 0 {
      EmptyWellFormed(capacity, parse);
    } else {
      RunWellFormed(deeds, n - 1, capacity, parse);
      var t := TablesAt(deeds, n - 1, capacity, parse);
      match deeds[n - 1]
      case Enters(d) => EnterFlowKeeps(t, capacity, d, parse);
      case Declares(d, body) => BodyKeeps(t, capacity, d, body, parse);
      case Leaves(d) => RemoveFlowKeeps(t, capacity, d, parse);
    }
  }

  lemma EmptyWellFormed(capacity: nat, parse: Parser)
    ensures WellFormed(Tables(map[], map[], []), capacity, parse)
  {
  }

  // ---------- One declaration ----------

  /** The other directions that enter in a run. */
  ghost function Rivals(deeds: seq<Deed>, d: Direction): set<Direction> {
    set m | 0 <= m < |deeds| && deeds[m].Enters? && deeds[m].direction != d :: deeds[m].direction
  }

  /** What a deed of another leaves of a direction: all of it, and its place. */
  ghost predicate Untouched(t: Tables, t': Tables, d: Direction, later: set<Direction>) {
    KeyExprsOf(t', d) == KeyExprsOf(t, d) && TokensOf(t', d) == TokensOf(t, d) && OnlyBehind(t'.order, d, later)
  }

  lemma WellFormedLists(t: Tables, capacity: nat, parse: Parser)
    requires WellFormed(t, capacity, parse)
    ensures Lists(t.order, t.keyexprs) && NoDuplicates(t.order) && |t.keyexprs| <= capacity
    ensures t.tokens.Keys <= t.keyexprs.Keys
    ensures forall d :: d in t.order <==> d in t.keyexprs
  {
  }

  lemma RemoveOther(t: Tables, x: Direction, d: Direction, later: set<Direction>)
    requires x != d && NoDuplicates(t.order) && OnlyBehind(t.order, d, later)
    ensures Untouched(t, RemoveFlow(t, x), d, later)
  {
    hide OnlyBehind, Unlist, NoDuplicates;
    UnlistBehind(t.order, d, later, x);
  }

  lemma AppendOther(t: Tables, x: Direction, d: Direction, later: set<Direction>)
    requires x != d && x in later && OnlyBehind(t.order, d, later)
    ensures Untouched(t, Tables(t.keyexprs[x := map[]], t.tokens, t.order + [x]), d, later)
  {
    AppendBehind(t.order, d, later, x);
    hide OnlyBehind;
  }

  lemma EntersOther(t: Tables, capacity: nat, x: Direction, parse: Parser, d: Direction, later: set<Direction>)
    requires WellFormed(t, capacity, parse) && OnlyBehind(t.order, d, later) && |later| < capacity
    requires x != d && x in later
    ensures Untouched(t, EnterFlow(t, capacity, x), d, later)
  {
    WellFormedLists(t, capacity, parse);
    hide WellFormed, OnlyBehind, Unlist, MakeRoom, NoDuplicates, Lists, RemoveFlow;
    if x !in t.keyexprs {
      RoomForOne(t, capacity, parse);
      if |t.keyexprs| == capacity {
        OldestIsAnother(t.order, t.keyexprs, d, later, x);
        RemoveOther(t, t.order[0], d, later);
      }
      AppendOther(MakeRoom(t, capacity), x, d, later);
    }
  }

  lemma DoOthers(t: Tables, capacity: nat, deed: Deed, parse: Parser, d: Direction, later: set<Direction>)
    requires WellFormed(t, capacity, parse) && OnlyBehind(t.order, d, later) && |later| < capacity
    requires deed.direction != d && (deed.Enters? ==> deed.direction in later)
    ensures Untouched(t, Do(t, capacity, deed, parse), d, later)
  {
    WellFormedLists(t, capacity, parse);
    hide WellFormed, OnlyBehind, Resolve, ParseLiveliness, EnterFlow, RemoveFlow, Lists, NoDuplicates;
    match deed
    case Enters(x) => EntersOther(t, capacity, x, parse, d, later);
    case Declares(x, body) =>
    case Leaves(x) => RemoveOther(t, x, d, later);
  }

  /** A direction that enters is as it was. */
  lemma EntersOwn(t: Tables, capacity: nat, d: Direction, parse: Parser, later: set<Direction>)
    requires WellFormed(t, capacity, parse) && OnlyBehind(t.order, d, later) && capacity > 0
    ensures Untouched(t, EnterFlow(t, capacity, d), d, later)
  {
    WellFormedLists(t, capacity, parse);
    hide WellFormed, MakeRoom, Lists, NoDuplicates;
    if d !in t.keyexprs {
      RoomForOne(t, capacity, parse);
      var room := MakeRoom(t, capacity);
      WellFormedLists(room, capacity, parse);
      EndOfQueue(room.order, d, later);
    }
  }

  lemma EndOfQueue(order: seq<Direction>, d: Direction, later: set<Direction>)
    requires d !in order
    ensures OnlyBehind(order + [d], d, later)
  {
  }

  /** One that leaves has nothing. */
  lemma LeavesOwn(t: Tables, d: Direction, later: set<Direction>)
    requires NoDuplicates(t.order) && OnlyBehind(t.order, d, later)
    ensures KeyExprsOf(RemoveFlow(t, d), d) == map[] && TokensOf(RemoveFlow(t, d), d) == map[]
    ensures OnlyBehind(RemoveFlow(t, d).order, d, later)
  {
    UnlistBehind(t.order, d, later, d);
    hide OnlyBehind, Unlist;
  }

  function ExprAt(t: Tables, d: Direction, i: ExprId): Option<string> {
    if i in KeyExprsOf(t, d) then Some(KeyExprsOf(t, d)[i]) else None
  }

  /** What a declaration does to one key expression of its direction. */
  lemma BodyExpr(t: Tables, capacity: nat, d: Direction, body: Body, parse: Parser, i: ExprId)
    ensures ExprAt(ProcessBody(t, d, body, parse), d, i) ==
            match body
            case DeclareKeyExpr(id, expr) =>
              var full := Resolve(t.keyexprs, d, expr);
              if id == i && full.Some? then full else ExprAt(t, d, i)
            case UndeclareKeyExpr(id) => if id == i then None else ExprAt(t, d, i)
            case _ => ExprAt(t, d, i)
  {
    hide Resolve, ParseLiveliness;
  }

  // ---------- The tables say what was declared ----------

  /** The table of a direction holds what its key expressions mean. */
  ghost predicate Agrees(t: Tables, deeds: seq<Deed>, n: nat, d: Direction)
    requires n <= |deeds|
  {
    forall i :: ExprAt(t, d, i) == Meaning(deeds, n, d, i)
  }

  lemma ResolveReads(t: Tables, deeds: seq<Deed>, n: nat, d: Direction, expr: WireExpr)
    requires n <= |deeds| && Agrees(t, deeds, n, d) && Agrees(t, deeds, n, Opposite(d))
    ensures Resolve(t.keyexprs, d, expr) == Reading(deeds, n, d, expr)
  {
    hide Meaning;
    assert ExprAt(t, OwnerOf(d, expr.mapping), expr.scope)
        == Meaning(deeds, n, OwnerOf(d, expr.mapping), expr.scope);
  }

  lemma BackAndForth(d: Direction)
    ensures Opposite(Opposite(d)) == d
  {
  }

  /** One declaration of a direction whose meanings, and those of its opposite, the tables hold. */
  lemma BodyAgrees(t: Tables, capacity: nat, deeds: seq<Deed>, n: nat, d: Direction, body: Body, parse: Parser)
    requires n < |deeds| && deeds[n] == Declares(d, body)
    requires Agrees(t, deeds, n, d) && Agrees(t, deeds, n, Opposite(d))
    ensures Agrees(ProcessBody(t, d, body, parse), deeds, n + 1, d)
  {
    hide Reading, Resolve, ExprAt, ProcessBody;
    forall i ensures ExprAt(ProcessBody(t, d, body, parse), d, i) == Meaning(deeds, n + 1, d, i) {
      BodyExpr(t, capacity, d, body, parse, i);
      if body.DeclareKeyExpr? {
        ResolveReads(t, deeds, n, d, body.expr);
      }
    }
  }

  /** Any other deed. */
  lemma OtherAgrees(t: Tables, t': Tables, deeds: seq<Deed>, n: nat, d: Direction)
    requires n < |deeds| && Agrees(t, deeds, n, d)
    requires deeds[n].direction != d || deeds[n].Enters?
    requires KeyExprsOf(t', d) == KeyExprsOf(t, d)
    ensures Agrees(t', deeds, n + 1, d)
  {
    hide KeyExprsOf, Reading;
    forall i ensures ExprAt(t', d, i) == Meaning(deeds, n + 1, d, i) {
      assert ExprAt(t, d, i) == Meaning(deeds, n, d, i);
    }
  }

  lemma LeaveAgrees(t': Tables, deeds: seq<Deed>, n: nat, d: Direction)
    requires n < |deeds| && deeds[n] == Leaves(d) && KeyExprsOf(t', d) == map[]
    ensures Agrees(t', deeds, n + 1, d)
  {
    hide Reading;
  }

  /** One deed of a run, for one direction. */
  lemma DeedAgrees(t: Tables, capacity: nat, deeds: seq<Deed>, n: nat, parse: Parser, d: Direction,
                   later: set<Direction>)
    requires WellFormed(t, capacity, parse) && OnlyBehind(t.order, d, later) && |later| < capacity && n < |deeds|
    requires deeds[n].Enters? && deeds[n].direction != d ==> deeds[n].direction in later
    requires Agrees(t, deeds, n, d) && Agrees(t, deeds, n, Opposite(d))
    ensures var t' := Do(t, capacity, deeds[n], parse);
            Agrees(t', deeds, n + 1, d) && OnlyBehind(t'.order, d, later)
  {
    WellFormedLists(t, capacity, parse);
    hide WellFormed, Agrees, OnlyBehind, ProcessBody, EnterFlow, RemoveFlow, Lists, NoDuplicates;
    var t' := Do(t, capacity, deeds[n], parse);
    if deeds[n].direction != d {
      DoOthers(t, capacity, deeds[n], parse, d, later);
      OtherAgrees(t, t', deeds, n, d);
    } else {
      match deeds[n]
      case Enters(x) =>
        EntersOwn(t, capacity, d, parse, later);
        OtherAgrees(t, t', deeds, n, d);
      case Declares(x, body) =>
        BodyAgrees(t, capacity, deeds, n, d, body, parse);
        BodyOrder(t, d, body, parse);
      case Leaves(x) =>
        LeavesOwn(t, d, later);
        LeaveAgrees(t', deeds, n, d);
    }
  }

  lemma BodyOrder(t: Tables, d: Direction, body: Body, parse: Parser)
    ensures ProcessBody(t, d, body, parse).order == t.order
  {
  }

  lemma RivalAt(deeds: seq<Deed>, d: Direction, n: nat)
    requires n < |deeds| && deeds[n].Enters? && deeds[n].direction != d
    ensures deeds[n].direction in Rivals(deeds, d)
  {
  }

  lemma NothingYet(deeds: seq<Deed>, d: Direction, later: set<Direction>, t: Tables)
    requires t == Tables(map[], map[], [])
    ensures Agrees(t, deeds, 0, d) && OnlyBehind(t.order, d, later) && TokensOf(t, d) == map[]
  {
  }

  /**
   At every point of a run, the tables hold for a direction and its opposite exactly
   what their key expressions mean, as long as fewer other directions enter than the
   tables have places.
   */
  lemma {:induction false} RunAgrees(deeds: seq<Deed>, n: nat, capacity: nat, parse: Parser, d: Direction)
    requires Orderly(deeds) && n <= |deeds|
    requires |Rivals(deeds, d)| < capacity && |Rivals(deeds, Opposite(d))| < capacity
    ensures var t := TablesAt(deeds, n, capacity, parse);
            && Agrees(t, deeds, n, d) && Agrees(t, deeds, n, Opposite(d))
            && OnlyBehind(t.order, d, Rivals(deeds, d)) && OnlyBehind(t.order, Opposite(d), Rivals(deeds, Opposite(d)))
    decreases n
  {
    hide *;
    var o := Opposite(d);
    if n == 0 {
      StartTables(deeds, capacity, parse);
      NothingYet(deeds, d, Rivals(deeds, d), TablesAt(deeds, 0, capacity, parse));
      NothingYet(deeds, o, Rivals(deeds, o), TablesAt(deeds, 0, capacity, parse));
    } else {
      RunAgrees(deeds, n - 1, capacity, parse, d);
      RunWellFormed(deeds, n - 1, capacity, parse);
      NextTables(deeds, n - 1, capacity, parse);
      BackAndForth(d);
      var t := TablesAt(deeds, n - 1, capacity, parse);
      if deeds[n - 1].Enters? && deeds[n - 1].direction != d {
        RivalAt(deeds, d, n - 1);
      }
      if deeds[n - 1].Enters? && deeds[n - 1].direction != o {
        RivalAt(deeds, o, n - 1);
      }
      DeedAgrees(t, capacity, deeds, n - 1, parse, d, Rivals(deeds, d));
      DeedAgrees(t, capacity, deeds, n - 1, parse, o, Rivals(deeds, o));
    }
  }

  lemma StartTables(deeds: seq<Deed>, capacity: nat, parse: Parser)
    ensures TablesAt(deeds, 0, capacity, parse) == Tables(map[], map[], [])
  {
  }

  lemma NextTables(deeds: seq<Deed>, n: nat, capacity: nat, parse: Parser)
    requires n < |deeds|
    ensures TablesAt(deeds, n + 1, capacity, parse)
            == Do(TablesAt(deeds, n, capacity, parse), capacity, deeds[n], parse)
  {
    hide Do;
  }

  // ---------- Tokens ----------

  /** A token as it should be: its key expression, and the entity when that parses. */
  function TokenFor(full: string, parse: Parser): Token {
    Token(full, match parse(full) { case None => None case Some(info) => Some(Entity(full, info)) })
  }

  /** The tokens of a direction stand for what they should. */
  ghost predicate TokensAgree(t: Tables, deeds: seq<Deed>, n: nat, d: Direction, parse: Parser)
    requires n <= |deeds|
  {
    forall id :: TokenAt(t, d, id) == TokenOf(Standing(deeds, n, d, id), parse)
  }

  function TokenOf(full: Option<string>, parse: Parser): Option<Token> {
    match full case None => None case Some(k) => Some(TokenFor(k, parse))
  }

  lemma BodyTokenAt(t: Tables, d: Direction, body: Body, parse: Parser, id: TokenId)
    ensures TokenAt(ProcessBody(t, d, body, parse), d, id) ==
            match body
            case DeclareToken(token, expr) =>
              var full := Resolve(t.keyexprs, d, expr);
              if token == id && full.Some? then TokenOf(full, parse) else TokenAt(t, d, id)
            case UndeclareToken(token) => if token == id then None else TokenAt(t, d, id)
            case _ => TokenAt(t, d, id)
  {
    hide Resolve;
  }

  lemma BodyTokensAgree(t: Tables, deeds: seq<Deed>, n: nat, d: Direction, body: Body, parse: Parser)
    requires n < |deeds| && deeds[n] == Declares(d, body) && TokensAgree(t, deeds, n, d, parse)
    requires Agrees(t, deeds, n, d) && Agrees(t, deeds, n, Opposite(d))
    ensures TokensAgree(ProcessBody(t, d, body, parse), deeds, n + 1, d, parse)
  {
    hide Reading, Resolve, TokenAt, ProcessBody, Agrees, TokenFor;
    forall id
      ensures TokenAt(ProcessBody(t, d, body, parse), d, id) == TokenOf(Standing(deeds, n + 1, d, id), parse)
    {
      BodyTokenAt(t, d, body, parse, id);
      if body.DeclareToken? {
        ResolveReads(t, deeds, n, d, body.expr);
      }
    }
  }

  lemma OtherTokensAgree(t: Tables, t': Tables, deeds: seq<Deed>, n: nat, d: Direction, parse: Parser)
    requires n < |deeds|
    requires if deeds[n] == Leaves(d) then TokensOf(t', d) == map[]
             else (deeds[n].direction != d || deeds[n].Enters?) && TokensOf(t', d) == TokensOf(t, d)
    requires TokensAgree(t, deeds, n, d, parse)
    ensures TokensAgree(t', deeds, n + 1, d, parse)
  {
    hide Reading, TokensOf, TokenFor;
    forall id ensures TokenAt(t', d, id) == TokenOf(Standing(deeds, n + 1, d, id), parse) {
      assert TokenAt(t, d, id) == TokenOf(Standing(deeds, n, d, id), parse);
    }
  }

  lemma DeedTokensAgree(t: Tables, capacity: nat, deeds: seq<Deed>, n: nat, parse: Parser, d: Direction,
                        later: set<Direction>)
    requires WellFormed(t, capacity, parse) && OnlyBehind(t.order, d, later) && |later| < capacity && n < |deeds|
    requires deeds[n].Enters? && deeds[n].direction != d ==> deeds[n].direction in later
    requires Agrees(t, deeds, n, d) && Agrees(t, deeds, n, Opposite(d)) && TokensAgree(t, deeds, n, d, parse)
    ensures TokensAgree(Do(t, capacity, deeds[n], parse), deeds, n + 1, d, parse)
  {
    WellFormedLists(t, capacity, parse);
    hide WellFormed, Agrees, TokensAgree, OnlyBehind, ProcessBody, EnterFlow, RemoveFlow, Lists, NoDuplicates;
    var t' := Do(t, capacity, deeds[n], parse);
    if deeds[n].direction != d {
      DoOthers(t, capacity, deeds[n], parse, d, later);
      OtherTokensAgree(t, t', deeds, n, d, parse);
    } else {
      match deeds[n]
      case Enters(x) =>
        EntersOwn(t, capacity, d, parse, later);
        OtherTokensAgree(t, t', deeds, n, d, parse);
      case Declares(x, body) => BodyTokensAgree(t, deeds, n, d, body, parse);
      case Leaves(x) =>
        LeavesOwn(t, d, later);
        OtherTokensAgree(t, t', deeds, n, d, parse);
    }
  }

  lemma {:induction false} RunTokensAgree(deeds: seq<Deed>, n: nat, capacity: nat, parse: Parser, d: Direction)
    requires Orderly(deeds) && n <= |deeds|
    requires |Rivals(deeds, d)| < capacity && |Rivals(deeds, Opposite(d))| < capacity
    ensures TokensAgree(TablesAt(deeds, n, capacity, parse), deeds, n, d, parse)
    decreases n
  {
    hide *;
    if n == 0 {
      StartTables(deeds, capacity, parse);
      NoTokens(TablesAt(deeds, 0, capacity, parse), deeds, d, parse);
    } else {
      RunTokensAgree(deeds, n - 1, capacity, parse, d);
      RunAgrees(deeds, n - 1, capacity, parse, d);
      RunWellFormed(deeds, n - 1, capacity, parse);
      NextTables(deeds, n - 1, capacity, parse);
      if deeds[n - 1].Enters? && deeds[n - 1].direction != d {
        RivalAt(deeds, d, n - 1);
      }
      DeedTokensAgree(TablesAt(deeds, n - 1, capacity, parse), capacity, deeds, n - 1, parse, d, Rivals(deeds, d));
    }
  }

  lemma NoTokens(t: Tables, deeds: seq<Deed>, d: Direction, parse: Parser)
    requires t == Tables(map[], map[], [])
    ensures TokensAgree(t, deeds, 0, d, parse)
  {
  }

  /**
   After any run of messages and closed flows, with fewer other directions entering
   than the tables have places: a direction has exactly the tokens that its
   declarations leave it, each for the key expression it stands for and the entity
   that this parses to.
   */
  lemma TokensExactly(calls: seq<Call>, capacity: nat, parse: Parser, d: Direction, id: TokenId)
    requires |Rivals(DeedsOf(calls), d)| < capacity && |Rivals(DeedsOf(calls), Opposite(d))| < capacity
    ensures TokenAt(TablesAfter(calls, capacity, parse), d, id)
         == TokenOf(Standing(DeedsOf(calls), |DeedsOf(calls)|, d, id), parse)
  {
    hide Standing, TablesAfter, DeedsOf, Rivals, TokenOf, TablesAt, DoAll, TokenAt;
    var deeds := DeedsOf(calls);
    CallsOrderly(calls);
    CallsAreDeeds(calls, capacity, parse);
    assert deeds[..|deeds|] == deeds;
    DoIsTables(deeds, |deeds|, capacity, parse);
    RunTokensAgree(deeds, |deeds|, capacity, parse, d);
  }

  predicate TouchesExpr(deed: Deed, d: Direction, i: ExprId) {
    deed.direction == d &&
    match deed
    case Leaves(_) => true
    case Declares(_, DeclareKeyExpr(id, _)) => id == i
    case Declares(_, UndeclareKeyExpr(id)) => id == i
    case _ => false
  }

  predicate TouchesToken(deed: Deed, d: Direction, id: TokenId) {
    deed.direction == d &&
    match deed
    case Leaves(_) => true
    case Declares(_, DeclareToken(token, _)) => token == id
    case Declares(_, UndeclareToken(token)) => token == id
    case _ => false
  }

  lemma {:induction false} MeaningLasts(deeds: seq<Deed>, j: nat, n: nat, d: Direction, i: ExprId)
    requires j <= n <= |deeds|
    requires forall l :: j <= l < n ==> !TouchesExpr(deeds[l], d, i)
    ensures Meaning(deeds, n, d, i) == Meaning(deeds, j, d, i)
    decreases n
  {
    if j < n {
      MeaningLasts(deeds, j, n - 1, d, i);
      assert !TouchesExpr(deeds[n - 1], d, i);
    }
  }

  lemma {:induction false} StandingLasts(deeds: seq<Deed>, j: nat, n: nat, d: Direction, id: TokenId)
    requires j <= n <= |deeds|
    requires forall l :: j <= l < n ==> !TouchesToken(deeds[l], d, id)
    ensures Standing(deeds, n, d, id) == Standing(deeds, j, d, id)
    decreases n
  {
    if j < n {
      StandingLasts(deeds, j, n - 1, d, id);
      assert !TouchesToken(deeds[n - 1], d, id);
    }
  }

  /**
   A prefix and a suffix: a key expression declared as a plain prefix, and not touched
   until a token refers to it, is what the scope of that token means with mapping
   Sender when the same direction declares the token, and with mapping Receiver when
   the opposite one does. While the token is not touched either, it stands for the
   prefix followed by the suffix.
   */
  lemma PrefixAndSuffix(calls: seq<Call>, capacity: nat, parse: Parser, owner: Direction, i: ExprId, prefix: string,
                        d: Direction, id: TokenId, suffix: string, mapping: Mapping, plain: Mapping, j: nat, k: nat)
    requires |Rivals(DeedsOf(calls), d)| < capacity && |Rivals(DeedsOf(calls), Opposite(d))| < capacity
    requires i != 0 && (if mapping == Sender then d == owner else d == Opposite(owner))
    requires var deeds := DeedsOf(calls);
             && j < k < |deeds|
             && deeds[j] == Declares(owner, DeclareKeyExpr(i, WireExpr(0, prefix, plain)))
             && deeds[k] == Declares(d, DeclareToken(id, WireExpr(i, suffix, mapping)))
             && (forall l :: j < l < k ==> !TouchesExpr(deeds[l], owner, i))
             && (forall l :: k < l < |deeds| ==> !TouchesToken(deeds[l], d, id))
    ensures TokenAt(TablesAfter(calls, capacity, parse), d, id) == Some(TokenFor(prefix + suffix, parse))
  {
    hide TablesAfter, DeedsOf, Rivals, TokenFor, TokenAt;
    var deeds := DeedsOf(calls);
    BackAndForth(owner);
    MeaningLasts(deeds, j + 1, k, owner, i);
    StandingLasts(deeds, k + 1, |deeds|, d, id);
    TokensExactly(calls, capacity, parse, d, id);
  }

  /** Without a scope the token stands for the suffix alone. */
  lemma SuffixAlone(calls: seq<Call>, capacity: nat, parse: Parser, d: Direction, id: TokenId, suffix: string,
                    mapping: Mapping, k: nat)
    requires |Rivals(DeedsOf(calls), d)| < capacity && |Rivals(DeedsOf(calls), Opposite(d))| < capacity
    requires var deeds := DeedsOf(calls);
             && k < |deeds| && deeds[k] == Declares(d, DeclareToken(id, WireExpr(0, suffix, mapping)))
             && (forall l :: k < l < |deeds| ==> !TouchesToken(deeds[l], d, id))
    ensures TokenAt(TablesAfter(calls, capacity, parse), d, id) == Some(TokenFor(suffix, parse))
  {
    hide TablesAfter, DeedsOf, Rivals, TokenFor, TokenAt;
    var deeds := DeedsOf(calls);
    StandingLasts(deeds, k + 1, |deeds|, d, id);
    TokensExactly(calls, capacity, parse, d, id);
  }

  /** A token that was undeclared, or whose direction has left, is gone until it is declared again. */
  lemma GoneUntilDeclared(calls: seq<Call>, capacity: nat, parse: Parser, d: Direction, id: TokenId, k: nat)
    requires |Rivals(DeedsOf(calls), d)| < capacity && |Rivals(DeedsOf(calls), Opposite(d))| < capacity
    requires var deeds := DeedsOf(calls);
             && k < |deeds| && (deeds[k] == Declares(d, UndeclareToken(id)) || deeds[k] == Leaves(d))
             && (forall l :: k < l < |deeds| ==> !TouchesToken(deeds[l], d, id))
    ensures TokenAt(TablesAfter(calls, capacity, parse), d, id) == None
  {
    hide TablesAfter, DeedsOf, Rivals, TokenFor, TokenAt;
    var deeds := DeedsOf(calls);
    StandingLasts(deeds, k + 1, |deeds|, d, id);
    TokensExactly(calls, capacity, parse, d, id);
  }

  /** Without places nothing is ever kept. */
  lemma {:induction false} NoPlacesNothingKept(calls: seq<Call>, parse: Parser)
    ensures TablesAfter(calls, 0, parse) == Tables(map[], map[], [])
    decreases |calls|
  {
    if calls != [] {
      NoPlacesNothingKept(calls[..|calls| - 1], parse);
    }
  }

  /** The entity of a token lives, and is the one its key expression parses to. */
  lemma TokenLives(entities: map<string, Entity>, t: Tables, d: Direction, id: TokenId, full: string, parse: Parser)
    requires LiveExactly(entities, t.tokens, parse) && TokenAt(t, d, id) == Some(TokenFor(full, parse))
    ensures parse(full).Some? ==> full in entities && entities[full] == Entity(full, parse(full).value)
  {
    hide LiveExactly;
    if parse(full).Some? {
      assert (d, id) in Holders(t.tokens, full);
      LiveAt(entities, t.tokens, full, parse);
    }
  }

  lemma LiveAt(entities: map<string, Entity>, tokens: TokenTables, k: string, parse: Parser)
    requires LiveExactly(entities, tokens, parse)
    ensures if Holders(tokens, k) == {} then k !in entities
            else k in entities && ParseLiveliness(parse, k) == Some(entities[k])
  {
    hide Holders;
  }
}
