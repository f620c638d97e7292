/**
 The bag recorder: the runtime sends messages and commands through a bounded
 channel to an actor that owns the file. Messages are dropped, and counted, when
 the channel is full; commands wait for room and for their answer.
 */
module Recorder {
  import opened Basics

  const CAPACITY: nat := 1000
  const MAX_SEQUENCE: U32 := 0xFFFF_FFFF

  type ChannelId = int
  type Topic = string
  type ChannelKey = string

  datatype Message = Message(channel: ChannelId, sequence: U32, payload: seq<Byte>)

  datatype Event =
    | Data(message: Message)
    | EnsureChannel(key: ChannelKey)
    | Start
    | Stop
    | Shutdown

  datatype Reply =
    | Started(ok: bool)
    | ChannelReady(key: ChannelKey, id: Option<ChannelId>)
    | Stopped(file: Option<seq<Message>>)

  // ---------- The actor ----------

  /** The messages of the open file, the finished files, and messages thrown away without a file. */
  datatype Actor = Actor(active: Option<seq<Message>>, finished: seq<seq<Message>>, discarded: seq<Message>,
                         running: bool)

  function Write(a: Actor, m: Message): Actor {
    if a.active.Some? then a.(active := Some(a.active.value + [m])) else a.(discarded := a.discarded + [m])
  }

  /** Closing a file may fail; then there is no finished file. */
  function Finish(a: Actor, ok: bool): Actor {
    if a.active.None? then a
    else a.(active := None, finished := if ok then a.finished + [a.active.value] else a.finished)
  }

  function WriteAll(a: Actor, events: seq<Event>): Actor {
    if events == [] then a
    else
      var rest := WriteAll(a, events[..|events| - 1]);
      match events[|events| - 1]
      case Data(m) => Write(rest, m)
      case _ => rest
  }

  /** One event. `ok` tells whether the file system agrees, `id` which channel the writer hands out. */
  function Handle(a: Actor, event: Event, ok: bool, id: ChannelId): (Actor, Option<Reply>) {
    match event
    case Data(m) => (Write(a, m), None)
    case EnsureChannel(key) => (a, Some(ChannelReady(key, if a.active.Some? && ok then Some(id) else None)))
    case Start =>
      if a.active.None? && ok then (a.(active := Some([])), Some(Started(true))) else (a, Some(Started(false)))
    case Stop => (Finish(a, ok), Some(Stopped(if ok then a.active else None)))
    case Shutdown => (a, None)
  }

  // ---------- The runtime's side ----------

  /** A call of `try_record` and whether the channel had room. */
  datatype Call = Call(topic: Topic, message: Message, accepted: bool)

  datatype Session = Session(channels: map<ChannelKey, ChannelId>, sequences: map<ChannelId, U32>)

  /** Drop counts since the last start, and every call since then. */
  datatype Account = Account(dropped: map<Topic, nat>, droppedCount: nat, calls: seq<Call>)

  function NextSequence(s: Session, id: ChannelId): U32 {
    if id in s.sequences then s.sequences[id] else 0
  }

  function SaturatingNext(sequence: U32): U32 {
    if sequence == MAX_SEQUENCE then sequence else sequence + 1
  }

  function CountDrop(a: Account, topic: Topic): Account {
    a.(dropped := a.dropped[topic := (if topic in a.dropped then a.dropped[topic] else 0) + 1],
       droppedCount := a.droppedCount + 1)
  }

  /** A message goes out on a known channel, or is dropped and counted. */
  function RecordPayload(queue: seq<Event>, s: Session, a: Account, key: ChannelKey, topic: Topic, payload: seq<Byte>)
    : (seq<Event>, Session, Account)
    requires key in s.channels
  {
    var id := s.channels[key];
    var sequence := NextSequence(s, id);
    var m := Message(id, sequence, payload);
    var call := Call(topic, m, |queue| < CAPACITY);
    if call.accepted then
      (queue + [Data(m)], s.(sequences := s.sequences[id := SaturatingNext(sequence)]), a.(calls := a.calls + [call]))
    else
      (queue, s.(sequences := s.sequences[id := sequence]), CountDrop(a, topic).(calls := a.calls + [call]))
  }

  // ---------- The protocol ----------

  /** The runtime is free, waits for a reply, has one before it, or is shutting the actor down. */
  datatype Phase = Free | Awaiting(command: Event) | Replied(reply: Reply) | Closing

  datatype State = State(queue: seq<Event>, actor: Actor, phase: Phase, session: Option<Session>, account: Account)

  datatype Step =
    | Record(key: ChannelKey, topic: Topic, payload: seq<Byte>)
    | Send(command: Event)
    | Take(ok: bool, id: ChannelId)
    | Receive

  function Initial(): State {
    State([], Actor(None, [], [], true), Free, None, Account(map[], 0, []))
  }

  /** Commands block until there is room; a recording starts only when none is active. */
  predicate Enabled(s: State, step: Step) {
    match step
    case Record(key, topic, payload) => s.phase.Free? && s.session.Some? && key in s.session.value.channels
    case Send(command) =>
      && s.phase.Free? && |s.queue| < CAPACITY
      && (match command
          case Data(_) => false
          case Start => s.session.None?
          case EnsureChannel(_) => s.session.Some?
          case Stop => s.session.Some?
          case Shutdown => true)
    case Take(ok, id) => s.actor.running && s.queue != []
    case Receive => s.phase.Replied?
  }

  function Next(s: State, step: Step): State
    requires Enabled(s, step)
  {
    match step
    case Record(key, topic, payload) =>
      var (queue, session, account) := RecordPayload(s.queue, s.session.value, s.account, key, topic, payload);
      s.(queue := queue, session := Some(session), account := account)
    case Send(command) =>
      s.(queue := s.queue + [command],
         phase := if command.Shutdown? then Closing else Awaiting(command),
         account := if command.Start? then Account(map[], 0, []) else s.account)
    case Take(ok, id) =>
      if s.queue[0].Shutdown? then
        s.(queue := [], actor := Finish(WriteAll(s.actor, s.queue[1..]), ok).(running := false))
      else
        var (actor, reply) := Handle(s.actor, s.queue[0], ok, id);
        s.(queue := s.queue[1..], actor := actor, phase := if reply.Some? then Replied(reply.value) else s.phase)
    case Receive =>
      match s.phase.reply
      case Started(ok) => s.(phase := Free, session := if ok then Some(Session(map[], map[])) else None)
      case ChannelReady(key, id) =>
        s.(phase := Free,
           session := if id.Some? && s.session.Some?
                      then Some(s.session.value.(channels := s.session.value.channels[key := id.value])) else s.session)
      case Stopped(_) => s.(phase := Free, session := None)
  }

  ghost predicate IsRun(states: seq<State>, steps: seq<Step>) {
    && |states| == |steps| + 1 && states[0] == Initial()
    && forall i :: 0 <= i < |steps| ==> Enabled(states[i], steps[i]) && states[i + 1] == Next(states[i], steps[i])
  }

  // ---------- What every run keeps ----------

  /** The messages that the channel accepted, in the order of the calls. */
  function Accepted(calls: seq<Call>): seq<Message> {
    if calls == [] then []
    else
      var rest := Accepted(calls[..|calls| - 1]);
      if calls[|calls| - 1].accepted then rest + [calls[|calls| - 1].message] else rest
  }

  function Messages(queue: seq<Event>): seq<Message> {
    if queue == [] then []
    else if queue[0].Data? then [queue[0].message] + Messages(queue[1..])
    else Messages(queue[1..])
  }

  predicate OnlyData(queue: seq<Event>) {
    forall i :: 0 <= i < |queue| ==> queue[i].Data?
  }

  /** File and queue together hold what was accepted in the session. */
  ghost predicate Held(s: State, queue: seq<Event>) {
    if s.session.Some? then
      s.actor.active.Some? && OnlyData(queue) && s.actor.active.value + Messages(queue) == Accepted(s.account.calls)
    else
      s.actor.active.None? && queue == []
  }

  ghost predicate QueueKept(s: State) {
    match s.phase
    case Free => Held(s, s.queue)
    case Awaiting(command) =>
      && s.queue != [] && s.queue[|s.queue| - 1] == command && Held(s, s.queue[..|s.queue| - 1])
      && !command.Data? && !command.Shutdown?
      && (command.Start? <==> s.session.None?) && (command.Start? ==> s.account.calls == [])
    case Replied(reply) =>
      s.queue == [] &&
      (match reply
       case Started(ok) =>
         s.session.None? && s.account.calls == [] && s.actor.active == (if ok then Some([]) else None)
       case ChannelReady(_, _) => s.session.Some? && Held(s, [])
       case Stopped(file) =>
         s.session.Some? && s.actor.active.None? && (file.Some? ==> Closed(s, file.value)))
    case Closing =>
      if s.actor.running
      then s.queue != [] && s.queue[|s.queue| - 1] == Shutdown && Held(s, s.queue[..|s.queue| - 1])
      else s.queue == [] && s.actor.active.None?
  }

  /** A finished file with exactly what was accepted. */
  ghost predicate Closed(s: State, file: seq<Message>) {
    && file == Accepted(s.account.calls)
    && s.actor.finished != [] && s.actor.finished[|s.actor.finished| - 1] == file
  }

  function Rejections(calls: seq<Call>, topic: Topic): nat {
    if calls == [] then 0
    else
      var last := calls[|calls| - 1];
      Rejections(calls[..|calls| - 1], topic) + if last.topic == topic && !last.accepted then 1 else 0
  }

  function Acceptances(calls: seq<Call>, topic: Topic): nat {
    if calls == [] then 0
    else
      var last := calls[|calls| - 1];
      Acceptances(calls[..|calls| - 1], topic) + if last.topic == topic && last.accepted then 1 else 0
  }

  function CallsOn(calls: seq<Call>, topic: Topic): nat {
    if calls == [] then 0
    else CallsOn(calls[..|calls| - 1], topic) + if calls[|calls| - 1].topic == topic then 1 else 0
  }

  function DropsOf(a: Account, topic: Topic): nat {
    if topic in a.dropped then a.dropped[topic] else 0
  }

  ghost predicate Accounted(a: Account) {
    && (forall t: Topic :: DropsOf(a, t) == Rejections(a.calls, t))
    && a.droppedCount + |Accepted(a.calls)| == |a.calls|
  }

  function OnChannel(messages: seq<Message>, id: ChannelId): nat {
    if messages == [] then 0
    else OnChannel(messages[..|messages| - 1], id) + if messages[|messages| - 1].channel == id then 1 else 0
  }

  function Capped(n: nat): U32 {
    if n < MAX_SEQUENCE then n else MAX_SEQUENCE
  }

  /** On each channel the sequence numbers count up from zero, and stay at the largest. */
  ghost predicate Counted(messages: seq<Message>) {
    forall i :: 0 <= i < |messages| ==> messages[i].sequence == Capped(OnChannel(messages[..i], messages[i].channel))
  }

  ghost predicate SequencesKept(s: State) {
    && Counted(Accepted(s.account.calls))
    && (s.session.Some? && !(s.phase.Replied? && s.phase.reply.Started?) ==>
        forall id: ChannelId :: NextSequence(s.session.value, id) == Capped(OnChannel(Accepted(s.account.calls), id)))
  }

  ghost predicate Kept(s: State) {
    && |s.queue| <= CAPACITY
    && s.actor.discarded == [] && (!s.actor.running ==> s.phase.Closing?)
    && QueueKept(s)
    && Accounted(s.account)
    && SequencesKept(s)
  }

  // ---------- Proofs, step by step ----------

  lemma {:induction false} MessagesAppend(queue: seq<Event>, m: Message)
    ensures Messages(queue + [Data(m)]) == Messages(queue) + [m]
  {
    if queue == [] {
      assert ([] + [Data(m)])[1..] == [];
    } else {
      assert (queue + [Data(m)])[1..] == queue[1..] + [Data(m)];
      MessagesAppend(queue[1..], m);
    }
  }

  lemma AcceptedMore(calls: seq<Call>, c: Call)
    ensures Accepted(calls + [c]) == if c.accepted then Accepted(calls) + [c.message] else Accepted(calls)
    ensures forall t :: Rejections(calls + [c], t) ==
              Rejections(calls, t) + if c.topic == t && !c.accepted then 1 else 0
  {
    assert (calls + [c])[..|calls|] == calls;
  }

  lemma RecordQueue(s: State, key: ChannelKey, topic: Topic, payload: seq<Byte>)
    requires Enabled(s, Record(key, topic, payload)) && Held(s, s.queue) && |s.queue| <= CAPACITY
    ensures Held(Next(s, Record(key, topic, payload)), Next(s, Record(key, topic, payload)).queue)
  {
    var id := s.session.value.channels[key];
    var m := Message(id, NextSequence(s.session.value, id), payload);
    MessagesAppend(s.queue, m);
    AcceptedMore(s.account.calls, Call(topic, m, |s.queue| < CAPACITY));
    hide Messages, Accepted;
  }

  lemma RecordAccount(s: State, key: ChannelKey, topic: Topic, payload: seq<Byte>)
    requires Enabled(s, Record(key, topic, payload)) && Accounted(s.account)
    ensures Accounted(Next(s, Record(key, topic, payload)).account)
  {
    hide Accepted, Rejections;
    var id := s.session.value.channels[key];
    var m := Message(id, NextSequence(s.session.value, id), payload);
    AcceptedMore(s.account.calls, Call(topic, m, |s.queue| < CAPACITY));
  }

  lemma CountedMore(messages: seq<Message>, m: Message)
    requires Counted(messages) && m.sequence == Capped(OnChannel(messages, m.channel))
    ensures Counted(messages + [m])
    ensures forall id :: OnChannel(messages + [m], id) == OnChannel(messages, id) + if id == m.channel then 1 else 0
  {
    assert (messages + [m])[..|messages|] == messages;
    forall i | 0 <= i < |messages| + 1
      ensures (messages + [m])[i].sequence == Capped(OnChannel((messages + [m])[..i], (messages + [m])[i].channel)) {
      if i < |messages| {
        assert (messages + [m])[..i] == messages[..i];
      }
    }
  }

  lemma RecordSequences(s: State, key: ChannelKey, topic: Topic, payload: seq<Byte>)
    requires Enabled(s, Record(key, topic, payload)) && SequencesKept(s)
    ensures SequencesKept(Next(s, Record(key, topic, payload)))
  {
    hide Accepted, OnChannel, Counted;
    var id := s.session.value.channels[key];
    var m := Message(id, NextSequence(s.session.value, id), payload);
    AcceptedMore(s.account.calls, Call(topic, m, |s.queue| < CAPACITY));
    CountedMore(Accepted(s.account.calls), m);
  }

  lemma TakeData(s: State, queue: seq<Event>)
    requires Held(s, queue) && queue != []
    ensures queue[0].Data? && Held(s.(actor := Write(s.actor, queue[0].message)), queue[1..])
    ensures s.actor.active.Some?
  {
    hide Accepted;
    var w := s.actor.active.value;
    assert w + ([queue[0].message] + Messages(queue[1..])) == (w + [queue[0].message]) + Messages(queue[1..]);
  }

  lemma TakeKeepsQueue(s: State, ok: bool, id: ChannelId)
    requires Enabled(s, Take(ok, id)) && QueueKept(s) && s.actor.discarded == []
    ensures QueueKept(Next(s, Take(ok, id))) && Next(s, Take(ok, id)).actor.discarded == []
    ensures !Next(s, Take(ok, id)).actor.running ==> s.phase.Closing?
  {
    hide Accepted, Messages, Held;
    var last := |s.queue| - 1;
    match s.phase
    case Free =>
      TakeData(s, s.queue);
      SameHeld(s.(actor := Write(s.actor, s.queue[0].message)), Next(s, Take(ok, id)), s.queue[1..]);
    case Awaiting(command) =>
      if last > 0 {
        TakeData(s, s.queue[..last]);
        assert s.queue[..last][1..] == s.queue[1..][..last - 1];
        SameHeld(s.(actor := Write(s.actor, s.queue[0].message)), Next(s, Take(ok, id)), s.queue[1..][..last - 1]);
      } else {
        TakeCommand(s, command, ok, id);
      }
    case Closing =>
      if last > 0 {
        TakeData(s, s.queue[..last]);
        assert s.queue[..last][1..] == s.queue[1..][..last - 1];
        SameHeld(s.(actor := Write(s.actor, s.queue[0].message)), Next(s, Take(ok, id)), s.queue[1..][..last - 1]);
      } else {
        assert s.queue[1..] == [];
      }
    case Replied(_) => assert false;
  }

  lemma SameHeld(s: State, s': State, queue: seq<Event>)
    requires Held(s, queue) && s'.session == s.session && s'.actor == s.actor && s'.account == s.account
    ensures Held(s', queue)
  {
    hide Accepted, Messages;
  }

  lemma TakeCommand(s: State, command: Event, ok: bool, id: ChannelId)
    requires s.phase == Awaiting(command) && s.queue == [command] && QueueKept(s) && s.actor.running
    ensures QueueKept(Next(s, Take(ok, id))) && Next(s, Take(ok, id)).actor.discarded == s.actor.discarded
  {
    hide Accepted;
    assert s.queue[..0] == [];
    assert s.queue[1..] == [];
    assert Messages([]) == [];
    if s.session.Some? {
      assert s.actor.active.value + [] == s.actor.active.value;
    }
  }

  lemma ReceiveKeeps(s: State)
    requires Kept(s) && s.phase.Replied?
    ensures Kept(Next(s, Receive))
  {
    hide Counted, Accounted;
    assert Accepted([]) == [] && Messages([]) == [];
  }

  lemma SendQueue(s: State, command: Event)
    requires QueueKept(s) && Enabled(s, Send(command)) && s.actor.running
    ensures QueueKept(Next(s, Send(command)))
  {
    hide Messages, Accepted;
    assert (s.queue + [command])[..|s.queue|] == s.queue;
  }

  lemma EmptyAccount()
    ensures Accounted(Account(map[], 0, [])) && Counted([]) && Accepted([]) == []
  {
    forall t: Topic ensures Rejections([], t) == 0 {
      NoRejections(t);
    }
  }

  lemma SendKeeps(s: State, command: Event)
    requires Kept(s) && Enabled(s, Send(command))
    ensures Kept(Next(s, Send(command)))
  {
    hide QueueKept, OnChannel, Accounted, Counted, Accepted;
    SendQueue(s, command);
    EmptyAccount();
  }

  lemma NoRejections(t: Topic)
    ensures Rejections([], t) == 0
  {
  }

  lemma StepKeeps(s: State, step: Step)
    requires Kept(s) && Enabled(s, step)
    ensures Kept(Next(s, step))
  {
    match step
    case Record(key, topic, payload) =>
      hide Held, Accounted, Counted, Accepted;
      RecordQueue(s, key, topic, payload);
      RecordAccount(s, key, topic, payload);
      RecordSequences(s, key, topic, payload);
    case Send(command) => SendKeeps(s, command);
    case Take(ok, id) =>
      hide Held, Accounted, Counted, Accepted, QueueKept;
      TakeKeepsQueue(s, ok, id);
      TakeRest(s, ok, id);
    case Receive => ReceiveKeeps(s);
  }

  lemma TakeRest(s: State, ok: bool, id: ChannelId)
    requires Kept(s) && Enabled(s, Take(ok, id))
    ensures var after := Next(s, Take(ok, id));
            && after.account == s.account && after.session == s.session && |after.queue| <= CAPACITY
            && SequencesKept(after)
            && (!after.actor.running && s.phase.Closing? ==> after.phase.Closing?)
  {
    hide Counted, Accepted, Accounted, Held, OnChannel;
  }

  /** In every reachable state the recorder has lost nothing. */
  lemma {:induction false} RunKeeps(states: seq<State>, steps: seq<Step>)
    requires IsRun(states, steps)
    ensures forall i :: 0 <= i < |states| ==> Kept(states[i])
  {
    hide Kept, Next, Enabled;
    if steps == [] {
      InitialKept();
    } else {
      var n := |steps| - 1;
      assert IsRun(states[..n + 1], steps[..n]);
      RunKeeps(states[..n + 1], steps[..n]);
      assert states[..n + 1][n] == states[n];
      assert forall i :: 0 <= i <= n ==> states[..n + 1][i] == states[i];
      StepKeeps(states[n], steps[n]);
    }
  }

  lemma InitialKept()
    ensures Kept(Initial())
  {
  }

  // ---------- Consequences ----------

  lemma {:induction false} CallsSplit(calls: seq<Call>, topic: Topic)
    ensures CallsOn(calls, topic) == Acceptances(calls, topic) + Rejections(calls, topic)
  {
    if calls != [] {
      CallsSplit(calls[..|calls| - 1], topic);
    }
  }

  /**
   When a stop is answered with a file, that file holds exactly the messages accepted
   in the session in the order of the calls; per topic, calls are accepted
   messages and counted drops; and the sequence numbers of every channel count up
   from zero without a gap.
   */
  lemma StopAnswered(states: seq<State>, steps: seq<Step>, i: nat)
    requires IsRun(states, steps) && i < |states|
    requires states[i].phase.Replied? && states[i].phase.reply.Stopped? && states[i].phase.reply.file.Some?
    ensures var s := states[i];
            var file := s.phase.reply.file.value;
            && file == Accepted(s.account.calls) && Counted(file)
            && s.actor.finished != [] && s.actor.finished[|s.actor.finished| - 1] == file
            && s.queue == [] && s.actor.discarded == []
            && (forall t: Topic ::
                  CallsOn(s.account.calls, t) == Acceptances(s.account.calls, t) + DropsOf(s.account, t))
  {
    hide Next, Enabled, Accepted, Counted;
    RunKeeps(states, steps);
    forall t: Topic {
      CallsSplit(states[i].account.calls, t);
    }
  }

  /** A shutdown with a recording open finishes it with everything that was accepted. */
  lemma ShutdownFinishes(s: State, id: ChannelId)
    requires Kept(s) && s.phase.Closing? && s.actor.running && s.queue == [Shutdown] && s.session.Some?
    ensures var after := Next(s, Take(true, id));
            !after.actor.running && Closed(after, Accepted(s.account.calls)) && after.actor.discarded == []
  {
    hide Accepted, Accounted, Counted;
    assert s.queue[..0] == [] && s.queue[1..] == [];
    assert Messages([]) == [];
    assert s.actor.active.value + [] == s.actor.active.value;
  }

  /** Two messages of one channel never share a sequence number below the largest. */
  lemma SequencesDistinct(messages: seq<Message>, i: nat, j: nat)
    requires Counted(messages) && i < j < |messages| && messages[i].channel == messages[j].channel
    requires messages[i].sequence < MAX_SEQUENCE
    ensures messages[i].sequence < messages[j].sequence
  {
    OnChannelGrows(messages, messages[i].channel, i, j);
  }

  lemma {:induction false} OnChannelGrows(messages: seq<Message>, id: ChannelId, i: nat, j: nat)
    requires i < j <= |messages| && messages[i].channel == id
    ensures OnChannel(messages[..i], id) < OnChannel(messages[..j], id)
    decreases j
  {
    assert messages[..j][..j - 1] == messages[..j - 1];
    if i < j - 1 {
      OnChannelGrows(messages, id, i, j - 1);
    }
  }

  // ---------- The objects ----------

  class RecorderActor {
    var active: Option<seq<Message>>
    var finished: seq<seq<Message>>
    var discarded: seq<Message>
    var running: bool

    constructor ()
      ensures Now() == Initial().actor
    {
      active, finished, discarded, running := None, [], [], true;
    }

    function Now(): Actor
      reads this
    {
      Actor(active, finished, discarded, running)
    }

    method WriteMessage(m: Message)
      modifies this
      ensures Now() == Write(old(Now()), m)
    {
      if active.Some? {
        active := Some(active.value + [m]);
      } else {
        discarded := discarded + [m];
      }
    }

    method FinishFile(ok: bool) returns (file: Option<seq<Message>>)
      modifies this
      ensures Now() == Finish(old(Now()), ok)
      ensures file == if ok then old(active) else None
    {
      file := if ok then active else None;
      if active.Some? && ok {
        finished := finished + [active.value];
      }
      active := None;
    }

    method HandleEvent(event: Event, ok: bool, id: ChannelId) returns (reply: Option<Reply>)
      modifies this
      ensures (Now(), reply) == Handle(old(Now()), event, ok, id)
    {
      reply := None;
      match event {
        case Data(m) => WriteMessage(m);
        case EnsureChannel(key) => reply := Some(ChannelReady(key, if active.Some? && ok then Some(id) else None));
        case Start =>
          if active.None? && ok {
            active := Some([]);
            reply := Some(Started(true));
          } else {
            reply := Some(Started(false));
          }
        case Stop =>
          var file := FinishFile(ok);
          reply := Some(Stopped(file));
        case Shutdown =>
      }
    }

    /** What is still queued behind a shutdown is written, then the open file is finished. */
    method HandleShutdown(rest: seq<Event>, ok: bool)
      modifies this
      ensures Now() == Finish(WriteAll(old(Now()), rest), ok).(running := false)
    {
      for i := 0 to |rest|
        invariant Now() == WriteAll(old(Now()), rest[..i])
      {
        assert rest[..i + 1][..i] == rest[..i];
        if rest[i].Data? {
          WriteMessage(rest[i].message);
        }
      }
      assert rest[..|rest|] == rest;
      var _ := FinishFile(ok);
      running := false;
    }
  }

  class RecorderHandle {
    var queue: seq<Event>
    var dropped: map<Topic, nat>
    var droppedCount: nat
    ghost var calls: seq<Call>

    ghost function Now(): Account
      reads this
    {
      Account(dropped, droppedCount, calls)
    }

    constructor ()
      ensures queue == [] && Now() == Initial().account
    {
      queue, dropped, droppedCount, calls := [], map[], 0, [];
    }

    method ResetDropCounts()
      modifies this
      ensures queue == old(queue) && Now() == Account(map[], 0, [])
    {
      dropped, droppedCount, calls := map[], 0, [];
    }

    /** A command waits until there is room; a start forgets the drops of earlier sessions first. */
    method SendCommand(command: Event)
      requires !command.Data? && |queue| < CAPACITY
      modifies this
      ensures queue == old(queue) + [command]
      ensures Now() == if command.Start? then Account(map[], 0, []) else old(Now())
    {
      if command.Start? {
        ResetDropCounts();
      }
      queue := queue + [command];
    }

    /** Never waits: without room the message is dropped and counted for its topic. */
    method TryRecord(m: Message, topic: Topic) returns (ok: bool)
      modifies this
      ensures ok == (|old(queue)| < CAPACITY)
      ensures queue == if ok then old(queue) + [Data(m)] else old(queue)
      ensures Now() == (if ok then old(Now()) else CountDrop(old(Now()), topic))
                       .(calls := old(calls) + [Call(topic, m, ok)])
    {
      ok := |queue| < CAPACITY;
      calls := calls + [Call(topic, m, ok)];
      if ok {
        queue := queue + [Data(m)];
      } else {
        droppedCount := droppedCount + 1;
        dropped := dropped[topic := (if topic in dropped then dropped[topic] else 0) + 1];
      }
    }
  }

  class RecordingSession {
    var channels: map<ChannelKey, ChannelId>
    var sequences: map<ChannelId, U32>

    constructor ()
      ensures Now() == Session(map[], map[])
    {
      channels, sequences := map[], map[];
    }

    function Now(): Session
      reads this
    {
      Session(channels, sequences)
    }

    /** The channel of a key, asked for once; without one the message is not recorded. */
    method UseChannel(key: ChannelKey, ready: Option<ChannelId>) returns (known: bool)
      modifies this`channels
      ensures known == (key in old(channels) || ready.Some?) && (known ==> key in channels)
      ensures channels == if key in old(channels) || ready.None? then old(channels)
                          else old(channels)[key := ready.value]
    {
      if key !in channels {
        if ready.None? {
          return false;
        }
        channels := channels[key := ready.value];
      }
      known := true;
    }

    method Record(handle: RecorderHandle, key: ChannelKey, topic: Topic, payload: seq<Byte>)
      requires key in channels
      modifies this, handle
      ensures (handle.queue, Now(), handle.Now()) ==
              RecordPayload(old(handle.queue), old(Now()), old(handle.Now()), key, topic, payload)
    {
      var id := channels[key];
      if id !in sequences {
        sequences := sequences[id := 0];
      }
      var sequence := sequences[id];
      var sent := handle.TryRecord(Message(id, sequence, payload), topic);
      if sent {
        sequences := sequences[id := SaturatingNext(sequence)];
      }
      assert sequences == old(sequences)[id := if sent then SaturatingNext(sequence) else sequence];
    }
  }
}
