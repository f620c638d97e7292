/** What the recorder answers to commands and does with messages, in every reachable state. */
module RecorderAnswers {
  import opened Basics
  import opened Recorder

  ghost predicate Reached(states: seq<State>, steps: seq<Step>, i: nat) {
    IsRun(states, steps) && i < |steps|
  }

  lemma StateKept(states: seq<State>, steps: seq<Step>, i: nat)
    requires Reached(states, steps, i)
    ensures |states| == |steps| + 1 && Kept(states[i]) && Enabled(states[i], steps[i])
    ensures states[i + 1] == Next(states[i], steps[i])
  {
    RunKeeps(states, steps);
    hide Kept, Enabled, Next;
  }

  /**
   A stop is answered with the file exactly when the file system lets it be closed, and
   the file then holds all that was accepted, in order; either way none is open any more.
   */
  lemma StopAnswers(states: seq<State>, steps: seq<Step>, i: nat)
    requires Reached(states, steps, i) && steps[i].Take? && states[i].queue != [] && states[i].queue[0] == Stop
    ensures |states| == |steps| + 1
    ensures var file := if steps[i].ok then Some(Accepted(states[i].account.calls)) else None;
            states[i + 1].phase == Replied(Stopped(file))
    ensures states[i + 1].actor.active == None
    ensures states[i + 1].actor.finished ==
            states[i].actor.finished + if steps[i].ok then [Accepted(states[i].account.calls)] else []
  {
    StateKept(states, steps, i);
    CommandAlone(states[i]);
    hide IsRun, Accepted, Accounted, SequencesKept;
    var s := states[i];
    assert s.queue[..0] == [];
    NoMessages();
    assert s.session.Some?;
    assert s.actor.active.value + [] == s.actor.active.value;
    assert s.actor.finished + [] == s.actor.finished;
  }

  lemma NoMessages()
    ensures Messages([]) == []
  {
  }

  /** When the actor comes to a command other than a shutdown, nothing else is queued. */
  lemma CommandAlone(s: State)
    requires Kept(s) && s.queue != [] && !s.queue[0].Data? && !s.queue[0].Shutdown? && s.actor.running
    ensures s.phase == Awaiting(s.queue[0]) && s.queue == [s.queue[0]]
  {
    hide Accepted, Accounted, SequencesKept;
    HeldFront(s, s.queue);
    HeldFront(s, s.queue[..|s.queue| - 1]);
  }

  /** What is queued before a command is data. */
  lemma HeldFront(s: State, queue: seq<Event>)
    ensures Held(s, queue) && queue != [] ==> queue[0].Data?
  {
    hide Accepted, Messages;
  }

  /** A start is answered with yes exactly when the file system lets a file be opened, and it opens empty. */
  lemma StartAnswers(states: seq<State>, steps: seq<Step>, i: nat)
    requires Reached(states, steps, i) && steps[i].Take? && states[i].queue != [] && states[i].queue[0] == Start
    ensures |states| == |steps| + 1
    ensures states[i + 1].phase == Replied(Started(steps[i].ok))
    ensures states[i + 1].actor.active == if steps[i].ok then Some([]) else None
    ensures Accepted(states[i + 1].account.calls) == []
  {
    StateKept(states, steps, i);
    CommandAlone(states[i]);
    hide IsRun, Accounted, SequencesKept;
    assert states[i].queue[..0] == [];
  }

  /** A channel is handed out exactly when the file system agrees, for the key that was asked for. */
  lemma ChannelAnswers(states: seq<State>, steps: seq<Step>, i: nat)
    requires Reached(states, steps, i) && steps[i].Take? && states[i].queue != [] && states[i].queue[0].EnsureChannel?
    ensures |states| == |steps| + 1
    ensures states[i + 1].phase ==
            Replied(ChannelReady(states[i].queue[0].key, if steps[i].ok then Some(steps[i].id) else None))
    ensures states[i + 1].actor == states[i].actor && states[i].actor.active.Some?
  {
    StateKept(states, steps, i);
    CommandAlone(states[i]);
    hide IsRun, Accepted, Accounted, SequencesKept;
    assert states[i].queue[..0] == [];
  }

  /** The runtime keeps the channel it was given under the key it asked for, and forgets a recording that ended. */
  lemma AnswersUsed(states: seq<State>, steps: seq<Step>, i: nat)
    requires Reached(states, steps, i) && steps[i].Receive?
    ensures |states| == |steps| + 1 && states[i].phase.Replied? && states[i + 1].phase == Free
    ensures var before, after := states[i].session, states[i + 1].session;
            match states[i].phase.reply
            case Started(ok) => after == if ok then Some(Session(map[], map[])) else None
            case ChannelReady(key, id) =>
              && before.Some? && after.Some? && after.value.sequences == before.value.sequences
              && after.value.channels == if id.Some? then before.value.channels[key := id.value]
                                         else before.value.channels
            case Stopped(_) => after == None
  {
    StateKept(states, steps, i);
    hide IsRun, Accepted, Accounted, SequencesKept, Held;
  }

  /** A shutdown ends the actor; a recording that is open is finished with all that was accepted, if it can be. */
  lemma ShutdownEnds(states: seq<State>, steps: seq<Step>, i: nat)
    requires Reached(states, steps, i) && steps[i].Take? && states[i].queue != [] && states[i].queue[0] == Shutdown
    ensures |states| == |steps| + 1 && !states[i + 1].actor.running && states[i + 1].actor.active == None
    ensures states[i + 1].actor.finished == states[i].actor.finished +
              if states[i].session.Some? && steps[i].ok then [Accepted(states[i].account.calls)] else []
    ensures states[i + 1].actor.discarded == []
  {
    StateKept(states, steps, i);
    ShutdownAlone(states[i]);
    hide IsRun, Accepted, Accounted, SequencesKept;
    var s := states[i];
    assert s.queue[..0] == [] && s.queue[1..] == [];
    NoMessages();
    if s.session.Some? {
      assert s.actor.active.value + [] == s.actor.active.value;
    }
    assert s.actor.finished + [] == s.actor.finished;
  }

  lemma ShutdownAlone(s: State)
    requires Kept(s) && s.queue != [] && s.queue[0].Shutdown? && s.actor.running
    ensures s.phase.Closing? && s.queue == [Shutdown]
  {
    hide Accepted, Accounted, SequencesKept;
    HeldFront(s, s.queue);
    HeldFront(s, s.queue[..|s.queue| - 1]);
  }

  /**
   A message is accepted exactly when fewer than 1000 events are queued. It then carries
   as its number how many its channel had before, up to the largest; otherwise it is
   counted as dropped for its topic, and only there.
   */
  lemma RecordDoes(states: seq<State>, steps: seq<Step>, i: nat)
    requires Reached(states, steps, i) && steps[i].Record?
    ensures |states| == |steps| + 1 && states[i].session.Some? && steps[i].key in states[i].session.value.channels
    ensures var s, s' := states[i], states[i + 1];
            var id := s.session.value.channels[steps[i].key];
            var earlier := Accepted(s.account.calls);
            if |s.queue| < 1000 then
              && Accepted(s'.account.calls) == earlier + [Message(id, Capped(OnChannel(earlier, id)), steps[i].payload)]
              && (forall t: Topic :: DropsOf(s'.account, t) == DropsOf(s.account, t))
            else
              && Accepted(s'.account.calls) == earlier && s'.queue == s.queue
              && (forall t: Topic ::
                    DropsOf(s'.account, t) == DropsOf(s.account, t) + if t == steps[i].topic then 1 else 0)
  {
    StateKept(states, steps, i);
    hide IsRun, Accepted, Accounted, QueueKept, OnChannel, Counted;
    var s := states[i];
    var id := s.session.value.channels[steps[i].key];
    var m := Message(id, NextSequence(s.session.value, id), steps[i].payload);
    AcceptedMore(s.account.calls, Call(steps[i].topic, m, |s.queue| < CAPACITY));
  }
}
