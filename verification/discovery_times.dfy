/**
 What the entries of the discovery table say, and until when they stand, in terms of
 the samples that arrived. `SweepExact` says that a sweep takes exactly those that no
 longer stand.
 */
module DiscoveryTimes {
  import opened Basics
  import opened DiscoveryIds
  import opened Directories
  import opened Discovery

  // ---------- What samples say ----------

  predicate AnnouncesParticipant(step: Step, id: ParticipantId) {
    && step.Observe? && step.sample.ParticipantSeen?
    && var p := step.sample.participant;
       if p.participantId.Some? then p.participantId == Some(id)
       else p.guid.Some? && id == RtpsParticipant(p.guid.value)
  }

  /** Publications and subscriptions are told in the same way. */
  datatype Side = Publications | Subscriptions

  predicate AnnouncesEndpoint(step: Step, side: Side, id: EndpointId) {
    && step.Observe?
    && (if side == Publications then step.sample.PublicationSeen? else step.sample.SubscriptionSeen?)
    && var e := step.sample.endpoint;
       if e.endpointId.Some? then e.endpointId == Some(id)
       else e.endpointGid.Some? && id == RtpsEndpoint(e.endpointGid.value)
  }

  /** The participant an endpoint sample names. */
  function OwnerNamed(e: EndpointSample): Option<ParticipantId> {
    if e.participantId.Some? then e.participantId
    else if e.participantGid.Some? then Some(RtpsParticipant(e.participantGid.value))
    else None
  }

  /** A time plus a duration, when the clock can represent it. */
  function Plus(now: Time, nanos: nat, clock: Clock): Option<Time> {
    if now + nanos > clock.latest then None else Some(now + nanos)
  }

  /** Until when a participant stands that announced a lease: without one, or with a negative one, for good. */
  function LeaseEnds(lease: Lease, now: Time, clock: Clock): Option<Time> {
    if lease == None || lease.value.seconds < 0 then None
    else Plus(now, lease.value.seconds * 1_000_000_000 + lease.value.fraction, clock)
  }

  function Latest(a: Option<Time>, b: Option<Time>): Option<Time> {
    if a == None then b else if b == None then a else if a.value >= b.value then a else b
  }

  /** The last announcement of a participant: when, and with which lease. */
  function LastLease(steps: seq<Step>, n: nat, id: ParticipantId): Option<(Time, Lease)>
    requires n <= |steps|
  {
    if n == 0 then None
    else if AnnouncesParticipant(steps[n - 1], id) then
      Some((steps[n - 1].now, steps[n - 1].sample.participant.leaseDuration))
    else LastLease(steps, n - 1, id)
  }

  /** The last announcement of an endpoint. */
  function LastSample(steps: seq<Step>, n: nat, side: Side, id: EndpointId): Option<EndpointSample>
    requires n <= |steps|
  {
    if n == 0 then None
    else if AnnouncesEndpoint(steps[n - 1], side, id) then Some(steps[n - 1].sample.endpoint)
    else LastSample(steps, n - 1, side, id)
  }

  function EntriesOf(t: Table, side: Side): Endpoints {
    if side == Publications then t.publications else t.subscriptions
  }

  /**
   Until when an endpoint stands. Its own announcement and each one of its participant
   make it stand for the lifetime of endpoints, and at least as long as the participant
   then stands.
   */
  ghost function EndpointEnds(steps: seq<Step>, n: nat, side: Side, id: EndpointId, clock: Clock): Option<Time>
    requires n <= |steps|
  {
    if n == 0 then None
    else
      var step := steps[n - 1];
      var owner := match LastSample(steps, n - 1, side, id) { case None => None case Some(e) => OwnerNamed(e) };
      if AnnouncesEndpoint(step, side, id) then
        Latest(StandsUntil(Run(steps[..n - 1], clock), OwnerNamed(step.sample.endpoint)),
               Plus(step.now, clock.ttl, clock))
      else if owner.Some? && AnnouncesParticipant(step, owner.value) then
        Latest(LeaseEnds(step.sample.participant.leaseDuration, step.now, clock), Plus(step.now, clock.ttl, clock))
      else EndpointEnds(steps, n - 1, side, id, clock)
  }

  /** The deadline of a participant that is in the table. */
  function StandsUntil(t: Table, owner: Option<ParticipantId>): Option<Time> {
    if owner.Some? && owner.value in t.participants.entries then t.participants.entries[owner.value].expiresAt else None
  }

  // ---------- The entries of a run ----------

  ghost predicate ParticipantsAsTold(t: Table, steps: seq<Step>, n: nat, clock: Clock)
    requires n <= |steps|
  {
    forall id :: id in t.participants.entries ==> ParticipantAsTold(t, steps, n, id, clock)
  }

  ghost predicate ParticipantAsTold(t: Table, steps: seq<Step>, n: nat, id: ParticipantId, clock: Clock)
    requires n <= |steps|
  {
    id in t.participants.entries ==>
      var told := LastLease(steps, n, id);
      && told.Some? && t.participants.entries[id].lastSeen == told.value.0
         && t.participants.entries[id].data == told.value.1
      && t.participants.entries[id].expiresAt == LeaseEnds(told.value.1, told.value.0, clock)
  }

  ghost predicate EndpointAsTold(t: Table, steps: seq<Step>, n: nat, side: Side, id: EndpointId, clock: Clock)
    requires n <= |steps|
  {
    id in EntriesOf(t, side).entries ==>
      var entry := EntriesOf(t, side).entries[id];
      var told := LastSample(steps, n, side, id);
      && told.Some? && entry.data.details == told.value.details
         && entry.data.participantGid == told.value.participantGid
      && entry.data.participantId == OwnerNamed(told.value)
      && entry.expiresAt == EndpointEnds(steps, n, side, id, clock)
  }

  ghost predicate EndpointsAsTold(t: Table, steps: seq<Step>, n: nat, side: Side, clock: Clock)
    requires n <= |steps|
  {
    forall id :: EndpointAsTold(t, steps, n, side, id, clock)
  }

  /** Entries that a step leaves are as they were, unless it announces them. */
  lemma NextParticipants(t: Table, step: Step, clock: Clock, id: ParticipantId)
    requires id in Next(t, step, clock).participants.entries
    ensures var entry := Next(t, step, clock).participants.entries[id];
            if AnnouncesParticipant(step, id) then
              var lease := step.sample.participant.leaseDuration;
              entry.lastSeen == step.now && entry.data == lease && entry.expiresAt == LeaseEnds(lease, step.now, clock)
            else id in t.participants.entries && entry == t.participants.entries[id]
  {
    if step.Observe? && step.sample.ParticipantSeen? {
      ParticipantSaid(t, step, clock, id);
    } else {
      FewerParticipants(t, step, clock, id);
    }
  }

  lemma ParticipantSaid(t: Table, step: Step, clock: Clock, id: ParticipantId)
    requires step.Observe? && step.sample.ParticipantSeen? && id in Next(t, step, clock).participants.entries
    ensures var entry := Next(t, step, clock).participants.entries[id];
            var lease := step.sample.participant.leaseDuration;
            if AnnouncesParticipant(step, id) then
              entry.lastSeen == step.now && entry.data == lease && entry.expiresAt == LeaseEnds(lease, step.now, clock)
            else id in t.participants.entries && entry == t.participants.entries[id]
  {
    SameArithmetic(step.sample.participant.leaseDuration, step.now, clock);
    hide Discovery.Refresh, ParticipantDeadline, LeaseEnds, AddTime, Plus, Later, Latest;
  }

  lemma FewerParticipants(t: Table, step: Step, clock: Clock, id: ParticipantId)
    requires step.Observe? ==> !step.sample.ParticipantSeen?
    requires id in Next(t, step, clock).participants.entries
    ensures id in t.participants.entries && Next(t, step, clock).participants.entries[id] == t.participants.entries[id]
  {
    hide UpsertEndpoint, UpsertParticipant, ExpiredIds, EndpointsOf;
  }

  /** What the announcement of an endpoint makes of its entry. */
  ghost predicate EntrySaid(entry: Entry<EndpointData>, t: Table, step: Step, clock: Clock)
    requires step.Observe? && (step.sample.PublicationSeen? || step.sample.SubscriptionSeen?)
  {
    var e := step.sample.endpoint;
    && entry.data.details == e.details && entry.data.participantGid == e.participantGid
    && entry.data.participantId == OwnerNamed(e)
    && entry.expiresAt == Latest(StandsUntil(t, OwnerNamed(e)), Plus(step.now, clock.ttl, clock))
  }

  lemma NextEndpoints(t: Table, step: Step, clock: Clock, side: Side, id: EndpointId)
    requires id in EntriesOf(Next(t, step, clock), side).entries
    ensures var entry := EntriesOf(Next(t, step, clock), side).entries[id];
            if AnnouncesEndpoint(step, side, id) then EntrySaid(entry, t, step, clock)
            else
              && id in EntriesOf(t, side).entries
              && (var before := EntriesOf(t, side).entries[id];
                  if before.data.participantId.Some? && AnnouncesParticipant(step, before.data.participantId.value)
                  then entry == before.(expiresAt := Latest(
                    LeaseEnds(step.sample.participant.leaseDuration, step.now, clock),
                    Plus(step.now, clock.ttl, clock)))
                  else entry == before)
  {
    if step.Observe? && (step.sample.PublicationSeen? || step.sample.SubscriptionSeen?) {
      UpsertedBy(t, step, clock, side, id);
    } else if step.Observe? && step.sample.ParticipantSeen? {
      hide Next, EntrySaid, LeaseEnds, Plus, Latest;
      RefreshedBy(t, step.sample.participant, step.now, clock, side, id);
    } else {
      FewerBy(t, step, clock, side, id);
    }
  }

  lemma UpsertedBy(t: Table, step: Step, clock: Clock, side: Side, id: EndpointId)
    requires step.Observe? && (step.sample.PublicationSeen? || step.sample.SubscriptionSeen?)
    requires id in EntriesOf(Next(t, step, clock), side).entries
    ensures var entry := EntriesOf(Next(t, step, clock), side).entries[id];
            if AnnouncesEndpoint(step, side, id) then EntrySaid(entry, t, step, clock)
            else id in EntriesOf(t, side).entries && entry == EntriesOf(t, side).entries[id]
  {
    hide AddTime, Plus, Later, Latest;
    SameArithmetic(None, step.now, clock);
  }

  /** Disposals, sweeps and removals only take entries. */
  lemma FewerBy(t: Table, step: Step, clock: Clock, side: Side, id: EndpointId)
    requires step.Observe? ==>
               !step.sample.PublicationSeen? && !step.sample.SubscriptionSeen? && !step.sample.ParticipantSeen?
    requires id in EntriesOf(Next(t, step, clock), side).entries
    ensures id in EntriesOf(t, side).entries
    ensures EntriesOf(Next(t, step, clock), side).entries[id] == EntriesOf(t, side).entries[id]
  {
    hide ExpiredIds, EndpointsOf, UpsertEndpoint, UpsertParticipant;
  }

  /** The deadline arithmetic of the table is that of the announcements. */
  lemma SameArithmetic(lease: Lease, now: Time, clock: Clock)
    ensures ParticipantDeadline(lease, now, clock) == LeaseEnds(lease, now, clock)
    ensures AddTime(now, clock.ttl, clock.latest) == Plus(now, clock.ttl, clock)
    ensures forall a, b :: Later(a, b) == Latest(a, b)
  {
  }

  lemma RefreshOne(d: Endpoints, owner: ParticipantId, ends: Option<Time>, id: EndpointId)
    ensures var after := Discovery.Refresh(d, owner, ends).entries;
            && (id in after <==> id in d.entries)
            && (id in after ==>
                  after[id] == if d.entries[id].data.participantId == Some(owner) then d.entries[id].(expiresAt := ends)
                               else d.entries[id])
  {
  }

  lemma RefreshedBy(t: Table, p: ParticipantSample, now: Time, clock: Clock, side: Side, id: EndpointId)
    ensures var step := Observe(ParticipantSeen(p), now);
            var after := EntriesOf(Next(t, step, clock), side).entries;
            && (id in after <==> id in EntriesOf(t, side).entries)
            && (id in after ==>
                  var before := EntriesOf(t, side).entries[id];
                  if before.data.participantId.Some? && AnnouncesParticipant(step, before.data.participantId.value)
                  then
                    var ends := Latest(LeaseEnds(p.leaseDuration, now, clock), Plus(now, clock.ttl, clock));
                    after[id] == before.(expiresAt := ends)
                  else after[id] == before)
  {
    hide Put, Discovery.Refresh, ParticipantDeadline, LeaseEnds, Plus, AddTime, Later, Latest;
    SameArithmetic(p.leaseDuration, now, clock);
    var maybe := ParticipantIdOf(p);
    if maybe.Some? {
      var ends := Latest(LeaseEnds(p.leaseDuration, now, clock), Plus(now, clock.ttl, clock));
      RefreshOne(EntriesOf(t, side), maybe.value, ends, id);
    }
  }

  lemma {:induction false} RunParticipants(steps: seq<Step>, n: nat, clock: Clock)
    requires n <= |steps|
    ensures ParticipantsAsTold(Run(steps[..n], clock), steps, n, clock)
    decreases n
  {
    hide Next, AnnouncesParticipant, LeaseEnds;
    if n > 0 {
      RunParticipants(steps, n - 1, clock);
      var t := Run(steps[..n - 1], clock);
      RunSnoc(steps, n, clock);
      var after := Next(t, steps[n - 1], clock);
      forall id | id in after.participants.entries ensures ParticipantAsTold(after, steps, n, id, clock) {
        NextParticipants(t, steps[n - 1], clock, id);
        assert !AnnouncesParticipant(steps[n - 1], id) ==> ParticipantAsTold(t, steps, n - 1, id, clock);
      }
    }
  }

  lemma RunSnoc(steps: seq<Step>, n: nat, clock: Clock)
    requires 0 < n <= |steps|
    ensures Run(steps[..n], clock) == Next(Run(steps[..n - 1], clock), steps[n - 1], clock)
  {
    hide Next;
    assert steps[..n][..n - 1] == steps[..n - 1];
  }

  lemma {:induction false} RunEndpoint(steps: seq<Step>, n: nat, side: Side, id: EndpointId, clock: Clock)
    requires n <= |steps|
    ensures EndpointAsTold(Run(steps[..n], clock), steps, n, side, id, clock)
    decreases n
  {
    hide Next, AnnouncesParticipant, AnnouncesEndpoint, LeaseEnds, Plus, Latest, StandsUntil, Run;
    if n == 0 {
      EmptyRun(steps, clock);
    } else {
      RunEndpoint(steps, n - 1, side, id, clock);
      var t := Run(steps[..n - 1], clock);
      RunSnoc(steps, n, clock);
      if id in EntriesOf(Next(t, steps[n - 1], clock), side).entries {
        NextEndpoints(t, steps[n - 1], clock, side, id);
      }
    }
  }

  lemma EmptyRun(steps: seq<Step>, clock: Clock)
    ensures Run(steps[..0], clock) == EmptyTable()
  {
  }

  /**
   In every table of a run: a participant stands until the lease it last announced
   ends, for good when it announced none; an endpoint shows what it last announced and
   stands until the later of the ends that its own announcement and those of its
   participant gave it.
   */
  lemma RunAsTold(steps: seq<Step>, n: nat, clock: Clock)
    requires n <= |steps|
    ensures ParticipantsAsTold(Run(steps[..n], clock), steps, n, clock)
    ensures EndpointsAsTold(Run(steps[..n], clock), steps, n, Publications, clock)
    ensures EndpointsAsTold(Run(steps[..n], clock), steps, n, Subscriptions, clock)
  {
    hide EndpointAsTold, Run, ParticipantsAsTold;
    RunParticipants(steps, n, clock);
    forall id ensures EndpointAsTold(Run(steps[..n], clock), steps, n, Publications, id, clock) {
      RunEndpoint(steps, n, Publications, id, clock);
    }
    forall id ensures EndpointAsTold(Run(steps[..n], clock), steps, n, Subscriptions, id, clock) {
      RunEndpoint(steps, n, Subscriptions, id, clock);
    }
  }

  /**
   What is announced is in the table: a participant or an endpoint of the announcement's
   identity, and nothing else changes its place.
   */
  lemma AnnouncedIsIn(t: Table, step: Step, clock: Clock)
    ensures forall id :: AnnouncesParticipant(step, id) ==> id in Next(t, step, clock).participants.entries
    ensures forall id :: AnnouncesEndpoint(step, Publications, id) ==> id in Next(t, step, clock).publications.entries
    ensures forall id :: AnnouncesEndpoint(step, Subscriptions, id) ==> id in Next(t, step, clock).subscriptions.entries
  {
    hide Refresh, ParticipantDeadline, EndpointDeadline;
  }

  /** The change reported tells whether the identity was known; a sample that names nothing changes nothing. */
  lemma ChangeReported(t: Table, sample: Sample, now: Time, clock: Clock)
    ensures var step, change := Observe(sample, now), AfterSample(t, sample, now, clock).1;
            && (forall id :: AnnouncesParticipant(step, id) ==>
                  change == if id in t.participants.entries then Updated else Inserted)
            && (forall side, id :: AnnouncesEndpoint(step, side, id) ==>
                  change == if id in EntriesOf(t, side).entries then Updated else Inserted)
            && ((sample.ParticipantSeen? && forall id :: !AnnouncesParticipant(step, id)) ==>
                  change == Noop && AfterSample(t, sample, now, clock).0 == t)
            && (((sample.PublicationSeen? || sample.SubscriptionSeen?)
                 && forall side, id :: !AnnouncesEndpoint(step, side, id)) ==>
                  change == Noop && AfterSample(t, sample, now, clock).0 == t)
            && (sample.UnknownBuiltin? ==> change == Noop && AfterSample(t, sample, now, clock).0 == t)
  {
    hide Discovery.Refresh, ParticipantDeadline, EndpointDeadline, Put;
    var step := Observe(sample, now);
    if sample.ParticipantSeen? && ParticipantIdOf(sample.participant).Some? {
      assert AnnouncesParticipant(step, ParticipantIdOf(sample.participant).value);
    }
    if sample.PublicationSeen? && EndpointIdOf(sample.endpoint).Some? {
      assert AnnouncesEndpoint(step, Publications, EndpointIdOf(sample.endpoint).value);
    }
    if sample.SubscriptionSeen? && EndpointIdOf(sample.endpoint).Some? {
      assert AnnouncesEndpoint(step, Subscriptions, EndpointIdOf(sample.endpoint).value);
    }
  }

  /**
   With sound indexes, a message that an endpoint is disposed of is reported as a removal
   exactly when one carries the GID, and takes it and nothing else.
   */
  lemma EndpointDisposal(t: Table, side: Side, gid: TopicGid, now: Time, clock: Clock)
    requires Kept(t)
    ensures var kind := if side == Publications then PublicationKind else SubscriptionKind;
            var (after, change) := AfterSample(t, Disposed(kind, gid), now, clock);
            var index, entries := EntriesOf(t, side).index, EntriesOf(t, side).entries;
            && change == (if gid in index then RemovedEndpoint else Noop)
            && EntriesOf(after, side).index == index - {gid}
            && EntriesOf(after, side).entries == (if gid in index then entries - {index[gid]} else entries)
            && after.participants == t.participants
            && (side == Publications ==> after.subscriptions == t.subscriptions)
            && (side == Subscriptions ==> after.publications == t.publications)
  {
    var index := EntriesOf(t, side).index;
    assert gid !in index ==> index - {gid} == index;
  }

  /**
   A message that a participant is disposed of takes the participant that carries the
   GID, with all its endpoints and no others; without one it changes nothing.
   */
  lemma ParticipantDisposal(t: Table, gid: TopicGid, now: Time, clock: Clock)
    requires Kept(t)
    ensures var (after, change) := AfterSample(t, Disposed(ParticipantKind, gid), now, clock);
            if gid !in t.participants.index then after == t && change == Noop
            else
              var id := t.participants.index[gid];
              && change == RemovedParticipant(id, Some(gid)) && Gone(t, after, id)
    ensures AfterSample(t, Disposed(OtherKind, gid), now, clock) == (t, Noop)
  {
    hide AfterRemoval;
    DisposalIsRemoval(t, gid);
    if gid in t.participants.index {
      ForgottenIsGone(t, t.participants.index[gid]);
    }
  }

  /** The participant and its endpoints, and only they, have left. */
  ghost predicate Gone(t: Table, after: Table, id: ParticipantId) {
    && after.participants.entries == t.participants.entries - {id}
    && (forall side, e :: e in EntriesOf(after, side).entries <==>
          e in EntriesOf(t, side).entries && EntriesOf(t, side).entries[e].data.participantId != Some(id))
    && (forall side, e :: e in EntriesOf(after, side).entries ==>
          EntriesOf(after, side).entries[e] == EntriesOf(t, side).entries[e])
  }

  lemma ForgottenIsGone(t: Table, id: ParticipantId)
    requires id in t.participants.entries
    ensures Gone(t, AfterRemoval(t, id), id)
  {
  }

  /** A participant that is forgotten leaves with its endpoints; one that is not known leaves nothing. */
  lemma Forgotten(t: Table, id: ParticipantId, clock: Clock)
    ensures var after := Next(t, ForgetParticipant(id), clock);
            if id in t.participants.entries then Gone(t, after, id) else after == t
  {
    hide WithoutEndpointsOf, AfterRemoval;
    if id in t.participants.entries {
      ForgottenIsGone(t, id);
    } else {
      UnknownStays(t, id);
    }
  }

  lemma UnknownStays(t: Table, id: ParticipantId)
    requires id !in t.participants.entries
    ensures AfterRemoval(t, id) == t
  {
  }

  /**
   A sweep at `now` takes exactly the participants whose last announced lease has ended
   by then, and exactly the endpoints that no longer stand.
   */
  lemma SweepByTime(steps: seq<Step>, n: nat, now: Time, clock: Clock)
    requires n <= |steps|
    ensures var before, after := Run(steps[..n], clock), Next(Run(steps[..n], clock), Sweep(now), clock);
            && (forall id :: id in after.participants.entries <==>
                  id in before.participants.entries &&
                  var told := LastLease(steps, n, id);
                  told.Some? && Stands(LeaseEnds(told.value.1, told.value.0, clock), now))
            && (forall side, id :: id in EntriesOf(after, side).entries <==>
                  id in EntriesOf(before, side).entries && Stands(EndpointEnds(steps, n, side, id, clock), now))
  {
    var before := Run(steps[..n], clock);
    RunAsTold(steps, n, clock);
    RunKeeps(steps[..n], clock);
    SweepExact(before, now);
    hide Run, Kept, LeaseEnds, EndpointEnds, LastLease, LastSample, DropAll, ExpiredIds, LeasedSurvive;
    var after := Next(before, Sweep(now), clock);
    forall id ensures id in after.participants.entries <==>
                      id in before.participants.entries &&
                      var told := LastLease(steps, n, id);
                      told.Some? && Stands(LeaseEnds(told.value.1, told.value.0, clock), now)
    {
      SweptOne(before.participants, after.participants, now, id);
    }
    forall side, id ensures id in EntriesOf(after, side).entries <==>
                            id in EntriesOf(before, side).entries
                                && Stands(EndpointEnds(steps, n, side, id, clock), now)
    {
      SweptOne(EntriesOf(before, side), EntriesOf(after, side), now, id);
      assert EndpointAsTold(before, steps, n, side, id, clock);
    }
  }

  predicate Stands(ends: Option<Time>, now: Time) {
    ends == None || now < ends.value
  }

  lemma SweptOne<Id(!new), D(!new)>(before: Directory<Id, D>, after: Directory<Id, D>, now: Time, id: Id)
    requires Swept(before, after, now)
    ensures id in after.entries <==> id in before.entries && Stands(before.entries[id].expiresAt, now)
  {
    if id in before.entries {
      var entry := before.entries[id];
      assert (id in after.entries && after.entries[id] == entry) <==>
             (id in before.entries && before.entries[id] == entry
              && (entry.expiresAt.Some? ==> now < entry.expiresAt.value));
    }
    if id in after.entries {
      assert after.entries[id] == after.entries[id];
    }
  }
}
