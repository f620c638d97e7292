/** Identities that the discovery tables use as keys. */
module DiscoveryIds {
  import opened Basics

  datatype TopicGid = TopicGid(bytes: seq<Byte>)

  datatype ParticipantId =
    | RtpsParticipant(gid: TopicGid)
    | ZenohParticipant(domainId: nat, zid: string, nodeId: string)
  {
    function RtpsGid(): Option<TopicGid> {
      if RtpsParticipant? then Some(gid) else None
    }
  }

  datatype EndpointId =
    | RtpsEndpoint(gid: TopicGid)
    | ZenohEndpoint(domainId: nat, zid: string, nodeId: string, entityId: string, kind: string)
  {
    function RtpsGid(): Option<TopicGid> {
      if RtpsEndpoint? then Some(gid) else None
    }
  }

  /** Nanoseconds since the clock's epoch. */
  type Time = nat

  function AddTime(t: Time, d: nat, latest: Time): Option<Time> {
    if t + d <= latest then Some(t + d) else None
  }
}

/**
 A table of entries under their ids with a secondary index by GID, the shape
 that participants, publications and subscriptions share.
 */
module Directories {
  import opened Basics
  import opened DiscoveryIds

  datatype Entry<D> = Entry(gid: Option<TopicGid>, data: D, firstSeen: Time, lastSeen: Time, expiresAt: Option<Time>)

  datatype Directory<Id, D> = Directory(entries: map<Id, Entry<D>>, index: map<TopicGid, Id>)

  predicate Expired(expiresAt: Option<Time>, now: Time) {
    expiresAt.Some? && expiresAt.value <= now
  }

  // ---------- Operations ----------

  function Put<Id(==), D>(d: Directory<Id, D>, id: Id, gid: Option<TopicGid>, data: D, now: Time,
                          expiresAt: Option<Time>)
    : Directory<Id, D>
  {
    var known := id in d.entries;
    var cleared := if known && d.entries[id].gid.Some? then d.index - {d.entries[id].gid.value} else d.index;
    Directory(
      d.entries[id := Entry(gid, data, if known then d.entries[id].firstSeen else now, now, expiresAt)],
      if gid.Some? then cleared[gid.value := id] else cleared)
  }

  /** Remove one entry and the index entry under its GID. */
  function Drop<Id, D>(d: Directory<Id, D>, id: Id): Directory<Id, D> {
    if id !in d.entries then d
    else
      Directory(d.entries - {id}, if d.entries[id].gid.Some? then d.index - {d.entries[id].gid.value} else d.index)
  }

  /** What a disposal message does: the index is asked first. */
  function Dispose<Id, D>(d: Directory<Id, D>, gid: TopicGid): Directory<Id, D> {
    if gid !in d.index then d else Directory(d.entries - {d.index[gid]}, d.index - {gid})
  }

  ghost function GidsOf<Id, D>(d: Directory<Id, D>, ids: set<Id>): set<TopicGid> {
    set id | id in ids && id in d.entries && d.entries[id].gid.Some? :: d.entries[id].gid.value
  }

  ghost function DropAll<Id, D>(d: Directory<Id, D>, ids: set<Id>): Directory<Id, D> {
    Directory(d.entries - ids, d.index - GidsOf(d, ids))
  }

  function Find<Id, D>(d: Directory<Id, D>, gid: TopicGid): Option<Entry<D>> {
    if gid in d.index && d.index[gid] in d.entries then Some(d.entries[d.index[gid]]) else None
  }

  // ---------- Soundness and completeness of the index ----------

  /** A lookup only meets an entry that carries the GID. */
  ghost predicate Sound<Id, D>(d: Directory<Id, D>) {
    forall g :: g in d.index ==> d.index[g] in d.entries && d.entries[d.index[g]].gid == Some(g)
  }

  /** Every entry that carries a GID is found under it. */
  ghost predicate Complete<Id(!new), D>(d: Directory<Id, D>) {
    forall id :: id in d.entries && d.entries[id].gid.Some? ==>
      d.entries[id].gid.value in d.index && d.index[d.entries[id].gid.value] == id
  }

  lemma PutSound<Id, D>(d: Directory<Id, D>, id: Id, gid: Option<TopicGid>, data: D, now: Time, expiresAt: Option<Time>)
    requires Sound(d)
    ensures Sound(Put(d, id, gid, data, now, expiresAt))
  {
  }

  /** What was put under a GID is found under it, with the data and the deadline it came with. */
  lemma PutFound<Id, D>(d: Directory<Id, D>, id: Id, gid: TopicGid, data: D, now: Time, expiresAt: Option<Time>)
    ensures Find(Put(d, id, Some(gid), data, now, expiresAt), gid) ==
            Some(Entry(Some(gid), data, if id in d.entries then d.entries[id].firstSeen else now, now, expiresAt))
  {
  }

  /** The index stays complete exactly when no other entry carries the GID that arrives. */
  lemma PutComplete<Id(!new), D>(d: Directory<Id, D>, id: Id, gid: Option<TopicGid>, data: D, now: Time,
                                 expiresAt: Option<Time>)
    requires Sound(d) && Complete(d)
    ensures Complete(Put(d, id, gid, data, now, expiresAt)) <==>
            forall other :: other in d.entries && other != id && gid.Some? ==> d.entries[other].gid != gid
  {
    var after := Put(d, id, gid, data, now, expiresAt);
    if Complete(after) {
      forall other | other in d.entries && other != id && gid.Some? ensures d.entries[other].gid != gid {
        assert after.entries[other] == d.entries[other];
      }
    }
  }

  /** Every GID that an entry carries belongs to the id of that entry. */
  ghost predicate Owned<Id(!new), D>(d: Directory<Id, D>, owner: TopicGid -> Id) {
    forall id :: id in d.entries && d.entries[id].gid.Some? ==> owner(d.entries[id].gid.value) == id
  }

  /** Every lookup finds what it should. */
  ghost predicate Finds<Id(!new), D>(d: Directory<Id, D>, owner: TopicGid -> Id) {
    Sound(d) && Complete(d) && Owned(d, owner)
  }

  lemma FoundExactly<Id(!new), D>(d: Directory<Id, D>, owner: TopicGid -> Id, gid: TopicGid)
    requires Finds(d, owner)
    ensures Find(d, gid).Some? <==> exists id :: id in d.entries && d.entries[id].gid == Some(gid)
    ensures forall id :: id in d.entries && d.entries[id].gid == Some(gid) ==> Find(d, gid) == Some(d.entries[id])
  {
    if gid in d.index {
      assert d.entries[d.index[gid]].gid == Some(gid);
    }
  }

  lemma PutFinds<Id(!new), D>(d: Directory<Id, D>, id: Id, gid: Option<TopicGid>, data: D, now: Time,
                              expiresAt: Option<Time>,
                              owner: TopicGid -> Id)
    requires Finds(d, owner) && (gid.Some? ==> owner(gid.value) == id)
    ensures Finds(Put(d, id, gid, data, now, expiresAt), owner)
  {
    PutSound(d, id, gid, data, now, expiresAt);
    PutComplete(d, id, gid, data, now, expiresAt);
    hide Complete, Sound;
  }

  lemma DropAllFinds<Id(!new), D>(d: Directory<Id, D>, ids: set<Id>, owner: TopicGid -> Id)
    requires Finds(d, owner)
    ensures Finds(DropAll(d, ids), owner)
  {
    DropAllSound(d, ids);
    DropAllComplete(d, ids);
    hide Complete, Sound;
  }

  lemma DropFinds<Id(!new), D>(d: Directory<Id, D>, id: Id, owner: TopicGid -> Id)
    requires Finds(d, owner)
    ensures Finds(Drop(d, id), owner)
  {
    DropNothing(d);
    DropOneMore(d, {}, id);
    DropAllFinds(d, {} + {id}, owner);
    hide Finds, Drop, DropAll;
  }

  lemma DisposeFinds<Id(!new), D>(d: Directory<Id, D>, gid: TopicGid, owner: TopicGid -> Id)
    requires Finds(d, owner)
    ensures Finds(Dispose(d, gid), owner)
  {
    if gid in d.index {
      DisposeIsDrop(d, gid);
      DropFinds(d, d.index[gid], owner);
    }
  }

  /** Removing several entries one by one removes exactly them and their GIDs. */
  lemma DropOneMore<Id, D>(d: Directory<Id, D>, ids: set<Id>, id: Id)
    requires id !in ids
    ensures DropAll(d, ids + {id}) == Drop(DropAll(d, ids), id)
  {
    assert d.entries - (ids + {id}) == d.entries - ids - {id};
    if id in d.entries && d.entries[id].gid.Some? {
      assert GidsOf(d, ids + {id}) == GidsOf(d, ids) + {d.entries[id].gid.value};
    } else {
      assert GidsOf(d, ids + {id}) == GidsOf(d, ids);
    }
    assert id !in d.entries ==> d.entries - ids - {id} == d.entries - ids;
  }

  lemma DropSound<Id, D>(d: Directory<Id, D>, id: Id)
    requires Sound(d)
    ensures Sound(Drop(d, id))
  {
  }

  lemma DropAllSound<Id, D>(d: Directory<Id, D>, ids: set<Id>)
    requires Sound(d)
    ensures Sound(DropAll(d, ids))
  {
    var after := DropAll(d, ids);
    forall g | g in after.index ensures after.index[g] in after.entries {
      assert d.entries[d.index[g]].gid == Some(g);
    }
  }

  lemma DropAllComplete<Id(!new), D>(d: Directory<Id, D>, ids: set<Id>)
    requires Sound(d) && Complete(d)
    ensures Complete(DropAll(d, ids))
  {
    var after := DropAll(d, ids);
    forall id | id in after.entries && after.entries[id].gid.Some?
      ensures after.entries[id].gid.value in after.index
    {
      var g := d.entries[id].gid.value;
      assert d.index[g] == id;
    }
  }

  /** With a sound index, a disposal removes the entry that carries the GID and nothing else. */
  lemma DisposeIsDrop<Id, D>(d: Directory<Id, D>, gid: TopicGid)
    requires Sound(d) && gid in d.index
    ensures Dispose(d, gid) == Drop(d, d.index[gid])
    ensures d.index[gid] in d.entries
  {
  }

  // ---------- The loops ----------

  lemma DropAllSize<Id, D>(d: Directory<Id, D>, ids: set<Id>)
    requires ids <= d.entries.Keys
    ensures |DropAll(d, ids).entries| == |d.entries| - |ids|
    ensures DropAll(d, ids).entries.Keys == d.entries.Keys - ids
    ensures forall g :: g in GidsOf(d, ids) <==> exists id :: id in ids && d.entries[id].gid == Some(g)
  {
    assert d.entries.Keys == DropAll(d, ids).entries.Keys + ids;
  }

  method RemoveEach<Id(==), D>(entries: map<Id, Entry<D>>, index: map<TopicGid, Id>, ids: set<Id>)
    returns (entries': map<Id, Entry<D>>, index': map<TopicGid, Id>, gids: seq<TopicGid>)
    ensures Directory(entries', index') == DropAll(Directory(entries, index), ids)
    ensures forall g :: g in gids <==> g in GidsOf(Directory(entries, index), ids)
  {
    hide DropAll, Drop;
    entries', index', gids := entries, index, [];
    ghost var d := Directory(entries, index);
    ghost var gone: set<Id> := {};
    var remaining := ids;
    DropNothing(d);
    while remaining != {}
      invariant gone + remaining == ids && gone !! remaining
      invariant Directory(entries', index') == DropAll(d, gone)
      invariant forall g :: g in gids <==> g in GidsOf(d, gone)
      decreases |remaining|
    {
      var id :| id in remaining;
      DropOneMore(d, gone, id);
      DropEntries(d, gone, id);
      DropStep(DropAll(d, gone), id);
      remaining, gone := remaining - {id}, gone + {id};
      if id in entries' {
        var gid := entries'[id].gid;
        entries' := entries' - {id};
        if gid.Some? {
          index' := index' - {gid.value};
          gids := gids + [gid.value];
        }
      }
    }
    assert gone == ids;
  }

  /** The entries whose deadline has come. */
  ghost function ExpiredIds<Id(!new), D>(d: Directory<Id, D>, now: Time): set<Id> {
    set id | id in d.entries && Expired(d.entries[id].expiresAt, now)
  }

  /** All entries whose deadline has come leave. */
  method ExpireEach<Id(==,!new), D>(entries: map<Id, Entry<D>>, index: map<TopicGid, Id>, now: Time)
    returns (entries': map<Id, Entry<D>>, index': map<TopicGid, Id>, expired: set<Id>, gids: seq<TopicGid>)
    ensures var d := Directory(entries, index);
            Directory(entries', index') == DropAll(d, ExpiredIds(d, now))
    ensures expired == entries.Keys - entries'.Keys && |expired| == |entries| - |entries'|
    ensures forall g :: g in gids <==> exists id :: id in entries && id !in entries' && entries[id].gid == Some(g)
  {
    hide DropAll, GidsOf;
    ghost var d := Directory(entries, index);
    expired := set id | id in entries && Expired(entries[id].expiresAt, now);
    assert expired == ExpiredIds(d, now);
    entries', index', gids := RemoveEach(entries, index, expired);
    DropAllSize(d, expired);
    assert expired == entries.Keys - entries'.Keys;
  }

  lemma DropNothing<Id, D>(d: Directory<Id, D>)
    ensures DropAll(d, {}) == d
    ensures GidsOf(d, {}) == {}
  {
    assert DropAll(d, {}).entries == d.entries && DropAll(d, {}).index == d.index;
  }

  lemma DropStep<Id, D>(d: Directory<Id, D>, id: Id)
    ensures Drop(d, id).entries == if id in d.entries then d.entries - {id} else d.entries
    ensures Drop(d, id).index ==
            if id in d.entries && d.entries[id].gid.Some? then d.index - {d.entries[id].gid.value} else d.index
  {
  }

  lemma DropEntries<Id, D>(d: Directory<Id, D>, ids: set<Id>, id: Id)
    requires id !in ids
    ensures id in DropAll(d, ids).entries <==> id in d.entries
    ensures id in d.entries ==> DropAll(d, ids).entries[id] == d.entries[id]
    ensures GidsOf(d, ids + {id}) == GidsOf(d, ids) +
            if id in d.entries && d.entries[id].gid.Some? then {d.entries[id].gid.value} else {}
  {
  }
}

/** Participants and endpoints with deadlines. */
module Discovery {
  import opened Basics
  import opened DiscoveryIds
  import opened Directories

  datatype DurationValue = DurationValue(seconds: int, fraction: U32)

  datatype ParticipantSample = ParticipantSample(
    guid: Option<TopicGid>, participantId: Option<ParticipantId>, leaseDuration: Option<DurationValue>)

  datatype EndpointDetails = EndpointDetails(topicName: Option<string>, typeName: Option<string>,
                                             typeHash: Option<string>)

  datatype EndpointSample = EndpointSample(
    endpointGid: Option<TopicGid>, endpointId: Option<EndpointId>,
    participantGid: Option<TopicGid>, participantId: Option<ParticipantId>, details: EndpointDetails)

  datatype BuiltinKind = ParticipantKind | PublicationKind | SubscriptionKind | OtherKind

  datatype Sample =
    | ParticipantSeen(participant: ParticipantSample)
    | PublicationSeen(endpoint: EndpointSample)
    | SubscriptionSeen(endpoint: EndpointSample)
    | UnknownBuiltin
    | Disposed(kind: BuiltinKind, gid: TopicGid)

  datatype Change =
    | Inserted | Updated | Noop
    | RemovedParticipant(id: ParticipantId, rtpsGid: Option<TopicGid>)
    | RemovedEndpoint

  datatype EndpointData = EndpointData(participantGid: Option<TopicGid>, participantId: Option<ParticipantId>,
                                       details: EndpointDetails)

  type Lease = Option<DurationValue>
  type Participants = Directory<ParticipantId, Lease>
  type Endpoints = Directory<EndpointId, EndpointData>

  datatype Table = Table(participants: Participants, publications: Endpoints, subscriptions: Endpoints)

  /** How long endpoints last without news, and the last representable time. */
  datatype Clock = Clock(ttl: nat, latest: Time)

  // ---------- Deadlines ----------

  function LeaseNanos(v: DurationValue): Option<nat> {
    if v.seconds < 0 then None else Some(v.seconds * 1_000_000_000 + v.fraction)
  }

  function ParticipantDeadline(lease: Lease, now: Time, clock: Clock): Option<Time> {
    if lease.None? || LeaseNanos(lease.value).None? then None
    else AddTime(now, LeaseNanos(lease.value).value, clock.latest)
  }

  function Later(a: Option<Time>, b: Option<Time>): Option<Time> {
    match (a, b)
    case (Some(x), Some(y)) => Some(if x < y then y else x)
    case (Some(_), None) => a
    case (None, _) => b
  }

  function DeadlineOf(t: Participants, id: Option<ParticipantId>): Option<Time> {
    if id.Some? && id.value in t.entries then t.entries[id.value].expiresAt else None
  }

  function EndpointDeadline(t: Participants, id: Option<ParticipantId>, now: Time, clock: Clock): Option<Time> {
    Later(DeadlineOf(t, id), AddTime(now, clock.ttl, clock.latest))
  }

  // ---------- What the operations do to the table ----------

  function ParticipantIdOf(p: ParticipantSample): Option<ParticipantId> {
    if p.participantId.Some? then p.participantId
    else if p.guid.Some? then Some(RtpsParticipant(p.guid.value))
    else None
  }

  function EndpointIdOf(e: EndpointSample): Option<EndpointId> {
    if e.endpointId.Some? then e.endpointId
    else if e.endpointGid.Some? then Some(RtpsEndpoint(e.endpointGid.value))
    else None
  }

  function EndpointParticipantId(e: EndpointSample): Option<ParticipantId> {
    if e.participantId.Some? then e.participantId
    else if e.participantGid.Some? then Some(RtpsParticipant(e.participantGid.value))
    else None
  }

  function RefreshEntry(entry: Entry<EndpointData>, id: ParticipantId, expiresAt: Option<Time>): Entry<EndpointData> {
    if entry.data.participantId == Some(id) then entry.(expiresAt := expiresAt) else entry
  }

  function Refresh(d: Endpoints, id: ParticipantId, expiresAt: Option<Time>): Endpoints {
    d.(entries := map e | e in d.entries :: RefreshEntry(d.entries[e], id, expiresAt))
  }

  function UpsertParticipant(t: Table, p: ParticipantSample, now: Time, clock: Clock): (Table, Change) {
    var maybe := ParticipantIdOf(p);
    if maybe.None? then (t, Noop)
    else
      var id := maybe.value;
      var gid := if p.guid.Some? then p.guid else id.RtpsGid();
      var expiresAt := ParticipantDeadline(p.leaseDuration, now, clock);
      var refreshed := Later(expiresAt, AddTime(now, clock.ttl, clock.latest));
      (Table(Put(t.participants, id, gid, p.leaseDuration, now, expiresAt),
             Refresh(t.publications, id, refreshed), Refresh(t.subscriptions, id, refreshed)),
       if id in t.participants.entries then Updated else Inserted)
  }

  function UpsertEndpoint(d: Endpoints, e: EndpointSample, now: Time, expiresAt: Option<Time>): (Endpoints, Change) {
    var maybe := EndpointIdOf(e);
    if maybe.None? then (d, Noop)
    else
      var id := maybe.value;
      var gid := if e.endpointGid.Some? then e.endpointGid else id.RtpsGid();
      (Put(d, id, gid, EndpointData(e.participantGid, EndpointParticipantId(e), e.details), now, expiresAt),
       if id in d.entries then Updated else Inserted)
  }

  ghost function EndpointsOf(d: Endpoints, id: ParticipantId): set<EndpointId> {
    set e | e in d.entries && d.entries[e].data.participantId == Some(id)
  }

  ghost function WithoutEndpointsOf(t: Table, id: ParticipantId): Table {
    t.(publications := DropAll(t.publications, EndpointsOf(t.publications, id)),
       subscriptions := DropAll(t.subscriptions, EndpointsOf(t.subscriptions, id)))
  }

  ghost function ApplyDisposal(t: Table, kind: BuiltinKind, gid: TopicGid): (Table, Change) {
    match kind
    case ParticipantKind =>
      if gid !in t.participants.index then (t, Noop)
      else
        var id := t.participants.index[gid];
        var after := t.(participants := Dispose(t.participants, gid));
        if id in t.participants.entries
        then (WithoutEndpointsOf(after, id), RemovedParticipant(id, t.participants.entries[id].gid))
        else (after, Noop)
    case PublicationKind =>
      (t.(publications := Dispose(t.publications, gid)),
       if gid in t.publications.index && t.publications.index[gid] in t.publications.entries then RemovedEndpoint
        else Noop)
    case SubscriptionKind =>
      (t.(subscriptions := Dispose(t.subscriptions, gid)),
       if gid in t.subscriptions.index && t.subscriptions.index[gid] in t.subscriptions.entries then RemovedEndpoint
        else Noop)
    case OtherKind => (t, Noop)
  }

  ghost function AfterSample(t: Table, sample: Sample, now: Time, clock: Clock): (Table, Change) {
    match sample
    case ParticipantSeen(p) => UpsertParticipant(t, p, now, clock)
    case PublicationSeen(e) =>
      var deadline := EndpointDeadline(t.participants, EndpointParticipantId(e), now, clock);
      var (d, change) := UpsertEndpoint(t.publications, e, now, deadline);
      (t.(publications := d), change)
    case SubscriptionSeen(e) =>
      var deadline := EndpointDeadline(t.participants, EndpointParticipantId(e), now, clock);
      var (d, change) := UpsertEndpoint(t.subscriptions, e, now, deadline);
      (t.(subscriptions := d), change)
    case UnknownBuiltin => (t, Noop)
    case Disposed(kind, gid) => ApplyDisposal(t, kind, gid)
  }

  ghost function AfterSweep(t: Table, now: Time): Table {
    Table(DropAll(t.participants, ExpiredIds(t.participants, now)),
          DropAll(t.publications, ExpiredIds(t.publications, now)),
          DropAll(t.subscriptions, ExpiredIds(t.subscriptions, now)))
  }

  ghost function AfterRemoval(t: Table, id: ParticipantId): Table {
    if id !in t.participants.entries then t
    else WithoutEndpointsOf(t.(participants := Drop(t.participants, id)), id)
  }

  datatype Step =
    | Observe(sample: Sample, now: Time)
    | Sweep(now: Time)
    | ForgetParticipant(participant: ParticipantId)
    | ForgetPublication(endpoint: EndpointId)
    | ForgetSubscription(endpoint: EndpointId)

  ghost function Next(t: Table, step: Step, clock: Clock): Table {
    match step
    case Observe(sample, now) => AfterSample(t, sample, now, clock).0
    case Sweep(now) => AfterSweep(t, now)
    case ForgetParticipant(id) => AfterRemoval(t, id)
    case ForgetPublication(id) => t.(publications := Drop(t.publications, id))
    case ForgetSubscription(id) => t.(subscriptions := Drop(t.subscriptions, id))
  }

  ghost function Run(steps: seq<Step>, clock: Clock): Table {
    if steps == [] then EmptyTable() else Next(Run(steps[..|steps| - 1], clock), steps[|steps| - 1], clock)
  }

  function EmptyTable(): Table {
    Table(Directory(map[], map[]), Directory(map[], map[]), Directory(map[], map[]))
  }

  // ---------- What every reachable table keeps ----------

  /** No endpoint is to expire before the lease of its participant. */
  ghost predicate OutlivesLease(p: Participants, d: Endpoints) {
    forall e :: e in d.entries && DeadlineOf(p, d.entries[e].data.participantId).Some? ==>
      && d.entries[e].expiresAt.Some?
      && DeadlineOf(p, d.entries[e].data.participantId).value <= d.entries[e].expiresAt.value
  }

  ghost predicate Kept(t: Table) {
    && Sound(t.participants) && Sound(t.publications) && Sound(t.subscriptions)
    && OutlivesLease(t.participants, t.publications) && OutlivesLease(t.participants, t.subscriptions)
  }

  lemma RefreshKeeps(t: Table, p: ParticipantSample, now: Time, clock: Clock, d: Endpoints)
    requires OutlivesLease(t.participants, d) && ParticipantIdOf(p).Some? && Sound(d)
    ensures var expiresAt := ParticipantDeadline(p.leaseDuration, now, clock);
            var after := Refresh(d, ParticipantIdOf(p).value, Later(expiresAt, AddTime(now, clock.ttl, clock.latest)));
            OutlivesLease(UpsertParticipant(t, p, now, clock).0.participants, after) && Sound(after)
  {
    hide ParticipantDeadline, AddTime;
  }

  lemma UpsertKeeps(t: Participants, d: Endpoints, e: EndpointSample, now: Time, clock: Clock)
    requires OutlivesLease(t, d) && Sound(d)
    ensures var after := UpsertEndpoint(d, e, now, EndpointDeadline(t, EndpointParticipantId(e), now, clock)).0;
            OutlivesLease(t, after) && Sound(after)
  {
    hide AddTime;
    var maybe := EndpointIdOf(e);
    if maybe.Some? {
      var gid := if e.endpointGid.Some? then e.endpointGid else maybe.value.RtpsGid();
      PutSound(d, maybe.value, gid, EndpointData(e.participantGid, EndpointParticipantId(e), e.details), now,
               EndpointDeadline(t, EndpointParticipantId(e), now, clock));
    }
  }

  lemma FewerKeeps(t: Participants, t': Participants, d: Endpoints, ids: set<EndpointId>)
    requires OutlivesLease(t, d) && Sound(d)
    requires forall id :: id in t'.entries ==> id in t.entries && t'.entries[id] == t.entries[id]
    ensures OutlivesLease(t', DropAll(d, ids)) && Sound(DropAll(d, ids))
  {
    DropAllSound(d, ids);
    hide Sound;
  }

  lemma DisposeSound<Id, D>(d: Directory<Id, D>, gid: TopicGid)
    requires Sound(d)
    ensures Sound(Dispose(d, gid))
  {
  }

  lemma StepKeeps(t: Table, step: Step, clock: Clock)
    requires Kept(t)
    ensures Kept(Next(t, step, clock))
  {
    hide OutlivesLease, Sound, UpsertParticipant, UpsertEndpoint, DropAll;
    match step
    case Observe(ParticipantSeen(p), now) => ParticipantKeeps(t, p, now, clock);
    case Observe(PublicationSeen(e), now) => UpsertKeeps(t.participants, t.publications, e, now, clock);
    case Observe(SubscriptionSeen(e), now) => UpsertKeeps(t.participants, t.subscriptions, e, now, clock);
    case Observe(UnknownBuiltin, now) =>
    case Observe(Disposed(kind, gid), now) => DisposalKeeps(t, kind, gid);
    case Sweep(now) => SweepKeeps(t, now);
    case ForgetParticipant(id) => ForgetKeeps(t, id);
    case ForgetPublication(id) => EndpointDropKeeps(t.participants, t.publications, id);
    case ForgetSubscription(id) => EndpointDropKeeps(t.participants, t.subscriptions, id);
  }

  lemma ParticipantKeeps(t: Table, p: ParticipantSample, now: Time, clock: Clock)
    requires Kept(t)
    ensures Kept(UpsertParticipant(t, p, now, clock).0)
  {
    hide OutlivesLease, Sound, ParticipantDeadline, Put, Refresh;
    var maybe := ParticipantIdOf(p);
    if maybe.Some? {
      var gid := if p.guid.Some? then p.guid else maybe.value.RtpsGid();
      PutSound(t.participants, maybe.value, gid, p.leaseDuration, now,
               ParticipantDeadline(p.leaseDuration, now, clock));
      RefreshKeeps(t, p, now, clock, t.publications);
      RefreshKeeps(t, p, now, clock, t.subscriptions);
    }
  }

  lemma DisposalKeeps(t: Table, kind: BuiltinKind, gid: TopicGid)
    requires Kept(t)
    ensures Kept(ApplyDisposal(t, kind, gid).0)
  {
    DisposeSound(t.participants, gid);
    DisposeSound(t.publications, gid);
    DisposeSound(t.subscriptions, gid);
    match kind
    case ParticipantKind =>
      if gid in t.participants.index {
        hide OutlivesLease, DropAll;
        var id := t.participants.index[gid];
        var after := Dispose(t.participants, gid);
        FewerKeeps(t.participants, after, t.publications, EndpointsOf(t.publications, id));
        FewerKeeps(t.participants, after, t.subscriptions, EndpointsOf(t.subscriptions, id));
      }
    case PublicationKind =>
      if gid in t.publications.index {
        EndpointDropKeeps(t.participants, t.publications, t.publications.index[gid]);
      }
    case SubscriptionKind =>
      if gid in t.subscriptions.index {
        EndpointDropKeeps(t.participants, t.subscriptions, t.subscriptions.index[gid]);
      }
    case OtherKind =>
  }

  lemma SweepKeeps(t: Table, now: Time)
    requires Kept(t)
    ensures Kept(AfterSweep(t, now))
  {
    var gone := ExpiredIds(t.participants, now);
    var after := DropAll(t.participants, gone);
    DropAllSound(t.participants, gone);
    hide OutlivesLease, Sound;
    FewerKeeps(t.participants, after, t.publications, ExpiredIds(t.publications, now));
    FewerKeeps(t.participants, after, t.subscriptions, ExpiredIds(t.subscriptions, now));
  }

  lemma ForgetKeeps(t: Table, id: ParticipantId)
    requires Kept(t)
    ensures Kept(AfterRemoval(t, id))
  {
    var after := Drop(t.participants, id);
    DropSound(t.participants, id);
    hide OutlivesLease, Sound;
    FewerKeeps(t.participants, after, t.publications, EndpointsOf(t.publications, id));
    FewerKeeps(t.participants, after, t.subscriptions, EndpointsOf(t.subscriptions, id));
  }

  lemma EndpointDropKeeps(p: Participants, d: Endpoints, id: EndpointId)
    requires OutlivesLease(p, d) && Sound(d)
    ensures OutlivesLease(p, Drop(d, id)) && Sound(Drop(d, id))
  {
    DropSound(d, id);
    hide Sound;
  }

  /** Every table that samples, disposals, removals and sweeps lead to keeps its indexes and leases. */
  lemma {:induction false} RunKeeps(steps: seq<Step>, clock: Clock)
    ensures Kept(Run(steps, clock))
  {
    if steps != [] {
      RunKeeps(steps[..|steps| - 1], clock);
      StepKeeps(Run(steps[..|steps| - 1], clock), steps[|steps| - 1], clock);
    }
  }

  /**
   A sweep keeps exactly the entries without a deadline or with one after `now`,
   and no endpoint goes while the lease of its participant stands.
   */
  lemma SweepExact(t: Table, now: Time)
    requires Kept(t)
    ensures var after := AfterSweep(t, now);
            && Swept(t.participants, after.participants, now)
            && Swept(t.publications, after.publications, now)
            && Swept(t.subscriptions, after.subscriptions, now)
            && LeasedSurvive(after.participants, t.publications, after.publications)
            && LeasedSurvive(after.participants, t.subscriptions, after.subscriptions)
  {
  }

  ghost predicate Swept<Id(!new), D(!new)>(before: Directory<Id, D>, after: Directory<Id, D>, now: Time) {
    forall id, entry :: (id in after.entries && after.entries[id] == entry) <==>
      (id in before.entries && before.entries[id] == entry && (entry.expiresAt.Some? ==> now < entry.expiresAt.value))
  }

  ghost predicate LeasedSurvive(after: Participants, endpoints: Endpoints, endpoints': Endpoints) {
    forall e :: e in endpoints.entries && DeadlineOf(after, endpoints.entries[e].data.participantId).Some? ==>
      e in endpoints'.entries && endpoints'.entries[e] == endpoints.entries[e]
  }

  /** When a participant is disposed of or removed, no endpoint of it remains. */
  lemma RemovalTakesEndpoints(t: Table, id: ParticipantId)
    requires id in t.participants.entries
    ensures var after := AfterRemoval(t, id);
            && id !in after.participants.entries
            && EndpointsOf(after.publications, id) == {} && EndpointsOf(after.subscriptions, id) == {}
            && (forall e :: e in t.publications.entries && t.publications.entries[e].data.participantId != Some(id) ==>
                e in after.publications.entries && after.publications.entries[e] == t.publications.entries[e])
            && (forall e ::
                  e in t.subscriptions.entries && t.subscriptions.entries[e].data.participantId != Some(id) ==>
                e in after.subscriptions.entries && after.subscriptions.entries[e] == t.subscriptions.entries[e])
  {
  }

  /** Disposal by GID is the removal of the participant that carries it. */
  lemma DisposalIsRemoval(t: Table, gid: TopicGid)
    requires Kept(t)
    ensures ApplyDisposal(t, ParticipantKind, gid) ==
            if gid in t.participants.index
            then (AfterRemoval(t, t.participants.index[gid]), RemovedParticipant(t.participants.index[gid], Some(gid)))
            else (t, Noop)
  {
    if gid in t.participants.index {
      DisposeIsDrop(t.participants, gid);
    }
  }

  // ---------- The table as an object ----------

  datatype ExpireStats = ExpireStats(
    participantsRemoved: nat, publicationsRemoved: nat, subscriptionsRemoved: nat,
    removedParticipantIds: set<ParticipantId>, removedParticipantGids: seq<TopicGid>)

  class DiscoveryTable {
    var participants: map<ParticipantId, Entry<Lease>>
    var publications: map<EndpointId, Entry<EndpointData>>
    var subscriptions: map<EndpointId, Entry<EndpointData>>
    var participantGidIndex: map<TopicGid, ParticipantId>
    var publicationGidIndex: map<TopicGid, EndpointId>
    var subscriptionGidIndex: map<TopicGid, EndpointId>
    const clock: Clock

    constructor (clock: Clock)
      ensures Valid() && this.clock == clock && Now() == EmptyTable()
    {
      this.clock := clock;
      participants, publications, subscriptions := map[], map[], map[];
      participantGidIndex, publicationGidIndex, subscriptionGidIndex := map[], map[], map[];
    }

    function Now(): Table
      reads this
    {
      Table(Directory(participants, participantGidIndex),
            Directory(publications, publicationGidIndex),
            Directory(subscriptions, subscriptionGidIndex))
    }

    ghost predicate Valid()
      reads this
    {
      Kept(Now())
    }

    /** The entry found under a GID carries that GID. */
    method Publication(gid: TopicGid) returns (found: Option<Entry<EndpointData>>)
      requires Valid()
      ensures found == Find(Now().publications, gid)
      ensures found.Some? ==> found.value.gid == Some(gid)
    {
      if gid !in publicationGidIndex || publicationGidIndex[gid] !in publications {
        return None;
      }
      found := Some(publications[publicationGidIndex[gid]]);
    }

    method ApplySample(sample: Sample, now: Time) returns (change: Change)
      requires Valid()
      modifies this
      ensures Valid()
      ensures (Now(), change) == AfterSample(old(Now()), sample, now, clock)
    {
      hide Kept, UpsertEndpoint, UpsertParticipant, EndpointDeadline, ApplyDisposal;
      ghost var before := Now();
      StepKeeps(before, Observe(sample, now), clock);
      change := Noop;
      match sample {
        case ParticipantSeen(p) => change := UpsertParticipantSample(p, now);
        case PublicationSeen(e) =>
          var expiresAt := EndpointExpiresAt(EndpointParticipantId(e), now);
          publications, publicationGidIndex, change :=
            UpsertEndpointSample(publications, publicationGidIndex, e, now, expiresAt);
        case SubscriptionSeen(e) =>
          var expiresAt := EndpointExpiresAt(EndpointParticipantId(e), now);
          subscriptions, subscriptionGidIndex, change :=
            UpsertEndpointSample(subscriptions, subscriptionGidIndex, e, now, expiresAt);
        case UnknownBuiltin =>
        case Disposed(kind, gid) => change := Dispose(kind, gid);
      }
    }

    method UpsertParticipantSample(p: ParticipantSample, now: Time) returns (change: Change)
      modifies this
      ensures (Now(), change) == UpsertParticipant(old(Now()), p, now, clock)
    {
      hide Refresh, ParticipantDeadline, AddTime;
      var maybe := ParticipantIdOf(p);
      if maybe.None? {
        return Noop;
      }
      var id := maybe.value;
      var gid := if p.guid.Some? then p.guid else id.RtpsGid();
      var expiresAt := ParticipantDeadline(p.leaseDuration, now, clock);
      if id in participants {
        var entry := participants[id];
        if entry.gid.Some? {
          participantGidIndex := participantGidIndex - {entry.gid.value};
        }
        if gid.Some? {
          participantGidIndex := participantGidIndex[gid.value := id];
        }
        participants := participants[id := Entry(gid, p.leaseDuration, entry.firstSeen, now, expiresAt)];
        change := Updated;
      } else {
        participants := participants[id := Entry(gid, p.leaseDuration, now, now, expiresAt)];
        if gid.Some? {
          participantGidIndex := participantGidIndex[gid.value := id];
        }
        change := Inserted;
      }
      RefreshEndpointExpiration(id, expiresAt, now);
    }

    method RefreshEndpointExpiration(id: ParticipantId, deadline: Option<Time>, now: Time)
      modifies this`publications, this`subscriptions
      ensures var refreshed := Later(deadline, AddTime(now, clock.ttl, clock.latest));
              Now() == old(Now()).(publications := Refresh(old(Now()).publications, id, refreshed),
                                   subscriptions := Refresh(old(Now()).subscriptions, id, refreshed))
    {
      var refreshed := Later(deadline, AddTime(now, clock.ttl, clock.latest));
      publications := RefreshEach(publications, id, refreshed, Now().publications);
      subscriptions := RefreshEach(subscriptions, id, refreshed, Now().subscriptions);
    }

    static method RefreshEach(entries: map<EndpointId, Entry<EndpointData>>, id: ParticipantId,
                              expiresAt: Option<Time>, ghost d: Endpoints)
      returns (entries': map<EndpointId, Entry<EndpointData>>)
      requires d.entries == entries
      ensures entries' == Refresh(d, id, expiresAt).entries
    {
      hide RefreshEntry;
      entries' := entries;
      var remaining := entries.Keys;
      while remaining != {}
        invariant remaining <= entries.Keys == entries'.Keys
        invariant forall e :: e in entries ==>
          entries'[e] == if e in remaining then entries[e] else RefreshEntry(entries[e], id, expiresAt)
        decreases |remaining|
      {
        var e :| e in remaining;
        remaining := remaining - {e};
        entries' := entries'[e := RefreshEntry(entries'[e], id, expiresAt)];
      }
    }

    method EndpointExpiresAt(participantId: Option<ParticipantId>, now: Time) returns (expiresAt: Option<Time>)
      ensures expiresAt == EndpointDeadline(Now().participants, participantId, now, clock)
    {
      var deadline := AddTime(now, clock.ttl, clock.latest);
      var lease := None;
      if participantId.Some? && participantId.value in participants {
        lease := participants[participantId.value].expiresAt;
      }
      match (lease, deadline)
      case (Some(x), Some(y)) => expiresAt := if x < y then deadline else lease;
      case (Some(_), None) => expiresAt := lease;
      case (None, _) => expiresAt := deadline;
    }

    static method UpsertEndpointSample(entries: map<EndpointId, Entry<EndpointData>>, index: map<TopicGid, EndpointId>,
                                       e: EndpointSample, now: Time, expiresAt: Option<Time>)
      returns (entries': map<EndpointId, Entry<EndpointData>>, index': map<TopicGid, EndpointId>, change: Change)
      ensures (Directory(entries', index'), change) == UpsertEndpoint(Directory(entries, index), e, now, expiresAt)
      ensures e.endpointGid.Some? && change != Noop ==>
                var found := Find(Directory(entries', index'), e.endpointGid.value);
                found.Some? && found.value.data.details == e.details && found.value.expiresAt == expiresAt
    {
      entries', index' := entries, index;
      var participantId := EndpointParticipantId(e);
      var maybe := EndpointIdOf(e);
      if maybe.None? {
        return entries, index, Noop;
      }
      var id := maybe.value;
      var gid := if e.endpointGid.Some? then e.endpointGid else id.RtpsGid();
      var data := EndpointData(e.participantGid, participantId, e.details);
      if gid.Some? {
        PutFound(Directory(entries, index), id, gid.value, data, now, expiresAt);
      }
      if id in entries {
        var entry := entries[id];
        if entry.gid.Some? {
          index' := index' - {entry.gid.value};
        }
        if gid.Some? {
          index' := index'[gid.value := id];
        }
        entries' := entries[id := Entry(gid, data, entry.firstSeen, now, expiresAt)];
        change := Updated;
      } else {
        entries' := entries[id := Entry(gid, data, now, now, expiresAt)];
        if gid.Some? {
          index' := index'[gid.value := id];
        }
        change := Inserted;
      }
    }

    method Dispose(kind: BuiltinKind, gid: TopicGid) returns (change: Change)
      modifies this
      ensures (Now(), change) == ApplyDisposal(old(Now()), kind, gid)
    {
      hide DropAll;
      change := Noop;
      match kind {
        case ParticipantKind =>
          if gid in participantGidIndex {
            var id := participantGidIndex[gid];
            participantGidIndex := participantGidIndex - {gid};
            if id in participants {
              var entry := participants[id];
              participants := participants - {id};
              RemoveParticipantEndpoints(id);
              change := RemovedParticipant(id, entry.gid);
            } else {
              assert participants - {id} == participants;
            }
          }
        case PublicationKind =>
          if gid in publicationGidIndex {
            var id := publicationGidIndex[gid];
            publicationGidIndex := publicationGidIndex - {gid};
            if id in publications {
              change := RemovedEndpoint;
            }
            publications := publications - {id};
          }
        case SubscriptionKind =>
          if gid in subscriptionGidIndex {
            var id := subscriptionGidIndex[gid];
            subscriptionGidIndex := subscriptionGidIndex - {gid};
            if id in subscriptions {
              change := RemovedEndpoint;
            }
            subscriptions := subscriptions - {id};
          }
        case OtherKind =>
      }
    }

    method RemoveParticipantEndpoints(id: ParticipantId)
      modifies this`publications, this`publicationGidIndex, this`subscriptions, this`subscriptionGidIndex
      ensures Now() == WithoutEndpointsOf(old(Now()), id)
    {
      hide DropAll;
      var gids;
      var ofPublications := set e | e in publications && publications[e].data.participantId == Some(id);
      var ofSubscriptions := set e | e in subscriptions && subscriptions[e].data.participantId == Some(id);
      publications, publicationGidIndex, gids := RemoveEach(publications, publicationGidIndex, ofPublications);
      subscriptions, subscriptionGidIndex, gids := RemoveEach(subscriptions, subscriptionGidIndex, ofSubscriptions);
    }

    /** Everything whose deadline has come leaves, with an account of it. */
    method ExpireStale(now: Time) returns (stats: ExpireStats)
      requires Valid()
      modifies this
      ensures Valid() && Now() == AfterSweep(old(Now()), now)
      ensures stats.removedParticipantIds == old(participants.Keys) - participants.Keys
      ensures stats.participantsRemoved == |old(participants)| - |participants|
      ensures stats.publicationsRemoved == |old(publications)| - |publications|
      ensures stats.subscriptionsRemoved == |old(subscriptions)| - |subscriptions|
      ensures forall g :: g in stats.removedParticipantGids <==>
        exists id :: id in old(participants) && id !in participants && old(participants)[id].gid == Some(g)
    {
      hide Kept, DropAll, ExpiredIds;
      SweepKeeps(Now(), now);
      var ids, gids, endpoints, more;
      participants, participantGidIndex, ids, gids := ExpireEach(participants, participantGidIndex, now);
      stats := ExpireStats(|ids|, 0, 0, ids, gids);
      publications, publicationGidIndex, endpoints, more := ExpireEach(publications, publicationGidIndex, now);
      stats := stats.(publicationsRemoved := |endpoints|);
      subscriptions, subscriptionGidIndex, endpoints, more := ExpireEach(subscriptions, subscriptionGidIndex, now);
      stats := stats.(subscriptionsRemoved := |endpoints|);
    }

    method RemoveParticipantById(id: ParticipantId) returns (removed: Option<Entry<Lease>>)
      requires Valid()
      modifies this
      ensures Valid() && Now() == AfterRemoval(old(Now()), id)
      ensures removed == if id in old(participants) then Some(old(participants)[id]) else None
    {
      hide Kept, WithoutEndpointsOf;
      ForgetKeeps(Now(), id);
      if id !in participants {
        return None;
      }
      removed := Some(participants[id]);
      participants := participants - {id};
      if removed.value.gid.Some? {
        participantGidIndex := participantGidIndex - {removed.value.gid.value};
      }
      RemoveParticipantEndpoints(id);
    }

    method RemovePublicationById(id: EndpointId) returns (removed: Option<Entry<EndpointData>>)
      requires Valid()
      modifies this
      ensures Valid() && Now() == old(Now()).(publications := Drop(old(Now()).publications, id))
      ensures removed == if id in old(publications) then Some(old(publications)[id]) else None
    {
      hide OutlivesLease;
      EndpointDropKeeps(Now().participants, Now().publications, id);
      if id !in publications {
        return None;
      }
      removed := Some(publications[id]);
      publications := publications - {id};
      if removed.value.gid.Some? {
        publicationGidIndex := publicationGidIndex - {removed.value.gid.value};
      }
    }

    method RemoveSubscriptionById(id: EndpointId) returns (removed: Option<Entry<EndpointData>>)
      requires Valid()
      modifies this
      ensures Valid() && Now() == old(Now()).(subscriptions := Drop(old(Now()).subscriptions, id))
      ensures removed == if id in old(subscriptions) then Some(old(subscriptions)[id]) else None
    {
      hide OutlivesLease;
      EndpointDropKeeps(Now().participants, Now().subscriptions, id);
      if id !in subscriptions {
        return None;
      }
      removed := Some(subscriptions[id]);
      subscriptions := subscriptions - {id};
      if removed.value.gid.Some? {
        subscriptionGidIndex := subscriptionGidIndex - {removed.value.gid.value};
      }
    }
  }
}

/** Lookups by GID over whole runs. */
module DiscoveryLookup {
  import opened Basics
  import opened DiscoveryIds
  import opened Directories
  import opened Discovery

  /** Which id every GID belongs to, per kind. */
  datatype Owners = Owners(participant: TopicGid -> ParticipantId, publication: TopicGid -> EndpointId,
                           subscription: TopicGid -> EndpointId)

  ghost predicate AllFound(t: Table, o: Owners) {
    && Finds(t.participants, o.participant) && Finds(t.publications, o.publication)
    && Finds(t.subscriptions, o.subscription)
  }

  function ParticipantGidOf(p: ParticipantSample): Option<TopicGid> {
    if p.guid.Some? || ParticipantIdOf(p).None? then p.guid else ParticipantIdOf(p).value.RtpsGid()
  }

  function EndpointGidOf(e: EndpointSample): Option<TopicGid> {
    if e.endpointGid.Some? || EndpointIdOf(e).None? then e.endpointGid else EndpointIdOf(e).value.RtpsGid()
  }

  /** The sample uses a GID for the id that it belongs to. */
  ghost predicate RespectsOwners(step: Step, o: Owners) {
    match step
    case Observe(ParticipantSeen(p), _) =>
      ParticipantGidOf(p).Some? ==> Some(o.participant(ParticipantGidOf(p).value)) == ParticipantIdOf(p)
    case Observe(PublicationSeen(e), _) =>
      EndpointGidOf(e).Some? ==> Some(o.publication(EndpointGidOf(e).value)) == EndpointIdOf(e)
    case Observe(SubscriptionSeen(e), _) =>
      EndpointGidOf(e).Some? ==> Some(o.subscription(EndpointGidOf(e).value)) == EndpointIdOf(e)
    case _ => true
  }

  lemma UpsertFinds(d: Endpoints, e: EndpointSample, now: Time, expiresAt: Option<Time>, owner: TopicGid -> EndpointId)
    requires Finds(d, owner) && (EndpointGidOf(e).Some? ==> Some(owner(EndpointGidOf(e).value)) == EndpointIdOf(e))
    ensures Finds(UpsertEndpoint(d, e, now, expiresAt).0, owner)
  {
    hide Finds, Put;
    var maybe := EndpointIdOf(e);
    if maybe.Some? {
      PutFinds(d, maybe.value, EndpointGidOf(e), EndpointData(e.participantGid, EndpointParticipantId(e), e.details),
               now, expiresAt, owner);
    }
  }

  lemma RefreshFinds(d: Endpoints, id: ParticipantId, expiresAt: Option<Time>, owner: TopicGid -> EndpointId)
    requires Finds(d, owner)
    ensures Finds(Refresh(d, id, expiresAt), owner)
  {
    var after := Refresh(d, id, expiresAt);
    assert after.entries.Keys == d.entries.Keys && after.index == d.index;
    assert forall e :: e in d.entries ==> after.entries[e].gid == d.entries[e].gid;
    hide Refresh;
  }

  lemma StepFinds(t: Table, step: Step, clock: Clock, o: Owners)
    requires AllFound(t, o) && RespectsOwners(step, o)
    ensures AllFound(Next(t, step, clock), o)
  {
    hide Finds, Put, Refresh, ParticipantDeadline, UpsertEndpoint, EndpointDeadline, DropAll, Drop, Dispose;
    match step
    case Observe(ParticipantSeen(p), now) =>
      if ParticipantIdOf(p).Some? {
        var id, expiresAt := ParticipantIdOf(p).value, ParticipantDeadline(p.leaseDuration, now, clock);
        PutFinds(t.participants, id, ParticipantGidOf(p), p.leaseDuration, now, expiresAt, o.participant);
        RefreshFinds(t.publications, id, Later(expiresAt, AddTime(now, clock.ttl, clock.latest)), o.publication);
        RefreshFinds(t.subscriptions, id, Later(expiresAt, AddTime(now, clock.ttl, clock.latest)), o.subscription);
      }
    case Observe(PublicationSeen(e), now) =>
      UpsertFinds(t.publications, e, now, EndpointDeadline(t.participants, EndpointParticipantId(e), now, clock),
                  o.publication);
    case Observe(SubscriptionSeen(e), now) =>
      UpsertFinds(t.subscriptions, e, now, EndpointDeadline(t.participants, EndpointParticipantId(e), now, clock),
                  o.subscription);
    case Observe(UnknownBuiltin, now) =>
    case Observe(Disposed(kind, gid), now) =>
      DisposeFinds(t.participants, gid, o.participant);
      DisposeFinds(t.publications, gid, o.publication);
      DisposeFinds(t.subscriptions, gid, o.subscription);
      if gid in t.participants.index {
        DropAllFinds(t.publications, EndpointsOf(t.publications, t.participants.index[gid]), o.publication);
        DropAllFinds(t.subscriptions, EndpointsOf(t.subscriptions, t.participants.index[gid]), o.subscription);
      }
    case Sweep(now) =>
      DropAllFinds(t.participants, ExpiredIds(t.participants, now), o.participant);
      DropAllFinds(t.publications, ExpiredIds(t.publications, now), o.publication);
      DropAllFinds(t.subscriptions, ExpiredIds(t.subscriptions, now), o.subscription);
    case ForgetParticipant(id) =>
      DropFinds(t.participants, id, o.participant);
      DropAllFinds(t.publications, EndpointsOf(t.publications, id), o.publication);
      DropAllFinds(t.subscriptions, EndpointsOf(t.subscriptions, id), o.subscription);
    case ForgetPublication(id) => DropFinds(t.publications, id, o.publication);
    case ForgetSubscription(id) => DropFinds(t.subscriptions, id, o.subscription);
  }

  /**
   As long as every GID is used for one id only, a lookup by GID finds an entry
   exactly when one carries the GID, in every table that a run leads to.
   */
  lemma {:induction false} RunFinds(steps: seq<Step>, clock: Clock, o: Owners)
    requires forall i :: 0 <= i < |steps| ==> RespectsOwners(steps[i], o)
    ensures AllFound(Run(steps, clock), o)
  {
    hide RespectsOwners, Next;
    if steps != [] {
      RunFinds(steps[..|steps| - 1], clock, o);
      StepFinds(Run(steps[..|steps| - 1], clock), steps[|steps| - 1], clock, o);
    }
  }
}
