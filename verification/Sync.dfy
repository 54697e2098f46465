/**
 Syncing the offline queue with the server.

 The phone and the server move in small steps: one queue write, one request that
 arrives, one photo that is stored. A reply can be used by any later step of any
 pass, or never, so lost replies, failed posts, crashes between two queue writes
 and passes that overlap are all runs. A queue write may use any value that a
 record has had, because a pass works on the records it read at its start.
 */
module Sync {
  import opened Wrappers
  import opened OfflineQueue
  import Ingest

  /** The server's answer to a post of this payload. */
  datatype Reply = Reply(payload: Hash, eventId: EventId, quarantined: bool, duplicate: bool)

  datatype World = World(
    queue: seq<QueuedWeighIn>,
    rows: seq<Ingest.Row>,
    photos: set<EventId>,
    // What has happened: captures by record id, every value a record has had,
    // every reply sent, every cutoff pruned with.
    captured: map<RecordId, Capture>,
    seen: set<QueuedWeighIn>,
    replies: set<Reply>,
    cutoffs: set<int>)

  datatype Action =
    | Take(record: QueuedWeighIn)
    | Begin(record: QueuedWeighIn)
    | Arrive(sub: Ingest.Submission)
    | StorePhoto(eventId: EventId)
    | Reject(record: QueuedWeighIn, reply: Reply, now: int)
    | Settle(record: QueuedWeighIn, reply: Reply, now: int, photoSent: bool)
    | Fail(record: QueuedWeighIn)
    | PhotoDone(record: QueuedWeighIn, now: int)
    | PruneBefore(cutoff: int)

  predicate Pristine(r: QueuedWeighIn) {
    r.status.Queued? && r.photoUploadedAt.None? && r.serverEventId.None?
  }

  /** One post on the server; a lookup and an insert with no other call between
      them, which every interleaving comes to. */
  function Serve(rows: seq<Ingest.Row>, s: Ingest.Submission): (seq<Ingest.Row>, Ingest.Reply) {
    match Ingest.LookupStep(rows, s)
    case Reject(why) => (rows, Ingest.Refused(why))
    case Seen(existing) => Ingest.InsertStep(rows, s, existing)
  }

  function Answer(s: Ingest.Submission, r: Ingest.Reply): Reply
    requires r.Stored?
  {
    Reply(s.hash, r.eventId, r.quarantined, r.duplicate)
  }

  function Rewrite(w: World, q: seq<QueuedWeighIn>): World {
    w.(queue := q, seen := w.seen + set r | r in q)
  }

  const BEGIN := Patch(status := Some(Syncing))

  function RejectPatch(reply: Reply, now: int): Patch {
    Patch(status := Some(Rejected), serverEventId := Some(Some(reply.eventId)), syncedAt := Some(Some(now)))
  }

  function SettlePatch(reply: Reply, now: int, photoSent: bool): Patch {
    Patch(status := Some(Synced), serverEventId := Some(Some(reply.eventId)), syncedAt := Some(Some(now)),
          photoUploadedAt := Some(if photoSent then Some(now) else None))
  }

  function FailPatch(r: QueuedWeighIn): Patch {
    Patch(status := Some(Queued), attempts := Some(r.attempts + 1))
  }

  function PhotoPatch(now: int): Patch {
    Patch(photoUploadedAt := Some(Some(now)))
  }

  predicate Refusal(reply: Reply) {
    reply.quarantined && !reply.duplicate
  }

  /** The phone holds this reply to a post of this record. */
  predicate Answered(w: World, r: QueuedWeighIn, reply: Reply) {
    r in w.seen && reply in w.replies && reply.payload == r.payload
  }

  /** A step that is not possible changes nothing. */
  function Step(w: World, a: Action): World {
    match a
    case Take(r) =>
      if r.id in w.captured || !Pristine(r) then w
      else Rewrite(w.(captured := w.captured[r.id := CaptureOf(r)]), w.queue + [r])
    case Begin(r) => Rewrite(w, Update(w.queue, r.id, BEGIN))
    case Arrive(s) =>
      var (rows, reply) := Serve(w.rows, s);
      if reply.Stored? then w.(rows := rows, replies := w.replies + {Answer(s, reply)}) else w.(rows := rows)
    case StorePhoto(e) => if e < |w.rows| then w.(photos := w.photos + {e}) else w
    case Reject(r, reply, now) =>
      if Answered(w, r, reply) && Refusal(reply) then Rewrite(w, Update(w.queue, r.id, RejectPatch(reply, now))) else w
    case Settle(r, reply, now, photoSent) =>
      if Answered(w, r, reply) && !Refusal(reply) && (photoSent ==> r.photoUri.Some? && reply.eventId in w.photos)
      then Rewrite(w, Update(w.queue, r.id, SettlePatch(reply, now, photoSent)))
      else w
    case Fail(r) => Rewrite(w, Update(w.queue, r.id, FailPatch(r)))
    case PhotoDone(r, now) =>
      if r in w.seen && AwaitsPhoto(r) && r.serverEventId.value in w.photos
      then Rewrite(w, Update(w.queue, r.id, PhotoPatch(now)))
      else w
    case PruneBefore(cutoff) => Rewrite(w.(cutoffs := w.cutoffs + {cutoff}), Prune(w.queue, cutoff))
  }

  function Run(w: World, xs: seq<Action>): World
    decreases |xs|
  {
    if xs == [] then w else Run(Step(w, xs[0]), xs[1..])
  }

  const START := World([], [], {}, map[], {}, {}, {})

  // ----- what every step keeps -----

  predicate Names(rows: seq<Ingest.Row>, e: EventId, payload: Hash) {
    e < |rows| && rows[e].hash == payload
  }

  predicate PhotoHeld(rows: seq<Ingest.Row>, photos: set<EventId>, payload: Hash) {
    exists e :: e in photos && Names(rows, e, payload)
  }

  /** What a record says about the server is so. */
  predicate Sound(r: QueuedWeighIn, rows: seq<Ingest.Row>, photos: set<EventId>) {
    && (r.status.Synced? || r.status.Rejected? ==> r.serverEventId.Some?)
    && (r.serverEventId.Some? ==> Names(rows, r.serverEventId.value, r.payload))
    && (r.status.Rejected? ==> rows[r.serverEventId.value].quarantined)
    && (r.photoUploadedAt.Some? ==> PhotoHeld(rows, photos, r.payload))
  }

  /** The reply names the payload's event; a reply to the first post also tells
      whether that event is quarantined, while a duplicate is always called so. */
  predicate Truthful(reply: Reply, rows: seq<Ingest.Row>) {
    && Names(rows, reply.eventId, reply.payload)
    && (if reply.duplicate then reply.quarantined else rows[reply.eventId].quarantined == reply.quarantined)
  }

  predicate Known(r: QueuedWeighIn, captured: map<RecordId, Capture>) {
    r.id in captured && captured[r.id] == CaptureOf(r)
  }

  predicate InQueue(q: seq<QueuedWeighIn>, id: RecordId) {
    exists r :: r in q && r.id == id
  }

  /** The server has the event and, if there was one, its photo; and the record
      was past a retention cutoff. */
  predicate SafelyGone(c: Capture, rows: seq<Ingest.Row>, photos: set<EventId>, cutoffs: set<int>) {
    && (exists e: EventId :: e < |rows| && Names(rows, e, c.payload))
    && (c.photoUri.Some? ==> PhotoHeld(rows, photos, c.payload))
    && (exists cutoff :: cutoff in cutoffs && c.createdAt < cutoff)
  }

  predicate RecordsSound(w: World) {
    forall r | r in w.seen :: Sound(r, w.rows, w.photos) && Known(r, w.captured)
  }

  predicate QueueFits(w: World) {
    UniqueIds(w.queue) && forall r | r in w.queue :: r in w.seen
  }

  predicate NothingLost(w: World) {
    forall id | id in w.captured :: InQueue(w.queue, id) || SafelyGone(w.captured[id], w.rows, w.photos, w.cutoffs)
  }

  predicate RepliesTruthful(w: World) {
    forall reply | reply in w.replies :: Truthful(reply, w.rows)
  }

  predicate Inv(w: World) {
    Ingest.UniqueHashes(w.rows) && RecordsSound(w) && QueueFits(w) && NothingLost(w) && RepliesTruthful(w)
  }

  // ----- a queue write -----

  lemma UpdateKeepsRecords(w: World, id: RecordId, p: Patch)
    requires RecordsSound(w) && QueueFits(w)
    requires forall c | c in w.queue && c.id == id :: Sound(Patched(c, p), w.rows, w.photos)
    ensures RecordsSound(Rewrite(w, Update(w.queue, id, p)))
  {
    var q := Update(w.queue, id, p);
    forall r | r in q ensures Sound(r, w.rows, w.photos) && Known(r, w.captured) {
      var i :| 0 <= i < |q| && q[i] == r;
      assert w.queue[i] in w.queue && w.queue[i] in w.seen;
      assert CaptureOf(r) == CaptureOf(w.queue[i]);
    }
  }

  lemma UpdateKeepsQueue(w: World, id: RecordId, p: Patch)
    requires QueueFits(w) && NothingLost(w)
    ensures QueueFits(Rewrite(w, Update(w.queue, id, p))) && NothingLost(Rewrite(w, Update(w.queue, id, p)))
  {
    var q := Update(w.queue, id, p);
    forall k | InQueue(w.queue, k) ensures InQueue(q, k) {
      var r :| r in w.queue && r.id == k;
      var i :| 0 <= i < |w.queue| && w.queue[i] == r;
      assert q[i] in q && q[i].id == k;
    }
  }

  lemma UpdateKeepsInv(w: World, id: RecordId, p: Patch)
    requires Inv(w)
    requires forall c | c in w.queue && c.id == id :: Sound(Patched(c, p), w.rows, w.photos)
    ensures Inv(Rewrite(w, Update(w.queue, id, p)))
  {
    UpdateKeepsRecords(w, id, p);
    UpdateKeepsQueue(w, id, p);
  }

  /** Two values of one record carry the same payload. */
  lemma SamePayload(w: World, r: QueuedWeighIn, c: QueuedWeighIn)
    requires RecordsSound(w) && r in w.seen && c in w.seen && r.id == c.id
    ensures CaptureOf(r) == CaptureOf(c)
  {
  }

  lemma BeginKeepsInv(w: World, r: QueuedWeighIn)
    requires Inv(w)
    ensures Inv(Step(w, Begin(r)))
  {
    forall c | c in w.queue && c.id == r.id ensures Sound(Patched(c, BEGIN), w.rows, w.photos) {
      assert Sound(c, w.rows, w.photos);
    }
    UpdateKeepsInv(w, r.id, BEGIN);
  }

  lemma FailKeepsInv(w: World, r: QueuedWeighIn)
    requires Inv(w)
    ensures Inv(Step(w, Fail(r)))
  {
    forall c | c in w.queue && c.id == r.id ensures Sound(Patched(c, FailPatch(r)), w.rows, w.photos) {
      assert Sound(c, w.rows, w.photos);
    }
    UpdateKeepsInv(w, r.id, FailPatch(r));
  }

  lemma RejectKeepsInv(w: World, r: QueuedWeighIn, reply: Reply, now: int)
    requires Inv(w)
    ensures Inv(Step(w, Reject(r, reply, now)))
  {
    if Answered(w, r, reply) && Refusal(reply) {
      forall c | c in w.queue && c.id == r.id ensures Sound(Patched(c, RejectPatch(reply, now)), w.rows, w.photos) {
        SamePayload(w, r, c);
        assert Sound(c, w.rows, w.photos) && Truthful(reply, w.rows);
      }
      UpdateKeepsInv(w, r.id, RejectPatch(reply, now));
    }
  }

  lemma SettleKeepsInv(w: World, r: QueuedWeighIn, reply: Reply, now: int, photoSent: bool)
    requires Inv(w)
    ensures Inv(Step(w, Settle(r, reply, now, photoSent)))
  {
    var p := SettlePatch(reply, now, photoSent);
    if Answered(w, r, reply) && !Refusal(reply) && (photoSent ==> r.photoUri.Some? && reply.eventId in w.photos) {
      forall c | c in w.queue && c.id == r.id ensures Sound(Patched(c, p), w.rows, w.photos) {
        SamePayload(w, r, c);
        assert Sound(c, w.rows, w.photos) && Truthful(reply, w.rows);
      }
      UpdateKeepsInv(w, r.id, p);
    }
  }

  lemma PhotoDoneKeepsInv(w: World, r: QueuedWeighIn, now: int)
    requires Inv(w)
    ensures Inv(Step(w, PhotoDone(r, now)))
  {
    if r in w.seen && AwaitsPhoto(r) && r.serverEventId.value in w.photos {
      assert Sound(r, w.rows, w.photos);
      assert PhotoHeld(w.rows, w.photos, r.payload);
      forall c | c in w.queue && c.id == r.id ensures Sound(Patched(c, PhotoPatch(now)), w.rows, w.photos) {
        SamePayload(w, r, c);
        assert Sound(c, w.rows, w.photos);
      }
      UpdateKeepsInv(w, r.id, PhotoPatch(now));
    }
  }

  lemma TakeKeepsInv(w: World, r: QueuedWeighIn)
    requires Inv(w)
    ensures Inv(Step(w, Take(r)))
  {
    if r.id !in w.captured && Pristine(r) {
      var u := Step(w, Take(r));
      forall i | 0 <= i < |w.queue| ensures w.queue[i].id != r.id {
        assert w.queue[i] in w.queue && Known(w.queue[i], w.captured);
      }
      forall id | InQueue(w.queue, id) ensures InQueue(u.queue, id) {
        var c :| c in w.queue && c.id == id;
        assert c in u.queue;
      }
      assert r in u.queue && InQueue(u.queue, r.id);
    }
  }

  // ----- the server only grows -----

  lemma SoundStays(r: QueuedWeighIn, rows: seq<Ingest.Row>, more: seq<Ingest.Row>, photos: set<EventId>, photos': set<EventId>)
    requires Sound(r, rows, photos) && rows <= more && photos <= photos'
    ensures Sound(r, more, photos')
  {
    if r.photoUploadedAt.Some? { HeldStays(r.payload, rows, more, photos, photos'); }
  }

  lemma HeldStays(payload: Hash, rows: seq<Ingest.Row>, more: seq<Ingest.Row>, photos: set<EventId>, photos': set<EventId>)
    requires PhotoHeld(rows, photos, payload) && rows <= more && photos <= photos'
    ensures PhotoHeld(more, photos', payload)
  {
    var e :| e in photos && Names(rows, e, payload);
    assert e in photos' && Names(more, e, payload);
  }

  lemma GoneStays(c: Capture, rows: seq<Ingest.Row>, more: seq<Ingest.Row>, photos: set<EventId>, photos': set<EventId>, cutoffs: set<int>)
    requires SafelyGone(c, rows, photos, cutoffs) && rows <= more && photos <= photos'
    ensures SafelyGone(c, more, photos', cutoffs)
  {
    if c.photoUri.Some? { HeldStays(c.payload, rows, more, photos, photos'); }
    var e: EventId :| e < |rows| && Names(rows, e, c.payload);
    assert e < |more| && Names(more, e, c.payload);
  }

  lemma ServerGrows(w: World, u: World)
    requires RecordsSound(w) && QueueFits(w) && NothingLost(w)
    requires w.rows <= u.rows && w.photos <= u.photos
    requires u == w.(rows := u.rows, photos := u.photos, replies := u.replies)
    ensures RecordsSound(u) && QueueFits(u) && NothingLost(u)
  {
    forall r | r in u.seen ensures Sound(r, u.rows, u.photos) && Known(r, u.captured) {
      SoundStays(r, w.rows, u.rows, w.photos, u.photos);
    }
    forall id | id in u.captured ensures InQueue(u.queue, id) || SafelyGone(u.captured[id], u.rows, u.photos, u.cutoffs) {
      if !InQueue(w.queue, id) { GoneStays(w.captured[id], w.rows, u.rows, w.photos, u.photos, w.cutoffs); }
    }
  }

  lemma ServeIsHonest(rows: seq<Ingest.Row>, s: Ingest.Submission)
    requires Ingest.UniqueHashes(rows)
    ensures rows <= Serve(rows, s).0 && Ingest.UniqueHashes(Serve(rows, s).0)
    ensures Serve(rows, s).1.Stored? ==> Truthful(Answer(s, Serve(rows, s).1), Serve(rows, s).0)
  {
  }

  lemma ArriveKeepsInv(w: World, s: Ingest.Submission)
    requires Inv(w)
    ensures Inv(Step(w, Arrive(s)))
  {
    var u := Step(w, Arrive(s));
    ServeIsHonest(w.rows, s);
    ServerGrows(w, u);
    forall reply | reply in u.replies ensures Truthful(reply, u.rows) {
      if reply in w.replies { assert Truthful(reply, w.rows); }
    }
  }

  lemma StorePhotoKeepsInv(w: World, e: EventId)
    requires Inv(w)
    ensures Inv(Step(w, StorePhoto(e)))
  {
    ServerGrows(w, Step(w, StorePhoto(e)));
  }

  // ----- pruning -----

  lemma PrunedIsGone(r: QueuedWeighIn, rows: seq<Ingest.Row>, photos: set<EventId>, cutoffs: set<int>, cutoff: int)
    requires Sound(r, rows, photos) && !Kept(r, cutoff) && cutoff in cutoffs
    ensures SafelyGone(CaptureOf(r), rows, photos, cutoffs)
  {
    assert Names(rows, r.serverEventId.value, r.payload);
  }

  lemma StillAccounted(w: World, id: RecordId, cutoff: int)
    requires RecordsSound(w) && QueueFits(w) && NothingLost(w) && id in w.captured
    ensures InQueue(Prune(w.queue, cutoff), id)
         || SafelyGone(w.captured[id], w.rows, w.photos, w.cutoffs + {cutoff})
  {
    if InQueue(w.queue, id) {
      var r :| r in w.queue && r.id == id;
      assert Known(r, w.captured);
      if Kept(r, cutoff) {
        assert r in Prune(w.queue, cutoff);
      } else {
        PrunedIsGone(r, w.rows, w.photos, w.cutoffs + {cutoff}, cutoff);
      }
    } else {
      var c := w.captured[id];
      var past :| past in w.cutoffs && c.createdAt < past;
      assert past in w.cutoffs + {cutoff};
    }
  }

  lemma PruneKeepsInv(w: World, cutoff: int)
    requires Inv(w)
    ensures Inv(Step(w, PruneBefore(cutoff)))
  {
    var u := Step(w, PruneBefore(cutoff));
    FilterKeepsUnique(w.queue, x => Kept(x, cutoff));
    forall id | id in u.captured ensures InQueue(u.queue, id) || SafelyGone(u.captured[id], u.rows, u.photos, u.cutoffs) {
      StillAccounted(w, id, cutoff);
    }
  }

  lemma StepKeepsInv(w: World, a: Action)
    requires Inv(w)
    ensures Inv(Step(w, a))
  {
    match a
    case Take(r) => TakeKeepsInv(w, r);
    case Begin(r) => BeginKeepsInv(w, r);
    case Arrive(s) => ArriveKeepsInv(w, s);
    case StorePhoto(e) => StorePhotoKeepsInv(w, e);
    case Reject(r, reply, now) => RejectKeepsInv(w, r, reply, now);
    case Settle(r, reply, now, photoSent) => SettleKeepsInv(w, r, reply, now, photoSent);
    case Fail(r) => FailKeepsInv(w, r);
    case PhotoDone(r, now) => PhotoDoneKeepsInv(w, r, now);
    case PruneBefore(cutoff) => PruneKeepsInv(w, cutoff);
  }

  /** The server forgets nothing. */
  predicate Grows(w: World, u: World) {
    w.rows <= u.rows && w.photos <= u.photos
  }

  lemma StepGrows(w: World, a: Action)
    requires Inv(w)
    ensures Grows(w, Step(w, a))
  {
    if a.Arrive? { ServeIsHonest(w.rows, a.sub); }
  }

  lemma {:induction false} EveryRun(w: World, xs: seq<Action>)
    requires Inv(w)
    ensures Inv(Run(w, xs)) && Grows(w, Run(w, xs))
    decreases |xs|
  {
    if xs != [] {
      StepKeepsInv(w, xs[0]);
      StepGrows(w, xs[0]);
      EveryRun(Step(w, xs[0]), xs[1..]);
    }
  }

  // ----- the promises -----

  predicate OnlyEvent(rows: seq<Ingest.Row>, e: EventId, payload: Hash) {
    Names(rows, e, payload) && forall i | 0 <= i < |rows| && rows[i].hash == payload :: i == e
  }

  /** Exactly-once delivery: in every run a synced or rejected record has exactly
      one event on the server and names it, a rejected record's event is
      quarantined, and a photo said to be sent is there. */
  lemma ExactlyOnceDelivery(xs: seq<Action>, r: QueuedWeighIn)
    requires r in Run(START, xs).queue
    ensures var w := Run(START, xs);
            && Ingest.UniqueHashes(w.rows)
            && (!IsPending(r) ==> r.serverEventId.Some? && OnlyEvent(w.rows, r.serverEventId.value, r.payload))
            && (r.status.Rejected? ==> w.rows[r.serverEventId.value].quarantined)
            && (r.photoUploadedAt.Some? ==> PhotoHeld(w.rows, w.photos, r.payload))
  {
    EveryRun(START, xs);
    var w := Run(START, xs);
    assert Sound(r, w.rows, w.photos);
    if !IsPending(r) { EventIsOnly(w.rows, r.serverEventId.value, r.payload); }
  }

  lemma EventIsOnly(rows: seq<Ingest.Row>, e: EventId, payload: Hash)
    requires Ingest.UniqueHashes(rows) && Names(rows, e, payload)
    ensures OnlyEvent(rows, e, payload)
  {
    forall i | 0 <= i < |rows| && rows[i].hash == payload ensures i == e {
      Ingest.OneRowPerHash(rows, i, e);
    }
  }

  lemma {:induction false} RunAppend(w: World, xs: seq<Action>, ys: seq<Action>)
    ensures Run(w, xs + ys) == Run(Run(w, xs), ys)
    decreases |xs|
  {
    if xs == [] {
      assert xs + ys == ys;
    } else {
      assert (xs + ys)[1..] == xs[1..] + ys;
      RunAppend(Step(w, xs[0]), xs[1..], ys);
    }
  }

  /** A record settled on a reply that is no duplicate is clean on the server, then
      and after any later steps. */
  lemma FirstReplySettlesClean(xs: seq<Action>, r: QueuedWeighIn, reply: Reply, ys: seq<Action>)
    requires Answered(Run(START, xs), r, reply) && !Refusal(reply) && !reply.duplicate
    ensures var w := Run(Run(START, xs), ys);
            OnlyEvent(w.rows, reply.eventId, r.payload) && !w.rows[reply.eventId].quarantined
  {
    EveryRun(START, xs);
    EveryRun(Run(START, xs), ys);
    var v, w := Run(START, xs), Run(Run(START, xs), ys);
    assert Truthful(reply, v.rows) && w.rows[reply.eventId] == v.rows[reply.eventId];
    EventIsOnly(w.rows, reply.eventId, r.payload);
  }

  /** In every run, a record answered like this and not refused is clean. */
  ghost predicate AlwaysClean(r: QueuedWeighIn, duplicate: bool) {
    forall xs, reply | Answered(Run(START, xs), r, reply) && !Refusal(reply) && reply.duplicate == duplicate ::
      Clean(Run(START, xs).rows, reply.eventId)
  }

  predicate Clean(rows: seq<Ingest.Row>, e: EventId) {
    e < |rows| && !rows[e].quarantined
  }

  lemma RunOfThree(w: World, a: Action, b: Action, c: Action)
    ensures Run(w, [a, b, c]) == Step(Step(Step(w, a), b), c)
  {
    assert [a, b, c][1..] == [b, c] && [b, c][1..] == [c] && [c][1..] == [];
    var u := Step(w, a);
    assert Run(u, [b, c]) == Run(Step(u, b), [c]) == Run(Step(Step(u, b), c), []);
    assert Run(w, [a, b, c]) == Run(u, [b, c]);
  }

  /** The first post of a new record arrives and its reply is lost; the second
      arrives too. */
  function PostedTwice(r: QueuedWeighIn, s: Ingest.Submission): seq<Action> {
    [Take(r), Arrive(s), Arrive(s)]
  }

  lemma ServedTwice(s: Ingest.Submission)
    requires s.schemaSupported && s.materialKnown && s.referencesKnown
    ensures var row := Ingest.Row(s.hash, !s.passesIntegrity);
            && Serve([], s) == ([row], Ingest.Stored(0, !s.passesIntegrity, false))
            && Serve([row], s) == ([row], Ingest.Stored(0, true, true))
  {
    var row := Ingest.Row(s.hash, !s.passesIntegrity);
    assert Ingest.Find([], s.hash).None? && [] + [row] == [row];
    assert Ingest.Find([row], s.hash) == Some(0);
  }

  /** Then the answer is a duplicate, and the event is quarantined or clean as its
      integrity checks said. */
  lemma PostedTwiceAnswer(r: QueuedWeighIn, s: Ingest.Submission)
    requires Pristine(r) && s.hash == r.payload && s.schemaSupported && s.materialKnown && s.referencesKnown
    ensures var w := Run(START, PostedTwice(r, s));
            && w.queue == [r] && w.rows == [Ingest.Row(r.payload, !s.passesIntegrity)]
            && Answered(w, r, Reply(r.payload, 0, true, true))
  {
    RunOfThree(START, Take(r), Arrive(s), Arrive(s));
    ServedTwice(s);
    var w1 := Step(START, Take(r));
    assert w1.queue == [r] && r in w1.seen && w1.rows == [];
    var row := Ingest.Row(r.payload, !s.passesIntegrity);
    var w2 := Step(w1, Arrive(s));
    assert w2.rows == [row] && w2.queue == [r] && r in w2.seen;
  }

  /** Whether a record that is not refused is clean is certain exactly when the
      reply is no duplicate, which the phone can see. */
  lemma CleanExactlyWhenNotDuplicate(r: QueuedWeighIn, duplicate: bool)
    requires Pristine(r)
    ensures AlwaysClean(r, duplicate) <==> !duplicate
  {
    if duplicate {
      var s := Ingest.Submission(r.payload, true, true, true, false);
      PostedTwiceAnswer(r, s);
      var again := Reply(r.payload, 0, true, true);
      assert Answered(Run(START, PostedTwice(r, s)), r, again) && !Clean(Run(START, PostedTwice(r, s)).rows, 0);
    } else {
      forall xs, reply | Answered(Run(START, xs), r, reply) && !Refusal(reply) && reply.duplicate == duplicate
        ensures Clean(Run(START, xs).rows, reply.eventId)
      {
        FirstReplySettlesClean(xs, r, reply, []);
      }
    }
  }

  /** A duplicate goes both ways: after it the record is synced, and its event is
      quarantined exactly when the first post failed the integrity checks. */
  lemma DuplicateSettlement(r: QueuedWeighIn, s: Ingest.Submission, now: int)
    requires Pristine(r) && s.hash == r.payload && s.schemaSupported && s.materialKnown && s.referencesKnown
    ensures var w := Step(Run(START, PostedTwice(r, s)), Settle(r, Reply(r.payload, 0, true, true), now, false));
            && |w.queue| == 1 && w.queue[0].status.Synced? && w.queue[0].serverEventId == Some(0)
            && |w.rows| == 1 && (w.rows[0].quarantined <==> !s.passesIntegrity)
  {
    PostedTwiceAnswer(r, s);
    var p := SettlePatch(Reply(r.payload, 0, true, true), now, false);
    assert Update([r], r.id, p) == [Patched(r, p)];
  }

  /** The record is in the queue, once, as it was captured. */
  predicate HeldOnce(q: seq<QueuedWeighIn>, id: RecordId, c: Capture) {
    exists i :: 0 <= i < |q| && q[i].id == id && CaptureOf(q[i]) == c && forall j | 0 <= j < |q| && j != i :: q[j].id != id
  }

  lemma {:induction false} CapturedStays(w: World, xs: seq<Action>, id: RecordId)
    requires id in w.captured
    ensures id in Run(w, xs).captured && Run(w, xs).captured[id] == w.captured[id]
    decreases |xs|
  {
    if xs != [] { CapturedStays(Step(w, xs[0]), xs[1..], id); }
  }

  /** No weigh-in is lost: from the moment a record is enqueued, in every run, it
      is in the queue exactly once with its payload, signature, photo and time
      unchanged, or it was pruned, and then the server has its event and its
      photo and it was past the cutoff. */
  lemma NoWeighInLost(xs: seq<Action>, r: QueuedWeighIn, ys: seq<Action>)
    requires Pristine(r) && r.id !in Run(START, xs).captured
    ensures var w := Run(Step(Run(START, xs), Take(r)), ys);
            HeldOnce(w.queue, r.id, CaptureOf(r)) || SafelyGone(CaptureOf(r), w.rows, w.photos, w.cutoffs)
  {
    EveryRun(START, xs);
    var v := Step(Run(START, xs), Take(r));
    StepKeepsInv(Run(START, xs), Take(r));
    EveryRun(v, ys);
    CapturedStays(v, ys, r.id);
    var w := Run(v, ys);
    if InQueue(w.queue, r.id) {
      var c :| c in w.queue && c.id == r.id;
      var i :| 0 <= i < |w.queue| && w.queue[i] == c;
      assert Known(c, w.captured);
    }
  }
}
