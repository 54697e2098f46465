/**
 One pass of `syncPending`: every unfinished record is posted, oldest first, then
 the photos that are still owed are sent. What the network answers is arbitrary.

 A pass is a run of the steps of `Sync`, so whatever holds of every run holds
 during and after every pass, and when a pass is cut off in between.
 */
module SyncPass {
  import opened Wrappers
  import opened OfflineQueue
  import opened Sync
  import Ingest

  /** What became of a post: it may not arrive, and its reply may be lost. */
  datatype Post = NeverArrived | Arrived(sub: Ingest.Submission, replied: bool)

  datatype PhotoSend = PhotoFailed | PhotoStored(replied: bool)

  /** The answers to the k-th post and photo of either loop, and the clock. */
  datatype Network = Network(
    posts: nat -> Post,
    photos: nat -> PhotoSend,
    latePhotos: nat -> PhotoSend,
    clock: nat -> int,
    lateClock: nat -> int)

  datatype SyncOutcome = SyncOutcome(attempted: nat, synced: nat, rejected: nat, failed: nat, photosUploaded: nat)

  const NOTHING := SyncOutcome(0, 0, 0, 0, 0)

  datatype Progress = Progress(world: World, outcome: SyncOutcome)

  /** How the post of a record ends for the phone: no usable reply, or one. */
  function PostStep(w: World, r: QueuedWeighIn, post: Post): (World, Option<Reply>) {
    match post
    case NeverArrived => (w, None)
    case Arrived(sub, replied) =>
      var s := sub.(hash := r.payload);
      var reply := Serve(w.rows, s).1;
      (Step(w, Arrive(s)), if replied && reply.Stored? then Some(Answer(s, reply)) else None)
  }

  function PhotoStep(w: World, photoUri: Option<Uri>, e: EventId, send: PhotoSend): (World, bool) {
    if photoUri.None? || send.PhotoFailed? || e >= |w.rows| then (w, false)
    else (Step(w, StorePhoto(e)), send.replied)
  }

  /** What becomes of a record once its post has ended. */
  function Conclude(w: World, o: SyncOutcome, r: QueuedWeighIn, reply: Option<Reply>, send: PhotoSend, now: int): Progress {
    if reply.None? then
      Progress(Step(w, Fail(r)), o.(failed := o.failed + 1))
    else if Refusal(reply.value) then
      Progress(Step(w, Reject(r, reply.value, now)), o.(rejected := o.rejected + 1))
    else
      var (v, sent) := PhotoStep(w, r.photoUri, reply.value.eventId, send);
      Progress(Step(v, Settle(r, reply.value, now, sent)),
               o.(synced := o.synced + 1, photosUploaded := o.photosUploaded + One(sent)))
  }

  function TryOne(p: Progress, r: QueuedWeighIn, post: Post, send: PhotoSend, now: int): Progress {
    var (w, reply) := PostStep(Step(p.world, Begin(r)), r, post);
    Conclude(w, p.outcome.(attempted := p.outcome.attempted + 1), r, reply, send, now)
  }

  function Drain(p: Progress, rs: seq<QueuedWeighIn>, net: Network, k: nat): Progress
    decreases |rs|
  {
    if rs == [] then p
    else Drain(TryOne(p, rs[0], net.posts(k), net.photos(k), net.clock(k)), rs[1..], net, k + 1)
  }

  function SendOne(p: Progress, r: QueuedWeighIn, send: PhotoSend, now: int): Progress {
    if r.serverEventId.None? then p
    else
      var (w, sent) := PhotoStep(p.world, r.photoUri, r.serverEventId.value, send);
      if sent then Progress(Step(w, PhotoDone(r, now)), p.outcome.(photosUploaded := p.outcome.photosUploaded + 1))
      else Progress(w, p.outcome)
  }

  function SendLate(p: Progress, rs: seq<QueuedWeighIn>, net: Network, k: nat): Progress
    decreases |rs|
  {
    if rs == [] then p
    else SendLate(SendOne(p, rs[0], net.latePhotos(k), net.lateClock(k)), rs[1..], net, k + 1)
  }

  function Pass(w: World, online: bool, net: Network): Progress {
    if !online then Progress(w, NOTHING)
    else
      var p := Drain(Progress(w, NOTHING), Pending(w.queue), net, 0);
      SendLate(p, PendingPhotos(p.world.queue), net, 0)
  }

  // ----- a pass is a run -----

  ghost predicate Reaches(w: World, u: World) {
    exists xs: seq<Action> :: Run(w, xs) == u
  }

  lemma Stays(w: World)
    ensures Reaches(w, w)
  {
    assert Run(w, []) == w;
  }

  lemma OneStep(w: World, a: Action)
    ensures Reaches(w, Step(w, a))
  {
    assert [a][1..] == [];
    assert Run(Step(w, a), []) == Step(w, a);
    assert Run(w, [a]) == Step(w, a);
  }

  lemma Onward(w: World, v: World, u: World)
    requires Reaches(w, v) && Reaches(v, u)
    ensures Reaches(w, u)
  {
    var xs :| Run(w, xs) == v;
    var ys :| Run(v, ys) == u;
    RunAppend(w, xs, ys);
  }

  lemma ReachedKeepsInv(w: World, u: World)
    requires Inv(w) && Reaches(w, u)
    ensures Inv(u)
  {
    var xs :| Run(w, xs) == u;
    EveryRun(w, xs);
  }

  lemma PostIsRun(w: World, r: QueuedWeighIn, post: Post)
    ensures Reaches(w, PostStep(w, r, post).0)
  {
    match post
    case NeverArrived => Stays(w);
    case Arrived(sub, replied) => OneStep(w, Arrive(sub.(hash := r.payload)));
  }

  lemma PhotoIsRun(w: World, photoUri: Option<Uri>, e: EventId, send: PhotoSend)
    ensures Reaches(w, PhotoStep(w, photoUri, e, send).0)
  {
    if photoUri.None? || send.PhotoFailed? || e >= |w.rows| { Stays(w); } else { OneStep(w, StorePhoto(e)); }
  }

  lemma ConcludeIsRun(w: World, o: SyncOutcome, r: QueuedWeighIn, reply: Option<Reply>, send: PhotoSend, now: int)
    ensures Reaches(w, Conclude(w, o, r, reply, send, now).world)
  {
    if reply.None? {
      OneStep(w, Fail(r));
    } else if Refusal(reply.value) {
      OneStep(w, Reject(r, reply.value, now));
    } else {
      var (v, sent) := PhotoStep(w, r.photoUri, reply.value.eventId, send);
      PhotoIsRun(w, r.photoUri, reply.value.eventId, send);
      OneStep(v, Settle(r, reply.value, now, sent));
      Onward(w, v, Step(v, Settle(r, reply.value, now, sent)));
    }
  }

  lemma TryIsRun(p: Progress, r: QueuedWeighIn, post: Post, send: PhotoSend, now: int)
    ensures Reaches(p.world, TryOne(p, r, post, send, now).world)
  {
    var begun := Step(p.world, Begin(r));
    OneStep(p.world, Begin(r));
    var (w, reply) := PostStep(begun, r, post);
    PostIsRun(begun, r, post);
    Onward(p.world, begun, w);
    ConcludeIsRun(w, p.outcome.(attempted := p.outcome.attempted + 1), r, reply, send, now);
    Onward(p.world, w, TryOne(p, r, post, send, now).world);
  }

  lemma {:induction false} DrainIsRun(p: Progress, rs: seq<QueuedWeighIn>, net: Network, k: nat)
    ensures Reaches(p.world, Drain(p, rs, net, k).world)
    decreases |rs|
  {
    if rs == [] {
      Stays(p.world);
    } else {
      var next := TryOne(p, rs[0], net.posts(k), net.photos(k), net.clock(k));
      TryIsRun(p, rs[0], net.posts(k), net.photos(k), net.clock(k));
      DrainIsRun(next, rs[1..], net, k + 1);
      Onward(p.world, next.world, Drain(p, rs, net, k).world);
    }
  }

  lemma SendIsRun(p: Progress, r: QueuedWeighIn, send: PhotoSend, now: int)
    ensures Reaches(p.world, SendOne(p, r, send, now).world)
  {
    if r.serverEventId.None? {
      Stays(p.world);
    } else {
      var (w, sent) := PhotoStep(p.world, r.photoUri, r.serverEventId.value, send);
      PhotoIsRun(p.world, r.photoUri, r.serverEventId.value, send);
      OneStep(w, PhotoDone(r, now));
      Onward(p.world, w, Step(w, PhotoDone(r, now)));
    }
  }

  lemma {:induction false} SendLateIsRun(p: Progress, rs: seq<QueuedWeighIn>, net: Network, k: nat)
    ensures Reaches(p.world, SendLate(p, rs, net, k).world)
    decreases |rs|
  {
    if rs == [] {
      Stays(p.world);
    } else {
      var next := SendOne(p, rs[0], net.latePhotos(k), net.lateClock(k));
      SendIsRun(p, rs[0], net.latePhotos(k), net.lateClock(k));
      SendLateIsRun(next, rs[1..], net, k + 1);
      Onward(p.world, next.world, SendLate(p, rs, net, k).world);
    }
  }

  /** An offline phone tries nothing: the queue and the server stay as they are, and
      nothing is counted. */
  lemma OfflineDoesNothing(w: World, net: Network)
    ensures Pass(w, false, net).world == w
    ensures Pass(w, false, net).outcome == SyncOutcome(0, 0, 0, 0, 0)
  {
  }

  /** Every pass is a run of small steps, and so keeps what every run keeps. */
  lemma PassIsRun(w: World, online: bool, net: Network)
    ensures Reaches(w, Pass(w, online, net).world)
    ensures Inv(w) ==> Inv(Pass(w, online, net).world)
  {
    if !online {
      Stays(w);
    } else {
      var p := Drain(Progress(w, NOTHING), Pending(w.queue), net, 0);
      DrainIsRun(Progress(w, NOTHING), Pending(w.queue), net, 0);
      SendLateIsRun(p, PendingPhotos(p.world.queue), net, 0);
      Onward(w, p.world, Pass(w, online, net).world);
    }
    if Inv(w) { ReachedKeepsInv(w, Pass(w, online, net).world); }
  }

  // ----- what a pass that is not cut off achieves -----

  lemma PostKeepsPhone(w: World, r: QueuedWeighIn, post: Post)
    ensures var (u, reply) := PostStep(w, r, post);
            && u.queue == w.queue && u.seen == w.seen && u.photos == w.photos
            && (reply.Some? ==> reply.value in u.replies && reply.value.payload == r.payload)
            && (Ingest.UniqueHashes(w.rows) ==>
                  Ingest.UniqueHashes(u.rows) && (reply.Some? ==> Names(u.rows, reply.value.eventId, r.payload)))
  {
    if post.Arrived? {
      var s := post.sub.(hash := r.payload);
      if Ingest.UniqueHashes(w.rows) { ServeIsHonest(w.rows, s); }
    }
  }

  /** A try wrote this verdict, and counted it. */
  predicate Wrote(p: Progress, next: Progress, id: RecordId, v: Patch) {
    && v.status.Some? && !v.status.value.Syncing?
    && next.world.queue == Update(Update(p.world.queue, id, BEGIN), id, v)
    && next.outcome.attempted == p.outcome.attempted + 1
    && next.outcome.synced == p.outcome.synced + One(v.status.value.Synced?)
    && next.outcome.rejected == p.outcome.rejected + One(v.status.value.Rejected?)
    && next.outcome.failed == p.outcome.failed + One(v.status.value.Queued?)
    && (v.status.value.Synced? ==> v.photoUploadedAt.Some?)
    && next.outcome.photosUploaded
    == p.outcome.photosUploaded + One(v.status.value.Synced? && v.photoUploadedAt.value.Some?)
  }

  /** The record is marked syncing and posted; the phone's side is as it was. */
  lemma Posted(p: Progress, r: QueuedWeighIn, post: Post)
    requires Inv(p.world) && r in p.world.seen
    ensures var (w, reply) := PostStep(Step(p.world, Begin(r)), r, post);
            && w.queue == Update(p.world.queue, r.id, BEGIN) && p.world.seen <= w.seen
            && (reply.Some? ==> Answered(w, r, reply.value) && reply.value.eventId < |w.rows|)
  {
    BeginKeepsInv(p.world, r);
    PostKeepsPhone(Step(p.world, Begin(r)), r, post);
  }

  lemma SettleWrites(w: World, r: QueuedWeighIn, reply: Reply, send: PhotoSend, now: int)
    requires Answered(w, r, reply) && !Refusal(reply) && reply.eventId < |w.rows|
    ensures var (u, sent) := PhotoStep(w, r.photoUri, reply.eventId, send);
            Step(u, Settle(r, reply, now, sent)) == Rewrite(u, Update(w.queue, r.id, SettlePatch(reply, now, sent)))
            && u.seen == w.seen
  {
    var (u, sent) := PhotoStep(w, r.photoUri, reply.eventId, send);
    assert Answered(u, r, reply);
  }

  lemma ConcludeWrites(p: Progress, w: World, r: QueuedWeighIn, reply: Option<Reply>, send: PhotoSend, now: int) returns (v: Patch)
    requires w.queue == Update(p.world.queue, r.id, BEGIN)
    requires reply.Some? ==> Answered(w, r, reply.value) && reply.value.eventId < |w.rows|
    ensures var next := Conclude(w, p.outcome.(attempted := p.outcome.attempted + 1), r, reply, send, now);
            Wrote(p, next, r.id, v) && w.seen <= next.world.seen
  {
    if reply.None? {
      v := FailPatch(r);
    } else if Refusal(reply.value) {
      v := RejectPatch(reply.value, now);
    } else {
      SettleWrites(w, r, reply.value, send, now);
      v := SettlePatch(reply.value, now, PhotoStep(w, r.photoUri, reply.value.eventId, send).1);
    }
  }

  /** Each try marks its record and then writes and counts one verdict on it. */
  lemma TryWrites(p: Progress, r: QueuedWeighIn, post: Post, send: PhotoSend, now: int) returns (v: Patch)
    requires Inv(p.world) && r in p.world.seen
    ensures Wrote(p, TryOne(p, r, post, send, now), r.id, v)
    ensures p.world.seen <= TryOne(p, r, post, send, now).world.seen
  {
    Posted(p, r, post);
    var (w, reply) := PostStep(Step(p.world, Begin(r)), r, post);
    v := ConcludeWrites(p, w, r, reply, send, now);
  }

  predicate HoldsPending(q: seq<QueuedWeighIn>, id: RecordId) {
    exists i :: 0 <= i < |q| && q[i].id == id && IsPending(q[i])
  }

  /** Each of these records is still waiting in the queue. */
  predicate AllPending(q: seq<QueuedWeighIn>, rs: seq<QueuedWeighIn>) {
    forall k | 0 <= k < |rs| :: HoldsPending(q, rs[k].id)
  }

  /** How much further the outcome is than what the queue's counts account for. */
  datatype Balance = Balance(synced: int, rejected: int, pending: int, attempted: int, photos: int)

  function BalanceOf(p: Progress): Balance {
    var q, o := p.world.queue, p.outcome;
    Balance(
      Tally(q, Synced) - o.synced,
      Tally(q, Rejected) - o.rejected,
      Tally(q, Queued) + Tally(q, Syncing) + o.synced + o.rejected,
      o.attempted - o.synced - o.rejected - o.failed,
      SentTally(q) - o.photosUploaded)
  }

  lemma StatusMoves(q: seq<QueuedWeighIn>, id: RecordId, v: Patch, i: nat, s: QueueStatus)
    requires UniqueIds(q) && i < |q| && q[i].id == id && v.status.Some?
    ensures Tally(Update(Update(q, id, BEGIN), id, v), s) + One(q[i].status == s) == Tally(q, s) + One(v.status.value == s)
  {
    CountMoves(q, id, BEGIN, i, HasStatus(s));
    CountMoves(Update(q, id, BEGIN), id, v, i, HasStatus(s));
  }

  lemma PhotoSentMoves(q: seq<QueuedWeighIn>, id: RecordId, v: Patch, i: nat)
    requires UniqueIds(q) && i < |q| && q[i].id == id && IsPending(q[i]) && v.status.Some?
    requires v.status.value.Synced? ==> v.photoUploadedAt.Some?
    ensures SentTally(Update(Update(q, id, BEGIN), id, v))
         == SentTally(q) + One(v.status.value.Synced? && v.photoUploadedAt.value.Some?)
  {
    CountMoves(q, id, BEGIN, i, PhotoSent);
    CountMoves(Update(q, id, BEGIN), id, v, i, PhotoSent);
  }

  lemma TryBalances(p: Progress, next: Progress, id: RecordId, v: Patch)
    requires UniqueIds(p.world.queue) && HoldsPending(p.world.queue, id) && Wrote(p, next, id, v)
    ensures BalanceOf(next) == BalanceOf(p)
  {
    var q := p.world.queue;
    var i :| 0 <= i < |q| && q[i].id == id && IsPending(q[i]);
    StatusMoves(q, id, v, i, Synced);
    StatusMoves(q, id, v, i, Rejected);
    StatusMoves(q, id, v, i, Queued);
    StatusMoves(q, id, v, i, Syncing);
    PhotoSentMoves(q, id, v, i);
  }

  lemma TryKeepsPending(p: Progress, next: Progress, rs: seq<QueuedWeighIn>, v: Patch)
    requires rs != [] && UniqueIds(rs) && AllPending(p.world.queue, rs) && Wrote(p, next, rs[0].id, v)
    ensures AllPending(next.world.queue, rs[1..])
  {
    var q, u := p.world.queue, next.world.queue;
    forall k | 0 <= k < |rs[1..]| ensures HoldsPending(u, rs[1..][k].id) {
      assert HoldsPending(q, rs[k + 1].id);
      var i :| 0 <= i < |q| && q[i].id == rs[k + 1].id && IsPending(q[i]);
      assert u[i] == q[i];
    }
  }

  predicate AllSeen(w: World, rs: seq<QueuedWeighIn>) {
    forall r | r in rs :: r in w.seen
  }

  /** A record that is marked syncing is one of those still to be tried. */
  predicate SyncingWithin(q: seq<QueuedWeighIn>, rs: seq<QueuedWeighIn>) {
    forall c | c in q && c.status.Syncing? :: InQueue(rs, c.id)
  }

  lemma TryKeepsSyncing(p: Progress, next: Progress, rs: seq<QueuedWeighIn>, v: Patch)
    requires rs != [] && SyncingWithin(p.world.queue, rs) && Wrote(p, next, rs[0].id, v)
    ensures SyncingWithin(next.world.queue, rs[1..])
  {
    var q, u := p.world.queue, next.world.queue;
    forall c | c in u && c.status.Syncing? ensures InQueue(rs[1..], c.id) {
      var i :| 0 <= i < |u| && u[i] == c;
      assert q[i] in q && u[i] == q[i] && c.id != rs[0].id;
      var r :| r in rs && r.id == c.id;
      assert rs == [rs[0]] + rs[1..];
      assert r in rs[1..];
    }
  }

  lemma {:induction false} DrainBalances(p: Progress, rs: seq<QueuedWeighIn>, net: Network, k: nat)
    requires Inv(p.world) && UniqueIds(rs) && AllSeen(p.world, rs)
    requires AllPending(p.world.queue, rs) && SyncingWithin(p.world.queue, rs)
    ensures var d := Drain(p, rs, net, k);
            && BalanceOf(d) == BalanceOf(p) && d.outcome.attempted == p.outcome.attempted + |rs|
            && Inv(d.world) && SyncingWithin(d.world.queue, [])
    decreases |rs|
  {
    if rs != [] {
      var r, post, send, now := rs[0], net.posts(k), net.photos(k), net.clock(k);
      var next := TryOne(p, r, post, send, now);
      var v := TryWrites(p, r, post, send, now);
      TryIsRun(p, r, post, send, now);
      ReachedKeepsInv(p.world, next.world);
      assert HoldsPending(p.world.queue, rs[0].id);
      TryBalances(p, next, r.id, v);
      TryKeepsPending(p, next, rs, v);
      TryKeepsSyncing(p, next, rs, v);
      DrainBalances(next, rs[1..], net, k + 1);
    }
  }

  lemma SendTallies(p: Progress, r: QueuedWeighIn, send: PhotoSend, now: int, s: QueueStatus)
    ensures Tally(SendOne(p, r, send, now).world.queue, s) == Tally(p.world.queue, s)
    ensures SendOne(p, r, send, now).outcome == p.outcome.(photosUploaded := SendOne(p, r, send, now).outcome.photosUploaded)
  {
    CountOthers(p.world.queue, r.id, PhotoPatch(now), HasStatus(s));
  }

  lemma {:induction false} SendLateTallies(p: Progress, rs: seq<QueuedWeighIn>, net: Network, k: nat, s: QueueStatus)
    ensures var l := SendLate(p, rs, net, k);
            && Tally(l.world.queue, s) == Tally(p.world.queue, s)
            && l.outcome == p.outcome.(photosUploaded := l.outcome.photosUploaded)
    decreases |rs|
  {
    if rs != [] {
      SendTallies(p, rs[0], net.latePhotos(k), net.lateClock(k), s);
      SendLateTallies(SendOne(p, rs[0], net.latePhotos(k), net.lateClock(k)), rs[1..], net, k + 1, s);
    }
  }

  predicate HoldsAwaiting(q: seq<QueuedWeighIn>, id: RecordId) {
    exists i :: 0 <= i < |q| && q[i].id == id && AwaitsPhoto(q[i])
  }

  /** Each of these records still owes its photo in the queue. */
  predicate AllAwaiting(q: seq<QueuedWeighIn>, rs: seq<QueuedWeighIn>) {
    forall k | 0 <= k < |rs| :: HoldsAwaiting(q, rs[k].id)
  }

  /** In the queue, sending a late photo is nothing, or one update of its record. */
  lemma SendWrites(p: Progress, r: QueuedWeighIn, send: PhotoSend, now: int)
    requires r in p.world.seen && AwaitsPhoto(r)
    ensures var next := SendOne(p, r, send, now); var q := p.world.queue;
            && p.world.seen <= next.world.seen
            && ((next.world.queue == q && next.outcome == p.outcome)
             || (next.world.queue == Update(q, r.id, PhotoPatch(now))
                 && next.outcome == p.outcome.(photosUploaded := p.outcome.photosUploaded + 1)))
  {
  }

  lemma OneMoreSent(q: seq<QueuedWeighIn>, id: RecordId, now: int)
    requires UniqueIds(q) && HoldsAwaiting(q, id)
    ensures UniqueIds(Update(q, id, PhotoPatch(now)))
    ensures SentTally(Update(q, id, PhotoPatch(now))) == SentTally(q) + 1
  {
    var i :| 0 <= i < |q| && q[i].id == id && AwaitsPhoto(q[i]);
    CountMoves(q, id, PhotoPatch(now), i, PhotoSent);
  }

  lemma SendBalances(p: Progress, r: QueuedWeighIn, send: PhotoSend, now: int)
    requires UniqueIds(p.world.queue) && r in p.world.seen && AwaitsPhoto(r) && HoldsAwaiting(p.world.queue, r.id)
    ensures var next := SendOne(p, r, send, now);
            && UniqueIds(next.world.queue)
            && SentTally(next.world.queue) - next.outcome.photosUploaded == SentTally(p.world.queue) - p.outcome.photosUploaded
  {
    SendWrites(p, r, send, now);
    OneMoreSent(p.world.queue, r.id, now);
  }

  lemma SendKeepsAwaiting(p: Progress, rs: seq<QueuedWeighIn>, send: PhotoSend, now: int)
    requires rs != [] && UniqueIds(rs) && AllAwaiting(p.world.queue, rs) && rs[0] in p.world.seen && AwaitsPhoto(rs[0])
    ensures AllAwaiting(SendOne(p, rs[0], send, now).world.queue, rs[1..])
  {
    SendWrites(p, rs[0], send, now);
    var q, u := p.world.queue, SendOne(p, rs[0], send, now).world.queue;
    forall k | 0 <= k < |rs[1..]| ensures HoldsAwaiting(u, rs[1..][k].id) {
      assert HoldsAwaiting(q, rs[k + 1].id);
      var i :| 0 <= i < |q| && q[i].id == rs[k + 1].id && AwaitsPhoto(q[i]);
      assert u[i] == q[i];
    }
  }

  lemma {:induction false} SendLateBalances(p: Progress, rs: seq<QueuedWeighIn>, net: Network, k: nat)
    requires UniqueIds(p.world.queue) && UniqueIds(rs) && AllSeen(p.world, rs) && AllAwait(rs)
    requires AllAwaiting(p.world.queue, rs)
    ensures var l := SendLate(p, rs, net, k);
            SentTally(l.world.queue) - l.outcome.photosUploaded == SentTally(p.world.queue) - p.outcome.photosUploaded
    decreases |rs|
  {
    if rs != [] {
      var r, send, now := rs[0], net.latePhotos(k), net.lateClock(k);
      assert HoldsAwaiting(p.world.queue, rs[0].id);
      SendWrites(p, r, send, now);
      SendBalances(p, r, send, now);
      SendKeepsAwaiting(p, rs, send, now);
      SendLateBalances(SendOne(p, r, send, now), rs[1..], net, k + 1);
    }
  }

  lemma LateStart(w: World)
    requires Inv(w)
    ensures var rs := PendingPhotos(w.queue);
            UniqueIds(rs) && AllSeen(w, rs) && AllAwait(rs) && AllAwaiting(w.queue, rs)
  {
    var rs := PendingPhotos(w.queue);
    PendingPhotosAre(w.queue);
    forall k | 0 <= k < |rs| ensures HoldsAwaiting(w.queue, rs[k].id) {
      assert rs[k] in rs;
      var i :| 0 <= i < |w.queue| && w.queue[i] == rs[k];
    }
  }

  predicate AllAwait(rs: seq<QueuedWeighIn>) {
    forall r | r in rs :: AwaitsPhoto(r)
  }

  lemma PassStart(w: World)
    requires Inv(w)
    ensures var rs := Pending(w.queue);
            && UniqueIds(rs) && AllSeen(w, rs) && AllPending(w.queue, rs) && SyncingWithin(w.queue, rs)
            && |rs| == Tally(w.queue, Queued) + Tally(w.queue, Syncing)
  {
    var rs := Pending(w.queue);
    PendingIs(w.queue);
    PendingTally(w.queue);
    forall k | 0 <= k < |rs| ensures HoldsPending(w.queue, rs[k].id) {
      assert rs[k] in rs;
      var i :| 0 <= i < |w.queue| && w.queue[i] == rs[k];
    }
    forall c | c in w.queue && c.status.Syncing? ensures InQueue(rs, c.id) {
      assert c in rs;
    }
  }

  /** A pass that is not cut off tries every unfinished record once, and what it
      reports is what the queue shows: as many records more are synced, rejected
      and have their photo sent, the failed ones are queued again, and none is
      left syncing. */
  lemma OutcomeIsWhatTheQueueShows(w: World, net: Network)
    requires Inv(w)
    ensures var p := Pass(w, true, net); var q, o := p.world.queue, p.outcome;
            && o.attempted == |Pending(w.queue)| == o.synced + o.rejected + o.failed
            && Tally(q, Synced) == Tally(w.queue, Synced) + o.synced
            && Tally(q, Rejected) == Tally(w.queue, Rejected) + o.rejected
            && Tally(q, Queued) == o.failed
            && Tally(q, Syncing) == 0
            && SentTally(q) == SentTally(w.queue) + o.photosUploaded
  {
    var start := Progress(w, NOTHING);
    var rs := Pending(w.queue);
    PassStart(w);
    DrainBalances(start, rs, net, 0);
    var d := Drain(start, rs, net, 0);
    NoneTallied(d.world.queue, Syncing);
    var late := PendingPhotos(d.world.queue);
    SendLateTallies(d, late, net, 0, Synced);
    SendLateTallies(d, late, net, 0, Rejected);
    SendLateTallies(d, late, net, 0, Queued);
    SendLateTallies(d, late, net, 0, Syncing);
    LateStart(d.world);
    SendLateBalances(d, late, net, 0);
  }

  /** The server takes every post, and every reply gets through. */
  ghost predicate GoodNetwork(net: Network) {
    forall k: nat :: Replied(net.posts(k))
  }

  predicate Replied(post: Post) {
    post.Arrived? && post.replied && post.sub.schemaSupported && post.sub.materialKnown && post.sub.referencesKnown
  }

  lemma {:induction false} GoodNetworkNeverFails(p: Progress, rs: seq<QueuedWeighIn>, net: Network, k: nat)
    requires GoodNetwork(net)
    ensures Drain(p, rs, net, k).outcome.failed == p.outcome.failed
    decreases |rs|
  {
    if rs != [] {
      assert Replied(net.posts(k));
      GoodNetworkNeverFails(TryOne(p, rs[0], net.posts(k), net.photos(k), net.clock(k)), rs[1..], net, k + 1);
    }
  }

  // ----- which photos are still owed -----

  /** The photo was stored, and the phone was told so. */
  predicate Handed(send: PhotoSend) {
    send.PhotoStored? && send.replied
  }

  /** The photo of record i, with this id, was sent in turn k and not handed over. */
  predicate OwedAt(rs: seq<QueuedWeighIn>, net: Network, i: nat, k: nat, id: RecordId) {
    i < |rs| && rs[i].id == id && !Handed(net.latePhotos(k))
  }

  /** That is so of one of these records, in this turn or a later one. */
  ghost predicate StillOwed(rs: seq<QueuedWeighIn>, net: Network, k: nat, id: RecordId) {
    exists i: nat, turn: nat :: OwedAt(rs, net, i, turn, id) && turn == k + i
  }

  predicate OnServer(w: World, r: QueuedWeighIn) {
    r in w.seen && AwaitsPhoto(r) && r.serverEventId.value < |w.rows|
  }

  /** The queue after one late photo was sent. */
  lemma SentOrNot(p: Progress, r: QueuedWeighIn, send: PhotoSend, now: int)
    requires OnServer(p.world, r)
    ensures var u := SendOne(p, r, send, now).world;
            && u.queue == (if Handed(send) then Update(p.world.queue, r.id, PhotoPatch(now)) else p.world.queue)
            && p.world.seen <= u.seen && u.rows == p.world.rows
  {
  }

  lemma HandedOwesNone(q: seq<QueuedWeighIn>, r: RecordId, now: int, id: RecordId)
    ensures HoldsAwaiting(Update(q, r, PhotoPatch(now)), id) <==> HoldsAwaiting(q, id) && id != r
  {
    var u := Update(q, r, PhotoPatch(now));
    if HoldsAwaiting(u, id) {
      var i :| 0 <= i < |u| && u[i].id == id && AwaitsPhoto(u[i]);
      assert u[i] == q[i];
    }
    if HoldsAwaiting(q, id) && id != r {
      var i :| 0 <= i < |q| && q[i].id == id && AwaitsPhoto(q[i]);
      assert u[i] == q[i];
    }
  }

  lemma FirstListed(rs: seq<QueuedWeighIn>, id: RecordId)
    requires rs != [] && UniqueIds(rs)
    ensures InQueue(rs, id) <==> id == rs[0].id || InQueue(rs[1..], id)
    ensures id == rs[0].id ==> !InQueue(rs[1..], id)
  {
    assert rs == [rs[0]] + rs[1..];
  }

  lemma FirstOwed(rs: seq<QueuedWeighIn>, net: Network, k: nat, id: RecordId)
    requires rs != []
    ensures StillOwed(rs, net, k, id) <==> OwedAt(rs, net, 0, k, id) || StillOwed(rs[1..], net, k + 1, id)
  {
    var tail := rs[1..];
    if StillOwed(tail, net, k + 1, id) {
      var i: nat, turn: nat :| OwedAt(tail, net, i, turn, id) && turn == k + 1 + i;
      OwedLater(rs, net, i, turn, id);
      assert OwedAt(rs, net, i + 1, turn, id);
    }
    if StillOwed(rs, net, k, id) && !OwedAt(rs, net, 0, k, id) {
      var i: nat, turn: nat :| OwedAt(rs, net, i, turn, id) && turn == k + i;
      OwedLater(rs, net, i - 1, turn, id);
      assert OwedAt(tail, net, i - 1, turn, id);
    }
  }

  lemma OwedLater(rs: seq<QueuedWeighIn>, net: Network, i: nat, k: nat, id: RecordId)
    requires rs != []
    ensures OwedAt(rs[1..], net, i, k, id) <==> OwedAt(rs, net, i + 1, k, id)
  {
  }

  lemma {:induction false} SendLateLeaves(p: Progress, rs: seq<QueuedWeighIn>, net: Network, k: nat, id: RecordId)
    requires UniqueIds(rs) && forall r | r in rs :: OnServer(p.world, r)
    ensures HoldsAwaiting(SendLate(p, rs, net, k).world.queue, id)
       <==> HoldsAwaiting(p.world.queue, id) && (InQueue(rs, id) ==> StillOwed(rs, net, k, id))
    decreases |rs|
  {
    if rs != [] {
      var next := SendOne(p, rs[0], net.latePhotos(k), net.lateClock(k));
      assert rs[0] in rs && forall r | r in rs[1..] :: r in rs;
      SentOrNot(p, rs[0], net.latePhotos(k), net.lateClock(k));
      HandedOwesNone(p.world.queue, rs[0].id, net.lateClock(k), id);
      SendLateLeaves(next, rs[1..], net, k + 1, id);
      FirstListed(rs, id);
      FirstOwed(rs, net, k, id);
      NotListedNotOwed(rs[1..], net, k + 1, id);
    }
  }

  lemma NotListedNotOwed(rs: seq<QueuedWeighIn>, net: Network, k: nat, id: RecordId)
    ensures StillOwed(rs, net, k, id) ==> InQueue(rs, id)
  {
    if StillOwed(rs, net, k, id) {
      var i: nat, turn: nat :| OwedAt(rs, net, i, turn, id);
      assert rs[i] in rs;
    }
  }

  lemma AwaitingAreListed(q: seq<QueuedWeighIn>, id: RecordId)
    ensures HoldsAwaiting(q, id) <==> InQueue(PendingPhotos(q), id)
  {
    PendingPhotosAre(q);
    if HoldsAwaiting(q, id) {
      var i :| 0 <= i < |q| && q[i].id == id && AwaitsPhoto(q[i]);
      assert q[i] in PendingPhotos(q);
    }
    if InQueue(PendingPhotos(q), id) {
      var r :| r in PendingPhotos(q) && r.id == id;
      var i :| 0 <= i < |q| && q[i] == r;
    }
  }

  /** The records whose photos the second loop of a pass sends. */
  function LateOnes(w: World, net: Network): seq<QueuedWeighIn> {
    PendingPhotos(Drain(Progress(w, NOTHING), Pending(w.queue), net, 0).world.queue)
  }

  lemma LateOnesAreOnServer(w: World)
    requires Inv(w)
    ensures UniqueIds(PendingPhotos(w.queue)) && forall r | r in PendingPhotos(w.queue) :: OnServer(w, r)
  {
    PendingPhotosAre(w.queue);
    forall r | r in PendingPhotos(w.queue) ensures OnServer(w, r) {
      assert r in w.queue && r in w.seen && Sound(r, w.rows, w.photos);
    }
  }

  /** After a pass a photo is owed exactly when the pass sent it and it was not
      handed over; whatever else was owed has been. */
  lemma PhotosOwedAfterPass(w: World, net: Network, id: RecordId)
    requires Inv(w)
    ensures InQueue(PendingPhotos(Pass(w, true, net).world.queue), id) <==> StillOwed(LateOnes(w, net), net, 0, id)
  {
    var d := Drain(Progress(w, NOTHING), Pending(w.queue), net, 0);
    DrainIsRun(Progress(w, NOTHING), Pending(w.queue), net, 0);
    ReachedKeepsInv(w, d.world);
    var late := LateOnes(w, net);
    LateOnesAreOnServer(d.world);
    SendLateLeaves(d, late, net, 0, id);
    AwaitingAreListed(d.world.queue, id);
    AwaitingAreListed(Pass(w, true, net).world.queue, id);
    NotListedNotOwed(late, net, 0, id);
  }

  /** One pass over a good network leaves no weigh-in to deliver; and no photo
      either, if and only if each of the late ones was handed over. */
  lemma GoodNetworkDrains(w: World, net: Network)
    requires Inv(w) && GoodNetwork(net)
    ensures Pending(Pass(w, true, net).world.queue) == []
    ensures PendingPhotos(Pass(w, true, net).world.queue) == []
       <==> forall k: nat | k < |LateOnes(w, net)| :: Handed(net.latePhotos(k))
  {
    OutcomeIsWhatTheQueueShows(w, net);
    GoodNetworkNeverFails(Progress(w, NOTHING), Pending(w.queue), net, 0);
    var d := Drain(Progress(w, NOTHING), Pending(w.queue), net, 0);
    SendLateTallies(d, PendingPhotos(d.world.queue), net, 0, Queued);
    PendingTally(Pass(w, true, net).world.queue);
    NoPhotoOwed(w, net);
  }

  lemma NoPhotoOwed(w: World, net: Network)
    requires Inv(w)
    ensures PendingPhotos(Pass(w, true, net).world.queue) == []
       <==> forall k: nat | k < |LateOnes(w, net)| :: Handed(net.latePhotos(k))
  {
    var late, owed := LateOnes(w, net), PendingPhotos(Pass(w, true, net).world.queue);
    if k: nat :| k < |late| && !Handed(net.latePhotos(k)) {
      PhotosOwedAfterPass(w, net, late[k].id);
      assert OwedAt(late, net, k, k, late[k].id) && StillOwed(late, net, 0, late[k].id);
    } else if owed != [] {
      assert owed[0] in owed && InQueue(owed, owed[0].id);
      PhotosOwedAfterPass(w, net, owed[0].id);
    }
  }

  // ----- what does not hold -----

  /** The queue after two records were enqueued under one id. */
  predicate SharedId(w: World, a: QueuedWeighIn, b: QueuedWeighIn) {
    && w.queue == [a, b] && a.id == b.id && a in w.seen
    && Pristine(a) && Pristine(b) && a.payload != b.payload && b.photoUri.None?
    && forall row | row in w.rows :: row.hash != b.payload
  }

  lemma ServeOthers(rows: seq<Ingest.Row>, s: Ingest.Submission, h: Hash)
    requires s.hash != h && forall row | row in rows :: row.hash != h
    ensures forall row | row in Serve(rows, s).0 :: row.hash != h
  {
  }

  /** Delivery rests on ids being fresh: an update reaches every record with its
      id. Once the first of two records is settled, a pass that is cut off there
      has marked the second synced too; nothing is pending, the server has never
      had the second weigh-in, and pruning drops it. */
  lemma SharedIdLosesWeighIn(w: World, a: QueuedWeighIn, b: QueuedWeighIn, s: Ingest.Submission, now: int, cutoff: int)
    requires SharedId(w, a, b) && Ingest.UniqueHashes(w.rows) && b.createdAt < cutoff
    requires s.hash == a.payload && Serve(w.rows, s).1.Stored? && !Refusal(Answer(s, Serve(w.rows, s).1))
    ensures var v := Step(Step(w, Arrive(s)), Settle(a, Answer(s, Serve(w.rows, s).1), now, false));
            && |v.queue| == 2 && v.queue[1].payload == b.payload && v.queue[1].status.Synced?
            && Pending(v.queue) == [] && (forall row | row in v.rows :: row.hash != b.payload)
            && forall r | r in Prune(v.queue, cutoff) :: r.payload != b.payload
  {
    var reply := Answer(s, Serve(w.rows, s).1);
    var u := Step(w, Arrive(s));
    ServeOthers(w.rows, s, b.payload);
    assert Answered(u, a, reply);
    var v := Step(u, Settle(a, reply, now, false));
    var p := SettlePatch(reply, now, false);
    assert v.queue == Update([a, b], a.id, p) == [Patched(a, p), Patched(b, p)];
    NonePending(v.queue);
    assert !Kept(Patched(b, p), cutoff);
  }

  lemma NonePending(q: seq<QueuedWeighIn>)
    requires forall r | r in q :: !IsPending(r)
    ensures Pending(q) == []
  {
    NoneTallied(q, Queued);
    NoneTallied(q, Syncing);
    PendingTally(q);
  }

  // ----- the code -----

  lemma DrainFirst(p: Progress, rs: seq<QueuedWeighIn>, net: Network, k: nat)
    requires k < |rs|
    ensures Drain(p, rs[k..], net, k)
         == Drain(TryOne(p, rs[k], net.posts(k), net.photos(k), net.clock(k)), rs[k + 1..], net, k + 1)
  {
    assert rs[k..][0] == rs[k] && rs[k..][1..] == rs[k + 1..];
  }

  lemma SendFirst(p: Progress, rs: seq<QueuedWeighIn>, net: Network, k: nat)
    requires k < |rs|
    ensures SendLate(p, rs[k..], net, k)
         == SendLate(SendOne(p, rs[k], net.latePhotos(k), net.lateClock(k)), rs[k + 1..], net, k + 1)
  {
    assert rs[k..][0] == rs[k] && rs[k..][1..] == rs[k + 1..];
  }

  /** A phone's queue and the server it talks to. */
  class Session {
    const store: KeyValueStore
    var rows: seq<Ingest.Row>
    var photos: set<EventId>
    ghost var captured: map<RecordId, Capture>
    ghost var seen: set<QueuedWeighIn>
    ghost var replies: set<Reply>
    ghost var cutoffs: set<int>

    ghost function State(): World
      reads this, store
    {
      World(store.records, rows, photos, captured, seen, replies, cutoffs)
    }

    constructor (store: KeyValueStore)
      requires store.records == []
      ensures this.store == store && State() == START
    {
      this.store := store;
      rows, photos, captured, seen, replies, cutoffs := [], {}, map[], {}, {}, {};
    }

    method WriteRecord(id: RecordId, patch: Patch)
      modifies this`seen, store
      ensures State() == Rewrite(old(State()), Update(old(store.records), id, patch))
    {
      store.UpdateRecord(id, patch);
      seen := seen + set r | r in store.records;
    }

    method PostWeighIn(r: QueuedWeighIn, post: Post) returns (reply: Option<Reply>)
      modifies this`rows, this`replies
      ensures (State(), reply) == PostStep(old(State()), r, post)
    {
      if post.NeverArrived? { return None; }
      var s := post.sub.(hash := r.payload);
      var (stored, answer) := Serve(rows, s);
      rows := stored;
      if answer.Refused? { return None; }
      replies := replies + {Answer(s, answer)};
      return if post.replied then Some(Answer(s, answer)) else None;
    }

    method TryPhoto(photoUri: Option<Uri>, eventId: EventId, send: PhotoSend) returns (sent: bool)
      modifies this`photos
      ensures (State(), sent) == PhotoStep(old(State()), photoUri, eventId, send)
    {
      if photoUri.None? { return false; }
      if send.PhotoFailed? || eventId >= |rows| { return false; }
      photos := photos + {eventId};
      return send.replied;
    }

    method MarkAndPost(record: QueuedWeighIn, post: Post) returns (reply: Option<Reply>)
      modifies this`rows, this`seen, this`replies, store
      ensures (State(), reply) == PostStep(Step(old(State()), Begin(record)), record, post)
    {
      WriteRecord(record.id, BEGIN);
      reply := PostWeighIn(record, post);
    }

    method FailRecord(record: QueuedWeighIn)
      modifies this`seen, store
      ensures State() == Step(old(State()), Fail(record))
    {
      WriteRecord(record.id, Patch(status := Some(Queued), attempts := Some(record.attempts + 1)));
    }

    method RejectRecord(record: QueuedWeighIn, response: Reply, now: int)
      requires Answered(State(), record, response) && Refusal(response)
      modifies this`seen, store
      ensures State() == Step(old(State()), Reject(record, response, now))
    {
      WriteRecord(record.id, RejectPatch(response, now));
    }

    /** The photo, and then the record is marked synced either way. */
    method SettleRecord(record: QueuedWeighIn, response: Reply, send: PhotoSend, now: int) returns (sent: bool)
      requires Answered(State(), record, response) && !Refusal(response) && response.eventId < |rows|
      modifies this`photos, this`seen, store
      ensures var (v, photoSent) := PhotoStep(old(State()), record.photoUri, response.eventId, send);
              sent == photoSent && State() == Step(v, Settle(record, response, now, photoSent))
    {
      SettleWrites(State(), record, response, send, now);
      sent := TryPhoto(record.photoUri, response.eventId, send);
      WriteRecord(record.id, SettlePatch(response, now, sent));
    }

    /** The verdict on a record whose post has ended. */
    method ConcludeRecord(record: QueuedWeighIn, reply: Option<Reply>, send: PhotoSend, now: int, before: SyncOutcome)
      returns (outcome: SyncOutcome)
      requires reply.Some? ==> Answered(State(), record, reply.value) && reply.value.eventId < |rows|
      modifies this`photos, this`seen, store
      ensures Progress(State(), outcome) == Conclude(old(State()), before, record, reply, send, now)
    {
      outcome := before;
      if reply.None? {
        FailRecord(record);
        outcome := outcome.(failed := outcome.failed + 1);
        return;
      }
      var response := reply.value;
      if response.quarantined && !response.duplicate {
        RejectRecord(record, response, now);
        outcome := outcome.(rejected := outcome.rejected + 1);
        return;
      }
      var sent := SettleRecord(record, response, send, now);
      outcome := outcome.(synced := outcome.synced + 1);
      if sent { outcome := outcome.(photosUploaded := outcome.photosUploaded + 1); }
    }

    /** The body of the first loop. */
    method TryRecord(record: QueuedWeighIn, post: Post, send: PhotoSend, now: int, before: SyncOutcome)
      returns (outcome: SyncOutcome)
      requires Inv(State()) && record in seen
      modifies this`rows, this`photos, this`seen, this`replies, store
      ensures Progress(State(), outcome) == TryOne(Progress(old(State()), before), record, post, send, now)
    {
      Posted(Progress(State(), before), record, post);
      outcome := before.(attempted := before.attempted + 1);
      var reply := MarkAndPost(record, post);
      outcome := ConcludeRecord(record, reply, send, now, outcome);
    }

    method DrainQueue(net: Network) returns (outcome: SyncOutcome)
      requires Inv(State())
      modifies this`rows, this`photos, this`seen, this`replies, store
      ensures Progress(State(), outcome) == Drain(Progress(old(State()), NOTHING), Pending(old(State()).queue), net, 0)
      ensures Inv(State())
    {
      outcome := NOTHING;
      var records := store.ReadPending();
      PassStart(State());
      ghost var drained := Drain(Progress(State(), NOTHING), records, net, 0);
      for i := 0 to |records|
        invariant Inv(State()) && AllSeen(State(), records)
        invariant Drain(Progress(State(), outcome), records[i..], net, i) == drained
      {
        ghost var p := Progress(State(), outcome);
        DrainFirst(p, records, net, i);
        TryIsRun(p, records[i], net.posts(i), net.photos(i), net.clock(i));
        ghost var v := TryWrites(p, records[i], net.posts(i), net.photos(i), net.clock(i));
        outcome := TryRecord(records[i], net.posts(i), net.photos(i), net.clock(i), outcome);
        ReachedKeepsInv(p.world, State());
      }
    }

    /** The body of the second loop. */
    method SendPhoto(record: QueuedWeighIn, send: PhotoSend, now: int, before: SyncOutcome) returns (outcome: SyncOutcome)
      requires record in seen && AwaitsPhoto(record)
      modifies this`photos, this`seen, store
      ensures Progress(State(), outcome) == SendOne(Progress(old(State()), before), record, send, now)
      ensures old(seen) <= seen
    {
      outcome := before;
      var sent := TryPhoto(record.photoUri, record.serverEventId.value, send);
      if sent {
        WriteRecord(record.id, PhotoPatch(now));
        outcome := outcome.(photosUploaded := outcome.photosUploaded + 1);
      }
    }

    /** The second loop: photos whose weigh-in landed before. */
    method SendLatePhotos(net: Network, before: SyncOutcome) returns (outcome: SyncOutcome)
      requires Inv(State())
      modifies this`photos, this`seen, store
      ensures Progress(State(), outcome)
           == SendLate(Progress(old(State()), before), PendingPhotos(old(State()).queue), net, 0)
    {
      outcome := before;
      var late := store.ReadPendingPhotos();
      LateStart(State());
      ghost var whole := SendLate(Progress(State(), before), late, net, 0);
      for i := 0 to |late|
        invariant AllSeen(State(), late) && AllAwait(late)
        invariant SendLate(Progress(State(), outcome), late[i..], net, i) == whole
      {
        SendFirst(Progress(State(), outcome), late, net, i);
        outcome := SendPhoto(late[i], net.latePhotos(i), net.lateClock(i), outcome);
      }
    }

    method SyncPending(online: bool, net: Network) returns (outcome: SyncOutcome)
      requires Inv(State())
      modifies this`rows, this`photos, this`seen, this`replies, store
      ensures Progress(State(), outcome) == Pass(old(State()), online, net)
      ensures !online ==> State() == old(State()) && outcome == SyncOutcome(0, 0, 0, 0, 0)
      ensures Inv(State())
    {
      PassIsRun(State(), online, net);
      if !online { return NOTHING; }
      outcome := DrainQueue(net);
      outcome := SendLatePhotos(net, outcome);
    }
  }
}
