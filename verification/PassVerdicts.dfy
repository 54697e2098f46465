/** What one pass does to each record: the verdict on every record that was tried,
    from the answer to its own post, and nothing to any other. */
module PassVerdicts {
  import opened Wrappers
  import opened OfflineQueue
  import opened Sync
  import opened SyncPass
  import Ingest

  // ----- one try -----

  /** The post is answered for the phone: it arrived, was not refused, and its reply
      came back. */
  predicate Acknowledged(post: Post, rows: seq<Ingest.Row>, payload: Hash) {
    && post.Arrived? && post.replied && post.sub.schemaSupported && post.sub.materialKnown
    && (post.sub.referencesKnown || Ingest.Known(rows, payload))
  }

  /** The post has stored a new event. */
  predicate StoresNew(post: Post, rows: seq<Ingest.Row>, payload: Hash) {
    && post.Arrived? && post.sub.schemaSupported && post.sub.materialKnown && post.sub.referencesKnown
    && !Ingest.Known(rows, payload)
  }

  /** The reply that an acknowledged post brings. */
  predicate Told(reply: Reply, rows: seq<Ingest.Row>, payload: Hash, passes: bool) {
    && reply.payload == payload
    && (if Ingest.Known(rows, payload) then
          reply.duplicate && reply.quarantined && reply.eventId < |rows| && rows[reply.eventId].hash == payload
        else reply == Reply(payload, |rows|, !passes, false))
  }

  lemma PostVerdict(w: World, r: QueuedWeighIn, post: Post)
    ensures var (u, reply) := PostStep(w, r, post);
            && u.queue == w.queue && u.photos == w.photos
            && u.rows == (if StoresNew(post, w.rows, r.payload) then w.rows + [Ingest.Row(r.payload, !post.sub.passesIntegrity)] else w.rows)
            && (reply.Some? <==> Acknowledged(post, w.rows, r.payload))
            && (reply.Some? ==> Told(reply.value, w.rows, r.payload, post.sub.passesIntegrity))
  {
  }

  /** A record that is tried and not acknowledged is queued again with one attempt
      more; acknowledged as new and failing its checks it is rejected; otherwise it
      is synced, with its photo if that was stored and answered too. */
  predicate Verdict(r: QueuedWeighIn, u: QueuedWeighIn, rows: seq<Ingest.Row>, post: Post, send: PhotoSend, now: int) {
    if !Acknowledged(post, rows, r.payload) then
      u == r.(status := Queued, attempts := r.attempts + 1)
    else if !Ingest.Known(rows, r.payload) && !post.sub.passesIntegrity then
      u == r.(status := Rejected, serverEventId := Some(|rows|), syncedAt := Some(now))
    else
      && u.serverEventId.Some?
      && (if Ingest.Known(rows, r.payload) then u.serverEventId.value < |rows| && rows[u.serverEventId.value].hash == r.payload
          else u.serverEventId.value == |rows|)
      && u == r.(status := Synced, serverEventId := u.serverEventId, syncedAt := Some(now),
                 photoUploadedAt := if r.photoUri.Some? && send == PhotoStored(true) then Some(now) else None)
  }

  predicate OnlyAt(q: seq<QueuedWeighIn>, u: seq<QueuedWeighIn>, i: nat) {
    i < |q| == |u| && forall j | 0 <= j < |q| && j != i :: u[j] == q[j]
  }

  lemma UpdatedTwice(q: seq<QueuedWeighIn>, i: nat, v: Patch)
    requires UniqueIds(q) && i < |q|
    ensures OnlyAt(q, Update(Update(q, q[i].id, BEGIN), q[i].id, v), i)
    ensures Update(Update(q, q[i].id, BEGIN), q[i].id, v)[i] == Patched(Patched(q[i], BEGIN), v)
  {
  }

  /** The verdict, and that no other record is touched. */
  lemma TryVerdict(p: Progress, i: nat, post: Post, send: PhotoSend, now: int)
    requires Inv(p.world) && i < |p.world.queue|
    ensures var q := p.world.queue; var u := TryOne(p, q[i], post, send, now).world;
            && OnlyAt(q, u.queue, i)
            && Verdict(q[i], u.queue[i], p.world.rows, post, send, now)
            && u.rows == (if StoresNew(post, p.world.rows, q[i].payload)
                          then p.world.rows + [Ingest.Row(q[i].payload, !post.sub.passesIntegrity)] else p.world.rows)
  {
    var q, r := p.world.queue, p.world.queue[i];
    assert r in q && r in p.world.seen;
    var begun := Step(p.world, Begin(r));
    PostVerdict(begun, r, post);
    Posted(p, r, post);
    var (w, reply) := PostStep(begun, r, post);
    ConcludeVerdict(p, w, i, reply, post, send, now);
  }

  lemma ConcludeVerdict(p: Progress, w: World, i: nat, reply: Option<Reply>, post: Post, send: PhotoSend, now: int)
    requires UniqueIds(p.world.queue) && i < |p.world.queue|
    requires var r := p.world.queue[i];
             && w.queue == Update(p.world.queue, r.id, BEGIN)
             && (reply.Some? <==> Acknowledged(post, p.world.rows, r.payload))
             && (reply.Some? ==> Told(reply.value, p.world.rows, r.payload, post.sub.passesIntegrity))
             && (reply.Some? ==> Answered(w, r, reply.value) && reply.value.eventId < |w.rows|)
    ensures var q := p.world.queue;
            var u := Conclude(w, p.outcome.(attempted := p.outcome.attempted + 1), q[i], reply, send, now).world;
            && OnlyAt(q, u.queue, i) && u.rows == w.rows
            && Verdict(q[i], u.queue[i], p.world.rows, post, send, now)
  {
    var r := p.world.queue[i];
    if reply.None? {
      UpdatedTwice(p.world.queue, i, FailPatch(r));
    } else if Refusal(reply.value) {
      UpdatedTwice(p.world.queue, i, RejectPatch(reply.value, now));
    } else {
      SettleWrites(w, r, reply.value, send, now);
      var sent := PhotoStep(w, r.photoUri, reply.value.eventId, send).1;
      UpdatedTwice(p.world.queue, i, SettlePatch(reply.value, now, sent));
    }
  }

  // ----- the first loop -----

  lemma OneTryElsewhere(p: Progress, r: QueuedWeighIn, post: Post, send: PhotoSend, now: int, i: nat)
    requires Inv(p.world) && r in p.world.seen && i < |p.world.queue| && p.world.queue[i].id != r.id
    ensures var u := TryOne(p, r, post, send, now).world;
            Inv(u) && p.world.seen <= u.seen && |u.queue| == |p.world.queue| && u.queue[i] == p.world.queue[i]
  {
    var v := TryWrites(p, r, post, send, now);
    TryIsRun(p, r, post, send, now);
    ReachedKeepsInv(p.world, TryOne(p, r, post, send, now).world);
  }

  /** Records that are not tried stay as they are. */
  lemma {:induction false} DrainTouchesTried(p: Progress, rs: seq<QueuedWeighIn>, net: Network, k: nat, i: nat)
    requires Inv(p.world) && AllSeen(p.world, rs) && i < |p.world.queue|
    requires forall r | r in rs :: r.id != p.world.queue[i].id
    ensures var d := Drain(p, rs, net, k).world;
            Inv(d) && p.world.seen <= d.seen && |d.queue| == |p.world.queue| && d.queue[i] == p.world.queue[i]
    decreases |rs|
  {
    if rs != [] {
      assert rs[0] in rs && forall r | r in rs[1..] :: r in rs;
      var next := TryOne(p, rs[0], net.posts(k), net.photos(k), net.clock(k));
      OneTryElsewhere(p, rs[0], net.posts(k), net.photos(k), net.clock(k), i);
      DrainTouchesTried(next, rs[1..], net, k + 1, i);
    }
  }

  function Iterate<S, R>(s: S, rs: seq<R>, step: (S, R, nat) -> S, k: nat): S
    decreases |rs|
  {
    if rs == [] then s else Iterate(step(s, rs[0], k), rs[1..], step, k + 1)
  }

  lemma {:induction false} IterateSplits<S, R>(s: S, a: seq<R>, b: seq<R>, step: (S, R, nat) -> S, k: nat)
    ensures Iterate(s, a + b, step, k) == Iterate(Iterate(s, a, step, k), b, step, k + |a|)
    decreases |a|
  {
    if a == [] {
      assert a + b == b;
    } else {
      assert (a + b)[1..] == a[1..] + b;
      IterateSplits(step(s, a[0], k), a[1..], b, step, k + 1);
    }
  }

  /** One try, with the k-th answers. */
  function Trier(net: Network): (Progress, QueuedWeighIn, nat) -> Progress {
    (p: Progress, r: QueuedWeighIn, k: nat) => TryOne(p, r, net.posts(k), net.photos(k), net.clock(k))
  }

  lemma {:induction false} DrainIterates(p: Progress, rs: seq<QueuedWeighIn>, net: Network, k: nat)
    ensures Drain(p, rs, net, k) == Iterate(p, rs, Trier(net), k)
    decreases |rs|
  {
    if rs != [] { DrainIterates(TryOne(p, rs[0], net.posts(k), net.photos(k), net.clock(k)), rs[1..], net, k + 1); }
  }

  /** What the pass has done before it tries the k-th record. */
  function BeforeTry(w: World, net: Network, k: nat): Progress
    requires k <= |Pending(w.queue)|
  {
    Drain(Progress(w, NOTHING), Pending(w.queue)[..k], net, 0)
  }

  function AfterTries(w: World, net: Network): Progress {
    Drain(Progress(w, NOTHING), Pending(w.queue), net, 0)
  }

  /** The loop tries the records one after another, each with its own answers. */
  lemma TriedInTurn(start: Progress, rs: seq<QueuedWeighIn>, net: Network, k: nat)
    requires k <= |rs|
    ensures Drain(start, rs, net, 0) == Drain(Drain(start, rs[..k], net, 0), rs[k..], net, k)
  {
    assert rs == rs[..k] + rs[k..];
    DrainIterates(start, rs, net, 0);
    DrainIterates(start, rs[..k], net, 0);
    DrainIterates(Drain(start, rs[..k], net, 0), rs[k..], net, k);
    IterateSplits(start, rs[..k], rs[k..], Trier(net), 0);
  }

  lemma NotAmongOthers(rs: seq<QueuedWeighIn>, k: nat)
    requires UniqueIds(rs) && k < |rs|
    ensures forall r | r in rs[..k] :: r.id != rs[k].id
    ensures forall r | r in rs[k + 1..] :: r.id != rs[k].id
  {
    forall r | r in rs[..k] ensures r.id != rs[k].id {
      var j :| 0 <= j < k && rs[..k][j] == r;
      assert rs[j] == r;
    }
    forall r | r in rs[k + 1..] ensures r.id != rs[k].id {
      var j :| 0 <= j < |rs[k + 1..]| && rs[k + 1..][j] == r;
      assert rs[k + 1 + j] == r;
    }
  }

  /** The k-th unfinished record, oldest first, gets the verdict of the k-th post and
      photo, on the server as it then is; and keeps it to the end of the loop. */
  lemma RecordAfterTries(w: World, net: Network, k: nat, i: nat)
    requires Inv(w) && k < |Pending(w.queue)| && i < |w.queue| && w.queue[i] == Pending(w.queue)[k]
    ensures var before, after := BeforeTry(w, net, k).world, AfterTries(w, net).world;
            && |after.queue| == |w.queue| && i < |before.queue| && before.queue[i] == w.queue[i]
            && Verdict(w.queue[i], after.queue[i], before.rows, net.posts(k), net.photos(k), net.clock(k))
  {
    var rs := Pending(w.queue);
    PassStart(w);
    NotAmongOthers(rs, k);
    assert forall r | r in rs[..k] :: r in rs;
    DrainTouchesTried(Progress(w, NOTHING), rs[..k], net, 0, i);
    var p := BeforeTry(w, net, k);
    TryVerdict(p, i, net.posts(k), net.photos(k), net.clock(k));
    assert rs[k] in rs && forall r | r in rs[k + 1..] :: r in rs;
    TriedThen(p, rs[k], rs[k + 1..], net, k, i);
    TriedInTurn(Progress(w, NOTHING), rs, net, k);
    DrainFirst(p, rs, net, k);
  }

  lemma TriedThen(p: Progress, r: QueuedWeighIn, rest: seq<QueuedWeighIn>, net: Network, k: nat, i: nat)
    requires Inv(p.world) && i < |p.world.queue| && p.world.queue[i] == r && r in p.world.seen
    requires forall x | x in rest :: x in p.world.seen && x.id != r.id
    ensures var next := TryOne(p, r, net.posts(k), net.photos(k), net.clock(k));
            && i < |next.world.queue|
            && |Drain(next, rest, net, k + 1).world.queue| == |p.world.queue|
            && Drain(next, rest, net, k + 1).world.queue[i] == next.world.queue[i]
  {
    var next := TryOne(p, r, net.posts(k), net.photos(k), net.clock(k));
    var v := TryWrites(p, r, net.posts(k), net.photos(k), net.clock(k));
    TryIsRun(p, r, net.posts(k), net.photos(k), net.clock(k));
    ReachedKeepsInv(p.world, next.world);
    DrainTouchesTried(next, rest, net, k + 1, i);
  }

  /** The first loop leaves settled records as they are. */
  lemma SettledNotTried(w: World, net: Network, i: nat)
    requires Inv(w) && i < |w.queue| && !IsPending(w.queue[i])
    ensures |AfterTries(w, net).world.queue| == |w.queue| && AfterTries(w, net).world.queue[i] == w.queue[i]
  {
    var rs := Pending(w.queue);
    PassStart(w);
    PendingIs(w.queue);
    forall r | r in rs ensures r.id != w.queue[i].id {
      var j :| 0 <= j < |w.queue| && w.queue[j] == r;
    }
    DrainTouchesTried(Progress(w, NOTHING), rs, net, 0, i);
  }

  // ----- the second loop -----

  lemma SendElsewhere(p: Progress, r: QueuedWeighIn, send: PhotoSend, now: int, i: nat)
    requires OnServer(p.world, r) && i < |p.world.queue|
    ensures var u := SendOne(p, r, send, now).world; var c := p.world.queue[i];
            && |u.queue| == |p.world.queue| && p.world.seen <= u.seen && u.rows == p.world.rows
            && u.queue[i] == if c.id == r.id && Handed(send) then c.(photoUploadedAt := Some(now)) else c
  {
    SentOrNot(p, r, send, now);
  }

  lemma {:induction false} LateTouchesOwed(p: Progress, rs: seq<QueuedWeighIn>, net: Network, k: nat, i: nat)
    requires (forall r | r in rs :: OnServer(p.world, r)) && i < |p.world.queue|
    requires forall r | r in rs :: r.id != p.world.queue[i].id
    ensures var u := SendLate(p, rs, net, k).world; |u.queue| == |p.world.queue| && u.queue[i] == p.world.queue[i]
    decreases |rs|
  {
    if rs != [] {
      assert rs[0] in rs && forall r | r in rs[1..] :: r in rs;
      SendElsewhere(p, rs[0], net.latePhotos(k), net.lateClock(k), i);
      LateTouchesOwed(SendOne(p, rs[0], net.latePhotos(k), net.lateClock(k)), rs[1..], net, k + 1, i);
    }
  }

  /** A record that owed its photo has it marked sent, at the time of that turn, when
      the photo was stored and answered, and is otherwise as it was. */
  lemma {:induction false} LateRecord(p: Progress, rs: seq<QueuedWeighIn>, net: Network, k: nat, j: nat, i: nat)
    requires UniqueIds(rs) && (forall r | r in rs :: OnServer(p.world, r)) && i < |p.world.queue|
    requires j < |rs| && rs[j].id == p.world.queue[i].id
    ensures var u := SendLate(p, rs, net, k).world; var c := p.world.queue[i];
            && |u.queue| == |p.world.queue|
            && u.queue[i] == if Handed(net.latePhotos(k + j)) then c.(photoUploadedAt := Some(net.lateClock(k + j))) else c
    decreases |rs|
  {
    assert rs[0] in rs && forall r | r in rs[1..] :: r in rs;
    var next := SendOne(p, rs[0], net.latePhotos(k), net.lateClock(k));
    SendElsewhere(p, rs[0], net.latePhotos(k), net.lateClock(k), i);
    if j == 0 {
      NotAmongOthers(rs, 0);
      assert rs[0 + 1..] == rs[1..];
      LateTouchesOwed(next, rs[1..], net, k + 1, i);
    } else {
      assert rs[1..][j - 1] == rs[j];
      LateRecord(next, rs[1..], net, k + 1, j - 1, i);
    }
  }

  /** The second loop on one record: the j-th that owed its photo has it marked sent
      if that was handed over, and is otherwise left as the first loop left it. */
  lemma OwedAfterPass(w: World, net: Network, i: nat, j: nat)
    requires Inv(w) && i < |w.queue| == |AfterTries(w, net).world.queue|
    requires j < |LateOnes(w, net)| && LateOnes(w, net)[j].id == AfterTries(w, net).world.queue[i].id
    ensures var c := AfterTries(w, net).world.queue[i]; var u := Pass(w, true, net).world;
            && |u.queue| == |w.queue|
            && u.queue[i] == if Handed(net.latePhotos(j)) then c.(photoUploadedAt := Some(net.lateClock(j))) else c
  {
    AfterTriesIs(w, net, i);
    LateOnesAreOnServer(AfterTries(w, net).world);
    LateRecord(AfterTries(w, net), LateOnes(w, net), net, 0, j, i);
    BothLoops(w, net);
  }

  lemma BothLoops(w: World, net: Network)
    ensures Pass(w, true, net) == SendLate(AfterTries(w, net), LateOnes(w, net), net, 0)
  {
  }

  lemma AfterTriesIs(w: World, net: Network, i: nat)
    requires Inv(w) && i < |w.queue|
    ensures Inv(AfterTries(w, net).world) && |AfterTries(w, net).world.queue| == |w.queue|
  {
    DrainIsRun(Progress(w, NOTHING), Pending(w.queue), net, 0);
    ReachedKeepsInv(w, AfterTries(w, net).world);
    if IsPending(w.queue[i]) {
      PendingIs(w.queue);
      assert w.queue[i] in Pending(w.queue);
      var k :| 0 <= k < |Pending(w.queue)| && Pending(w.queue)[k] == w.queue[i];
      RecordAfterTries(w, net, k, i);
    } else {
      SettledNotTried(w, net, i);
    }
  }

  lemma {:induction false} LateKeepsLength(p: Progress, rs: seq<QueuedWeighIn>, net: Network, k: nat)
    ensures |SendLate(p, rs, net, k).world.queue| == |p.world.queue|
    decreases |rs|
  {
    if rs != [] { LateKeepsLength(SendOne(p, rs[0], net.latePhotos(k), net.lateClock(k)), rs[1..], net, k + 1); }
  }

  /** A record that owes no photo after the first loop is left as it is. */
  lemma NotOwedNotTouched(w: World, net: Network, i: nat)
    requires Inv(w) && i < |w.queue|
    ensures |Pass(w, true, net).world.queue| == |AfterTries(w, net).world.queue| == |w.queue|
    ensures !AwaitsPhoto(AfterTries(w, net).world.queue[i]) ==> Pass(w, true, net).world.queue[i] == AfterTries(w, net).world.queue[i]
  {
    AfterTriesIs(w, net, i);
    var d := AfterTries(w, net);
    var late := LateOnes(w, net);
    LateKeepsLength(d, late, net, 0);
    if !AwaitsPhoto(d.world.queue[i]) {
      LateOnesAreOnServer(d.world);
      OwedOnly(d.world, i);
      LateTouchesOwed(d, late, net, 0, i);
    }
  }

  lemma OwedOnly(w: World, i: nat)
    requires Inv(w) && i < |w.queue| && !AwaitsPhoto(w.queue[i])
    ensures forall r | r in PendingPhotos(w.queue) :: r.id != w.queue[i].id
  {
    PendingPhotosAre(w.queue);
    forall r | r in PendingPhotos(w.queue) ensures r.id != w.queue[i].id {
      var j :| 0 <= j < |w.queue| && w.queue[j] == r;
    }
  }
}
