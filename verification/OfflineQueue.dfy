/** The phone's queue: records are written as a whole list, selected by status,
    and dropped only by pruning. */
module OfflineQueue {
  import opened Wrappers
  import opened Sorting

  type RecordId = nat
  type Hash = nat
  type EventId = nat
  type Signature = nat
  type Uri = nat

  datatype QueueStatus = Queued | Syncing | Synced | Rejected

  /** A record; the payload stands for itself by its hash. */
  datatype QueuedWeighIn = QueuedWeighIn(
    id: RecordId,
    payload: Hash,
    signature: Signature,
    photoUri: Option<Uri>,
    photoUploadedAt: Option<int>,
    status: QueueStatus,
    attempts: nat,
    createdAt: int,
    syncedAt: Option<int>,
    serverEventId: Option<EventId>)

  /** What is fixed when the weigh-in is captured. */
  datatype Capture = Capture(payload: Hash, signature: Signature, photoUri: Option<Uri>, createdAt: int)

  function CaptureOf(r: QueuedWeighIn): Capture {
    Capture(r.payload, r.signature, r.photoUri, r.createdAt)
  }

  /** The fields that a call to update may name. */
  datatype Patch = Patch(
    status: Option<QueueStatus> := None,
    attempts: Option<nat> := None,
    photoUploadedAt: Option<Option<int>> := None,
    syncedAt: Option<Option<int>> := None,
    serverEventId: Option<Option<EventId>> := None)

  function Or<T>(patched: Option<T>, before: T): T {
    if patched.Some? then patched.value else before
  }

  function Patched(r: QueuedWeighIn, p: Patch): QueuedWeighIn {
    r.(status := Or(p.status, r.status),
       attempts := Or(p.attempts, r.attempts),
       photoUploadedAt := Or(p.photoUploadedAt, r.photoUploadedAt),
       syncedAt := Or(p.syncedAt, r.syncedAt),
       serverEventId := Or(p.serverEventId, r.serverEventId))
  }

  function PatchOne(r: QueuedWeighIn, id: RecordId, p: Patch): QueuedWeighIn {
    if r.id == id then Patched(r, p) else r
  }

  function Update(q: seq<QueuedWeighIn>, id: RecordId, p: Patch): (u: seq<QueuedWeighIn>)
    ensures |u| == |q| && forall i | 0 <= i < |q| :: u[i] == PatchOne(q[i], id, p)
  {
    seq(|q|, i requires 0 <= i < |q| => PatchOne(q[i], id, p))
  }

  function Filter(q: seq<QueuedWeighIn>, keep: QueuedWeighIn -> bool): (r: seq<QueuedWeighIn>)
    ensures |r| <= |q|
    ensures forall x :: x in r <==> x in q && keep(x)
  {
    if q == [] then []
    else
      var n := |q| - 1;
      assert q == q[..n] + [q[n]];
      Filter(q[..n], keep) + if keep(q[n]) then [q[n]] else []
  }

  function CreatedAt(r: QueuedWeighIn): seq<int> {
    [r.createdAt]
  }

  predicate IsPending(r: QueuedWeighIn) {
    r.status.Queued? || r.status.Syncing?
  }

  predicate AwaitsPhoto(r: QueuedWeighIn) {
    r.status.Synced? && r.serverEventId.Some? && r.photoUri.Some? && r.photoUploadedAt.None?
  }

  function Pending(q: seq<QueuedWeighIn>): seq<QueuedWeighIn> {
    Sort(Filter(q, IsPending), CreatedAt)
  }

  function PendingPhotos(q: seq<QueuedWeighIn>): seq<QueuedWeighIn> {
    Sort(Filter(q, AwaitsPhoto), CreatedAt)
  }

  const DAY_MS := 86_400_000

  predicate Kept(r: QueuedWeighIn, cutoff: int) {
    !(r.status.Synced? && !(r.photoUri.Some? && r.photoUploadedAt.None?) && r.createdAt < cutoff)
  }

  function Prune(q: seq<QueuedWeighIn>, cutoff: int): (kept: seq<QueuedWeighIn>)
    ensures forall x :: x in kept <==> x in q && Kept(x, cutoff)
  {
    Filter(q, x => Kept(x, cutoff))
  }

  predicate UniqueIds(q: seq<QueuedWeighIn>) {
    forall i, j | 0 <= i < j < |q| :: q[i].id != q[j].id
  }

  function One(b: bool): nat {
    if b then 1 else 0
  }

  function CountIf(q: seq<QueuedWeighIn>, f: QueuedWeighIn -> bool): nat {
    if q == [] then 0 else CountIf(q[..|q| - 1], f) + One(f(q[|q| - 1]))
  }

  function HasStatus(s: QueueStatus): QueuedWeighIn -> bool {
    (r: QueuedWeighIn) => r.status == s
  }

  /** How many records have this status. */
  function Tally(q: seq<QueuedWeighIn>, s: QueueStatus): nat {
    CountIf(q, HasStatus(s))
  }

  predicate PhotoSent(r: QueuedWeighIn) {
    r.status.Synced? && r.photoUploadedAt.Some?
  }

  /** How many records are synced with their photo. */
  function SentTally(q: seq<QueuedWeighIn>): nat {
    CountIf(q, PhotoSent)
  }

  // ----- properties -----

  lemma {:induction false} CountOthers(q: seq<QueuedWeighIn>, id: RecordId, p: Patch, f: QueuedWeighIn -> bool)
    requires forall r | r in q :: f(PatchOne(r, id, p)) == f(r)
    ensures CountIf(Update(q, id, p), f) == CountIf(q, f)
  {
    if q != [] {
      var n := |q| - 1;
      assert q[n] in q && forall r | r in q[..n] :: r in q;
      assert Update(q, id, p)[..n] == Update(q[..n], id, p);
      CountOthers(q[..n], id, p, f);
    }
  }

  /** An update can change the count by no other record than the one it patches. */
  lemma {:induction false} CountMoves(q: seq<QueuedWeighIn>, id: RecordId, p: Patch, i: nat, f: QueuedWeighIn -> bool)
    requires UniqueIds(q) && i < |q| && q[i].id == id
    ensures CountIf(Update(q, id, p), f) + One(f(q[i])) == CountIf(q, f) + One(f(Patched(q[i], p)))
  {
    var n := |q| - 1;
    assert Update(q, id, p)[..n] == Update(q[..n], id, p);
    if i < n {
      CountMoves(q[..n], id, p, i, f);
    } else {
      forall r | r in q[..n] ensures PatchOne(r, id, p) == r {
        var j :| 0 <= j < n && q[..n][j] == r;
        assert q[j] == r;
      }
      CountOthers(q[..n], id, p, f);
    }
  }

  lemma {:induction false} PendingTally(q: seq<QueuedWeighIn>)
    ensures |Pending(q)| == Tally(q, Queued) + Tally(q, Syncing)
  {
    FilterTally(q);
  }

  lemma {:induction false} FilterTally(q: seq<QueuedWeighIn>)
    ensures |Filter(q, IsPending)| == Tally(q, Queued) + Tally(q, Syncing)
  {
    if q != [] { FilterTally(q[..|q| - 1]); }
  }

  lemma {:induction false} NoneTallied(q: seq<QueuedWeighIn>, s: QueueStatus)
    requires forall r | r in q :: r.status != s
    ensures Tally(q, s) == 0
  {
    if q != [] {
      var n := |q| - 1;
      assert q[n] in q;
      NoneTallied(q[..n], s);
    }
  }

  lemma {:induction false} FilterKeepsUnique(q: seq<QueuedWeighIn>, keep: QueuedWeighIn -> bool)
    requires UniqueIds(q)
    ensures UniqueIds(Filter(q, keep))
  {
    if q != [] {
      var n := |q| - 1;
      FilterKeepsUnique(q[..n], keep);
      var before := Filter(q[..n], keep);
      forall i | 0 <= i < |before| ensures before[i].id != q[n].id {
        assert before[i] in before;
        var j :| 0 <= j < n && q[..n][j] == before[i];
        assert q[j] == before[i];
      }
    }
  }

  function IdKey(r: QueuedWeighIn): seq<int> {
    [r.id]
  }

  lemma UniqueIsDistinct(q: seq<QueuedWeighIn>)
    ensures UniqueIds(q) <==> DistinctKeys(q, IdKey)
  {
    assert forall i | 0 <= i < |q| :: IdKey(q[i])[0] == q[i].id;
    if DistinctKeys(q, IdKey) {
      forall i, j | 0 <= i < j < |q| ensures q[i].id != q[j].id {
        assert IdKey(q[i]) != IdKey(q[j]);
      }
    }
  }

  /** Choosing keeps the order. */
  lemma {:induction false} FilterSplits(a: seq<QueuedWeighIn>, b: seq<QueuedWeighIn>, keep: QueuedWeighIn -> bool)
    ensures Filter(a + b, keep) == Filter(a, keep) + Filter(b, keep)
  {
    if b == [] {
      assert a + b == a;
    } else {
      var n := |b| - 1;
      assert (a + b)[..|a + b| - 1] == a + b[..n];
      FilterSplits(a, b[..n], keep);
    }
  }

  /** A patch sets the fields it names and no others; the record's id and what was
      captured are not among them. */
  lemma PatchedIs(r: QueuedWeighIn, p: Patch)
    ensures var u := Patched(r, p);
            && u.id == r.id && CaptureOf(u) == CaptureOf(r)
            && u.status == (if p.status.Some? then p.status.value else r.status)
            && u.attempts == (if p.attempts.Some? then p.attempts.value else r.attempts)
            && u.photoUploadedAt == (if p.photoUploadedAt.Some? then p.photoUploadedAt.value else r.photoUploadedAt)
            && u.syncedAt == (if p.syncedAt.Some? then p.syncedAt.value else r.syncedAt)
            && u.serverEventId == (if p.serverEventId.Some? then p.serverEventId.value else r.serverEventId)
  {
  }

  predicate OldestFirst(q: seq<QueuedWeighIn>) {
    forall i, j | 0 <= i < j < |q| :: q[i].createdAt <= q[j].createdAt
  }

  lemma SortedIsOldestFirst(q: seq<QueuedWeighIn>)
    ensures Sorted(q, CreatedAt) <==> OldestFirst(q)
  {
    forall i, j | 0 <= i < j < |q| ensures LexLe(CreatedAt(q[i]), CreatedAt(q[j])) <==> q[i].createdAt <= q[j].createdAt {
      assert CreatedAt(q[i])[1..] == [] && CreatedAt(q[j])[1..] == [];
    }
    if Sorted(q, CreatedAt) {
      forall i, j | 0 <= i < j < |q| ensures q[i].createdAt <= q[j].createdAt {
        assert LexLe(CreatedAt(q[i]), CreatedAt(q[j]));
      }
    }
  }

  /** Those of one moment, in the order they have. */
  function AtMoment(q: seq<QueuedWeighIn>, t: int): seq<QueuedWeighIn> {
    if q == [] then [] else (if q[0].createdAt == t then [q[0]] else []) + AtMoment(q[1..], t)
  }

  lemma {:induction false} AmongMoment(q: seq<QueuedWeighIn>, t: int)
    ensures Among(q, CreatedAt, [t]) == AtMoment(q, t)
  {
    if q != [] {
      AmongMoment(q[1..], t);
      assert CreatedAt(q[0]) == [t] <==> q[0].createdAt == t;
    }
  }

  lemma TiesKeepOrder(q: seq<QueuedWeighIn>, t: int)
    ensures AtMoment(Sort(q, CreatedAt), t) == AtMoment(q, t)
  {
    SortStable(q, CreatedAt, [t]);
    AmongMoment(q, t);
    AmongMoment(Sort(q, CreatedAt), t);
  }

  lemma SortedUniqueIds(q: seq<QueuedWeighIn>)
    requires UniqueIds(q)
    ensures UniqueIds(Sort(q, CreatedAt))
  {
    UniqueIsDistinct(q);
    DistinctAfterPermutation(q, Sort(q, CreatedAt), IdKey);
    UniqueIsDistinct(Sort(q, CreatedAt));
  }

  /** The records to be tried: each of the unfinished ones once, oldest first, and
      those of one moment in the order in which they were captured. */
  lemma PendingIs(q: seq<QueuedWeighIn>)
    ensures forall r :: r in Pending(q) <==> r in q && (r.status == Queued || r.status == Syncing)
    ensures OldestFirst(Pending(q)) && Sorted(Pending(q), CreatedAt)
    ensures forall t :: AtMoment(Pending(q), t) == AtMoment(Filter(q, IsPending), t)
    ensures UniqueIds(q) ==> UniqueIds(Pending(q))
  {
    var chosen := Filter(q, IsPending);
    InSort(chosen, CreatedAt);
    SortSorted(chosen, CreatedAt);
    SortedIsOldestFirst(Pending(q));
    forall t ensures AtMoment(Pending(q), t) == AtMoment(chosen, t) {
      TiesKeepOrder(chosen, t);
    }
    if UniqueIds(q) {
      FilterKeepsUnique(q, IsPending);
      SortedUniqueIds(chosen);
    }
  }

  lemma PendingPhotosAre(q: seq<QueuedWeighIn>)
    ensures forall r :: r in PendingPhotos(q) <==>
              r in q && r.status == Synced && r.serverEventId != None && r.photoUri != None && r.photoUploadedAt == None
    ensures OldestFirst(PendingPhotos(q)) && Sorted(PendingPhotos(q), CreatedAt)
    ensures UniqueIds(q) ==> UniqueIds(PendingPhotos(q))
  {
    var chosen := Filter(q, AwaitsPhoto);
    InSort(chosen, CreatedAt);
    SortSorted(chosen, CreatedAt);
    SortedIsOldestFirst(PendingPhotos(q));
    if UniqueIds(q) {
      FilterKeepsUnique(q, AwaitsPhoto);
      SortedUniqueIds(chosen);
    }
  }

  /** What pruning keeps: all but the synced records of before the cutoff that owe no
      photo. */
  lemma PruneIs(q: seq<QueuedWeighIn>, cutoff: int)
    ensures forall r :: r in Prune(q, cutoff) <==>
              r in q && !(r.status == Synced && (r.photoUri == None || r.photoUploadedAt != None) && r.createdAt < cutoff)
  {
  }

  // ----- the code -----

  class KeyValueStore {
    var records: seq<QueuedWeighIn>

    constructor ()
      ensures records == []
    {
      records := [];
    }

    method EnqueueRecord(record: QueuedWeighIn)
      modifies this
      ensures records == old(records) + [record]
    {
      records := records + [record];
    }

    method UpdateRecord(id: RecordId, patch: Patch)
      modifies this
      ensures records == Update(old(records), id, patch)
    {
      var written: seq<QueuedWeighIn> := [];
      for i := 0 to |records|
        invariant written == Update(records, id, patch)[..i]
        invariant records == old(records)
      {
        written := written + [if records[i].id == id then Patched(records[i], patch) else records[i]];
      }
      records := written;
    }

    method ReadPending() returns (r: seq<QueuedWeighIn>)
      ensures forall x :: x in r <==> x in records && (x.status == Queued || x.status == Syncing)
      ensures OldestFirst(r) && |r| == Tally(records, Queued) + Tally(records, Syncing)
      ensures UniqueIds(records) ==> UniqueIds(r)
      ensures r == Pending(records)
    {
      PendingIs(records);
      PendingTally(records);
      r := Sort(Filter(records, IsPending), CreatedAt);
    }

    method ReadPendingPhotos() returns (r: seq<QueuedWeighIn>)
      ensures forall x :: x in r <==>
                x in records && x.status == Synced && x.serverEventId != None && x.photoUri != None && x.photoUploadedAt == None
      ensures OldestFirst(r)
      ensures UniqueIds(records) ==> UniqueIds(r)
      ensures r == PendingPhotos(records)
    {
      PendingPhotosAre(records);
      r := Sort(Filter(records, AwaitsPhoto), CreatedAt);
    }

    method Counts() returns (queued: nat, syncing: nat, synced: nat, rejected: nat)
      ensures queued == Tally(records, Queued) && syncing == Tally(records, Syncing)
      ensures synced == Tally(records, Synced) && rejected == Tally(records, Rejected)
    {
      queued, syncing, synced, rejected := 0, 0, 0, 0;
      for i := 0 to |records|
        invariant queued == Tally(records[..i], Queued) && syncing == Tally(records[..i], Syncing)
        invariant synced == Tally(records[..i], Synced) && rejected == Tally(records[..i], Rejected)
      {
        assert records[..i + 1][..i] == records[..i];
        match records[i].status
        case Queued => queued := queued + 1;
        case Syncing => syncing := syncing + 1;
        case Synced => synced := synced + 1;
        case Rejected => rejected := rejected + 1;
      }
      assert records[..|records|] == records;
    }

    /** Answers how many records were dropped. */
    method PruneSynced(now: int, olderThanDays: nat) returns (dropped: nat)
      modifies this
      ensures records == Prune(old(records), now - olderThanDays * DAY_MS)
      ensures forall r :: r in records <==>
                r in old(records) && !(r.status == Synced && (r.photoUri == None || r.photoUploadedAt != None)
                                       && r.createdAt < now - olderThanDays * 86_400_000)
      ensures dropped == |old(records)| - |records|
    {
      var cutoff := now - olderThanDays * DAY_MS;
      var kept: seq<QueuedWeighIn> := [];
      for i := 0 to |records|
        invariant kept == Prune(records[..i], cutoff)
        invariant records == old(records)
      {
        assert records[..i + 1][..i] == records[..i];
        if Kept(records[i], cutoff) { kept := kept + [records[i]]; }
      }
      assert records[..|records|] == records;
      dropped := |records| - |kept|;
      if |kept| != |records| {
        records := kept;
      } else {
        KeptAll(records, cutoff);
      }
    }
  }

  /** When nothing was dropped the kept list is the list that was read. */
  lemma {:induction false} KeptAll(q: seq<QueuedWeighIn>, cutoff: int)
    requires |Prune(q, cutoff)| == |q|
    ensures Prune(q, cutoff) == q
  {
    FilterAll(q, x => Kept(x, cutoff));
  }

  lemma {:induction false} FilterAll(q: seq<QueuedWeighIn>, keep: QueuedWeighIn -> bool)
    requires |Filter(q, keep)| == |q|
    ensures Filter(q, keep) == q
  {
    if q != [] {
      var before, last := q[..|q| - 1], q[|q| - 1];
      assert q == before + [last];
      FilterAll(before, keep);
    }
  }
}
