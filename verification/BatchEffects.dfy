/** Each call on a batch, spelled out: when it is accepted, why it is refused, and
    every row that it writes. */
module BatchEffects {
  import opened Wrappers
  import opened Sorting
  import opened AnchorBackoff
  import opened Batches
  import Lifecycle
  import Merkle

  /** Some event has this id, is in no batch, is clean, and is of this hub. */
  predicate Available(t: Tables, id: EventId, hub: HubId) {
    exists i :: 0 <= i < |t.events| && t.events[i].id == id && t.events[i].batch == None
             && !t.events[i].quarantined && t.events[i].hub == hub
  }

  predicate AllAvailable(t: Tables, ids: seq<EventId>, hub: HubId) {
    forall id | id in ids :: Available(t, id, hub)
  }

  /** An available event that is named is of another material. */
  predicate Mismatched(t: Tables, ids: seq<EventId>, hub: HubId, material: Material) {
    exists i :: 0 <= i < |t.events| && t.events[i].id in ids && t.events[i].batch == None
             && !t.events[i].quarantined && t.events[i].hub == hub && t.events[i].material != material
  }

  // ----- opening a batch -----

  lemma CreateEffect(t: Tables, hub: HubId, material: Material, offered: bool)
    ensures Transition(t, Create(hub, material, offered))
         == if offered then Ok(t.(batches := t.batches + [Batch(hub, material, Open, 0, 0, None, None)]))
            else Err(MaterialNotOffered)
  {
  }

  lemma IngestEffect(t: Tables, e: Event)
    ensures Transition(t, Ingest(e)).Ok? <==> forall f | f in t.events :: f.id != e.id && f.payloadHash != e.payloadHash
    ensures Step(t, Ingest(e)).batches == t.batches && Step(t, Ingest(e)).anchors == t.anchors
    ensures Step(t, Ingest(e)).events == t.events + if Transition(t, Ingest(e)).Ok? then [e.(batch := None)] else []
  {
    assert t.events + [] == t.events;
  }

  // ----- membership -----

  lemma EligibleIsAvailable(t: Tables, ids: seq<EventId>, batch: Batch)
    ensures AllEligible(t.events, ids, batch) <==> AllAvailable(t, ids, batch.hub)
    ensures !AllOfMaterial(t.events, ids, batch) <==> Mismatched(t, ids, batch.hub, batch.material)
  {
    if AllEligible(t.events, ids, batch) {
      forall id | id in ids ensures Available(t, id, batch.hub) {
        var e :| e in t.events && e.id == id && Eligible(e, batch);
        var i :| 0 <= i < |t.events| && t.events[i] == e;
      }
    }
    if AllAvailable(t, ids, batch.hub) {
      forall id | id in ids ensures exists e :: e in t.events && e.id == id && Eligible(e, batch) {
        assert Available(t, id, batch.hub);
      }
    }
  }

  /** A call to add events is taken or refused as a whole; the first reason that
      applies is given. */
  lemma AddAnswers(t: Tables, b: BatchId, ids: seq<EventId>)
    ensures b >= |t.batches| ==> Transition(t, AddEvents(b, ids)) == Err(BatchNotFound)
    ensures b < |t.batches| && t.batches[b].status != Open ==> Transition(t, AddEvents(b, ids)) == Err(NotOpen)
    ensures b < |t.batches| && t.batches[b].status == Open ==>
              var batch := t.batches[b]; var r := Transition(t, AddEvents(b, ids));
              && (!AllAvailable(t, ids, batch.hub) ==> r == Err(NotEligible))
              && (AllAvailable(t, ids, batch.hub) && Mismatched(t, ids, batch.hub, batch.material) ==> r == Err(MaterialMismatch))
              && (AllAvailable(t, ids, batch.hub) && !Mismatched(t, ids, batch.hub, batch.material) ==> r.Ok?)
  {
    if b < |t.batches| { EligibleIsAvailable(t, ids, t.batches[b]); }
  }

  /** One row of one batch is changed in its totals, which are those of the members
      there now are; every other row of every table stays, but for the events'
      membership. */
  predicate TotalsFollow(t: Tables, u: Tables, b: BatchId) {
    && |u.events| == |t.events| && |u.batches| == |t.batches| && b < |t.batches|
    && u.anchors == t.anchors && u.attempts == t.attempts
    && (forall c | 0 <= c < |t.batches| && c != b :: u.batches[c] == t.batches[c])
    && u.batches[b] == t.batches[b].(totalGrams := Weight(Members(u.events, Some(b))),
                                     eventCount := |Members(u.events, Some(b))|)
  }

  /** The events named, and no others, become members; nothing else about them
      changes. */
  lemma AddEffect(t: Tables, b: BatchId, ids: seq<EventId>)
    requires UniqueIds(t.events) && Transition(t, AddEvents(b, ids)).Ok?
    ensures var u := Step(t, AddEvents(b, ids));
            && TotalsFollow(t, u, b)
            && forall i | 0 <= i < |t.events| ::
                 u.events[i] == if t.events[i].id in ids then t.events[i].(batch := Some(b)) else t.events[i]
  {
    AddFacts(t, b, ids);
    forall i | 0 <= i < |t.events| && t.events[i].id in ids ensures t.events[i].batch.None? {
      Lifecycle.NamedIsEligible(t, b, ids, t.events[i].id);
    }
  }

  predicate IsMember(t: Tables, b: BatchId, id: EventId) {
    exists i :: 0 <= i < |t.events| && t.events[i].id == id && t.events[i].batch == Some(b)
  }

  lemma RemoveAnswers(t: Tables, b: BatchId, id: EventId)
    ensures b >= |t.batches| ==> Transition(t, RemoveEvent(b, id)) == Err(BatchNotFound)
    ensures b < |t.batches| && t.batches[b].status != Open ==> Transition(t, RemoveEvent(b, id)) == Err(NotOpen)
    ensures b < |t.batches| && t.batches[b].status == Open ==>
              var r := Transition(t, RemoveEvent(b, id));
              if IsMember(t, b, id) then r.Ok? else r == Err(EventNotInBatch)
  {
    if IsMember(t, b, id) {
      var i :| 0 <= i < |t.events| && t.events[i].id == id && t.events[i].batch == Some(b);
      assert t.events[i] in t.events;
    }
  }

  lemma RemoveEffect(t: Tables, b: BatchId, id: EventId)
    requires Transition(t, RemoveEvent(b, id)).Ok?
    ensures var u := Step(t, RemoveEvent(b, id));
            && TotalsFollow(t, u, b)
            && forall i | 0 <= i < |t.events| ::
                 u.events[i] == if t.events[i].id == id && t.events[i].batch == Some(b) then t.events[i].(batch := None) else t.events[i]
  {
    RemoveFacts(t, b, id);
  }

  // ----- sealing and what follows -----

  /** The members by capture time, and by id where those are equal. */
  lemma OrderedIs(t: Tables, b: BatchId)
    requires UniqueIds(t.events)
    ensures forall e :: e in Ordered(t.events, b) <==> e in t.events && e.batch == Some(b)
    ensures forall i, j | 0 <= i < j < |Ordered(t.events, b)| ::
              var x, y := Ordered(t.events, b)[i], Ordered(t.events, b)[j];
              x.capturedAt < y.capturedAt || (x.capturedAt == y.capturedAt && x.id < y.id)
  {
    var ms, o := Members(t.events, Some(b)), Ordered(t.events, b);
    InSort(ms, EventOrder);
    SortSorted(ms, EventOrder);
    Lifecycle.MembersUnique(t.events, Some(b));
    DistinctAfterPermutation(ms, o, Lifecycle.IdOrder);
    forall i, j | 0 <= i < j < |o|
      ensures o[i].capturedAt < o[j].capturedAt || (o[i].capturedAt == o[j].capturedAt && o[i].id < o[j].id)
    {
      assert LexLe(EventOrder(o[i]), EventOrder(o[j])) && Lifecycle.IdOrder(o[i]) != Lifecycle.IdOrder(o[j]);
      PairOrder(o[i].capturedAt, o[i].id, o[j].capturedAt, o[j].id);
    }
  }

  lemma PairOrder(a: int, b: int, c: int, d: int)
    ensures LexLe([a, b], [c, d]) <==> a < c || (a == c && b <= d)
  {
    SingleOrder(b, d);
    assert [a, b][1..] == [b] && [c, d][1..] == [d];
  }

  predicate HasQuarantined(t: Tables, b: BatchId) {
    exists i :: 0 <= i < |t.events| && t.events[i].batch == Some(b) && t.events[i].quarantined
  }

  lemma QuarantinedInOrder(t: Tables, b: BatchId)
    ensures (exists e :: e in Ordered(t.events, b) && e.quarantined) <==> HasQuarantined(t, b)
  {
    var ms, o := Members(t.events, Some(b)), Ordered(t.events, b);
    InSort(ms, EventOrder);
    if HasQuarantined(t, b) {
      var i :| 0 <= i < |t.events| && t.events[i].batch == Some(b) && t.events[i].quarantined;
      assert t.events[i] in ms && t.events[i] in o;
    }
    if e :| e in o && e.quarantined {
      assert e in ms && e in t.events;
      var i :| 0 <= i < |t.events| && t.events[i] == e;
    }
  }

  lemma SealAnswers(t: Tables, b: BatchId, now: int)
    ensures b >= |t.batches| ==> Transition(t, Seal(b, now)) == Err(BatchNotFound)
    ensures b < |t.batches| && t.batches[b].status != Open ==> Transition(t, Seal(b, now)) == Err(NotOpen)
    ensures b < |t.batches| && t.batches[b].status == Open ==>
              var r := Transition(t, Seal(b, now));
              if Members(t.events, Some(b)) == [] then r == Err(EmptyBatch)
              else if HasQuarantined(t, b) then r == Err(ContainsQuarantined) else r.Ok?
  {
    if b < |t.batches| && t.batches[b].status == Open {
      QuarantinedInOrder(t, b);
      NoMembersNoOrder(t, b);
      SealByOrdered(t, b, now, Ordered(t.events, b), HasQuarantined(t, b));
    }
  }

  lemma NoMembersNoOrder(t: Tables, b: BatchId)
    ensures Ordered(t.events, b) == [] <==> Members(t.events, Some(b)) == []
  {
  }

  lemma SealByOrdered(t: Tables, b: BatchId, now: int, ordered: seq<Event>, quarantined: bool)
    requires ordered == Ordered(t.events, b) && b < |t.batches| && t.batches[b].status == Open
    requires quarantined <==> exists e :: e in ordered && e.quarantined
    ensures var r := Transition(t, Seal(b, now));
            if ordered == [] then r == Err(EmptyBatch) else if quarantined then r == Err(ContainsQuarantined) else r.Ok?
  {
  }

  /** Sealing writes the root over the ordered members, their weight and number, and
      the time; and nothing else. */
  lemma SealEffect(t: Tables, b: BatchId, now: int)
    requires Transition(t, Seal(b, now)).Ok?
    ensures var u := Step(t, Seal(b, now)); var ms := Members(t.events, Some(b));
            && b < |t.batches| == |u.batches| && Ordered(t.events, b) != []
            && u == t.(batches := u.batches) && (forall c | 0 <= c < |t.batches| && c != b :: u.batches[c] == t.batches[c])
            && u.batches[b] == Batch(t.batches[b].hub, t.batches[b].material, Sealed, Weight(ms), |ms|,
                                     Some(Merkle.RfcRoot(LeavesOf(Ordered(t.events, b)))), Some(now))
  {
    SealFacts(t, b, now);
    WeightPermuted(Ordered(t.events, b), Members(t.events, Some(b)));
  }

  /** The only steps are from sealed to processed, with a root, and on to sold. */
  lemma AdvanceAnswers(t: Tables, b: BatchId, to: Status)
    ensures b >= |t.batches| ==> Transition(t, Advance(b, to)) == Err(BatchNotFound)
    ensures b < |t.batches| ==>
              var from, r := t.batches[b].status, Transition(t, Advance(b, to));
              && (from == Open && to == Sealed ==> r == Err(SealedOnlyBySeal))
              && (from == Sealed && to == Processed && t.batches[b].merkleRoot.None? ==> r == Err(NotSealed))
              && (!(from == Open && to == Sealed) && !(from == Sealed && to == Processed) && !(from == Processed && to == Sold) ==>
                    r == Err(IllegalTransition))
              && (r.Ok? <==> ((from == Sealed && to == Processed && t.batches[b].merkleRoot.Some?)
                              || (from == Processed && to == Sold)))
              && (r.Ok? ==> r.value == t.(batches := t.batches[b := t.batches[b].(status := to)]))
  {
  }

  // ----- anchoring -----

  predicate SealedUnder(t: Tables, b: BatchId, root: Merkle.Digest) {
    b < |t.batches| && t.batches[b].status != Open && t.batches[b].merkleRoot == Some(root)
  }

  predicate Used(t: Tables, a: Anchor) {
    exists c :: c in t.anchors && t.anchors[c].txHash == a.txHash
  }

  predicate Unsealed(t: Tables, b: BatchId) {
    b < |t.batches| && (t.batches[b].status == Open || t.batches[b].merkleRoot.None?)
  }

  lemma AnchorAnswers(t: Tables, b: BatchId, a: Anchor, now: int)
    ensures var r := Transition(t, RecordAnchor(b, a, now));
            && (b >= |t.batches| ==> r == Err(BatchNotFound))
            && (Unsealed(t, b) ==> r == Err(NotSealed))
            && (b < |t.batches| && !Unsealed(t, b) && !SealedUnder(t, b, a.merkleRoot) ==> r == Err(RootMismatch))
            && (SealedUnder(t, b, a.merkleRoot) && b in t.anchors ==>
                  r == if t.anchors[b].txHash == a.txHash then Ok(t) else Err(AlreadyAnchored))
            && (SealedUnder(t, b, a.merkleRoot) && b !in t.anchors && Used(t, a) ==> r == Err(TransactionAlreadyUsed))
            && (SealedUnder(t, b, a.merkleRoot) && b !in t.anchors && !Used(t, a) ==> r.Ok?)
  {
  }

  /** The batch's history with one more attempt, numbered one up; nobody else's
      changes. */
  predicate OneMoreAttempt(t: Tables, u: Tables, b: BatchId, o: Outcome, now: int) {
    && u.events == t.events && u.batches == t.batches
    && u.attempts.Keys == t.attempts.Keys + {b}
    && (b in t.attempts ==> u.attempts[b] == t.attempts[b] + [Attempt(|t.attempts[b]| + 1, o, now)])
    && (b !in t.attempts ==> u.attempts[b] == [Attempt(1, o, now)])
    && forall c | c in t.attempts && c != b :: u.attempts[c] == t.attempts[c]
  }

  lemma AnchorEffect(t: Tables, b: BatchId, a: Anchor, now: int)
    requires SealedUnder(t, b, a.merkleRoot) && b !in t.anchors && !Used(t, a)
    ensures var u := Step(t, RecordAnchor(b, a, now));
            u.anchors == t.anchors[b := a] && OneMoreAttempt(t, u, b, Succeeded, now)
  {
  }

  lemma FailureAnswers(t: Tables, b: BatchId, unverified: bool, now: int)
    ensures var r := Transition(t, RecordFailure(b, unverified, now));
            && (b >= |t.batches| ==> r == Err(BatchNotFound))
            && (Unsealed(t, b) ==> r == Err(NotSealed))
            && (b < |t.batches| && !Unsealed(t, b) && b in t.anchors ==> r == Err(AlreadyAnchored))
            && (b < |t.batches| && !Unsealed(t, b) && b !in t.anchors ==>
                  && r.Ok? && r.value.anchors == t.anchors
                  && OneMoreAttempt(t, r.value, b, if unverified then Unverified else Failed, now))
  {
  }

  // ----- the worker's list -----

  /** When a sealed batch was sealed. */
  function SealedAt(t: Tables, b: BatchId): int {
    if b < |t.batches| && t.batches[b].sealedAt.Some? then t.batches[b].sealedAt.value else 0
  }

  /** The batches offered are those sealed, with a root, not anchored and due, each
      once. */
  lemma OffersAre(t: Tables, now: int)
    ensures forall b: BatchId :: b in Lifecycle.PendingAnchor(t, now) <==>
              && b < |t.batches| && t.batches[b].status == Sealed && t.batches[b].merkleRoot.Some?
              && b !in t.anchors && Lifecycle.Due(t, b, now)
    ensures var offers := Lifecycle.PendingAnchor(t, now);
            forall i, j | 0 <= i < j < |offers| :: offers[i] != offers[j]
  {
    forall b: BatchId ensures b in Lifecycle.PendingAnchor(t, now) <==> Lifecycle.Awaits(t, b) && Lifecycle.Due(t, b, now) {
      Lifecycle.OfferedExactlyWhenDue(t, b, now);
    }
    Lifecycle.OfferedOnceOldestFirst(t, now);
    var offers := Lifecycle.PendingAnchor(t, now);
    forall i, j | 0 <= i < j < |offers| ensures offers[i] != offers[j] {
      assert Lifecycle.IdKey(offers[i]) != Lifecycle.IdKey(offers[j]);
    }
  }

  /** None is offered before one that was sealed earlier. */
  lemma OffersInSealOrder(t: Tables, now: int, offers: seq<BatchId>, i: nat, j: nat)
    requires Inv(t) && offers == Lifecycle.PendingAnchor(t, now) && i < j < |offers|
    ensures SealedAt(t, offers[i]) <= SealedAt(t, offers[j])
  {
    Lifecycle.OfferedOnceOldestFirst(t, now);
    OfferHasTime(t, now, offers, i);
    OfferHasTime(t, now, offers, j);
    SortedAt(t, offers, i, j);
    SingleOrder(SealedAt(t, offers[i]), SealedAt(t, offers[j]));
  }

  lemma SortedAt(t: Tables, offers: seq<BatchId>, i: nat, j: nat)
    requires Sorted(offers, Lifecycle.SealTime(t.batches)) && i < j < |offers|
    ensures LexLe(Lifecycle.SealTime(t.batches)(offers[i]), Lifecycle.SealTime(t.batches)(offers[j]))
  {
  }

  lemma OfferHasTime(t: Tables, now: int, offers: seq<BatchId>, i: nat)
    requires BatchesFit(t) && offers == Lifecycle.PendingAnchor(t, now) && i < |offers|
    ensures Lifecycle.SealTime(t.batches)(offers[i]) == [SealedAt(t, offers[i])]
  {
    Lifecycle.OfferedExactlyWhenDue(t, offers[i], now);
    assert BatchFits(t.batches[offers[i]], Members(t.events, Some(offers[i])));
  }

  lemma SingleOrder(a: int, b: int)
    ensures LexLe([a], [b]) <==> a <= b
  {
    assert [a][1..] == [] && [b][1..] == [];
  }
}
