/**
 The batch lifecycle: open, sealed, processed, sold.

 The tables are values here: events and batches are rows in insertion order, a
 batch's position is its id. `Transition` says for each call either why it is
 refused or what the tables become; `BatchesService` carries the calls out.
 */
module Batches {
  import opened Wrappers
  import opened Text
  import opened Sorting
  import opened AnchorBackoff
  import Merkle

  type EventId = nat
  type BatchId = nat
  type HubId = nat
  type Material = nat

  datatype Status = Open | Sealed | Processed | Sold

  datatype Event = Event(
    id: EventId,
    payloadHash: Text,
    hub: HubId,
    material: Material,
    grams: nat,
    capturedAt: int,
    quarantined: bool,
    batch: Option<BatchId>)

  datatype Batch = Batch(
    hub: HubId,
    material: Material,
    status: Status,
    totalGrams: nat,
    eventCount: nat,
    merkleRoot: Option<Merkle.Digest>,
    sealedAt: Option<int>)

  datatype Anchor = Anchor(merkleRoot: Merkle.Digest, txHash: Text, ledger: nat, dataEntryKey: Text)

  datatype Tables = Tables(
    events: seq<Event>,
    batches: seq<Batch>,
    anchors: map<BatchId, Anchor>,
    attempts: map<BatchId, seq<Attempt>>)

  datatype Error =
    | BatchNotFound
    | NotOpen
    | NotEligible
    | MaterialMismatch
    | EventNotInBatch
    | EmptyBatch
    | ContainsQuarantined
    | IllegalTransition
    | SealedOnlyBySeal
    | NotSealed
    | RootMismatch
    | AlreadyAnchored
    | TransactionAlreadyUsed
    | MaterialNotOffered
    | DuplicateEvent

  datatype Call =
    | Ingest(event: Event)
    | Create(hub: HubId, material: Material, offered: bool)
    | AddEvents(batch: BatchId, ids: seq<EventId>)
    | RemoveEvent(batch: BatchId, eventId: EventId)
    | Seal(batch: BatchId, now: int)
    | Advance(batch: BatchId, to: Status)
    | RecordAnchor(batch: BatchId, anchor: Anchor, now: int)
    | RecordFailure(batch: BatchId, unverified: bool, now: int)

  // ----- queries over the tables -----

  function Members(events: seq<Event>, b: Option<BatchId>): (ms: seq<Event>)
    ensures forall e :: e in ms <==> e in events && e.batch == b
  {
    if events == [] then []
    else
      var last := events[|events| - 1];
      assert events == events[..|events| - 1] + [last];
      Members(events[..|events| - 1], b) + if last.batch == b then [last] else []
  }

  function Weight(events: seq<Event>): nat {
    if events == [] then 0 else Weight(events[..|events| - 1]) + events[|events| - 1].grams
  }

  /** Capture time, then id. */
  function EventOrder(e: Event): seq<int> {
    [e.capturedAt, e.id]
  }

  function Ordered(events: seq<Event>, b: BatchId): seq<Event> {
    Sort(Members(events, Some(b)), EventOrder)
  }

  function LeavesOf(events: seq<Event>): (leaves: seq<Merkle.Digest>)
    ensures |leaves| == |events| && Merkle.Hashed(leaves) && Merkle.AllWellFormed(leaves)
    ensures forall i | 0 <= i < |events| :: leaves[i] == Merkle.Leaf(events[i].payloadHash)
  {
    seq(|events|, i requires 0 <= i < |events| => Merkle.Leaf(events[i].payloadHash))
  }

  predicate UniqueIds(events: seq<Event>) {
    forall i, j | 0 <= i < j < |events| :: events[i].id != events[j].id
  }

  predicate Eligible(e: Event, batch: Batch) {
    e.batch.None? && !e.quarantined && e.hub == batch.hub
  }

  predicate AllEligible(events: seq<Event>, ids: seq<EventId>, batch: Batch) {
    forall id | id in ids :: exists e :: e in events && e.id == id && Eligible(e, batch)
  }

  predicate AllOfMaterial(events: seq<Event>, ids: seq<EventId>, batch: Batch) {
    forall e | e in events && e.id in ids && Eligible(e, batch) :: e.material == batch.material
  }

  /** The rows with these ids that are where `from` says are moved to `to`. */
  function Move(events: seq<Event>, ids: seq<EventId>, from: Option<BatchId>, to: Option<BatchId>): (r: seq<Event>)
    ensures |r| == |events|
    ensures forall i | 0 <= i < |events| :: r[i] == MoveOne(events[i], ids, from, to)
  {
    seq(|events|, i requires 0 <= i < |events| => MoveOne(events[i], ids, from, to))
  }

  function MoveOne(e: Event, ids: seq<EventId>, from: Option<BatchId>, to: Option<BatchId>): Event {
    if e.id in ids && e.batch == from then e.(batch := to) else e
  }

  function WithTotals(batch: Batch, ms: seq<Event>): Batch {
    batch.(totalGrams := Weight(ms), eventCount := |ms|)
  }

  function History(t: Tables, b: BatchId): seq<Attempt> {
    if b in t.attempts then t.attempts[b] else []
  }

  function Recorded(t: Tables, b: BatchId, o: Outcome, now: int): Tables {
    t.(attempts := t.attempts[b := History(t, b) + [Attempt(|History(t, b)| + 1, o, now)]])
  }

  function Successor(s: Status): Option<Status> {
    match s
    case Open => Some(Sealed)
    case Sealed => Some(Processed)
    case Processed => Some(Sold)
    case Sold => None
  }

  // ----- the calls -----

  function Transition(t: Tables, x: Call): Result<Tables, Error> {
    match x
    case Ingest(e) =>
      if exists f :: f in t.events && (f.id == e.id || f.payloadHash == e.payloadHash) then Err(DuplicateEvent)
      else Ok(t.(events := t.events + [e.(batch := None)]))
    case Create(hub, material, offered) =>
      if !offered then Err(MaterialNotOffered)
      else Ok(t.(batches := t.batches + [Batch(hub, material, Open, 0, 0, None, None)]))
    case AddEvents(b, ids) =>
      if b >= |t.batches| then Err(BatchNotFound)
      else
        var batch := t.batches[b];
        if !batch.status.Open? then Err(NotOpen)
        else if !AllEligible(t.events, ids, batch) then Err(NotEligible)
        else if !AllOfMaterial(t.events, ids, batch) then Err(MaterialMismatch)
        else
          var events := Move(t.events, ids, None, Some(b));
          Ok(t.(events := events, batches := t.batches[b := WithTotals(batch, Members(events, Some(b)))]))
    case RemoveEvent(b, id) =>
      if b >= |t.batches| then Err(BatchNotFound)
      else
        var batch := t.batches[b];
        if !batch.status.Open? then Err(NotOpen)
        else if !exists e :: e in t.events && e.id == id && e.batch == Some(b) then Err(EventNotInBatch)
        else
          var events := Move(t.events, [id], Some(b), None);
          Ok(t.(events := events, batches := t.batches[b := WithTotals(batch, Members(events, Some(b)))]))
    case Seal(b, now) =>
      if b >= |t.batches| then Err(BatchNotFound)
      else
        var batch := t.batches[b];
        var ordered := Ordered(t.events, b);
        if !batch.status.Open? then Err(NotOpen)
        else if ordered == [] then Err(EmptyBatch)
        else if exists e :: e in ordered && e.quarantined then Err(ContainsQuarantined)
        else
          Ok(t.(batches := t.batches[b := WithTotals(batch, ordered).(
                  status := Sealed, sealedAt := Some(now), merkleRoot := Some(Merkle.RfcRoot(LeavesOf(ordered))))]))
    case Advance(b, to) =>
      if b >= |t.batches| then Err(BatchNotFound)
      else
        var batch := t.batches[b];
        if Successor(batch.status) != Some(to) then Err(IllegalTransition)
        else if to.Sealed? then Err(SealedOnlyBySeal)
        else if to.Processed? && batch.merkleRoot.None? then Err(NotSealed)
        else Ok(t.(batches := t.batches[b := batch.(status := to)]))
    case RecordAnchor(b, anchor, now) =>
      if b >= |t.batches| then Err(BatchNotFound)
      else
        var batch := t.batches[b];
        if batch.status.Open? || batch.merkleRoot.None? then Err(NotSealed)
        else if batch.merkleRoot.value != anchor.merkleRoot then Err(RootMismatch)
        else if b in t.anchors then
          if t.anchors[b].txHash == anchor.txHash then Ok(t) else Err(AlreadyAnchored)
        else if exists c :: c in t.anchors && t.anchors[c].txHash == anchor.txHash then Err(TransactionAlreadyUsed)
        else Ok(Recorded(t.(anchors := t.anchors[b := anchor]), b, Succeeded, now))
    case RecordFailure(b, unverified, now) =>
      if b >= |t.batches| then Err(BatchNotFound)
      else
        var batch := t.batches[b];
        if batch.status.Open? || batch.merkleRoot.None? then Err(NotSealed)
        else if b in t.anchors then Err(AlreadyAnchored)
        else Ok(Recorded(t, b, if unverified then Unverified else Failed, now))
  }

  /** A refused call leaves the tables as they were. */
  function Step(t: Tables, x: Call): Tables {
    var r := Transition(t, x);
    if r.Ok? then r.value else t
  }

  function Run(t: Tables, xs: seq<Call>): Tables
    decreases |xs|
  {
    if xs == [] then t else Run(Step(t, xs[0]), xs[1..])
  }

  const EMPTY := Tables([], [], map[], map[])

  // ----- what every call keeps -----

  /** Each member is a clean event of the batch's hub and material. */
  predicate MembersFit(t: Tables) {
    forall i | 0 <= i < |t.events| && t.events[i].batch.Some? ::
      var e := t.events[i];
      && e.batch.value < |t.batches|
      && !e.quarantined
      && e.hub == t.batches[e.batch.value].hub
      && e.material == t.batches[e.batch.value].material
  }

  predicate BatchFits(batch: Batch, ms: seq<Event>) {
    && batch.totalGrams == Weight(ms) && batch.eventCount == |ms|
    && (batch.status.Open? ==> batch.merkleRoot.None? && batch.sealedAt.None?)
    && (!batch.status.Open? ==>
          && ms != [] && batch.sealedAt.Some?
          && batch.merkleRoot == Some(Merkle.RfcRoot(LeavesOf(Sort(ms, EventOrder)))))
  }

  predicate BatchesFit(t: Tables) {
    forall b | 0 <= b < |t.batches| :: BatchFits(t.batches[b], Members(t.events, Some(b)))
  }

  predicate AnchorsFit(t: Tables) {
    && (forall b | b in t.anchors ::
          && b < |t.batches| && !t.batches[b].status.Open?
          && t.batches[b].merkleRoot == Some(t.anchors[b].merkleRoot))
    && (forall b, c | b in t.anchors && c in t.anchors && t.anchors[b].txHash == t.anchors[c].txHash :: b == c)
  }

  /** Numbered from 1 without a gap; a success comes only at the end, and comes
      exactly when the batch is anchored. */
  predicate HistoryFits(rows: seq<Attempt>, anchored: bool) {
    && (forall i | 0 <= i < |rows| :: rows[i].number == i + 1)
    && (forall i | 0 <= i < |rows| - 1 :: !rows[i].outcome.Succeeded?)
    && (anchored <==> rows != [] && rows[|rows| - 1].outcome.Succeeded?)
  }

  ghost predicate AttemptsFit(t: Tables) {
    && (forall b: BatchId :: HistoryFits(History(t, b), b in t.anchors))
    && (forall b | b in t.attempts :: b < |t.batches| && !t.batches[b].status.Open?)
  }

  predicate HashesUnique(events: seq<Event>) {
    forall i, j | 0 <= i < j < |events| :: events[i].payloadHash != events[j].payloadHash
  }

  ghost predicate Inv(t: Tables) {
    UniqueIds(t.events) && HashesUnique(t.events) && MembersFit(t) && BatchesFit(t) && AnchorsFit(t) && AttemptsFit(t)
  }

  lemma {:induction false} MembersAppend(events: seq<Event>, e: Event, b: Option<BatchId>)
    ensures Members(events + [e], b) == Members(events, b) + if e.batch == b then [e] else []
  {
    assert (events + [e])[..|events|] == events;
  }

  /** Moving events between two places leaves every third place as it was. */
  lemma {:induction false} MoveElsewhere(events: seq<Event>, ids: seq<EventId>, from: Option<BatchId>, to: Option<BatchId>, b: Option<BatchId>)
    requires b != from && b != to
    ensures Members(Move(events, ids, from, to), b) == Members(events, b)
  {
    if events != [] {
      var before, last := events[..|events| - 1], events[|events| - 1];
      assert events == before + [last];
      MoveElsewhere(before, ids, from, to, b);
      assert Move(events, ids, from, to) == Move(before, ids, from, to) + [MoveOne(last, ids, from, to)];
      MembersAppend(Move(before, ids, from, to), MoveOne(last, ids, from, to), b);
    }
  }

  /** Batches that are sealed stay sealed under the same root. */
  predicate StillSealed(t: Tables, u: Tables) {
    && |t.batches| <= |u.batches|
    && forall b | 0 <= b < |t.batches| && !t.batches[b].status.Open? ::
         !u.batches[b].status.Open? && u.batches[b].merkleRoot == t.batches[b].merkleRoot
  }

  lemma AnchorsUntouched(t: Tables, u: Tables)
    requires AnchorsFit(t) && AttemptsFit(t) && StillSealed(t, u)
    requires u.anchors == t.anchors && u.attempts == t.attempts
    ensures AnchorsFit(u) && AttemptsFit(u)
  {
    forall b: BatchId ensures HistoryFits(History(u, b), b in u.anchors) {
      assert HistoryFits(History(t, b), b in t.anchors);
    }
  }

  lemma OneBatchChanges(t: Tables, u: Tables, b: BatchId)
    requires BatchesFit(t) && b < |t.batches| == |u.batches|
    requires forall c | 0 <= c < |t.batches| && c != b ::
               u.batches[c] == t.batches[c] && Members(u.events, Some(c)) == Members(t.events, Some(c))
    requires BatchFits(u.batches[b], Members(u.events, Some(b)))
    ensures BatchesFit(u)
  {
    forall c | 0 <= c < |u.batches| ensures BatchFits(u.batches[c], Members(u.events, Some(c))) {
      assert BatchFits(t.batches[c], Members(t.events, Some(c)));
    }
  }

  lemma UnbatchedIsNoMember(events: seq<Event>, row: Event, c: BatchId)
    requires row.batch.None?
    ensures Members(events + [row], Some(c)) == Members(events, Some(c))
  {
    MembersAppend(events, row, Some(c));
    assert Members(events, Some(c)) + [] == Members(events, Some(c));
  }

  lemma NewEventKeepsBatches(t: Tables, u: Tables, row: Event)
    requires BatchesFit(t) && row.batch.None? && u.events == t.events + [row] && u.batches == t.batches
    ensures BatchesFit(u)
  {
    forall c | 0 <= c < |u.batches| ensures BatchFits(u.batches[c], Members(u.events, Some(c))) {
      UnbatchedIsNoMember(t.events, row, c);
      assert BatchFits(t.batches[c], Members(t.events, Some(c)));
    }
  }

  /** A batch's hub and material never change. */
  lemma SameBatchKinds(t: Tables, u: Tables)
    requires UniqueIds(t.events) && HashesUnique(t.events) && MembersFit(t) && u.events == t.events
    requires |u.batches| == |t.batches|
    requires forall c | 0 <= c < |t.batches| :: u.batches[c].hub == t.batches[c].hub && u.batches[c].material == t.batches[c].material
    ensures UniqueIds(u.events) && HashesUnique(u.events) && MembersFit(u)
  {
  }

  lemma NewEventFits(t: Tables, u: Tables, row: Event)
    requires UniqueIds(t.events) && HashesUnique(t.events) && MembersFit(t)
    requires row.batch.None? && u.events == t.events + [row] && u.batches == t.batches
    requires forall f | f in t.events :: f.id != row.id && f.payloadHash != row.payloadHash
    ensures UniqueIds(u.events) && HashesUnique(u.events) && MembersFit(u)
  {
    assert forall i | 0 <= i < |t.events| :: t.events[i] in t.events;
  }

  lemma {:induction false} NobodyIn(events: seq<Event>, b: BatchId)
    requires forall i | 0 <= i < |events| :: events[i].batch != Some(b)
    ensures Members(events, Some(b)) == []
  {
    if events != [] { NobodyIn(events[..|events| - 1], b); }
  }

  lemma NewBatchKeepsBatches(t: Tables, u: Tables, batch: Batch)
    requires BatchesFit(t) && u.events == t.events && u.batches == t.batches + [batch]
    requires batch.status.Open? && batch.totalGrams == batch.eventCount == 0
    requires batch.merkleRoot.None? && batch.sealedAt.None?
    requires Members(t.events, Some(|t.batches|)) == []
    ensures BatchesFit(u)
  {
    forall c | 0 <= c < |u.batches| ensures BatchFits(u.batches[c], Members(u.events, Some(c))) {
      if c < |t.batches| { assert BatchFits(t.batches[c], Members(t.events, Some(c))); }
    }
  }

  lemma CreatedKeepsInv(t: Tables, u: Tables, batch: Batch)
    requires Inv(t) && u == t.(batches := t.batches + [batch])
    requires batch.status.Open? && batch.totalGrams == batch.eventCount == 0
    requires batch.merkleRoot.None? && batch.sealedAt.None?
    ensures Inv(u)
  {
    NobodyIn(t.events, |t.batches|);
    NewBatchKeepsBatches(t, u, batch);
    AnchorsUntouched(t, u);
    assert MembersFit(u) by {
      forall i | 0 <= i < |t.events| && t.events[i].batch.Some? ensures u.batches[t.events[i].batch.value] == t.batches[t.events[i].batch.value] {
      }
    }
  }

  lemma MoveKeepsUnique(events: seq<Event>, ids: seq<EventId>, from: Option<BatchId>, to: Option<BatchId>)
    requires UniqueIds(events) && HashesUnique(events)
    ensures UniqueIds(Move(events, ids, from, to)) && HashesUnique(Move(events, ids, from, to))
  {
  }

  lemma AddedMembersFit(t: Tables, u: Tables, b: BatchId, ids: seq<EventId>)
    requires UniqueIds(t.events) && MembersFit(t) && Transition(t, AddEvents(b, ids)) == Ok(u)
    ensures MembersFit(u)
  {
    forall i | 0 <= i < |t.events| && t.events[i].id in ids && t.events[i].batch.None?
      ensures Eligible(t.events[i], t.batches[b]) && t.events[i].material == t.batches[b].material
    {
      ChosenFits(t, b, ids, i);
    }
  }

  lemma AddFacts(t: Tables, b: BatchId, ids: seq<EventId>)
    requires Transition(t, AddEvents(b, ids)).Ok?
    ensures b < |t.batches| && t.batches[b].status.Open?
    ensures Step(t, AddEvents(b, ids)) == Moved(t, b, Move(t.events, ids, None, Some(b)))
  {
  }

  /** A row that AddEvents moves was eligible and of the batch's material. */
  lemma ChosenFits(t: Tables, b: BatchId, ids: seq<EventId>, i: nat)
    requires UniqueIds(t.events) && Transition(t, AddEvents(b, ids)).Ok?
    requires i < |t.events| && t.events[i].id in ids && t.events[i].batch.None?
    ensures Eligible(t.events[i], t.batches[b]) && t.events[i].material == t.batches[b].material
  {
    var e :| e in t.events && e.id == t.events[i].id && Eligible(e, t.batches[b]);
    var j :| 0 <= j < |t.events| && t.events[j] == e;
    assert i == j;
  }

  lemma RemovedMembersFit(t: Tables, u: Tables, b: BatchId, id: EventId)
    requires MembersFit(t) && u.events == Move(t.events, [id], Some(b), None)
    requires |u.batches| == |t.batches|
    requires forall c | 0 <= c < |t.batches| :: u.batches[c].hub == t.batches[c].hub && u.batches[c].material == t.batches[c].material
    ensures MembersFit(u)
  {
  }

  function Moved(t: Tables, b: BatchId, events: seq<Event>): Tables
    requires b < |t.batches|
  {
    t.(events := events, batches := t.batches[b := WithTotals(t.batches[b], Members(events, Some(b)))])
  }

  lemma RemoveFacts(t: Tables, b: BatchId, id: EventId)
    requires Transition(t, RemoveEvent(b, id)).Ok?
    ensures b < |t.batches| && t.batches[b].status.Open?
    ensures Step(t, RemoveEvent(b, id)) == Moved(t, b, Move(t.events, [id], Some(b), None))
  {
  }

  /** The tables after events moved into or out of one open batch. */
  lemma MovedKeepsInv(t: Tables, u: Tables, b: BatchId, ids: seq<EventId>, from: Option<BatchId>, to: Option<BatchId>)
    requires Inv(t) && b < |t.batches| && t.batches[b].status.Open?
    requires u == Moved(t, b, Move(t.events, ids, from, to)) && MembersFit(u)
    requires (from.None? || from == Some(b)) && (to.None? || to == Some(b))
    ensures Inv(u)
  {
    MoveKeepsUnique(t.events, ids, from, to);
    forall c: BatchId | c != b ensures Members(u.events, Some(c)) == Members(t.events, Some(c)) {
      MoveElsewhere(t.events, ids, from, to, Some(c));
    }
    assert BatchFits(t.batches[b], Members(t.events, Some(b)));
    OneBatchChanges(t, u, b);
    AnchorsUntouched(t, u);
  }

  lemma {:induction false} WeightAppend(events: seq<Event>, e: Event)
    ensures Weight(events + [e]) == Weight(events) + e.grams
  {
    assert (events + [e])[..|events|] == events;
  }

  lemma {:induction false} WeightConcat(x: seq<Event>, y: seq<Event>)
    ensures Weight(x + y) == Weight(x) + Weight(y)
  {
    if y == [] {
      assert x + y == x;
    } else {
      var before, last := y[..|y| - 1], y[|y| - 1];
      assert y == before + [last] && x + y == (x + before) + [last];
      WeightConcat(x, before);
      WeightAppend(x + before, last);
      WeightAppend(before, last);
    }
  }

  lemma WeightWithout(x: seq<Event>, e: Event, y: seq<Event>)
    ensures Weight(x + [e] + y) == Weight(x + y) + e.grams
  {
    WeightConcat(x + [e], y);
    WeightAppend(x, e);
    WeightConcat(x, y);
  }

  lemma MultisetWithout(x: seq<Event>, e: Event, y: seq<Event>)
    ensures multiset(x + [e] + y) == multiset(x + y) + multiset{e}
  {
  }

  lemma TakeOut(c: seq<Event>, e: Event) returns (x: seq<Event>, y: seq<Event>)
    requires e in multiset(c)
    ensures c == x + [e] + y
  {
    var i :| 0 <= i < |c| && c[i] == e;
    x, y := c[..i], c[i + 1..];
  }

  /** Weight does not depend on order. */
  lemma {:induction false} WeightPermuted(a: seq<Event>, c: seq<Event>)
    requires multiset(a) == multiset(c)
    ensures Weight(a) == Weight(c)
    decreases |a|
  {
    if a == [] {
      assert |multiset(c)| == 0;
    } else {
      var before, last := a[..|a| - 1], a[|a| - 1];
      assert a == before + [last];
      assert last in multiset(a);
      var x, y := TakeOut(c, last);
      MultisetWithout(x, last, y);
      assert multiset(before) == multiset(a) - multiset{last};
      assert multiset(x + y) == multiset(c) - multiset{last};
      WeightPermuted(before, x + y);
      WeightWithout(x, last, y);
    }
  }

  /** The events stay, and one batch's row is replaced by one that fits. */
  lemma RowReplaced(t: Tables, u: Tables, b: BatchId, row: Batch)
    requires Inv(t) && b < |t.batches| && u == t.(batches := t.batches[b := row])
    requires row.hub == t.batches[b].hub && row.material == t.batches[b].material
    requires BatchFits(row, Members(t.events, Some(b)))
    requires !t.batches[b].status.Open? ==> !row.status.Open? && row.merkleRoot == t.batches[b].merkleRoot
    ensures Inv(u)
  {
    OneBatchChanges(t, u, b);
    SameBatchKinds(t, u);
    AnchorsUntouched(t, u);
  }

  function SealedRow(batch: Batch, ordered: seq<Event>, now: int): Batch
    requires ordered != []
  {
    WithTotals(batch, ordered).(
      status := Sealed, sealedAt := Some(now), merkleRoot := Some(Merkle.RfcRoot(LeavesOf(ordered))))
  }

  lemma SealedFits(batch: Batch, ms: seq<Event>, now: int)
    requires ms != []
    ensures BatchFits(SealedRow(batch, Sort(ms, EventOrder), now), ms)
  {
    WeightPermuted(Sort(ms, EventOrder), ms);
  }

  lemma SealFacts(t: Tables, b: BatchId, now: int)
    requires Transition(t, Seal(b, now)).Ok?
    ensures b < |t.batches| && t.batches[b].status.Open? && Members(t.events, Some(b)) != []
    ensures Step(t, Seal(b, now)) == t.(batches := t.batches[b := SealedRow(t.batches[b], Ordered(t.events, b), now)])
  {
  }

  lemma AdvanceFacts(t: Tables, b: BatchId, to: Status)
    requires Transition(t, Advance(b, to)).Ok?
    ensures b < |t.batches| && !t.batches[b].status.Open? && !to.Open?
    ensures Step(t, Advance(b, to)) == t.(batches := t.batches[b := t.batches[b].(status := to)])
  {
  }

  lemma AdvancedFits(batch: Batch, ms: seq<Event>, to: Status)
    requires BatchFits(batch, ms) && !batch.status.Open? && !to.Open?
    ensures BatchFits(batch.(status := to), ms)
  {
  }

  lemma AttemptKeepsFits(t: Tables, u: Tables, anchors: map<BatchId, Anchor>, b: BatchId, o: Outcome, now: int)
    requires AttemptsFit(t) && b < |t.batches| && !t.batches[b].status.Open? && b !in t.anchors
    requires anchors == t.anchors || (b in anchors && forall c | c != b :: c in anchors <==> c in t.anchors)
    requires o.Succeeded? <==> b in anchors
    requires u == Recorded(t.(anchors := anchors), b, o, now)
    ensures AttemptsFit(u)
  {
    var rows := History(t, b);
    assert HistoryFits(rows, false);
    forall c: BatchId ensures HistoryFits(History(u, c), c in u.anchors) {
      if c == b {
        assert History(u, c) == rows + [Attempt(|rows| + 1, o, now)];
      } else {
        assert History(u, c) == History(t, c) && HistoryFits(History(t, c), c in t.anchors);
      }
    }
  }

  lemma NewAnchorFits(t: Tables, u: Tables, b: BatchId, a: Anchor)
    requires AnchorsFit(t) && u.batches == t.batches && u.anchors == t.anchors[b := a] && b !in t.anchors
    requires b < |t.batches| && !t.batches[b].status.Open? && t.batches[b].merkleRoot == Some(a.merkleRoot)
    requires forall c | c in t.anchors :: t.anchors[c].txHash != a.txHash
    ensures AnchorsFit(u)
  {
  }

  lemma SameEvents(t: Tables, u: Tables)
    requires UniqueIds(t.events) && HashesUnique(t.events) && MembersFit(t) && BatchesFit(t)
    requires u.events == t.events && u.batches == t.batches
    ensures UniqueIds(u.events) && HashesUnique(u.events) && MembersFit(u) && BatchesFit(u)
  {
    forall c | 0 <= c < |u.batches| ensures BatchFits(u.batches[c], Members(u.events, Some(c))) {
      assert BatchFits(t.batches[c], Members(t.events, Some(c)));
    }
  }

  lemma AnchorFacts(t: Tables, b: BatchId, a: Anchor, now: int)
    requires Transition(t, RecordAnchor(b, a, now)).Ok? && b !in t.anchors
    ensures b < |t.batches| && !t.batches[b].status.Open? && t.batches[b].merkleRoot == Some(a.merkleRoot)
    ensures forall c | c in t.anchors :: t.anchors[c].txHash != a.txHash
    ensures Step(t, RecordAnchor(b, a, now)) == Recorded(t.(anchors := t.anchors[b := a]), b, Succeeded, now)
  {
  }

  /** Refused, or the write-back of an anchor that is already there. */
  lemma RepeatedAnchor(t: Tables, b: BatchId, a: Anchor, now: int)
    requires Transition(t, RecordAnchor(b, a, now)).Err? || b in t.anchors
    ensures Step(t, RecordAnchor(b, a, now)) == t
  {
  }

  lemma FailureFacts(t: Tables, b: BatchId, unverified: bool, now: int)
    requires Transition(t, RecordFailure(b, unverified, now)).Ok?
    ensures b < |t.batches| && !t.batches[b].status.Open? && b !in t.anchors
    ensures Step(t, RecordFailure(b, unverified, now)) == Recorded(t, b, if unverified then Unverified else Failed, now)
  {
  }

  /** One more attempt, and the batch's anchor if it succeeded. */
  lemma RecordedKeepsInv(t: Tables, u: Tables, anchors: map<BatchId, Anchor>, b: BatchId, o: Outcome, now: int)
    requires Inv(t) && b < |t.batches| && !t.batches[b].status.Open? && b !in t.anchors
    requires u == Recorded(t.(anchors := anchors), b, o, now) && AnchorsFit(u)
    requires anchors == t.anchors || (b in anchors && forall c | c != b :: c in anchors <==> c in t.anchors)
    requires o.Succeeded? <==> b in anchors
    ensures Inv(u)
  {
    AttemptKeepsFits(t, u, anchors, b, o, now);
    SameEvents(t, u);
  }

  lemma IngestedKeepsInv(t: Tables, u: Tables, row: Event)
    requires Inv(t) && row.batch.None? && u == t.(events := t.events + [row])
    requires forall f | f in t.events :: f.id != row.id && f.payloadHash != row.payloadHash
    ensures Inv(u)
  {
    NewEventKeepsBatches(t, u, row);
    NewEventFits(t, u, row);
    AnchorsUntouched(t, u);
  }

  lemma AttemptKeepsInv(t: Tables, x: Call)
    requires Inv(t) && (x.RecordAnchor? || x.RecordFailure?) && Transition(t, x).Ok?
    ensures Inv(Step(t, x))
  {
    var u := Step(t, x);
    match x
    case RecordAnchor(b, a, now) =>
      if b in t.anchors {
        RepeatedAnchor(t, b, a, now);
      } else {
        AnchorFacts(t, b, a, now);
        NewAnchorFits(t, u, b, a);
        RecordedKeepsInv(t, u, t.anchors[b := a], b, Succeeded, now);
      }
    case RecordFailure(b, unverified, now) =>
      FailureFacts(t, b, unverified, now);
      RecordedKeepsInv(t, u, t.anchors, b, if unverified then Unverified else Failed, now);
  }

  lemma NewRowKeepsInv(t: Tables, x: Call)
    requires Inv(t) && (x.Ingest? || x.Create?) && Transition(t, x).Ok?
    ensures Inv(Step(t, x))
  {
    match x
    case Ingest(e) => IngestedKeepsInv(t, Step(t, x), e.(batch := None));
    case Create(hub, material, offered) => CreatedKeepsInv(t, Step(t, x), Batch(hub, material, Open, 0, 0, None, None));
  }

  lemma AddKeepsInv(t: Tables, b: BatchId, ids: seq<EventId>)
    requires Inv(t) && Transition(t, AddEvents(b, ids)).Ok?
    ensures Inv(Step(t, AddEvents(b, ids)))
  {
    var u := Step(t, AddEvents(b, ids));
    AddFacts(t, b, ids);
    AddedMembersFit(t, u, b, ids);
    MovedKeepsInv(t, u, b, ids, None, Some(b));
  }

  lemma RemoveKeepsInv(t: Tables, b: BatchId, id: EventId)
    requires Inv(t) && Transition(t, RemoveEvent(b, id)).Ok?
    ensures Inv(Step(t, RemoveEvent(b, id)))
  {
    var u := Step(t, RemoveEvent(b, id));
    RemoveFacts(t, b, id);
    RemovedMembersFit(t, u, b, id);
    MovedKeepsInv(t, u, b, [id], Some(b), None);
  }

  lemma SealKeepsInv(t: Tables, b: BatchId, now: int)
    requires Inv(t) && Transition(t, Seal(b, now)).Ok?
    ensures Inv(Step(t, Seal(b, now)))
  {
    SealFacts(t, b, now);
    SealedFits(t.batches[b], Members(t.events, Some(b)), now);
    RowReplaced(t, Step(t, Seal(b, now)), b, SealedRow(t.batches[b], Ordered(t.events, b), now));
  }

  lemma AdvanceKeepsInv(t: Tables, b: BatchId, to: Status)
    requires Inv(t) && Transition(t, Advance(b, to)).Ok?
    ensures Inv(Step(t, Advance(b, to)))
  {
    AdvanceFacts(t, b, to);
    AdvancedFits(t.batches[b], Members(t.events, Some(b)), to);
    RowReplaced(t, Step(t, Advance(b, to)), b, t.batches[b].(status := to));
  }

  lemma StepKeepsInv(t: Tables, x: Call)
    requires Inv(t)
    ensures Inv(Step(t, x))
  {
    if Transition(t, x).Ok? {
      match x
      case AddEvents(b, ids) => AddKeepsInv(t, b, ids);
      case RemoveEvent(b, id) => RemoveKeepsInv(t, b, id);
      case Seal(b, now) => SealKeepsInv(t, b, now);
      case Advance(b, to) => AdvanceKeepsInv(t, b, to);
      case RecordAnchor(_, _, _) => AttemptKeepsInv(t, x);
      case RecordFailure(_, _, _) => AttemptKeepsInv(t, x);
      case _ => NewRowKeepsInv(t, x);
    }
  }

  /** In every reachable state: totals and counts match membership, members are
      clean and fit their batch, sealed roots are the Merkle roots of the ordered
      members, anchors carry sealed roots, and each history closes with its one
      success. */
  lemma {:induction false} RunKeepsInv(t: Tables, xs: seq<Call>)
    requires Inv(t)
    ensures Inv(Run(t, xs))
    decreases |xs|
  {
    if xs != [] {
      StepKeepsInv(t, xs[0]);
      RunKeepsInv(Step(t, xs[0]), xs[1..]);
    }
  }
}
