/** The calls of the batches service, carried out on its tables. Each leaves the
    tables as `Transition` says, or unchanged when it throws. */
module BatchesService {
  import opened Wrappers
  import opened Text
  import opened Sorting
  import opened AnchorBackoff
  import opened Batches
  import Lifecycle
  import Merkle

  /** The verdict of a call, without the tables it leaves. */
  predicate Reports<T>(r: Result<T, Error>, expected: Result<Tables, Error>) {
    if r.Ok? then expected.Ok? else expected == Err(r.error)
  }

  // ----- the queries and updates -----

  /** The rows with these ids become members of `to`. */
  function Assign(events: seq<Event>, found: set<EventId>, to: Option<BatchId>): (r: seq<Event>)
    ensures |r| == |events|
    ensures forall i | 0 <= i < |events| :: r[i] == if events[i].id in found then events[i].(batch := to) else events[i]
  {
    seq(|events|, i requires 0 <= i < |events| => if events[i].id in found then events[i].(batch := to) else events[i])
  }

  predicate Chosen(e: Event, ids: seq<EventId>, batch: Batch) {
    e.id in ids && Eligible(e, batch)
  }

  method FindCandidates(events: seq<Event>, ids: seq<EventId>, batch: Batch) returns (candidates: seq<Event>)
    ensures forall e :: e in candidates <==> e in events && Chosen(e, ids, batch)
  {
    candidates := [];
    for i := 0 to |events|
      invariant forall e :: e in candidates <==> e in events[..i] && Chosen(e, ids, batch)
    {
      assert events[..i + 1] == events[..i] + [events[i]];
      if Chosen(events[i], ids, batch) {
        candidates := candidates + [events[i]];
      }
    }
    assert events[..|events|] == events;
  }

  method IdsOf(candidates: seq<Event>) returns (found: set<EventId>)
    ensures forall id :: id in found <==> exists e :: e in candidates && e.id == id
  {
    found := {};
    for i := 0 to |candidates|
      invariant forall id :: id in found <==> exists e :: e in candidates[..i] && e.id == id
    {
      assert candidates[..i + 1] == candidates[..i] + [candidates[i]];
      found := found + {candidates[i].id};
    }
    assert candidates[..|candidates|] == candidates;
  }

  /** The ids to move, when every one was found and of the batch's material. */
  method ChooseEvents(events: seq<Event>, ids: seq<EventId>, batch: Batch) returns (r: Result<set<EventId>, Error>)
    ensures r.Ok? <==> AllEligible(events, ids, batch) && AllOfMaterial(events, ids, batch)
    ensures r.Err? ==> r.error == if AllEligible(events, ids, batch) then MaterialMismatch else NotEligible
    ensures r.Ok? ==> forall id :: id in r.value <==> exists e :: e in events && Chosen(e, ids, batch) && e.id == id
  {
    var candidates := FindCandidates(events, ids, batch);
    var found := IdsOf(candidates);
    RejectedIff(events, ids, batch, candidates, found);
    var rejected := AnyRejected(ids, found);
    if rejected { return Err(NotEligible); }
    MismatchedIff(events, ids, batch, candidates);
    var mismatched := AnyMismatched(candidates, batch.material);
    if mismatched { return Err(MaterialMismatch); }
    return Ok(found);
  }

  lemma OneMoreRow(events: seq<Event>, i: nat, b: BatchId)
    requires i < |events|
    ensures var more, ms := Members(events[..i + 1], Some(b)), Members(events[..i], Some(b));
            if events[i].batch == Some(b) then Weight(more) == Weight(ms) + events[i].grams && |more| == |ms| + 1
            else more == ms
  {
    assert events[..i + 1] == events[..i] + [events[i]];
    MembersAppend(events[..i], events[i], Some(b));
    WeightAppend(Members(events[..i], Some(b)), events[i]);
  }

  method AnyRejected(ids: seq<EventId>, found: set<EventId>) returns (rejected: bool)
    ensures rejected <==> exists id :: id in ids && id !in found
  {
    rejected := false;
    for i := 0 to |ids|
      invariant rejected <==> exists id :: id in ids[..i] && id !in found
    {
      assert ids[..i + 1] == ids[..i] + [ids[i]];
      if ids[i] !in found { rejected := true; }
    }
    assert ids[..|ids|] == ids;
  }

  method AnyMismatched(candidates: seq<Event>, material: Material) returns (mismatched: bool)
    ensures mismatched <==> exists e :: e in candidates && e.material != material
  {
    mismatched := false;
    for i := 0 to |candidates|
      invariant mismatched <==> exists e :: e in candidates[..i] && e.material != material
    {
      assert candidates[..i + 1] == candidates[..i] + [candidates[i]];
      if candidates[i].material != material { mismatched := true; }
    }
    assert candidates[..|candidates|] == candidates;
  }

  method Totals(events: seq<Event>, b: BatchId) returns (grams: nat, count: nat)
    ensures grams == Weight(Members(events, Some(b))) && count == |Members(events, Some(b))|
  {
    grams, count := 0, 0;
    for i := 0 to |events|
      invariant grams == Weight(Members(events[..i], Some(b))) && count == |Members(events[..i], Some(b))|
    {
      OneMoreRow(events, i, b);
      if events[i].batch == Some(b) {
        grams, count := grams + events[i].grams, count + 1;
      }
    }
    assert events[..|events|] == events;
  }

  method HashLeaves(events: seq<Event>) returns (leaves: seq<Merkle.Digest>)
    ensures leaves == LeavesOf(events)
  {
    leaves := [];
    for i := 0 to |events|
      invariant leaves == LeavesOf(events)[..i]
    {
      leaves := leaves + [Merkle.Leaf(events[i].payloadHash)];
    }
  }

  /** When every id was found, assigning the found rows is the guarded move. */
  lemma AssignIsMove(events: seq<Event>, ids: seq<EventId>, batch: Batch, found: set<EventId>, to: Option<BatchId>)
    requires UniqueIds(events) && AllEligible(events, ids, batch)
    requires forall id :: id in found <==> exists e :: e in events && Chosen(e, ids, batch) && e.id == id
    ensures Assign(events, found, to) == Move(events, ids, None, to)
  {
    forall i | 0 <= i < |events| ensures Assign(events, found, to)[i] == Move(events, ids, None, to)[i] {
      if events[i].id in ids {
        var e :| e in events && e.id == events[i].id && Eligible(e, batch);
        OneRow(events, e, i);
      } else if events[i].id in found {
        assert false;
      }
    }
  }

  lemma AddAccepted(t: Tables, b: BatchId, ids: seq<EventId>)
    requires b < |t.batches| && t.batches[b].status.Open?
    requires AllEligible(t.events, ids, t.batches[b]) && AllOfMaterial(t.events, ids, t.batches[b])
    ensures Transition(t, AddEvents(b, ids)) == Ok(Moved(t, b, Move(t.events, ids, None, Some(b))))
  {
  }

  lemma OneRow(events: seq<Event>, e: Event, i: nat)
    requires UniqueIds(events) && i < |events| && e in events && e.id == events[i].id
    ensures e == events[i]
  {
    var j :| 0 <= j < |events| && events[j] == e;
  }

  /** Those of the rows whose backoff has elapsed. */
  method FilterDue(t: Tables, rows: seq<BatchId>, now: int) returns (r: seq<BatchId>)
    ensures r == Lifecycle.KeepDue(t, rows, now)
  {
    r := [];
    ghost var whole := Lifecycle.KeepDue(t, rows, now);
    for i := 0 to |rows|
      invariant r + Lifecycle.KeepDue(t, rows[i..], now) == whole
    {
      OneMoreOffer(t, r, rows, i, now);
      var due := Lifecycle.Due(t, rows[i], now);
      r := if due then r + [rows[i]] else r;
    }
    NothingLeft(t, rows, now);
  }

  lemma NothingLeft(t: Tables, rows: seq<BatchId>, now: int)
    ensures Lifecycle.KeepDue(t, rows[|rows|..], now) == []
  {
  }

  class BatchesService {
    var events: seq<Event>
    var batches: seq<Batch>
    var anchors: map<BatchId, Anchor>
    var attempts: map<BatchId, seq<Attempt>>

    function State(): Tables
      reads this
    {
      Tables(events, batches, anchors, attempts)
    }

    constructor ()
      ensures State() == EMPTY
    {
      events, batches, anchors, attempts := [], [], map[], map[];
    }

    method CreateBatch(hub: HubId, material: Material, offered: bool) returns (r: Result<BatchId, Error>)
      modifies this`batches
      ensures Reports(r, Transition(old(State()), Create(hub, material, offered)))
      ensures State() == Step(old(State()), Create(hub, material, offered))
      ensures r.Ok? ==> r.value == |old(batches)|
    {
      if !offered {
        return Err(MaterialNotOffered);
      }
      batches := batches + [Batch(hub, material, Open, 0, 0, None, None)];
      return Ok(|batches| - 1);
    }

    method UpdateAll(found: set<EventId>, to: Option<BatchId>)
      modifies this`events
      ensures events == Assign(old(events), found, to)
    {
      for i := 0 to |events|
        invariant |events| == |old(events)|
        invariant events[..i] == Assign(old(events), found, to)[..i]
        invariant events[i..] == old(events)[i..]
      {
        assert events[i] == events[i..][0] == old(events)[i];
        if events[i].id in found {
          events := events[i := events[i].(batch := to)];
        }
      }
    }

    method UpdateOne(id: EventId, from: Option<BatchId>, to: Option<BatchId>) returns (affected: nat)
      modifies this`events
      ensures events == Move(old(events), [id], from, to)
      ensures affected == 0 <==> !exists e :: e in old(events) && e.id == id && e.batch == from
    {
      affected := 0;
      for i := 0 to |events|
        invariant |events| == |old(events)|
        invariant events[..i] == Move(old(events), [id], from, to)[..i]
        invariant events[i..] == old(events)[i..]
        invariant affected == 0 <==> !exists j :: 0 <= j < i && old(events)[j].id == id && old(events)[j].batch == from
      {
        assert events[i] == events[i..][0] == old(events)[i];
        if events[i].id == id && events[i].batch == from {
          events := events[i := events[i].(batch := to)];
          affected := affected + 1;
        }
      }
    }

    method RecomputeTotals(b: BatchId)
      requires b < |batches|
      modifies this`batches
      ensures batches == old(batches)[b := WithTotals(old(batches)[b], Members(events, Some(b)))]
    {
      var grams, count := Totals(events, b);
      batches := batches[b := batches[b].(totalGrams := grams, eventCount := count)];
    }

    method MoveInto(found: set<EventId>, b: BatchId)
      requires b < |batches|
      modifies this`events, this`batches
      ensures State() == Moved(old(State()), b, Assign(old(events), found, Some(b)))
    {
      UpdateAll(found, Some(b));
      RecomputeTotals(b);
    }

    method AddEventsCall(b: BatchId, ids: seq<EventId>) returns (r: Result<Batch, Error>)
      requires UniqueIds(events)
      modifies this`events, this`batches
      ensures Reports(r, Transition(old(State()), AddEvents(b, ids)))
      ensures State() == Step(old(State()), AddEvents(b, ids))
      ensures r.Ok? ==> b < |batches| && r.value == batches[b]
    {
      if b >= |batches| { return Err(BatchNotFound); }
      var batch := batches[b];
      if batch.status != Open { return Err(NotOpen); }

      var chosen := ChooseEvents(events, ids, batch);
      if chosen.Err? { return Err(chosen.error); }
      AddAccepted(State(), b, ids);
      AssignIsMove(events, ids, batch, chosen.value, Some(b));
      MoveInto(chosen.value, b);
      return Ok(batches[b]);
    }

    method RemoveEventCall(b: BatchId, id: EventId) returns (r: Result<Batch, Error>)
      modifies this`events, this`batches
      ensures Reports(r, Transition(old(State()), RemoveEvent(b, id)))
      ensures State() == Step(old(State()), RemoveEvent(b, id))
      ensures r.Ok? ==> b < |batches| && r.value == batches[b]
    {
      if b >= |batches| { return Err(BatchNotFound); }
      if batches[b].status != Open { return Err(NotOpen); }
      var affected := UpdateOne(id, Some(b), None);
      if affected == 0 {
        NothingMoved(old(events), [id], Some(b), None);
        return Err(EventNotInBatch);
      }
      RecomputeTotals(b);
      return Ok(batches[b]);
    }

    method SealCall(b: BatchId, now: int) returns (r: Result<Batch, Error>)
      modifies this`batches
      ensures Reports(r, Transition(old(State()), Seal(b, now)))
      ensures State() == Step(old(State()), Seal(b, now))
      ensures r.Ok? ==> b < |batches| && r.value == batches[b]
    {
      if b >= |batches| { return Err(BatchNotFound); }
      var batch := batches[b];
      if batch.status != Open { return Err(NotOpen); }
      var ordered := Ordered(events, b);
      if |ordered| == 0 { return Err(EmptyBatch); }
      var quarantined := AnyQuarantined(ordered);
      if quarantined { return Err(ContainsQuarantined); }

      var leaves := HashLeaves(ordered);
      var root := Merkle.MerkleRootHex(leaves);
      var grams := SumWeights(ordered);
      batches := batches[b := batch.(totalGrams := grams, eventCount := |ordered|).(
                           status := Sealed, sealedAt := Some(now), merkleRoot := Some(root.value))];
      return Ok(batches[b]);
    }

    method AdvanceStatus(b: BatchId, to: Status) returns (r: Result<Batch, Error>)
      modifies this`batches
      ensures Reports(r, Transition(old(State()), Advance(b, to)))
      ensures State() == Step(old(State()), Advance(b, to))
      ensures r.Ok? ==> b < |batches| && r.value == batches[b]
    {
      if b >= |batches| { return Err(BatchNotFound); }
      var batch := batches[b];
      if Successor(batch.status) != Some(to) { return Err(IllegalTransition); }
      if to == Sealed { return Err(SealedOnlyBySeal); }
      if to == Processed && batch.merkleRoot.None? { return Err(NotSealed); }
      batches := batches[b := batch.(status := to)];
      return Ok(batches[b]);
    }

    method RecordAttempt(b: BatchId, outcome: Outcome, now: int)
      modifies this`attempts
      ensures History(State(), b) == old(History(State(), b)) + [Attempt(|History(State(), b)|, outcome, now)]
      ensures forall c: BatchId | c != b :: History(State(), c) == old(History(State(), c))
      ensures HistoryFits(old(History(State(), b)), false) ==> HistoryFits(History(State(), b), outcome.Succeeded?)
      ensures State() == Recorded(old(State()), b, outcome, now)
    {
      var previous := if b in attempts then attempts[b] else [];
      attempts := attempts[b := previous + [Attempt(|previous| + 1, outcome, now)]];
    }

    method RecordAnchorCall(b: BatchId, input: Anchor, now: int) returns (r: Result<Anchor, Error>)
      modifies this`anchors, this`attempts
      ensures Reports(r, Transition(old(State()), RecordAnchor(b, input, now)))
      ensures State() == Step(old(State()), RecordAnchor(b, input, now))
      ensures r.Ok? ==> b in anchors && r.value == anchors[b] && r.value.txHash == input.txHash
    {
      if b >= |batches| { return Err(BatchNotFound); }
      var batch := batches[b];
      if batch.status == Open || batch.merkleRoot.None? { return Err(NotSealed); }
      if batch.merkleRoot.value != input.merkleRoot { return Err(RootMismatch); }
      if b in anchors {
        if anchors[b].txHash == input.txHash { return Ok(anchors[b]); }
        return Err(AlreadyAnchored);
      }
      if exists c :: c in anchors && anchors[c].txHash == input.txHash { return Err(TransactionAlreadyUsed); }
      anchors := anchors[b := input];
      RecordAttempt(b, Succeeded, now);
      return Ok(input);
    }

    method RecordAnchorFailure(b: BatchId, unverified: bool, now: int) returns (r: Result<(), Error>)
      modifies this`attempts
      ensures Reports(r, Transition(old(State()), RecordFailure(b, unverified, now)))
      ensures State() == Step(old(State()), RecordFailure(b, unverified, now))
    {
      if b >= |batches| { return Err(BatchNotFound); }
      var batch := batches[b];
      if batch.status == Open || batch.merkleRoot.None? { return Err(NotSealed); }
      if b in anchors { return Err(AlreadyAnchored); }
      RecordAttempt(b, if unverified then Unverified else Failed, now);
      return Ok(());
    }

    method PendingAnchorCall(now: int) returns (r: seq<BatchId>)
      ensures r == Lifecycle.PendingAnchor(State(), now)
    {
      var rows := Sort(Lifecycle.Awaiting(State(), |batches|), Lifecycle.SealTime(batches));
      r := FilterDue(State(), rows, now);
    }

    method VerifyEventCall(b: BatchId, id: EventId) returns (r: Result<Lifecycle.Verification, Error>)
      ensures r == Lifecycle.VerifyEvent(State(), b, id)
      ensures r.Ok? ==> b < |batches| && batches[b].merkleRoot == Some(r.value.merkleRoot)
      ensures r.Ok? ==> (r.value.proofValid <==> Merkle.Accepts(r.value.leaf, r.value.proof, r.value.merkleRoot))
      ensures r.Ok? ==> Lifecycle.LeafOfMember(State(), b, id, r.value.leaf)
    {
      Lifecycle.VerifyAnswers(State(), b, id);
      if b >= |batches| { return Err(BatchNotFound); }
      if batches[b].merkleRoot.None? { return Err(NotSealed); }
      var root := batches[b].merkleRoot.value;
      var ordered := Ordered(events, b);
      var index := FindIndexOf(ordered, id);
      if index < 0 { return Err(EventNotInBatch); }
      var leaves := HashLeaves(ordered);
      var leaf := leaves[index];
      var proof := Merkle.MerkleProof(leaves, index);
      var valid := Merkle.VerifyMerkleProof(leaf, proof.value, root);
      return Ok(Lifecycle.Verification(leaf, proof.value, root, valid));
    }
  }

  lemma OneMoreOffer(t: Tables, r: seq<BatchId>, rows: seq<BatchId>, i: nat, now: int)
    requires i < |rows|
    ensures r + Lifecycle.KeepDue(t, rows[i..], now)
         == (if Lifecycle.Due(t, rows[i], now) then r + [rows[i]] else r) + Lifecycle.KeepDue(t, rows[i + 1..], now)
  {
    assert rows[i..][1..] == rows[i + 1..];
    Append(r, rows[i], Lifecycle.Due(t, rows[i], now), Lifecycle.KeepDue(t, rows[i + 1..], now));
  }

  lemma Append<T>(r: seq<T>, x: T, keep: bool, rest: seq<T>)
    ensures r + ((if keep then [x] else []) + rest) == (if keep then r + [x] else r) + rest
  {
  }

  lemma RejectedIff(events: seq<Event>, ids: seq<EventId>, batch: Batch, candidates: seq<Event>, found: set<EventId>)
    requires forall e :: e in candidates <==> e in events && Chosen(e, ids, batch)
    requires forall id :: id in found <==> exists e :: e in candidates && e.id == id
    ensures (exists id :: id in ids && id !in found) <==> !AllEligible(events, ids, batch)
    ensures forall id :: id in found <==> exists e :: e in events && Chosen(e, ids, batch) && e.id == id
  {
    forall id ensures id in found <==> exists e :: e in events && Chosen(e, ids, batch) && e.id == id {
      if id in found { var e :| e in candidates && e.id == id; }
    }
    forall id | id in ids ensures id in found <==> exists e :: e in events && e.id == id && Eligible(e, batch) {
      if exists e :: e in events && e.id == id && Eligible(e, batch) {
        var e :| e in events && e.id == id && Eligible(e, batch);
        assert Chosen(e, ids, batch);
      }
    }
  }

  lemma MismatchedIff(events: seq<Event>, ids: seq<EventId>, batch: Batch, candidates: seq<Event>)
    requires forall e :: e in candidates <==> e in events && Chosen(e, ids, batch)
    ensures (exists e :: e in candidates && e.material != batch.material) <==> !AllOfMaterial(events, ids, batch)
  {
    if !AllOfMaterial(events, ids, batch) {
      var e :| e in events && e.id in ids && Eligible(e, batch) && e.material != batch.material;
      assert Chosen(e, ids, batch) && e in candidates;
    }
  }

  lemma NothingMoved(events: seq<Event>, ids: seq<EventId>, from: Option<BatchId>, to: Option<BatchId>)
    requires !exists e :: e in events && e.id in ids && e.batch == from
    ensures Move(events, ids, from, to) == events
  {
    assert forall i | 0 <= i < |events| :: events[i] in events;
  }

  method AnyQuarantined(events: seq<Event>) returns (found: bool)
    ensures found <==> exists e :: e in events && e.quarantined
  {
    found := false;
    for i := 0 to |events|
      invariant found <==> exists e :: e in events[..i] && e.quarantined
    {
      assert events[..i + 1] == events[..i] + [events[i]];
      if events[i].quarantined { found := true; }
    }
    assert events[..|events|] == events;
  }

  method SumWeights(events: seq<Event>) returns (grams: nat)
    ensures grams == Weight(events)
  {
    grams := 0;
    for i := 0 to |events|
      invariant grams == Weight(events[..i])
    {
      assert events[..i + 1][..i] == events[..i];
      grams := grams + events[i].grams;
    }
    assert events[..|events|] == events;
  }

  method FindIndexOf(events: seq<Event>, id: EventId) returns (index: int)
    ensures -1 <= index < |events|
    ensures Lifecycle.FindIndex(events, id) == if index < 0 then None else Some(index)
  {
    for i := 0 to |events|
      invariant forall j | 0 <= j < i :: events[j].id != id
    {
      if events[i].id == id {
        var r := Lifecycle.FindIndex(events, id);
        assert r.Some?;
        return i;
      }
    }
    return -1;
  }
}
