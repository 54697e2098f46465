/** What follows from the batch invariant over whole runs: sealed batches stay
    as they were and stay provable, weight is conserved, and a batch has one
    anchor. */
module Lifecycle {
  import opened Wrappers
  import opened Text
  import opened Sorting
  import opened AnchorBackoff
  import opened Batches
  import Merkle
  import Times

  // ----- a sealed batch never changes -----

  function Rank(s: Status): nat {
    match s case Open => 0 case Sealed => 1 case Processed => 2 case Sold => 3
  }

  /** A sealed batch's row is as it was, but for a status further on. */
  predicate RowFrozen(t: Tables, u: Tables, b: BatchId) {
    && b < |t.batches| <= |u.batches|
    && u.batches[b] == t.batches[b].(status := u.batches[b].status)
    && Rank(t.batches[b].status) <= Rank(u.batches[b].status)
  }

  /** Nothing but the status of a sealed batch changes, and that only forward. */
  predicate Frozen(t: Tables, u: Tables, b: BatchId) {
    && RowFrozen(t, u, b)
    && Members(u.events, Some(b)) == Members(t.events, Some(b))
    && (b in t.anchors ==> b in u.anchors && u.anchors[b] == t.anchors[b])
  }

  lemma OtherBatchMoved(t: Tables, u: Tables, b: BatchId, c: BatchId, ids: seq<EventId>, from: Option<BatchId>, to: Option<BatchId>)
    requires b < |t.batches| && c < |t.batches| && b != c && from != Some(b) && to != Some(b)
    requires u == Moved(t, c, Move(t.events, ids, from, to))
    ensures Frozen(t, u, b)
  {
    MoveElsewhere(t.events, ids, from, to, Some(b));
  }

  lemma AddFreezes(t: Tables, c: BatchId, ids: seq<EventId>, b: BatchId)
    requires b < |t.batches| && !t.batches[b].status.Open? && Transition(t, AddEvents(c, ids)).Ok?
    ensures Frozen(t, Step(t, AddEvents(c, ids)), b)
  {
    AddFacts(t, c, ids);
    OtherBatchMoved(t, Step(t, AddEvents(c, ids)), b, c, ids, None, Some(c));
  }

  lemma RemoveFreezes(t: Tables, c: BatchId, id: EventId, b: BatchId)
    requires b < |t.batches| && !t.batches[b].status.Open? && Transition(t, RemoveEvent(c, id)).Ok?
    ensures Frozen(t, Step(t, RemoveEvent(c, id)), b)
  {
    RemoveFacts(t, c, id);
    OtherBatchMoved(t, Step(t, RemoveEvent(c, id)), b, c, [id], Some(c), None);
  }

  lemma SealFreezes(t: Tables, c: BatchId, now: int, b: BatchId)
    requires b < |t.batches| && !t.batches[b].status.Open? && Transition(t, Seal(c, now)).Ok?
    ensures Frozen(t, Step(t, Seal(c, now)), b)
  {
    SealFacts(t, c, now);
  }

  lemma AdvanceFreezes(t: Tables, c: BatchId, to: Status, b: BatchId)
    requires b < |t.batches| && !t.batches[b].status.Open?
    ensures Frozen(t, Step(t, Advance(c, to)), b)
  {
  }

  lemma AttemptFreezes(t: Tables, x: Call, b: BatchId)
    requires b < |t.batches| && !t.batches[b].status.Open? && (x.RecordAnchor? || x.RecordFailure?)
    ensures Frozen(t, Step(t, x), b)
  {
  }

  lemma NewRowFreezes(t: Tables, x: Call, b: BatchId)
    requires b < |t.batches| && (x.Ingest? || x.Create?)
    ensures Frozen(t, Step(t, x), b)
  {
    if x.Ingest? { UnbatchedIsNoMember(t.events, x.event.(batch := None), b); }
  }

  lemma StepFreezes(t: Tables, x: Call, b: BatchId)
    requires b < |t.batches| && !t.batches[b].status.Open?
    ensures Frozen(t, Step(t, x), b)
  {
    if Transition(t, x).Ok? {
      match x
      case AddEvents(c, ids) => AddFreezes(t, c, ids, b);
      case RemoveEvent(c, id) => RemoveFreezes(t, c, id, b);
      case Seal(c, now) => SealFreezes(t, c, now, b);
      case Advance(c, to) => AdvanceFreezes(t, c, to, b);
      case RecordAnchor(_, _, _) => AttemptFreezes(t, x, b);
      case RecordFailure(_, _, _) => AttemptFreezes(t, x, b);
      case _ => NewRowFreezes(t, x, b);
    }
  }

  /** Over every run a sealed batch keeps its ordered members, root, weight,
      count and seal time. */
  lemma {:induction false} SealedNeverChanges(t: Tables, xs: seq<Call>, b: BatchId)
    requires b < |t.batches| && !t.batches[b].status.Open?
    ensures Frozen(t, Run(t, xs), b)
    ensures Ordered(Run(t, xs).events, b) == Ordered(t.events, b)
    decreases |xs|
  {
    if xs != [] {
      StepFreezes(t, xs[0], b);
      SealedNeverChanges(Step(t, xs[0]), xs[1..], b);
    }
  }

  /** The sealed root does not depend on the order in which members were added
      or stored. */
  lemma SealOrderIrrelevant(t: Tables, u: Tables, b: BatchId)
    requires UniqueIds(t.events)
    requires multiset(Members(t.events, Some(b))) == multiset(Members(u.events, Some(b)))
    ensures Ordered(t.events, b) == Ordered(u.events, b)
  {
    var ms := Members(t.events, Some(b));
    forall x, y | x in ms && y in ms && EventOrder(x) == EventOrder(y) ensures x == y {
      assert EventOrder(x)[1] == x.id && EventOrder(y)[1] == y.id;
      var i :| 0 <= i < |t.events| && t.events[i] == x;
      var j :| 0 <= j < |t.events| && t.events[j] == y;
    }
    SortOrderIrrelevant(ms, Members(u.events, Some(b)), EventOrder);
  }

  // ----- a sealed batch stays provable -----

  datatype Verification = Verification(
    leaf: Merkle.Digest,
    proof: seq<Merkle.ProofStep>,
    merkleRoot: Merkle.Digest,
    proofValid: bool)

  function FindIndex(events: seq<Event>, id: EventId): (r: Option<nat>)
    ensures r.Some? ==> r.value < |events| && events[r.value].id == id
    ensures r.Some? ==> forall i | 0 <= i < r.value :: events[i].id != id
    ensures r.None? ==> forall i | 0 <= i < |events| :: events[i].id != id
  {
    if events == [] then None
    else if events[0].id == id then Some(0)
    else
      var r := FindIndex(events[1..], id);
      if r.None? then None else Some(r.value + 1)
  }

  function VerifyEvent(t: Tables, b: BatchId, id: EventId): Result<Verification, Error> {
    if b >= |t.batches| then Err(BatchNotFound)
    else if t.batches[b].merkleRoot.None? then Err(NotSealed)
    else
      var events := Ordered(t.events, b);
      var index := FindIndex(events, id);
      if index.None? then Err(EventNotInBatch)
      else
        var leaves := LeavesOf(events);
        var root := t.batches[b].merkleRoot.value;
        var proof := Merkle.RfcPath(leaves, index.value);
        Ok(Verification(leaves[index.value], proof, root, Merkle.Accepts(leaves[index.value], proof, root)))
  }

  predicate HasMember(t: Tables, b: BatchId, id: EventId) {
    exists e :: e in t.events && e.id == id && e.batch == Some(b)
  }

  predicate LeafOfMember(t: Tables, b: BatchId, id: EventId, leaf: Merkle.Digest) {
    exists e :: e in t.events && e.id == id && e.batch == Some(b) && leaf == Merkle.Leaf(e.payloadHash)
  }

  /** An accepted addEvents adds exactly the events named. */
  lemma AddedExactly(t: Tables, b: BatchId, ids: seq<EventId>, k: EventId)
    requires Transition(t, AddEvents(b, ids)).Ok?
    ensures HasMember(Step(t, AddEvents(b, ids)), b, k) <==> HasMember(t, b, k) || k in ids
  {
  }

  lemma NamedIsEligible(t: Tables, b: BatchId, ids: seq<EventId>, k: EventId)
    requires Transition(t, AddEvents(b, ids)).Ok? && k in ids
    ensures exists i :: 0 <= i < |t.events| && t.events[i].id == k && t.events[i].batch.None?
  {
    var e :| e in t.events && e.id == k && Eligible(e, t.batches[b]);
  }

  /** An accepted removeEvent removes exactly the event named. */
  lemma RemovedExactly(t: Tables, b: BatchId, id: EventId, k: EventId)
    requires UniqueIds(t.events) && Transition(t, RemoveEvent(b, id)).Ok?
    ensures HasMember(Step(t, RemoveEvent(b, id)), b, k) <==> HasMember(t, b, k) && k != id
  {
  }

  lemma MoveBack(events: seq<Event>, id: EventId, b: BatchId)
    requires UniqueIds(events) && exists i :: 0 <= i < |events| && events[i].id == id && events[i].batch.None?
    ensures Move(Move(events, [id], None, Some(b)), [id], Some(b), None) == events
  {
    var i :| 0 <= i < |events| && events[i].id == id && events[i].batch.None?;
    forall j | 0 <= j < |events|
      ensures MoveOne(MoveOne(events[j], [id], None, Some(b)), [id], Some(b), None) == events[j]
    {
      if j < i { assert events[j].id != events[i].id; }
      if i < j { assert events[i].id != events[j].id; }
    }
  }

  lemma TotalsBack(t: Tables, b: BatchId, batch: Batch)
    requires BatchesFit(t) && b < |t.batches| && batch == t.batches[b].(totalGrams := batch.totalGrams, eventCount := batch.eventCount)
    ensures WithTotals(batch, Members(t.events, Some(b))) == t.batches[b]
  {
    assert BatchFits(t.batches[b], Members(t.events, Some(b)));
  }

  lemma MovedBack(t: Tables, u: Tables, b: BatchId)
    requires BatchesFit(t) && b < |t.batches| == |u.batches|
    requires u == t.(events := u.events, batches := t.batches[b := u.batches[b]])
    requires u.batches[b] == t.batches[b].(totalGrams := u.batches[b].totalGrams, eventCount := u.batches[b].eventCount)
    ensures Moved(u, b, t.events) == t
  {
    TotalsBack(t, b, u.batches[b]);
    assert Moved(u, b, t.events).batches == t.batches;
  }

  lemma MemberCanBeRemoved(t: Tables, b: BatchId, id: EventId)
    requires b < |t.batches| && t.batches[b].status.Open? && HasMember(t, b, id)
    ensures Transition(t, RemoveEvent(b, id)) == Ok(Moved(t, b, Move(t.events, [id], Some(b), None)))
  {
  }

  /** Taking an event out right after it was added leaves the tables as before. */
  lemma RemoveUndoesAdd(t: Tables, b: BatchId, id: EventId)
    requires Inv(t) && Transition(t, AddEvents(b, [id])).Ok?
    ensures Transition(Step(t, AddEvents(b, [id])), RemoveEvent(b, id)) == Ok(t)
  {
    var u := Step(t, AddEvents(b, [id]));
    AddFacts(t, b, [id]);
    AddedExactly(t, b, [id], id);
    MemberCanBeRemoved(u, b, id);
    NamedIsEligible(t, b, [id], id);
    MoveBack(t.events, id, b);
    MovedBack(t, u, b);
  }

  lemma FoundExactlyMembers(t: Tables, b: BatchId, id: EventId)
    ensures var events := Ordered(t.events, b); var index := FindIndex(events, id);
            && (index.Some? <==> HasMember(t, b, id))
            && (index.Some? ==> LeafOfMember(t, b, id, Merkle.Leaf(events[index.value].payloadHash)))
  {
    var events := Ordered(t.events, b);
    var index := FindIndex(events, id);
    InSort(Members(t.events, Some(b)), EventOrder);
    if index.Some? { assert events[index.value] in events; }
  }

  /** A verification succeeds exactly for the members of sealed batches, is then
      always valid, and is about that member's payload hash. */
  lemma MembersVerify(t: Tables, b: BatchId, id: EventId)
    requires Inv(t)
    ensures VerifyEvent(t, b, id).Ok? <==> b < |t.batches| && !t.batches[b].status.Open? && HasMember(t, b, id)
    ensures VerifyEvent(t, b, id).Ok? ==> VerifyEvent(t, b, id).value.proofValid
    ensures VerifyEvent(t, b, id).Ok? ==> LeafOfMember(t, b, id, VerifyEvent(t, b, id).value.leaf)
  {
    if b < |t.batches| {
      assert BatchFits(t.batches[b], Members(t.events, Some(b)));
      FoundExactlyMembers(t, b, id);
      var events := Ordered(t.events, b);
      var index := FindIndex(events, id);
      if index.Some? { ProofsHold(LeavesOf(events), index.value); }
    }
  }

  /** What an answer says is so of the fields answered: the root is the batch's, the
      verdict is the verifier's on the leaf, proof and root that were answered; and
      why there is none otherwise. */
  lemma VerifyAnswers(t: Tables, b: BatchId, id: EventId)
    ensures VerifyEvent(t, b, id).Ok? ==>
              var v := VerifyEvent(t, b, id).value;
              && b < |t.batches| && t.batches[b].merkleRoot == Some(v.merkleRoot)
              && (v.proofValid <==> Merkle.Accepts(v.leaf, v.proof, v.merkleRoot))
              && LeafOfMember(t, b, id, v.leaf)
    ensures b >= |t.batches| ==> VerifyEvent(t, b, id) == Err(BatchNotFound)
    ensures b < |t.batches| && t.batches[b].merkleRoot.None? ==> VerifyEvent(t, b, id) == Err(NotSealed)
    ensures b < |t.batches| && t.batches[b].merkleRoot.Some? ==>
              if HasMember(t, b, id) then VerifyEvent(t, b, id).Ok? else VerifyEvent(t, b, id) == Err(EventNotInBatch)
  {
    FoundExactlyMembers(t, b, id);
  }

  lemma ProofsHold(leaves: seq<Merkle.Digest>, i: nat)
    requires i < |leaves| && Merkle.AllWellFormed(leaves)
    ensures Merkle.Accepts(leaves[i], Merkle.RfcPath(leaves, i), Merkle.RfcRoot(leaves))
  {
    Merkle.ProofComplete(leaves, i);
    Merkle.RootIsRfcRoot(leaves);
    Merkle.PathIsRfcPath(leaves, i);
  }

  /** Whatever happens after sealing, verifying an event of the batch gives the
      very same leaf, proof, root and verdict. */
  lemma ProvableForever(t: Tables, xs: seq<Call>, b: BatchId, id: EventId)
    requires Inv(t) && b < |t.batches| && !t.batches[b].status.Open?
    ensures VerifyEvent(Run(t, xs), b, id) == VerifyEvent(t, b, id)
    ensures VerifyEvent(t, b, id).Ok? ==> VerifyEvent(Run(t, xs), b, id).value.proofValid
  {
    SealedNeverChanges(t, xs, b);
    MembersVerify(t, b, id);
  }

  /** Nothing else can be proved against a sealed root: a proof that a payload
      hash is in the batch is the proof handed out for a member with that hash. */
  lemma OnlyMembersProvable(t: Tables, b: BatchId, hash: Text, proof: seq<Merkle.ProofStep>)
    requires Inv(t) && b < |t.batches| && !t.batches[b].status.Open?
    requires Merkle.Accepts(Merkle.Leaf(hash), proof, t.batches[b].merkleRoot.value)
    ensures exists id :: VerifyEvent(t, b, id).Ok? && VerifyEvent(t, b, id).value.leaf == Merkle.Leaf(hash)
                      && VerifyEvent(t, b, id).value.proof == proof
  {
    assert BatchFits(t.batches[b], Members(t.events, Some(b)));
    var events := Ordered(t.events, b);
    var leaves := LeavesOf(events);
    Merkle.RootIsRfcRoot(leaves);
    Merkle.ProofSound(hash, proof, leaves);
    var i: nat :| i < |leaves| && leaves[i] == Merkle.Leaf(hash) && proof == Merkle.Path(leaves, i);
    Merkle.PathIsRfcPath(leaves, i);
    var id := events[i].id;
    OrderedUnique(t, b, i);
    assert VerifyEvent(t, b, id).Ok? && VerifyEvent(t, b, id).value.proof == proof;
  }

  lemma OrderedUnique(t: Tables, b: BatchId, i: nat)
    requires UniqueIds(t.events) && i < |Ordered(t.events, b)|
    ensures FindIndex(Ordered(t.events, b), Ordered(t.events, b)[i].id) == Some(i)
  {
    MembersUnique(t.events, Some(b));
    DistinctAfterPermutation(Members(t.events, Some(b)), Ordered(t.events, b), IdOrder);
    FindsDistinct(Ordered(t.events, b), i);
  }

  lemma FindsDistinct(events: seq<Event>, i: nat)
    requires DistinctKeys(events, IdOrder) && i < |events|
    ensures FindIndex(events, events[i].id) == Some(i)
  {
    forall j | 0 <= j < i ensures events[j].id != events[i].id {
      assert IdOrder(events[j]) != IdOrder(events[i]);
    }
    assert FindIndex(events, events[i].id).Some?;
  }

  function IdOrder(e: Event): seq<int> {
    [e.id]
  }

  lemma {:induction false} MembersUnique(events: seq<Event>, b: Option<BatchId>)
    requires UniqueIds(events)
    ensures DistinctKeys(Members(events, b), IdOrder)
  {
    if events != [] {
      var n := |events| - 1;
      var before := Members(events[..n], b);
      MembersUnique(events[..n], b);
      forall i | 0 <= i < |before| ensures before[i].id != events[n].id {
        assert before[i] in before;
        var j :| 0 <= j < n && events[..n][j] == before[i];
        assert events[j] == before[i];
      }
      var all := Members(events, b);
      forall i, j | 0 <= i < j < |all| ensures IdOrder(all[i]) != IdOrder(all[j]) {
        assert IdOrder(all[i])[0] == all[i].id && IdOrder(all[j])[0] == all[j].id;
        if j < |before| { assert IdOrder(before[i]) != IdOrder(before[j]); }
      }
    }
  }

  // ----- weight is conserved -----

  function Sum(xs: seq<nat>): nat {
    if xs == [] then 0 else Sum(xs[..|xs| - 1]) + xs[|xs| - 1]
  }

  function TotalsOf(batches: seq<Batch>): (r: seq<nat>)
    ensures |r| == |batches| && forall b | 0 <= b < |r| :: r[b] == batches[b].totalGrams
  {
    seq(|batches|, b requires 0 <= b < |batches| => batches[b].totalGrams)
  }

  /** What the members of each of n batches weigh. */
  function MemberWeights(events: seq<Event>, n: nat): (r: seq<nat>)
    ensures |r| == n && forall b | 0 <= b < n :: r[b] == Weight(Members(events, Some(b)))
  {
    seq(n, b requires 0 <= b < n => Weight(Members(events, Some(b))))
  }

  lemma {:induction false} SumBumped(xs: seq<nat>, ys: seq<nat>, k: nat, more: nat)
    requires |xs| == |ys| && forall i | 0 <= i < |xs| :: ys[i] == xs[i] + if i == k then more else 0
    ensures Sum(ys) == Sum(xs) + if k < |xs| then more else 0
  {
    if xs != [] { SumBumped(xs[..|xs| - 1], ys[..|ys| - 1], k, more); }
  }

  lemma {:induction false} SumZero(xs: seq<nat>)
    requires forall i | 0 <= i < |xs| :: xs[i] == 0
    ensures Sum(xs) == 0
  {
    if xs != [] { SumZero(xs[..|xs| - 1]); }
  }

  lemma MemberWeightAppend(events: seq<Event>, e: Event, b: Option<BatchId>)
    ensures Weight(Members(events + [e], b)) == Weight(Members(events, b)) + if e.batch == b then e.grams else 0
  {
    MembersAppend(events, e, b);
    var ms := Members(events, b);
    WeightAppend(ms, e);
    if e.batch == b {
      assert Members(events + [e], b) == ms + [e];
    } else {
      assert Members(events + [e], b) == ms + [] == ms;
    }
  }

  lemma MemberWeightsAppend(events: seq<Event>, e: Event, n: nat)
    requires e.batch.Some? ==> e.batch.value < n
    ensures Sum(MemberWeights(events + [e], n)) == Sum(MemberWeights(events, n)) + if e.batch.Some? then e.grams else 0
  {
    var xs, ys := MemberWeights(events, n), MemberWeights(events + [e], n);
    var k := if e.batch.Some? then e.batch.value else n;
    forall b | 0 <= b < n ensures ys[b] == xs[b] + if b == k then e.grams else 0 {
      MemberWeightAppend(events, e, Some(b));
    }
    SumBumped(xs, ys, k, e.grams);
  }

  lemma {:induction false} SplitWeight(events: seq<Event>, n: nat)
    requires forall i | 0 <= i < |events| && events[i].batch.Some? :: events[i].batch.value < n
    ensures Sum(MemberWeights(events, n)) + Weight(Members(events, None)) == Weight(events)
  {
    if events == [] {
      SumZero(MemberWeights(events, n));
    } else {
      var before, last := events[..|events| - 1], events[|events| - 1];
      assert events == before + [last];
      SplitWeight(before, n);
      MemberWeightsAppend(before, last, n);
      MemberWeightAppend(before, last, None);
    }
  }

  lemma TotalIsWeight(t: Tables, b: BatchId)
    requires BatchesFit(t) && b < |t.batches|
    ensures t.batches[b].totalGrams == Weight(Members(t.events, Some(b)))
  {
    assert BatchFits(t.batches[b], Members(t.events, Some(b)));
  }

  lemma TotalsAreMembers(t: Tables)
    requires BatchesFit(t)
    ensures TotalsOf(t.batches) == MemberWeights(t.events, |t.batches|)
  {
    forall b | 0 <= b < |t.batches| ensures TotalsOf(t.batches)[b] == MemberWeights(t.events, |t.batches|)[b] {
      TotalIsWeight(t, b);
    }
  }

  /** The totals of all batches and the unbatched weight make up everything that
      was ingested. */
  lemma WeightConserved(t: Tables)
    requires Inv(t)
    ensures Sum(TotalsOf(t.batches)) + Weight(Members(t.events, None)) == Weight(t.events)
  {
    TotalsAreMembers(t);
    SplitWeight(t.events, |t.batches|);
  }

  lemma {:induction false} MoveKeepsWeight(events: seq<Event>, ids: seq<EventId>, from: Option<BatchId>, to: Option<BatchId>)
    ensures Weight(Move(events, ids, from, to)) == Weight(events)
  {
    if events != [] {
      var n := |events| - 1;
      MoveKeepsWeight(events[..n], ids, from, to);
      assert Move(events, ids, from, to)[..n] == Move(events[..n], ids, from, to);
    }
  }

  /** Only an accepted ingest adds weight, and nothing removes any. */
  lemma OnlyIngestAddsWeight(t: Tables, x: Call)
    ensures Weight(Step(t, x).events) == Weight(t.events) + if x.Ingest? && Transition(t, x).Ok? then x.event.grams else 0
  {
    match x
    case Ingest(e) => WeightAppend(t.events, e.(batch := None));
    case AddEvents(b, ids) => MoveKeepsWeight(t.events, ids, None, Some(b));
    case RemoveEvent(b, id) => MoveKeepsWeight(t.events, [id], Some(b), None);
    case _ =>
  }

  // ----- one anchor per batch -----

  function Successes(rows: seq<Attempt>): nat {
    if rows == [] then 0 else Successes(rows[..|rows| - 1]) + if rows[|rows| - 1].outcome.Succeeded? then 1 else 0
  }

  lemma {:induction false} NoSuccess(rows: seq<Attempt>)
    requires forall i | 0 <= i < |rows| :: !rows[i].outcome.Succeeded?
    ensures Successes(rows) == 0
  {
    if rows != [] { NoSuccess(rows[..|rows| - 1]); }
  }

  lemma HistoryCloses(rows: seq<Attempt>, anchored: bool)
    requires HistoryFits(rows, anchored)
    ensures Successes(rows) == if anchored then 1 else 0
  {
    if anchored {
      NoSuccess(rows[..|rows| - 1]);
    } else {
      NoSuccess(rows);
    }
  }

  /** An anchored batch is sealed, and its anchor carries the sealed root, which
      is the root over its ordered members. */
  predicate AnchoredUnderItsRoot(t: Tables, b: BatchId) {
    && b in t.anchors && b < |t.batches| && !t.batches[b].status.Open?
    && t.batches[b].merkleRoot == Some(t.anchors[b].merkleRoot)
    && Ordered(t.events, b) != []
    && t.anchors[b].merkleRoot == Merkle.RfcRoot(LeavesOf(Ordered(t.events, b)))
  }

  lemma AnchorMatches(t: Tables, b: BatchId)
    requires BatchesFit(t) && AnchorsFit(t) && b in t.anchors
    ensures AnchoredUnderItsRoot(t, b)
  {
    assert BatchFits(t.batches[b], Members(t.events, Some(b)));
  }

  /** In every reachable state an anchored batch is anchored under its sealed
      root; every history is numbered from 1 without a gap and has one success,
      its last attempt, if the batch is anchored and none otherwise. */
  lemma OneAnchorPerBatch(xs: seq<Call>, b: BatchId)
    ensures b in Run(EMPTY, xs).anchors ==> AnchoredUnderItsRoot(Run(EMPTY, xs), b)
    ensures HistoryFits(History(Run(EMPTY, xs), b), b in Run(EMPTY, xs).anchors)
    ensures Successes(History(Run(EMPTY, xs), b)) == if b in Run(EMPTY, xs).anchors then 1 else 0
  {
    RunKeepsInv(EMPTY, xs);
    var t := Run(EMPTY, xs);
    HistoryOf(t, b);
    if b in t.anchors { AnchorMatches(t, b); }
  }

  lemma HistoryOf(t: Tables, b: BatchId)
    requires AttemptsFit(t)
    ensures HistoryFits(History(t, b), b in t.anchors)
    ensures Successes(History(t, b)) == if b in t.anchors then 1 else 0
  {
    HistoryCloses(History(t, b), b in t.anchors);
  }

  /** The batch is anchored by this transaction, under this root. */
  predicate AnchoredBy(t: Tables, b: BatchId, a: Anchor) {
    && b < |t.batches| && !t.batches[b].status.Open? && t.batches[b].merkleRoot == Some(a.merkleRoot)
    && b in t.anchors && t.anchors[b].txHash == a.txHash
  }

  lemma AcceptedAnchors(t: Tables, b: BatchId, a: Anchor, now: int)
    requires Transition(t, RecordAnchor(b, a, now)).Ok?
    ensures AnchoredBy(Step(t, RecordAnchor(b, a, now)), b, a)
  {
  }

  lemma AnchoredAnswers(t: Tables, b: BatchId, a: Anchor, later: int, other: Anchor)
    requires AnchoredBy(t, b, a) && other.txHash != a.txHash
    ensures Transition(t, RecordAnchor(b, a, later)) == Ok(t)
    ensures Transition(t, RecordAnchor(b, other, later)).Err?
    ensures forall unverified :: Transition(t, RecordFailure(b, unverified, later)) == Err(AlreadyAnchored)
  {
  }

  /** Once an anchor has been accepted, writing it back again, however much
      later, is accepted and changes nothing; another transaction for the same
      batch, or a failure, is refused. */
  lemma AnchorIsFinal(t: Tables, b: BatchId, a: Anchor, now: int, xs: seq<Call>, later: int, other: Anchor)
    requires Transition(t, RecordAnchor(b, a, now)).Ok?
    requires other.txHash != a.txHash
    ensures var u := Run(Step(t, RecordAnchor(b, a, now)), xs);
            && Transition(u, RecordAnchor(b, a, later)) == Ok(u)
            && Transition(u, RecordAnchor(b, other, later)).Err?
            && forall unverified :: Transition(u, RecordFailure(b, unverified, later)) == Err(AlreadyAnchored)
  {
    var first := Step(t, RecordAnchor(b, a, now));
    AcceptedAnchors(t, b, a, now);
    SealedNeverChanges(first, xs, b);
    AnchoredAnswers(Run(first, xs), b, a, later, other);
  }

  // ----- what the worker is offered -----

  predicate Awaits(t: Tables, b: BatchId) {
    && b < |t.batches| && t.batches[b].status.Sealed? && t.batches[b].merkleRoot.Some? && b !in t.anchors
  }

  function Awaiting(t: Tables, n: nat): (r: seq<BatchId>)
    ensures forall b: BatchId :: b in r <==> b < n && Awaits(t, b)
    ensures forall i, j | 0 <= i < j < |r| :: r[i] < r[j]
  {
    if n == 0 then []
    else
      var before := Awaiting(t, n - 1);
      assert forall i | 0 <= i < |before| :: before[i] in before;
      if Awaits(t, n - 1) then before + [n - 1] else before
  }

  function SealTime(batches: seq<Batch>): BatchId -> seq<int> {
    (b: BatchId) => if b < |batches| && batches[b].sealedAt.Some? then [batches[b].sealedAt.value] else []
  }

  predicate Due(t: Tables, b: BatchId, now: int) {
    IsDueForRetry(Summarise(History(t, b)), now)
  }

  function KeepDue(t: Tables, bs: seq<BatchId>, now: int): seq<BatchId> {
    if bs == [] then []
    else (if Due(t, bs[0], now) then [bs[0]] else []) + KeepDue(t, bs[1..], now)
  }

  function PendingAnchor(t: Tables, now: int): seq<BatchId> {
    KeepDue(t, Sort(Awaiting(t, |t.batches|), SealTime(t.batches)), now)
  }

  lemma {:induction false} KeepDueIs(t: Tables, bs: seq<BatchId>, now: int)
    ensures forall b :: b in KeepDue(t, bs, now) <==> b in bs && Due(t, b, now)
  {
    if bs != [] {
      KeepDueIs(t, bs[1..], now);
      assert bs == [bs[0]] + bs[1..];
    }
  }

  lemma {:induction false} KeepDueSorted(t: Tables, bs: seq<BatchId>, now: int, key: BatchId -> seq<int>)
    requires Sorted(bs, key)
    ensures Sorted(KeepDue(t, bs, now), key)
  {
    if bs != [] {
      var tail := KeepDue(t, bs[1..], now);
      KeepDueIs(t, bs[1..], now);
      KeepDueSorted(t, bs[1..], now, key);
      forall j | 0 <= j < |tail| ensures LexLe(key(bs[0]), key(tail[j])) {
        assert tail[j] in tail;
      }
    }
  }

  lemma {:induction false} KeepDueDistinct(t: Tables, bs: seq<BatchId>, now: int, key: BatchId -> seq<int>)
    requires DistinctKeys(bs, key)
    ensures DistinctKeys(KeepDue(t, bs, now), key)
  {
    if bs != [] {
      var tail := KeepDue(t, bs[1..], now);
      KeepDueIs(t, bs[1..], now);
      KeepDueDistinct(t, bs[1..], now, key);
      forall j | 0 <= j < |tail| ensures key(bs[0]) != key(tail[j]) {
        assert tail[j] in tail;
      }
    }
  }

  function IdKey(b: BatchId): seq<int> {
    [b]
  }

  /** A batch is offered exactly when it is sealed, rooted, not anchored and its
      backoff has elapsed. */
  lemma OfferedExactlyWhenDue(t: Tables, b: BatchId, now: int)
    ensures b in PendingAnchor(t, now) <==> Awaits(t, b) && Due(t, b, now)
  {
    var waiting := Awaiting(t, |t.batches|);
    InSort(waiting, SealTime(t.batches));
    KeepDueIs(t, Sort(waiting, SealTime(t.batches)), now);
  }

  /** No batch that awaits its anchor is withheld for more than an hour: once every
      attempt is an hour old, it is offered. */
  lemma OfferedWithinTheHour(t: Tables, b: BatchId, now: int)
    requires Awaits(t, b) && forall a | a in History(t, b) :: a.occurredAt + 3_600_000 <= now
    ensures b in PendingAnchor(t, now)
  {
    var rows := History(t, b);
    if Summarise(rows).Some? { LastAttemptIsOne(rows); }
    NeverWithheldOverAnHour(Summarise(rows), now);
    OfferedExactlyWhenDue(t, b, now);
  }

  /** A batch that has been processed is never offered again, anchored or not. */
  lemma ProcessedIsNotOffered(t: Tables, xs: seq<Call>, b: BatchId, now: int)
    requires b < |t.batches| && (t.batches[b].status.Processed? || t.batches[b].status.Sold?)
    ensures b !in PendingAnchor(Run(t, xs), now)
  {
    PastSealing(t, xs, b);
    OfferedExactlyWhenDue(Run(t, xs), b, now);
  }

  lemma PastSealing(t: Tables, xs: seq<Call>, b: BatchId)
    requires b < |t.batches| && Rank(t.batches[b].status) >= 2
    ensures !Awaits(Run(t, xs), b)
  {
    SealedNeverChanges(t, xs, b);
    assert RowFrozen(t, Run(t, xs), b);
  }

  lemma AwaitingDistinct(t: Tables, n: nat)
    ensures DistinctKeys(Awaiting(t, n), IdKey)
  {
    var waiting := Awaiting(t, n);
    forall i, j | 0 <= i < j < |waiting| ensures IdKey(waiting[i]) != IdKey(waiting[j]) {
      assert IdKey(waiting[i])[0] < IdKey(waiting[j])[0];
    }
  }

  /** Batches are offered once each, oldest seal first. */
  lemma OfferedOnceOldestFirst(t: Tables, now: int)
    ensures Sorted(PendingAnchor(t, now), SealTime(t.batches))
    ensures DistinctKeys(PendingAnchor(t, now), IdKey)
  {
    var waiting := Awaiting(t, |t.batches|);
    var key := SealTime(t.batches);
    var sorted := Sort(waiting, key);
    SortSorted(waiting, key);
    KeepDueSorted(t, sorted, now, key);
    AwaitingDistinct(t, |t.batches|);
    DistinctAfterPermutation(waiting, sorted, IdKey);
    KeepDueDistinct(t, sorted, now, IdKey);
  }

  lemma AwaitingCanBeAnchored(t: Tables, b: BatchId, a: Anchor, now: int)
    requires Awaits(t, b) && t.batches[b].merkleRoot == Some(a.merkleRoot)
    requires forall c | c in t.anchors :: t.anchors[c].txHash != a.txHash
    ensures Transition(t, RecordAnchor(b, a, now)).Ok?
    ensures Step(t, RecordAnchor(b, a, now)).anchors == t.anchors[b := a]
  {
  }

  /** What is offered can be anchored: writing back its root in a transaction no
      other batch used is accepted, and the batch is offered no more. */
  lemma OfferedCanBeAnchored(t: Tables, b: BatchId, a: Anchor, now: int, later: int)
    requires b in PendingAnchor(t, now)
    requires b < |t.batches| && t.batches[b].merkleRoot == Some(a.merkleRoot)
    requires forall c | c in t.anchors :: t.anchors[c].txHash != a.txHash
    ensures Transition(t, RecordAnchor(b, a, now)).Ok?
    ensures Step(t, RecordAnchor(b, a, now)).anchors == t.anchors[b := a]
    ensures b !in PendingAnchor(Step(t, RecordAnchor(b, a, now)), later)
  {
    OfferedExactlyWhenDue(t, b, now);
    AwaitingCanBeAnchored(t, b, a, now);
    var u := Step(t, RecordAnchor(b, a, now));
    OfferedExactlyWhenDue(u, b, later);
    assert !Awaits(u, b);
  }

  // ----- a worker that tries only what it was offered -----

  /** Each attempt that is written back followed a moment at which its batch was
      due. The batch may have been advanced since it was offered. */
  ghost predicate FollowsOffer(t: Tables, x: Call) {
    match x
    case RecordAnchor(b, a, now) => OfferedBefore(History(t, b), now)
    case RecordFailure(b, unverified, now) => OfferedBefore(History(t, b), now)
    case _ => true
  }

  predicate Attempts(x: Call, b: BatchId) {
    (x.RecordAnchor? || x.RecordFailure?) && x.batch == b
  }

  lemma OthersKeepHistory(t: Tables, x: Call, b: BatchId)
    requires !Attempts(x, b)
    ensures History(Step(t, x), b) == History(t, b)
  {
  }

  lemma {:induction false} HistoryWaits(t: Tables, xs: seq<Call>, b: BatchId)
    requires forall x | x in xs :: !Attempts(x, b)
    ensures History(Run(t, xs), b) == History(t, b)
    decreases |xs|
  {
    if xs != [] {
      assert xs[0] in xs && forall x | x in xs[1..] :: x in xs;
      OthersKeepHistory(t, xs[0], b);
      HistoryWaits(Step(t, xs[0]), xs[1..], b);
    }
  }

  /** Whatever happened to the batch since it was offered, short of another
      attempt at it, an attempt written back follows that offer. */
  lemma OfferHolds(t: Tables, xs: seq<Call>, b: BatchId, offered: int, now: int, x: Call)
    requires b in PendingAnchor(t, offered) && offered <= now && forall y | y in xs :: !Attempts(y, b)
    requires Attempts(x, b) && x.now == now
    ensures FollowsOffer(Run(t, xs), x)
  {
    OfferedExactlyWhenDue(t, b, offered);
    HistoryWaits(t, xs, b);
  }

  ghost predicate WorkerRun(t: Tables, xs: seq<Call>)
    decreases |xs|
  {
    xs == [] || (FollowsOffer(t, xs[0]) && WorkerRun(Step(t, xs[0]), xs[1..]))
  }

  /** The attempts before the success, if there was one. */
  function FailuresOf(t: Tables, b: BatchId): seq<Attempt> {
    var rows := History(t, b);
    if b in t.anchors && rows != [] then rows[..|rows| - 1] else rows
  }

  lemma OfferedOneMore(rows: seq<Attempt>, row: Attempt)
    requires OfferedHistory(rows) && !row.outcome.Succeeded? && OfferedBefore(rows, row.occurredAt)
    ensures OfferedHistory(rows + [row])
  {
    var all := rows + [row];
    forall i | 0 < i < |all| ensures OfferedAt(all, i) {
      if i < |rows| {
        assert OfferedAt(rows, i) && all[..i] == rows[..i] && all[i] == rows[i];
      } else {
        assert all[..i] == rows;
      }
    }
  }

  lemma FailureAppends(t: Tables, b: BatchId, unverified: bool, now: int)
    requires Transition(t, RecordFailure(b, unverified, now)).Ok?
    ensures FailuresOf(t, b) == History(t, b)
    ensures FailuresOf(Step(t, RecordFailure(b, unverified, now)), b)
         == History(t, b) + [Attempt(|History(t, b)| + 1, if unverified then Unverified else Failed, now)]
  {
  }

  lemma FailureKeepsOffered(t: Tables, b: BatchId, unverified: bool, now: int)
    requires OfferedHistory(FailuresOf(t, b)) && OfferedBefore(History(t, b), now)
    ensures OfferedHistory(FailuresOf(Step(t, RecordFailure(b, unverified, now)), b))
  {
    if Transition(t, RecordFailure(b, unverified, now)).Ok? {
      FailureAppends(t, b, unverified, now);
      var rows := History(t, b);
      OfferedOneMore(rows, Attempt(|rows| + 1, if unverified then Unverified else Failed, now));
    }
  }

  lemma FirstAnchorKeepsFailures(t: Tables, a: Anchor, b: BatchId, now: int)
    requires b !in t.anchors
    ensures FailuresOf(Recorded(t.(anchors := t.anchors[b := a]), b, Succeeded, now), b) == FailuresOf(t, b)
  {
    var rows := History(t, b);
    assert History(Recorded(t.(anchors := t.anchors[b := a]), b, Succeeded, now), b) == rows + [Attempt(|rows| + 1, Succeeded, now)];
  }

  lemma AnchorKeepsFailures(t: Tables, a: Anchor, b: BatchId, now: int)
    ensures FailuresOf(Step(t, RecordAnchor(b, a, now)), b) == FailuresOf(t, b)
  {
    if Transition(t, RecordAnchor(b, a, now)).Ok? && b !in t.anchors {
      AnchorFacts(t, b, a, now);
      FirstAnchorKeepsFailures(t, a, b, now);
    } else {
      RepeatedAnchor(t, b, a, now);
    }
  }

  lemma OthersKeepFailures(t: Tables, x: Call, b: BatchId)
    requires !Attempts(x, b)
    ensures FailuresOf(Step(t, x), b) == FailuresOf(t, b)
  {
  }

  lemma {:induction false} WorkerHistory(t: Tables, xs: seq<Call>, b: BatchId)
    requires WorkerRun(t, xs) && OfferedHistory(FailuresOf(t, b))
    ensures OfferedHistory(FailuresOf(Run(t, xs), b))
    decreases |xs|
  {
    if xs != [] {
      var x := xs[0];
      if x.RecordFailure? && x.batch == b {
        FailureKeepsOffered(t, b, x.unverified, x.now);
      } else if x.RecordAnchor? && x.batch == b {
        AnchorKeepsFailures(t, x.anchor, b, x.now);
      } else {
        OthersKeepFailures(t, x, b);
      }
      WorkerHistory(Step(t, x), xs[1..], b);
    }
  }

  /** Over every run in which the worker writes back only attempts at what it was
      offered, even if the batch was advanced in between, the failures numbered
      eight and above of any batch fall at most 24 times in any half-open 24
      hours. */
  lemma LateFailuresAreRare(xs: seq<Call>, b: BatchId, from: int)
    requires WorkerRun(EMPTY, xs)
    ensures var failures := FailuresOf(Run(EMPTY, xs), b);
            |failures| >= 7 ==> Times.Count(TimesOf(failures)[7..], from, from + 86_400_000) <= 24
  {
    WorkerHistory(EMPTY, xs, b);
    var failures := FailuresOf(Run(EMPTY, xs), b);
    if |failures| >= 7 { AtMostOncePerHour(failures, from); }
  }
}
