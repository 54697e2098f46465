/** What an auditor is told about a batch as the tables have it: the proof section
    of its report, and what the ledger says of its anchor. */
module Audit {
  import opened Wrappers
  import opened Text
  import opened Batches
  import Lifecycle
  import LedgerVerification
  import Merkle
  import Reports

  // ----- the report of a batch -----

  function HashesOf(events: seq<Event>): (hashes: seq<Text>)
    ensures |hashes| == |events| && forall i | 0 <= i < |events| :: hashes[i] == events[i].payloadHash
  {
    seq(|events|, i requires 0 <= i < |events| => events[i].payloadHash)
  }

  /** The proof section that the report of a batch shows. */
  function ReportOf(t: Tables, b: BatchId): Reports.ProofSection
    requires b < |t.batches|
  {
    Reports.BuildProofSection(t.batches[b].merkleRoot, HashesOf(Ordered(t.events, b)))
  }

  lemma SameLeaves(events: seq<Event>)
    ensures Reports.LeavesOf(HashesOf(events)) == LeavesOf(events)
  {
  }

  lemma OrderedIsMembers(t: Tables, b: BatchId)
    ensures Ordered(t.events, b) == [] <==> Members(t.events, Some(b)) == []
  {
  }

  /** In every reachable state the report says that the root matches exactly when
      the batch is sealed, and that all proofs are valid exactly when it has
      events. */
  lemma ReportMatchesExactlyWhenSealed(xs: seq<Call>, b: BatchId)
    requires b < |Run(EMPTY, xs).batches|
    ensures var t := Run(EMPTY, xs);
            && (ReportOf(t, b).rootMatchesSealedValue <==> !t.batches[b].status.Open?)
            && (ReportOf(t, b).allProofsValid <==> Members(t.events, Some(b)) != [])
  {
    RunKeepsInv(EMPTY, xs);
    ReportOfState(Run(EMPTY, xs), b);
  }

  lemma ReportOfState(t: Tables, b: BatchId)
    requires Inv(t) && b < |t.batches|
    ensures ReportOf(t, b).rootMatchesSealedValue <==> !t.batches[b].status.Open?
    ensures ReportOf(t, b).allProofsValid <==> Members(t.events, Some(b)) != []
  {
    var events := Ordered(t.events, b);
    var hashes := HashesOf(events);
    assert BatchFits(t.batches[b], Members(t.events, Some(b)));
    SameLeaves(events);
    if events != [] {
      Merkle.RootIsRfcRoot(LeavesOf(events));
      Reports.ReportIsTamperEvident(hashes, hashes);
    }
  }

  /** Its proofs are those that verifyEvent hands out for the members. */
  lemma ReportShowsTheProofs(t: Tables, b: BatchId, i: nat)
    requires Inv(t) && b < |t.batches| && !t.batches[b].status.Open? && i < |Ordered(t.events, b)|
    ensures i < |ReportOf(t, b).proofs|
    ensures var v := Lifecycle.VerifyEvent(t, b, Ordered(t.events, b)[i].id);
            v.Ok? && v.value.proofValid && v.value.proof == ReportOf(t, b).proofs[i]
  {
    var events := Ordered(t.events, b);
    assert BatchFits(t.batches[b], Members(t.events, Some(b)));
    SameLeaves(events);
    Lifecycle.OrderedUnique(t, b, i);
    Lifecycle.ProofsHold(LeavesOf(events), i);
    Merkle.PathIsRfcPath(LeavesOf(events), i);
  }

  /** The report of a sealed batch holds then and after any later calls: the same
      proofs, all valid, against the same root. */
  lemma ReportHoldsForever(t: Tables, xs: seq<Call>, b: BatchId)
    requires Inv(t) && b < |t.batches| && !t.batches[b].status.Open?
    ensures b < |Run(t, xs).batches| && ReportOf(Run(t, xs), b) == ReportOf(t, b)
    ensures ReportOf(t, b).rootMatchesSealedValue && ReportOf(t, b).allProofsValid
    ensures ReportOf(t, b).recomputedRoot == t.batches[b].merkleRoot
  {
    Lifecycle.SealedNeverChanges(t, xs, b);
    assert BatchFits(t.batches[b], Members(t.events, Some(b)));
    ReportOfState(t, b);
  }

  // ----- the ledger's word on an anchor -----

  /** What the service is asked about a stored anchor; `hex` writes a root. */
  function Question(a: Anchor, hex: Merkle.Digest -> Text): LedgerVerification.Anchor {
    LedgerVerification.Anchor(a.txHash, hex(a.merkleRoot), a.dataEntryKey)
  }

  function Questions(t: Tables, hex: Merkle.Digest -> Text): set<LedgerVerification.Anchor> {
    set b | b in t.anchors :: Question(t.anchors[b], hex)
  }

  lemma StoredAnchorsHaveTheirKeys(t: Tables, hex: Merkle.Digest -> Text)
    requires AnchorsFit(t) && forall d :: COLON !in hex(d)
    ensures LedgerVerification.OneAnchorPerKey(Questions(t, hex))
  {
    forall x, y | x in Questions(t, hex) && y in Questions(t, hex)
                && LedgerVerification.CacheKey(x) == LedgerVerification.CacheKey(y)
      ensures x == y
    {
      var b :| b in t.anchors && x == Question(t.anchors[b], hex);
      var c :| c in t.anchors && y == Question(t.anchors[c], hex);
      LedgerVerification.CacheKeyInjective(x, y);
    }
  }

  /** A stored anchor stays. */
  lemma QuestionsStay(t: Tables, xs: seq<Call>, hex: Merkle.Digest -> Text)
    requires AnchorsFit(t)
    ensures Questions(t, hex) <= Questions(Run(t, xs), hex)
  {
    forall b | b in t.anchors ensures b in Run(t, xs).anchors && Run(t, xs).anchors[b] == t.anchors[b] {
      Lifecycle.SealedNeverChanges(t, xs, b);
    }
  }

  /** The service is asked about stored anchors only, and no two of those share a
      transaction. So whatever batch calls were made before, and in whatever order
      callers and reads come: an auditor who is told that the ledger carries the
      root is told so of that very batch's anchor. */
  lemma AnchorsAreAnsweredForThemselves(calls: seq<Call>, later: seq<Call>, hex: Merkle.Digest -> Text)
    requires forall d :: COLON !in hex(d)
    ensures var t := Run(EMPTY, calls);
            && LedgerVerification.AlwaysCarried(Questions(t, hex))
            && Questions(t, hex) <= Questions(Run(t, later), hex)
  {
    RunKeepsInv(EMPTY, calls);
    var t := Run(EMPTY, calls);
    StoredAnchorsHaveTheirKeys(t, hex);
    LedgerVerification.CarriedExactlyWhen(Questions(t, hex));
    QuestionsStay(t, later, hex);
  }
}
