/** The audit report's proof section and its event log as CSV. */
module Reports {
  import opened Wrappers
  import opened Text
  import Merkle
  import opened Csv

  // ----- the proof section -----

  datatype ProofSection = ProofSection(
    recomputedRoot: Option<Merkle.Digest>,
    proofs: seq<seq<Merkle.ProofStep>>,
    rootMatchesSealedValue: bool,
    allProofsValid: bool)

  function LeavesOf(payloadHashes: seq<Text>): (leaves: seq<Merkle.Digest>)
    ensures |leaves| == |payloadHashes| && Merkle.Hashed(leaves)
    ensures forall i | 0 <= i < |leaves| :: leaves[i] == Merkle.Leaf(payloadHashes[i])
  {
    seq(|payloadHashes|, i requires 0 <= i < |payloadHashes| => Merkle.Leaf(payloadHashes[i]))
  }

  function BuildProofSection(sealedRoot: Option<Merkle.Digest>, payloadHashes: seq<Text>): ProofSection {
    var leaves := LeavesOf(payloadHashes);
    var recomputed := if leaves == [] then None else Some(Merkle.Root(leaves));
    var proofs := seq(|leaves|, i requires 0 <= i < |leaves| => Merkle.Path(leaves, i));
    ProofSection(
      recomputed,
      proofs,
      sealedRoot.Some? && recomputed.Some? && sealedRoot == recomputed,
      recomputed.Some? && forall i | 0 <= i < |leaves| :: Merkle.Accepts(leaves[i], proofs[i], recomputed.value))
  }

  /** The report recomputes the root of the listed hashes, when there are any, with
      the proof of each, and compares it with the sealed root. */
  lemma SectionIs(sealedRoot: Option<Merkle.Digest>, listed: seq<Text>)
    ensures var section := BuildProofSection(sealedRoot, listed); var leaves := LeavesOf(listed);
            && |section.proofs| == |listed|
            && (listed == [] ==> section.recomputedRoot == None && !section.rootMatchesSealedValue && !section.allProofsValid)
            && (listed != [] ==>
                  && section.recomputedRoot == Some(Merkle.RfcRoot(leaves)) && section.allProofsValid
                  && (section.rootMatchesSealedValue <==> sealedRoot == Some(Merkle.RfcRoot(leaves)))
                  && forall i | 0 <= i < |listed| :: section.proofs[i] == Merkle.RfcPath(leaves, i))
  {
    var leaves := LeavesOf(listed);
    if listed != [] {
      Merkle.RootIsRfcRoot(leaves);
      forall i | 0 <= i < |leaves|
        ensures Merkle.Accepts(leaves[i], Merkle.Path(leaves, i), Merkle.Root(leaves)) && Merkle.Path(leaves, i) == Merkle.RfcPath(leaves, i)
      {
        Merkle.ProofComplete(leaves, i);
        Merkle.PathIsRfcPath(leaves, i);
      }
    }
  }

  /** Every proof in the report of a non-empty batch is valid; and against a root
      sealed over some list of hashes, the report says the root matches exactly
      when it lists those hashes in that order. */
  lemma ReportIsTamperEvident(sealedHashes: seq<Text>, listed: seq<Text>)
    requires sealedHashes != []
    ensures var section := BuildProofSection(Some(Merkle.Root(LeavesOf(sealedHashes))), listed);
            && (section.allProofsValid <==> listed != [])
            && (section.rootMatchesSealedValue <==> listed == sealedHashes)
  {
    var was, now := LeavesOf(sealedHashes), LeavesOf(listed);
    if listed != [] {
      forall i | 0 <= i < |now| ensures Merkle.Accepts(now[i], Merkle.Path(now, i), Merkle.Root(now)) {
        Merkle.ProofComplete(now, i);
      }
      Merkle.RootCommits(was, now);
      if was == now {
        forall i | 0 <= i < |listed| ensures listed[i] == sealedHashes[i] {
          assert was[i] == now[i];
        }
      }
    }
  }

  // ----- the event log -----

  datatype ReportEvent = ReportEvent(
    eventId: Text,
    collectorId: Text,
    collectorName: Text,
    capturedAt: Text,
    receivedAt: Text,
    material: Text,
    grams: nat,
    photoHash: Text,
    photoUrl: Option<Text>,
    payloadHash: Text,
    leaf: Text,
    integrityOutcome: Text)

  const HEADER: seq<string> := [
    "event_id", "collector_id", "collector_name", "captured_at", "received_at", "material",
    "weight_kg", "photo_sha256", "photo_url", "payload_sha256", "merkle_leaf", "integrity"]

  function HeaderCells(): (r: seq<Text>)
    ensures |r| == |HEADER| && forall i | 0 <= i < |HEADER| :: r[i] == Lit(HEADER[i])
  {
    seq(|HEADER|, i requires 0 <= i < |HEADER| => Lit(HEADER[i]))
  }

  /** Kilograms with three decimals. */
  function FixedKg(grams: nat): Text {
    Decimal(grams / 1000) + [DOT, 48 + grams / 100 % 10, 48 + grams / 10 % 10, 48 + grams % 10]
  }

  lemma FixedKgInjective(g: nat, h: nat)
    ensures FixedKg(g) == FixedKg(h) <==> g == h
  {
    var t, u := FixedKg(g), FixedKg(h);
    if t == u {
      var n := |t| - 4;
      assert t[..n] == Decimal(g / 1000) && u[..n] == Decimal(h / 1000);
      assert t[n + 1] == 48 + g / 100 % 10 && t[n + 2] == 48 + g / 10 % 10 && t[n + 3] == 48 + g % 10;
      assert u[n + 1] == 48 + h / 100 % 10 && u[n + 2] == 48 + h / 10 % 10 && u[n + 3] == 48 + h % 10;
      ParseOfDecimal(g / 1000);
      ParseOfDecimal(h / 1000);
      Thousands(g);
      Thousands(h);
    }
  }

  lemma Thousands(g: nat)
    ensures g == (g / 1000) * 1000 + (g / 100 % 10) * 100 + (g / 10 % 10) * 10 + g % 10
  {
    assert g / 10 == g / 100 * 10 + g / 10 % 10;
    assert g / 100 == g / 1000 * 10 + g / 100 % 10;
  }

  function EventRow(e: ReportEvent): seq<Text> {
    [ e.eventId, e.collectorId, e.collectorName, e.capturedAt, e.receivedAt, e.material, FixedKg(e.grams), e.photoHash,
      if e.photoUrl.Some? then e.photoUrl.value else [], e.payloadHash, e.leaf, e.integrityOutcome ]
  }

  function EventRows(events: seq<ReportEvent>): (r: seq<seq<Text>>)
    ensures |r| == |events| && forall i | 0 <= i < |events| :: r[i] == EventRow(events[i])
  {
    seq(|events|, i requires 0 <= i < |events| => EventRow(events[i]))
  }

  /** The header is joined as it is; only event cells are quoted. */
  function BuildEventCsv(events: seq<ReportEvent>): Text {
    Join([Join(HeaderCells(), [COMMA])] + Lines(EventRows(events)), CRLF)
  }

  lemma HeaderNeedsNoQuotes()
    ensures Cells(HeaderCells()) == HeaderCells()
  {
    forall i | 0 <= i < |HEADER| ensures Cell(Lit(HEADER[i])) == Lit(HEADER[i]) {
      assert forall j | 0 <= j < |HEADER[i]| :: 'a' <= HEADER[i][j] <= 'z' || HEADER[i][j] == '_' || '0' <= HEADER[i][j] <= '9';
    }
  }

  /** What a spreadsheet reads from the export is the header and one row of
      twelve cells per event, whatever the free text contains. */
  lemma EventCsvRoundTrip(events: seq<ReportEvent>)
    ensures ReadFile(BuildEventCsv(events)) == Some([HeaderCells()] + EventRows(events))
  {
    var rows := [HeaderCells()] + EventRows(events);
    HeaderNeedsNoQuotes();
    assert Lines(rows) == [Join(HeaderCells(), [COMMA])] + Lines(EventRows(events));
    assert forall i | 0 <= i < |rows| :: |rows[i]| == 12;
    CsvRoundTrip(rows);
  }

  // ----- what the columns carry -----

  /** Read as a number without its point, which is three places from the end, the
      weight is the grams. */
  lemma FixedKgReads(g: nat)
    ensures var t := FixedKg(g); var n := |t| - 4;
            && n >= 1 && t[n] == 46 && (n > 1 ==> t[0] != 48)
            && AllDigits(t[..n] + t[n + 1..]) && ParseDecimal(t[..n] + t[n + 1..]) == g
  {
    var t := FixedKg(g);
    var n := |t| - 4;
    var whole := Decimal(g / 1000);
    var a, b, c := 48 + g / 100 % 10, 48 + g / 10 % 10, 48 + g % 10;
    assert t[..n] == whole && t[n + 1..] == [a, b, c];
    ParseOfDecimal(g / 1000);
    ParseThree(whole, a, b, c);
    Thousands(g);
  }

  lemma ParseThree(t: Text, a: CodeUnit, b: CodeUnit, c: CodeUnit)
    requires AllDigits(t) && IsDigit(a) && IsDigit(b) && IsDigit(c)
    ensures AllDigits(t + [a, b, c])
    ensures ParseDecimal(t + [a, b, c]) == 1000 * ParseDecimal(t) + 100 * (a - 48) + 10 * (b - 48) + (c - 48)
  {
    ParseMore(t, a);
    ParseMore(t + [a], b);
    ParseMore(t + [a] + [b], c);
    assert t + [a, b, c] == t + [a] + [b] + [c];
  }

  lemma ParseMore(t: Text, u: CodeUnit)
    requires AllDigits(t) && IsDigit(u)
    ensures AllDigits(t + [u]) && ParseDecimal(t + [u]) == 10 * ParseDecimal(t) + (u - 48)
  {
    assert (t + [u])[..|t|] == t;
  }

  /** What is read back from the export: under each of the twelve headings, that field
      of each event. */
  lemma ColumnsCarry(events: seq<ReportEvent>, i: nat) returns (rows: seq<seq<Text>>)
    requires i < |events|
    ensures ReadFile(BuildEventCsv(events)) == Some(rows) && |rows| == |events| + 1
    ensures |rows[0]| == |rows[i + 1]| == 12
    ensures rows[0][0] == Lit("event_id") && rows[i + 1][0] == events[i].eventId
    ensures rows[0][1] == Lit("collector_id") && rows[i + 1][1] == events[i].collectorId
    ensures rows[0][2] == Lit("collector_name") && rows[i + 1][2] == events[i].collectorName
    ensures rows[0][3] == Lit("captured_at") && rows[i + 1][3] == events[i].capturedAt
    ensures rows[0][4] == Lit("received_at") && rows[i + 1][4] == events[i].receivedAt
    ensures rows[0][5] == Lit("material") && rows[i + 1][5] == events[i].material
    ensures rows[0][6] == Lit("weight_kg") && rows[i + 1][6] == FixedKg(events[i].grams)
    ensures rows[0][7] == Lit("photo_sha256") && rows[i + 1][7] == events[i].photoHash
    ensures rows[0][8] == Lit("photo_url") && rows[i + 1][8] == if events[i].photoUrl.Some? then events[i].photoUrl.value else []
    ensures rows[0][9] == Lit("payload_sha256") && rows[i + 1][9] == events[i].payloadHash
    ensures rows[0][10] == Lit("merkle_leaf") && rows[i + 1][10] == events[i].leaf
    ensures rows[0][11] == Lit("integrity") && rows[i + 1][11] == events[i].integrityOutcome
  {
    EventCsvRoundTrip(events);
    HeadingsAre();
    RowIs(events[i]);
    rows := [HeaderCells()] + EventRows(events);
    assert rows[i + 1] == EventRow(events[i]);
  }

  lemma HeadingsAre()
    ensures var h := HeaderCells();
            && |h| == 12
            && h[0] == Lit("event_id") && h[1] == Lit("collector_id") && h[2] == Lit("collector_name")
            && h[3] == Lit("captured_at") && h[4] == Lit("received_at") && h[5] == Lit("material")
            && h[6] == Lit("weight_kg") && h[7] == Lit("photo_sha256") && h[8] == Lit("photo_url")
            && h[9] == Lit("payload_sha256") && h[10] == Lit("merkle_leaf") && h[11] == Lit("integrity")
  {
  }

  lemma RowIs(e: ReportEvent)
    ensures var r := EventRow(e);
            && |r| == 12
            && r[0] == e.eventId && r[1] == e.collectorId && r[2] == e.collectorName
            && r[3] == e.capturedAt && r[4] == e.receivedAt && r[5] == e.material
            && r[6] == FixedKg(e.grams) && r[7] == e.photoHash
            && r[8] == (if e.photoUrl.Some? then e.photoUrl.value else [])
            && r[9] == e.payloadHash && r[10] == e.leaf && r[11] == e.integrityOutcome
  {
  }
}
