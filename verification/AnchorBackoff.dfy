/** When a batch whose anchoring failed may be tried again. Milliseconds. */
module AnchorBackoff {
  import opened Wrappers
  import opened Sorting
  import opened Times
  import opened Arithmetic

  const BASE_DELAY_MS := 30_000
  const MAX_DELAY_MS := 3_600_000
  const STUCK_AFTER_FAILURES := 6

  datatype Outcome = Failed | Unverified | Succeeded
  datatype Attempt = Attempt(number: nat, outcome: Outcome, occurredAt: int)

  /** What a batch's attempts amount to; absent when there were none. */
  datatype Summary = Summary(attempts: nat, failures: nat, lastOutcome: Outcome, lastAttemptAt: int)

  function AttemptTime(a: Attempt): seq<int> {
    [a.occurredAt]
  }

  function Fold(rows: seq<Attempt>): Option<Summary> {
    if rows == [] then None
    else
      var before := Fold(rows[..|rows| - 1]);
      var last := rows[|rows| - 1];
      var failed := if last.outcome.Succeeded? then 0 else 1;
      if before.None? then Some(Summary(1, failed, last.outcome, last.occurredAt))
      else Some(Summary(before.value.attempts + 1, before.value.failures + failed, last.outcome, last.occurredAt))
  }

  /** The rows are read oldest first. */
  function Summarise(rows: seq<Attempt>): Option<Summary> {
    Fold(Sort(rows, AttemptTime))
  }

  function BackoffDelay(failures: nat): nat {
    if failures == 0 then 0
    else
      var exponential := BASE_DELAY_MS * Pow2(failures - 1);
      if exponential < MAX_DELAY_MS then exponential else MAX_DELAY_MS
  }

  function NextAttemptAt(s: Option<Summary>): Option<int> {
    if s.None? || s.value.failures == 0 then None
    else if s.value.lastOutcome.Succeeded? then None
    else Some(s.value.lastAttemptAt + BackoffDelay(s.value.failures))
  }

  predicate IsDueForRetry(s: Option<Summary>, now: int) {
    var next := NextAttemptAt(s);
    next.None? || next.value <= now
  }

  predicate IsStuck(s: Option<Summary>) {
    s.Some? && s.value.failures >= STUCK_AFTER_FAILURES
  }

  lemma {:induction false} Pow2Grows(n: nat)
    requires n >= 7
    ensures Pow2(n) >= 128
  {
    if n > 7 { Pow2Grows(n - 1); }
    else { assert Pow2(4) == 16 && Pow2(7) == 8 * Pow2(4); }
  }

  /** No wait before the first failure; then thirty seconds, doubled with each
      failure up to the seventh; and one hour from the eighth on. */
  lemma DelayShape(failures: nat)
    ensures BackoffDelay(0) == 0 && BackoffDelay(1) == 30_000
    ensures 1 <= failures <= 6 ==> BackoffDelay(failures + 1) == 2 * BackoffDelay(failures)
    ensures failures >= 8 ==> BackoffDelay(failures) == 3_600_000
    ensures BackoffDelay(failures) <= BackoffDelay(failures + 1) <= 3_600_000
    ensures BackoffDelay(failures) == 3_600_000 <==> failures >= 8
  {
    FirstDelays();
    if failures >= 8 { Pow2Grows(failures - 1); }
    if failures >= 7 { Pow2Grows(failures); }
  }

  lemma FirstDelays()
    ensures BackoffDelay(1) == 30_000 && BackoffDelay(2) == 60_000 && BackoffDelay(3) == 120_000
    ensures BackoffDelay(4) == 240_000 && BackoffDelay(5) == 480_000 && BackoffDelay(6) == 960_000
    ensures BackoffDelay(7) == 1_920_000 && BackoffDelay(8) == 3_600_000
  {
    assert Pow2(0) == 1 && Pow2(1) == 2 && Pow2(2) == 4 && Pow2(3) == 8 && Pow2(4) == 16 && Pow2(5) == 32;
    assert Pow2(6) == 64 && Pow2(7) == 128;
  }

  // ----- what the history comes to -----

  function Failing(a: Attempt): nat {
    if a.outcome.Succeeded? then 0 else 1
  }

  /** How many of the attempts did not succeed. */
  function CountFailing(rows: seq<Attempt>): nat {
    if rows == [] then 0 else Failing(rows[0]) + CountFailing(rows[1..])
  }

  lemma {:induction false} CountFailingAppend(rows: seq<Attempt>, a: Attempt)
    ensures CountFailing(rows + [a]) == CountFailing(rows) + Failing(a)
  {
    if rows != [] {
      assert (rows + [a])[1..] == rows[1..] + [a];
      CountFailingAppend(rows[1..], a);
    } else {
      assert [a][1..] == [];
    }
  }

  lemma {:induction false} InsertCounts(a: Attempt, rows: seq<Attempt>)
    ensures CountFailing(Insert(a, rows, AttemptTime)) == Failing(a) + CountFailing(rows)
  {
    var r := Insert(a, rows, AttemptTime);
    if rows == [] || LexLe(AttemptTime(a), AttemptTime(rows[0])) {
      assert r[1..] == rows;
    } else {
      InsertCounts(a, rows[1..]);
      assert r[1..] == Insert(a, rows[1..], AttemptTime);
    }
  }

  lemma {:induction false} SortCounts(rows: seq<Attempt>)
    ensures CountFailing(Sort(rows, AttemptTime)) == CountFailing(rows)
  {
    if rows != [] {
      SortCounts(rows[1..]);
      InsertCounts(rows[0], Sort(rows[1..], AttemptTime));
    }
  }

  lemma {:induction false} FoldIs(rows: seq<Attempt>)
    requires rows != []
    ensures var last := rows[|rows| - 1];
            Fold(rows) == Some(Summary(|rows|, CountFailing(rows), last.outcome, last.occurredAt))
  {
    var before, last := rows[..|rows| - 1], rows[|rows| - 1];
    assert rows == before + [last];
    CountFailingAppend(before, last);
    if before != [] { FoldIs(before); }
  }

  lemma TimeOrder(a: Attempt, b: Attempt)
    ensures LexLe(AttemptTime(a), AttemptTime(b)) <==> a.occurredAt <= b.occurredAt
  {
    assert AttemptTime(a)[1..] == [] && AttemptTime(b)[1..] == [];
  }

  lemma LastIsLatest(rows: seq<Attempt>, sorted: seq<Attempt>)
    requires rows != [] && sorted == Sort(rows, AttemptTime)
    ensures sorted[|sorted| - 1] in rows
    ensures forall a | a in rows :: a.occurredAt <= sorted[|sorted| - 1].occurredAt
  {
    var last := sorted[|sorted| - 1];
    InSort(rows, AttemptTime);
    SortSorted(rows, AttemptTime);
    assert last in sorted;
    forall a | a in rows ensures a.occurredAt <= last.occurredAt {
      assert a in sorted;
      var i :| 0 <= i < |sorted| && sorted[i] == a;
      TimeOrder(a, last);
    }
  }

  /** However the rows are stored: all attempts are counted, and those that did not
      succeed; and the last one is one that no other is later than. */
  lemma SummaryIs(rows: seq<Attempt>)
    ensures Summarise(rows).None? <==> rows == []
    ensures rows != [] ==>
              var s := Summarise(rows).value;
              && s.attempts == |rows| && s.failures == CountFailing(rows)
              && (forall a | a in rows :: a.occurredAt <= s.lastAttemptAt)
              && (exists a :: a in rows && a.occurredAt == s.lastAttemptAt && a.outcome == s.lastOutcome)
  {
    if rows != [] {
      var sorted := Sort(rows, AttemptTime);
      FoldIs(sorted);
      SortCounts(rows);
      LastIsLatest(rows, sorted);
    }
  }

  /** A batch may be tried when it never was, when nothing failed, when the last
      attempt succeeded, or when the backoff of its failures has passed since the
      last attempt. */
  lemma DueExactlyWhen(rows: seq<Attempt>, now: int)
    ensures IsDueForRetry(Summarise(rows), now)
       <==> (rows == []
             || CountFailing(rows) == 0
             || Summarise(rows).value.lastOutcome == Succeeded
             || Summarise(rows).value.lastAttemptAt + BackoffDelay(CountFailing(rows)) <= now)
  {
    SummaryIs(rows);
  }

  lemma LastOfFold(rows: seq<Attempt>)
    ensures Fold(rows).None? <==> rows == []
    ensures rows != [] ==> Fold(rows).value.lastAttemptAt == rows[|rows| - 1].occurredAt
  {
  }

  /** The summary's last attempt is one of the attempts. */
  lemma LastAttemptIsOne(rows: seq<Attempt>)
    requires Summarise(rows).Some?
    ensures exists a :: a in rows && a.occurredAt == Summarise(rows).value.lastAttemptAt
  {
    var sorted := Sort(rows, AttemptTime);
    LastOfFold(sorted);
    InSort(rows, AttemptTime);
    assert sorted[|sorted| - 1] in sorted;
  }

  /** No batch is withheld for more than an hour after its last attempt. */
  lemma NeverWithheldOverAnHour(s: Option<Summary>, now: int)
    requires s.Some? ==> s.value.lastAttemptAt + 3_600_000 <= now
    ensures IsDueForRetry(s, now)
  {
    if s.Some? { DelayShape(s.value.failures); }
  }

  // ----- a single worker that tries only offered batches -----

  /** A history of failures in which each attempt after the first was made at or
      after a moment at which the batch was due. */
  ghost predicate OfferedHistory(rows: seq<Attempt>) {
    && (forall i | 0 <= i < |rows| :: !rows[i].outcome.Succeeded?)
    && (forall i | 0 < i < |rows| :: OfferedAt(rows, i))
  }

  ghost predicate OfferedAt(rows: seq<Attempt>, i: nat)
    requires i < |rows|
  {
    OfferedBefore(rows[..i], rows[i].occurredAt)
  }

  ghost predicate OfferedBefore(rows: seq<Attempt>, time: int) {
    exists offered: int :: offered <= time && IsDueForRetry(Summarise(rows), offered)
  }

  function TimesOf(rows: seq<Attempt>): (ts: seq<int>)
    ensures |ts| == |rows| && forall i | 0 <= i < |rows| :: ts[i] == rows[i].occurredAt
  {
    seq(|rows|, i requires 0 <= i < |rows| => rows[i].occurredAt)
  }

  lemma {:induction false} SortedIsFixed<T>(xs: seq<T>, key: T -> seq<int>)
    requires Sorted(xs, key)
    ensures Sort(xs, key) == xs
  {
    if xs != [] {
      SortedIsFixed(xs[1..], key);
      assert xs == [xs[0]] + xs[1..];
    }
  }

  lemma {:induction false} FoldOfFailures(rows: seq<Attempt>)
    requires rows != [] && forall i | 0 <= i < |rows| :: !rows[i].outcome.Succeeded?
    ensures Fold(rows) == Some(Summary(|rows|, |rows|, rows[|rows| - 1].outcome, rows[|rows| - 1].occurredAt))
  {
    if |rows| > 1 {
      FoldOfFailures(rows[..|rows| - 1]);
    } else {
      assert rows[..0] == [];
    }
  }

  lemma SortedByTime(rows: seq<Attempt>)
    requires Spaced(TimesOf(rows), 0)
    ensures Sorted(rows, AttemptTime)
  {
    forall i, j | 0 <= i < j < |rows| ensures LexLe(AttemptTime(rows[i]), AttemptTime(rows[j])) {
      assert TimesOf(rows)[..j + 1][i] == rows[i].occurredAt;
      SpacedMonotone(TimesOf(rows)[..j + 1], 0, i);
    }
  }

  /** Attempt i waited out the backoff after the i failures before it. */
  predicate Gap(rows: seq<Attempt>, i: nat) {
    0 < i < |rows| ==> rows[i - 1].occurredAt + BackoffDelay(i) <= rows[i].occurredAt
  }

  predicate Gaps(rows: seq<Attempt>) {
    forall i | 0 < i < |rows| :: Gap(rows, i)
  }

  lemma LastGap(before: seq<Attempt>, last: Attempt)
    requires before != [] && (forall i | 0 <= i < |before| :: !before[i].outcome.Succeeded?)
    requires Gaps(before) && OfferedBefore(before, last.occurredAt)
    ensures before[|before| - 1].occurredAt + BackoffDelay(|before|) <= last.occurredAt
  {
    SpacedByGaps(before);
    SortedByTime(before);
    SortedIsFixed(before, AttemptTime);
    FoldOfFailures(before);
  }

  lemma SpacedByGaps(rows: seq<Attempt>)
    requires Gaps(rows)
    ensures Spaced(TimesOf(rows), 0)
  {
    var ts := TimesOf(rows);
    forall i | 0 < i < |ts| ensures ts[i - 1] <= ts[i] {
      assert Gap(rows, i);
    }
  }

  lemma GapsExtend(before: seq<Attempt>, last: Attempt)
    requires Gaps(before)
    requires before != [] ==> before[|before| - 1].occurredAt + BackoffDelay(|before|) <= last.occurredAt
    ensures Gaps(before + [last])
  {
    var rows := before + [last];
    forall i | 0 < i < |rows| ensures Gap(rows, i) {
      if i < |before| { assert Gap(before, i) && rows[i - 1] == before[i - 1] && rows[i] == before[i]; }
    }
  }

  lemma OfferedPrefix(before: seq<Attempt>, last: Attempt)
    requires OfferedHistory(before + [last])
    ensures OfferedHistory(before)
    ensures before != [] ==> OfferedBefore(before, last.occurredAt)
  {
    var rows := before + [last];
    forall i | 0 < i < |before| ensures OfferedAt(before, i) {
      assert OfferedAt(rows, i);
      assert rows[..i] == before[..i] && rows[i] == before[i];
    }
    forall i | 0 <= i < |before| ensures !before[i].outcome.Succeeded? {
      assert rows[i] == before[i];
    }
    if before != [] { assert rows[..|before|] == before && OfferedAt(rows, |before|); }
  }

  lemma SplitLast<T>(xs: seq<T>)
    requires xs != []
    ensures xs == xs[..|xs| - 1] + [xs[|xs| - 1]]
  {
  }

  lemma {:induction false} OfferedGaps(rows: seq<Attempt>)
    requires OfferedHistory(rows)
    ensures Gaps(rows)
    decreases |rows|
  {
    if rows != [] {
      var before, last := rows[..|rows| - 1], rows[|rows| - 1];
      SplitLast(rows);
      OfferedPrefix(before, last);
      OfferedGaps(before);
      if before != [] { LastGap(before, last); }
      GapsExtend(before, last);
    }
  }

  lemma FailuresSummarised(rows: seq<Attempt>)
    requires rows != [] && OfferedHistory(rows)
    ensures Summarise(rows)
         == Some(Summary(|rows|, |rows|, rows[|rows| - 1].outcome, rows[|rows| - 1].occurredAt))
  {
    OfferedGaps(rows);
    SpacedByGaps(rows);
    SortedByTime(rows);
    SortedIsFixed(rows, AttemptTime);
    FoldOfFailures(rows);
  }

  /** A batch is stuck exactly from its sixth failure on, and the attempt after
      that comes at least 31.5 minutes after the first failure. */
  lemma StuckAfterHalfAnHour(rows: seq<Attempt>)
    requires OfferedHistory(rows)
    ensures IsStuck(Summarise(rows)) <==> |rows| >= 6
    ensures |rows| > 6 ==> rows[6].occurredAt - rows[0].occurredAt >= 1_890_000
  {
    if rows != [] { FailuresSummarised(rows); }
    if |rows| > 6 {
      OfferedGaps(rows);
      FirstDelays();
      assert Gap(rows, 1) && Gap(rows, 2) && Gap(rows, 3) && Gap(rows, 4) && Gap(rows, 5) && Gap(rows, 6);
    }
  }

  /** From the eighth failure on a batch is tried at most 24 times in any
      half-open 24 hours. */
  lemma AtMostOncePerHour(rows: seq<Attempt>, from: int)
    requires OfferedHistory(rows) && |rows| >= 7
    ensures Count(TimesOf(rows)[7..], from, from + 86_400_000) <= 24
  {
    OfferedGaps(rows);
    var late := TimesOf(rows)[7..];
    forall i | 0 < i < |late| ensures late[i - 1] + 3_600_000 <= late[i] {
      DelayShape(i + 7);
      assert Gap(rows, i + 7);
    }
    CountSpaced(late, 3_600_000, from, 24);
  }
}
