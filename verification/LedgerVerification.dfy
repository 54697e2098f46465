/**
 Reading an anchor back from the public ledger, with a cache of confirmations
 and single-flight reads, under every interleaving of callers and completions.

 A read passes through three callbacks of the promise chain: it starts inside
 `verify`, `then` runs when the ledger has answered, `finally` runs later. Other
 callers may arrive between any two of them.
 */
module LedgerVerification {
  import opened Wrappers
  import opened Text

  datatype Anchor = Anchor(txHash: Text, root: Text, dataEntryKey: Text)

  datatype Confirmation = Confirmation(
    checked: bool,
    rootMatchesLedger: Option<bool>,
    memoMatches: bool,
    dataEntryMatches: bool,
    ledger: Option<nat>)

  /** A transaction record; `memo` is the hex of the memo bytes. */
  datatype Transaction = Transaction(
    ledger: nat,
    successful: bool,
    memoIsHash: bool,
    memo: Option<Text>,
    sourceAccount: Option<Text>)

  datatype TxRead = TxFound(tx: Transaction) | TxNotFound | TxUnavailable
  /** The account's data entries as hex. */
  datatype AccountRead = AccountFound(entries: map<Text, Text>) | AccountFailed

  // ----- the tri-state read -----

  function Unchecked(): Confirmation {
    Confirmation(false, None, false, false, None)
  }

  function LedgerOrNone(n: nat): Option<nat> {
    if n == 0 then None else Some(n)
  }

  function DataEntryCarriesRoot(source: Option<Text>, account: AccountRead, key: Text, root: Text): bool {
    if source.None? || source.value == [] then false
    else if account.AccountFailed? then false
    else key in account.entries && account.entries[key] == root
  }

  function ReadFromLedger(a: Anchor, tx: TxRead, account: AccountRead): Confirmation {
    match tx
    case TxNotFound => Unchecked().(checked := true, rootMatchesLedger := Some(false))
    case TxUnavailable => Unchecked()
    case TxFound(t) =>
      if !t.successful then
        Unchecked().(checked := true, rootMatchesLedger := Some(false), ledger := LedgerOrNone(t.ledger))
      else
        var memoMatches := t.memoIsHash && t.memo == Some(a.root);
        var dataEntryMatches := DataEntryCarriesRoot(t.sourceAccount, account, a.dataEntryKey, a.root);
        Confirmation(true, Some(memoMatches || dataEntryMatches), memoMatches, dataEntryMatches, LedgerOrNone(t.ledger))
  }

  /** The ledger says so: a successful transaction whose memo is the root, or
      whose source account holds the root under the anchor's key. */
  predicate LedgerCarriesRoot(a: Anchor, tx: TxRead, account: AccountRead) {
    && tx.TxFound? && tx.tx.successful
    && (|| (tx.tx.memoIsHash && tx.tx.memo == Some(a.root))
        || (&& tx.tx.sourceAccount.Some? && tx.tx.sourceAccount.value != []
            && account.AccountFound?
            && a.dataEntryKey in account.entries && account.entries[a.dataEntryKey] == a.root))
  }

  /** True exactly when the ledger carries the root, null exactly when the
      transaction could not be read: an outage is never reported as a mismatch. */
  lemma TriState(a: Anchor, tx: TxRead, account: AccountRead)
    ensures var c := ReadFromLedger(a, tx, account);
            && (c.rootMatchesLedger == Some(true) <==> LedgerCarriesRoot(a, tx, account))
            && (c.rootMatchesLedger == None <==> tx.TxUnavailable?)
            && (c.checked <==> c.rootMatchesLedger.Some?)
            && (c.memoMatches || c.dataEntryMatches <==> c.rootMatchesLedger == Some(true))
  {
  }

  /** Each field of the answer, from what was read. */
  lemma ReadAnswers(a: Anchor, t: Transaction, account: AccountRead)
    ensures ReadFromLedger(a, TxNotFound, account) == Confirmation(true, Some(false), false, false, None)
    ensures ReadFromLedger(a, TxUnavailable, account) == Confirmation(false, None, false, false, None)
    ensures var c := ReadFromLedger(a, TxFound(t), account);
            && c.checked && c.rootMatchesLedger.Some?
            && (c.memoMatches <==> t.successful && t.memoIsHash && t.memo == Some(a.root))
            && (c.dataEntryMatches <==>
                  && t.successful && t.sourceAccount.Some? && t.sourceAccount.value != [] && account.AccountFound?
                  && a.dataEntryKey in account.entries && account.entries[a.dataEntryKey] == a.root)
            && (c.rootMatchesLedger.value <==> c.memoMatches || c.dataEntryMatches)
            && c.ledger == (if t.ledger == 0 then None else Some(t.ledger))
  {
  }

  // ----- cache keys -----

  function CacheKey(a: Anchor): Text {
    a.txHash + [COLON] + a.root
  }

  /** b's transaction id is a's, a colon and some x, and a's root is x, a colon
      and b's root. */
  predicate Extends(a: Anchor, b: Anchor) {
    && |a.txHash| < |b.txHash| && b.txHash[..|a.txHash| + 1] == a.txHash + [COLON]
    && a.root == b.txHash[|a.txHash| + 1..] + ([COLON] + b.root)
  }

  lemma ExtendedKey(a: Anchor, b: Anchor)
    requires Extends(a, b)
    ensures CacheKey(a) == CacheKey(b) && COLON in a.root && COLON in b.txHash
  {
    var n := |a.txHash|;
    var x := b.txHash[n + 1..];
    assert b.txHash == (a.txHash + [COLON]) + x;
    assert CacheKey(b) == a.txHash + [COLON] + (x + ([COLON] + b.root));
    assert a.root[|x|] == COLON && b.txHash[..n + 1][n] == COLON;
  }

  lemma ShorterIdExtends(a: Anchor, b: Anchor)
    requires CacheKey(a) == CacheKey(b) && |a.txHash| < |b.txHash|
    ensures Extends(a, b)
  {
    var n, k := |a.txHash|, CacheKey(a);
    assert k[..n + 1] == a.txHash + [COLON] && k[n + 1..] == a.root;
    assert CacheKey(b)[..n + 1] == b.txHash[..n + 1];
    assert CacheKey(b)[n + 1..] == b.txHash[n + 1..] + ([COLON] + b.root);
  }

  lemma SameLengthIds(a: Anchor, b: Anchor)
    requires CacheKey(a) == CacheKey(b) && |a.txHash| == |b.txHash|
    ensures a.txHash == b.txHash && a.root == b.root
  {
    var n, k := |a.txHash|, CacheKey(a);
    assert a.txHash == k[..n] && b.txHash == CacheKey(b)[..n];
    assert a.root == k[n + 1..] && b.root == CacheKey(b)[n + 1..];
  }

  /** Exactly when two questions share a key. */
  lemma KeysCollideExactlyWhen(a: Anchor, b: Anchor)
    ensures CacheKey(a) == CacheKey(b)
       <==> (a.txHash == b.txHash && a.root == b.root) || Extends(a, b) || Extends(b, a)
  {
    if Extends(a, b) { ExtendedKey(a, b); }
    if Extends(b, a) { ExtendedKey(b, a); }
    if CacheKey(a) == CacheKey(b) {
      if |a.txHash| < |b.txHash| {
        ShorterIdExtends(a, b);
      } else if |b.txHash| < |a.txHash| {
        ShorterIdExtends(b, a);
      } else {
        SameLengthIds(a, b);
      }
    }
  }

  /** So every such pair does: two transactions, two roots, one key. */
  lemma CacheKeyCollision(tx: Text, x: Text, root: Text, entryKey: Text)
    ensures var a, b := Anchor(tx, x + ([COLON] + root), entryKey), Anchor((tx + [COLON]) + x, root, entryKey);
            a.txHash != b.txHash && CacheKey(a) == CacheKey(b)
  {
    var a, b := Anchor(tx, x + ([COLON] + root), entryKey), Anchor((tx + [COLON]) + x, root, entryKey);
    assert b.txHash[..|tx| + 1] == tx + [COLON] && b.txHash[|tx| + 1..] == x;
    KeysCollideExactlyWhen(a, b);
  }

  /** A key stands for one transaction and one root, as long as roots contain no
      colon, or transaction ids do not; both are hexadecimal. */
  lemma CacheKeyInjective(a: Anchor, b: Anchor)
    requires (COLON !in a.root && COLON !in b.root) || (COLON !in a.txHash && COLON !in b.txHash)
    ensures CacheKey(a) == CacheKey(b) <==> a.txHash == b.txHash && a.root == b.root
  {
    KeysCollideExactlyWhen(a, b);
    if Extends(a, b) { ExtendedKey(a, b); }
    if Extends(b, a) { ExtendedKey(b, a); }
  }

  // ----- the service as a state machine -----

  type ReadId = nat
  type Caller = nat

  datatype Phase =
    | Reading
    | Answered(conf: Confirmation)   // `then` has run
    | Threw                          // the read rejected
    | Settled(outcome: Option<Confirmation>)   // `finally` has run; None is a rejection

  datatype Read = Read(anchor: Anchor, phase: Phase)

  /** What an observer of the process sees, in order. */
  datatype Entry =
    | Started(id: ReadId, key: Text)
    | FromLedger(anchor: Anchor, tx: TxRead, account: AccountRead)
    | Finished(id: ReadId, key: Text)
    | Returned(caller: Caller, anchor: Anchor, conf: Confirmation)

  datatype Service = Service(
    confirmed: map<Text, Confirmation>,
    inFlight: map<Text, ReadId>,
    promises: seq<Read>,
    waiting: map<Caller, (Anchor, ReadId)>,
    log: seq<Entry>)

  datatype Action =
    | Verify(caller: Caller, anchor: Anchor)
    | Answer(id: ReadId, tx: TxRead, account: AccountRead)
    | Reject(id: ReadId)
    | Settle(id: ReadId)
    | Deliver(caller: Caller)

  const START := Service(map[], map[], [], map[], [])

  function SetPhase(promises: seq<Read>, id: ReadId, p: Phase): (r: seq<Read>)
    requires id < |promises|
    ensures |r| == |promises|
    ensures forall i | 0 <= i < |promises| :: r[i] == if i == id then Read(promises[i].anchor, p) else promises[i]
  {
    promises[id := Read(promises[id].anchor, p)]
  }

  function Step(s: Service, x: Action): Service {
    match x
    case Verify(caller, anchor) =>
      var key := CacheKey(anchor);
      if key in s.confirmed then s.(log := s.log + [Returned(caller, anchor, s.confirmed[key])])
      else if key in s.inFlight then s.(waiting := s.waiting[caller := (anchor, s.inFlight[key])])
      else
        var id := |s.promises|;
        s.(inFlight := s.inFlight[key := id],
           promises := s.promises + [Read(anchor, Reading)],
           waiting := s.waiting[caller := (anchor, id)],
           log := s.log + [Started(id, key)])
    case Answer(id, tx, account) =>
      if id >= |s.promises| || !s.promises[id].phase.Reading? then s
      else
        var a := s.promises[id].anchor;
        var c := ReadFromLedger(a, tx, account);
        s.(confirmed := if c.rootMatchesLedger == Some(true) then s.confirmed[CacheKey(a) := c] else s.confirmed,
           promises := SetPhase(s.promises, id, Answered(c)),
           log := s.log + [FromLedger(a, tx, account)])
    case Reject(id) =>
      if id >= |s.promises| || !s.promises[id].phase.Reading? then s
      else s.(promises := SetPhase(s.promises, id, Threw))
    case Settle(id) =>
      if id >= |s.promises| || !(s.promises[id].phase.Answered? || s.promises[id].phase.Threw?) then s
      else
        var key := CacheKey(s.promises[id].anchor);
        var outcome := if s.promises[id].phase.Answered? then Some(s.promises[id].phase.conf) else None;
        s.(inFlight := s.inFlight - {key},
           promises := SetPhase(s.promises, id, Settled(outcome)),
           log := s.log + [Finished(id, key)])
    case Deliver(caller) =>
      if caller !in s.waiting then s
      else
        var (anchor, id) := s.waiting[caller];
        if id >= |s.promises| || !s.promises[id].phase.Settled? then s
        else
          var outcome := s.promises[id].phase.outcome;
          s.(waiting := s.waiting - {caller},
             log := if outcome.Some? then s.log + [Returned(caller, anchor, outcome.value)] else s.log)
  }

  function Run(s: Service, xs: seq<Action>): Service
    decreases |xs|
  {
    if xs == [] then s else Run(Step(s, xs[0]), xs[1..])
  }

  // ----- the invariant -----

  predicate Outstanding(s: Service, id: ReadId) {
    id < |s.promises| && !s.promises[id].phase.Settled?
  }

  /** The in-flight keys are exactly those with an outstanding read, one each. */
  predicate SingleFlight(s: Service) {
    && (forall key | key in s.inFlight ::
          Outstanding(s, s.inFlight[key]) && CacheKey(s.promises[s.inFlight[key]].anchor) == key)
    && (forall id | 0 <= id < |s.promises| && Outstanding(s, id) ::
          CacheKey(s.promises[id].anchor) in s.inFlight && s.inFlight[CacheKey(s.promises[id].anchor)] == id)
  }

  /** Some entry of the log is a ledger read for `key` that answered `c`. */
  predicate Produced(log: seq<Entry>, key: Text, c: Confirmation) {
    exists i | 0 <= i < |log| ::
      && log[i].FromLedger? && CacheKey(log[i].anchor) == key
      && ReadFromLedger(log[i].anchor, log[i].tx, log[i].account) == c
  }

  predicate AnswersProduced(s: Service) {
    && (forall key | key in s.confirmed ::
          s.confirmed[key].rootMatchesLedger == Some(true) && Produced(s.log, key, s.confirmed[key]))
    && (forall id | 0 <= id < |s.promises| && s.promises[id].phase.Answered? ::
          Produced(s.log, CacheKey(s.promises[id].anchor), s.promises[id].phase.conf))
    && (forall id | 0 <= id < |s.promises| && s.promises[id].phase.Settled? && s.promises[id].phase.outcome.Some? ::
          Produced(s.log, CacheKey(s.promises[id].anchor), s.promises[id].phase.outcome.value))
    && (forall caller | caller in s.waiting ::
          && s.waiting[caller].1 < |s.promises|
          && CacheKey(s.promises[s.waiting[caller].1].anchor) == CacheKey(s.waiting[caller].0))
  }

  /** Every answer in the log comes after the ledger read that produced it. */
  predicate AnswersFollowReads(log: seq<Entry>) {
    forall i | 0 <= i < |log| && log[i].Returned? :: Produced(log[..i], CacheKey(log[i].anchor), log[i].conf)
  }

  /** No read is started for a key once the ledger has confirmed it. */
  predicate NoReadAfterConfirmation(log: seq<Entry>) {
    forall i, j | 0 <= i < j < |log| && log[i].FromLedger? && log[j].Started?
                && LedgerCarriesRoot(log[i].anchor, log[i].tx, log[i].account) ::
      log[j].key != CacheKey(log[i].anchor)
  }

  /** Every confirmation in the log is in the cache. */
  predicate ConfirmationsKept(s: Service) {
    forall i | 0 <= i < |s.log| && s.log[i].FromLedger?
             && LedgerCarriesRoot(s.log[i].anchor, s.log[i].tx, s.log[i].account) ::
      CacheKey(s.log[i].anchor) in s.confirmed
  }

  function OpenReads(log: seq<Entry>, key: Text): int {
    if log == [] then 0
    else
      var e := log[|log| - 1];
      OpenReads(log[..|log| - 1], key)
      + (if e.Started? && e.key == key then 1 else 0)
      - (if e.Finished? && e.key == key then 1 else 0)
  }

  /** Started minus finished is one for the keys in flight and zero for others. */
  ghost predicate OpenReadsInFlight(s: Service) {
    forall key :: OpenReads(s.log, key) == if key in s.inFlight then 1 else 0
  }

  ghost predicate Inv(s: Service) {
    && SingleFlight(s) && AnswersProduced(s) && AnswersFollowReads(s.log)
    && NoReadAfterConfirmation(s.log) && ConfirmationsKept(s) && OpenReadsInFlight(s)
  }

  lemma ProducedMonotone(log: seq<Entry>, e: Entry)
    ensures forall key, c | Produced(log, key, c) :: Produced(log + [e], key, c)
  {
    forall key, c | Produced(log, key, c) ensures Produced(log + [e], key, c) {
      var i :| 0 <= i < |log| && log[i].FromLedger? && CacheKey(log[i].anchor) == key
            && ReadFromLedger(log[i].anchor, log[i].tx, log[i].account) == c;
      assert (log + [e])[i] == log[i];
    }
  }

  lemma AppendFollows(log: seq<Entry>, e: Entry)
    requires AnswersFollowReads(log)
    requires e.Returned? ==> Produced(log, CacheKey(e.anchor), e.conf)
    ensures AnswersFollowReads(log + [e])
  {
    var l := log + [e];
    forall i | 0 <= i < |l| && l[i].Returned? ensures Produced(l[..i], CacheKey(l[i].anchor), l[i].conf) {
      assert i < |log| ==> l[..i] == log[..i];
      assert i == |log| ==> l[..i] == log;
    }
  }

  lemma AppendOpenReads(log: seq<Entry>, e: Entry)
    ensures forall key :: OpenReads(log + [e], key) == OpenReads(log, key)
              + (if e.Started? && e.key == key then 1 else 0) - (if e.Finished? && e.key == key then 1 else 0)
  {
    assert (log + [e])[..|log|] == log;
  }

  lemma SettleKeepsSingleFlight(s: Service, id: ReadId)
    requires SingleFlight(s) && Outstanding(s, id)
    ensures SingleFlight(Step(s, Settle(id)))
  {
  }

  lemma VerifyKeepsSingleFlight(s: Service, caller: Caller, anchor: Anchor)
    requires SingleFlight(s)
    ensures SingleFlight(Step(s, Verify(caller, anchor)))
  {
  }

  lemma StepKeepsSingleFlight(s: Service, x: Action)
    requires SingleFlight(s)
    ensures SingleFlight(Step(s, x))
  {
    if x.Verify? {
      VerifyKeepsSingleFlight(s, x.caller, x.anchor);
    } else if x.Settle? {
      if Outstanding(s, x.id) { SettleKeepsSingleFlight(s, x.id); }
    }
  }

  lemma SettleKeepsOpenReads(s: Service, id: ReadId)
    requires SingleFlight(s) && OpenReadsInFlight(s) && Outstanding(s, id)
    ensures OpenReadsInFlight(Step(s, Settle(id)))
  {
    var t := Step(s, Settle(id));
    if t.log != s.log { AppendOpenReads(s.log, Finished(id, CacheKey(s.promises[id].anchor))); }
  }

  lemma VerifyKeepsOpenReads(s: Service, caller: Caller, anchor: Anchor)
    requires OpenReadsInFlight(s)
    ensures OpenReadsInFlight(Step(s, Verify(caller, anchor)))
  {
    var t := Step(s, Verify(caller, anchor));
    if t.log != s.log { AppendOpenReads(s.log, t.log[|s.log|]); }
  }

  lemma StepKeepsOpenReads(s: Service, x: Action)
    requires SingleFlight(s) && OpenReadsInFlight(s)
    ensures OpenReadsInFlight(Step(s, x))
  {
    var t := Step(s, x);
    if x.Verify? {
      VerifyKeepsOpenReads(s, x.caller, x.anchor);
    } else if x.Settle? {
      if Outstanding(s, x.id) { SettleKeepsOpenReads(s, x.id); }
    } else if t.log != s.log {
      AppendOpenReads(s.log, t.log[|s.log|]);
    }
  }

  lemma AnswerKeepsProduced(s: Service, id: ReadId, tx: TxRead, account: AccountRead)
    requires AnswersProduced(s)
    ensures AnswersProduced(Step(s, Answer(id, tx, account)))
  {
    if id < |s.promises| && s.promises[id].phase.Reading? {
      var a := s.promises[id].anchor;
      var e := FromLedger(a, tx, account);
      var t := s.log + [e];
      ProducedMonotone(s.log, e);
      assert t[|s.log|] == e;
      assert Produced(t, CacheKey(a), ReadFromLedger(a, tx, account));
    }
  }

  lemma VerifyKeepsProduced(s: Service, caller: Caller, anchor: Anchor)
    requires SingleFlight(s) && AnswersProduced(s)
    ensures AnswersProduced(Step(s, Verify(caller, anchor)))
  {
    var key := CacheKey(anchor);
    if key in s.confirmed {
      ProducedMonotone(s.log, Returned(caller, anchor, s.confirmed[key]));
    } else if key !in s.inFlight {
      ProducedMonotone(s.log, Started(|s.promises|, key));
    }
  }

  lemma SettleKeepsProduced(s: Service, id: ReadId)
    requires AnswersProduced(s)
    ensures AnswersProduced(Step(s, Settle(id)))
  {
    if id < |s.promises| { ProducedMonotone(s.log, Finished(id, CacheKey(s.promises[id].anchor))); }
  }

  lemma DeliverKeepsProduced(s: Service, caller: Caller)
    requires AnswersProduced(s)
    ensures AnswersProduced(Step(s, Deliver(caller)))
  {
    var t := Step(s, Deliver(caller));
    if t.log != s.log { ProducedMonotone(s.log, t.log[|s.log|]); }
  }

  lemma StepKeepsProduced(s: Service, x: Action)
    requires SingleFlight(s) && AnswersProduced(s)
    ensures AnswersProduced(Step(s, x))
  {
    match x
    case Verify(caller, anchor) => VerifyKeepsProduced(s, caller, anchor);
    case Answer(id, tx, account) => AnswerKeepsProduced(s, id, tx, account);
    case Reject(id) =>
    case Settle(id) => SettleKeepsProduced(s, id);
    case Deliver(caller) => DeliverKeepsProduced(s, caller);
  }

  lemma VerifyKeepsOrder(s: Service, caller: Caller, anchor: Anchor)
    requires AnswersProduced(s) && AnswersFollowReads(s.log)
    ensures AnswersFollowReads(Step(s, Verify(caller, anchor)).log)
  {
    var key := CacheKey(anchor);
    if key in s.confirmed {
      AppendFollows(s.log, Returned(caller, anchor, s.confirmed[key]));
    } else if key !in s.inFlight {
      AppendFollows(s.log, Started(|s.promises|, key));
    }
  }

  lemma DeliverKeepsOrder(s: Service, caller: Caller)
    requires AnswersProduced(s) && AnswersFollowReads(s.log)
    ensures AnswersFollowReads(Step(s, Deliver(caller)).log)
  {
    if caller in s.waiting && s.promises[s.waiting[caller].1].phase.Settled? {
      var (anchor, id) := s.waiting[caller];
      var outcome := s.promises[id].phase.outcome;
      if outcome.Some? { AppendFollows(s.log, Returned(caller, anchor, outcome.value)); }
    }
  }

  lemma StepKeepsOrder(s: Service, x: Action)
    requires AnswersProduced(s) && AnswersFollowReads(s.log)
    ensures AnswersFollowReads(Step(s, x).log)
  {
    match x
    case Verify(caller, anchor) => VerifyKeepsOrder(s, caller, anchor);
    case Deliver(caller) => DeliverKeepsOrder(s, caller);
    case Answer(id, tx, account) =>
      if id < |s.promises| { AppendFollows(s.log, FromLedger(s.promises[id].anchor, tx, account)); }
    case Settle(id) =>
      if id < |s.promises| { AppendFollows(s.log, Finished(id, CacheKey(s.promises[id].anchor))); }
    case Reject(_) =>
  }

  lemma StepKeepsConfirmations(s: Service, x: Action)
    requires ConfirmationsKept(s) && NoReadAfterConfirmation(s.log)
    ensures ConfirmationsKept(Step(s, x)) && NoReadAfterConfirmation(Step(s, x).log)
  {
    var t := Step(s, x);
    if t.log != s.log {
      var e := t.log[|t.log| - 1];
      assert t.log == s.log + [e];
      if e.FromLedger? { TriState(e.anchor, e.tx, e.account); }
    }
  }

  lemma StepKeepsInv(s: Service, x: Action)
    requires Inv(s)
    ensures Inv(Step(s, x))
  {
    StepKeepsSingleFlight(s, x);
    StepKeepsOpenReads(s, x);
    StepKeepsProduced(s, x);
    StepKeepsOrder(s, x);
    StepKeepsConfirmations(s, x);
  }

  lemma ConfirmationsStay(s: Service, x: Action)
    ensures s.confirmed.Keys <= Step(s, x).confirmed.Keys
  {
  }

  /** Over every interleaving: one outstanding read per key, the in-flight keys
      are those with one, only confirmations are cached, every answer follows
      the ledger read that produced it, and a confirmed key stays confirmed and is
      not read again. */
  lemma {:induction false} EveryInterleaving(s: Service, xs: seq<Action>)
    requires Inv(s)
    ensures Inv(Run(s, xs)) && s.confirmed.Keys <= Run(s, xs).confirmed.Keys
    decreases |xs|
  {
    if xs != [] {
      StepKeepsInv(s, xs[0]);
      ConfirmationsStay(s, xs[0]);
      EveryInterleaving(Step(s, xs[0]), xs[1..]);
    }
  }

  // ----- every caller is answered -----

  /** A call is answered from the cache, joins the read in flight, or starts one. */
  lemma CallAnswers(s: Service, caller: Caller, anchor: Anchor)
    ensures var key := CacheKey(anchor); var t := Step(s, Verify(caller, anchor));
            && t.confirmed == s.confirmed
            && (key in s.confirmed ==>
                  t.log == s.log + [Returned(caller, anchor, s.confirmed[key])] && t.promises == s.promises && t.waiting == s.waiting)
            && (key !in s.confirmed ==> caller in t.waiting && t.waiting[caller].0 == anchor)
            && (key !in s.confirmed && key in s.inFlight ==>
                  t.promises == s.promises && t.log == s.log && t.waiting[caller].1 == s.inFlight[key])
            && (key !in s.confirmed && key !in s.inFlight ==>
                  && t.promises == s.promises + [Read(anchor, Reading)] && t.log == s.log + [Started(|s.promises|, key)]
                  && t.waiting[caller].1 == |s.promises| && key in t.inFlight && t.inFlight[key] == |s.promises|)
  {
  }

  /** The answer of a read is what was read, and is cached exactly when it is true. */
  lemma ReadIsAnswered(s: Service, id: ReadId, tx: TxRead, account: AccountRead)
    requires id < |s.promises| && s.promises[id].phase.Reading?
    ensures var c := ReadFromLedger(s.promises[id].anchor, tx, account); var key := CacheKey(s.promises[id].anchor);
            var t := Step(s, Answer(id, tx, account));
            && |t.promises| == |s.promises| && t.promises[id].phase == Answered(c) && t.inFlight == s.inFlight
            && t.confirmed == (if c.rootMatchesLedger == Some(true) then s.confirmed[key := c] else s.confirmed)
  {
  }

  /** A read that throws is remembered as such, for the clean-up. */
  lemma ReadThrows(s: Service, id: ReadId)
    requires id < |s.promises| && s.promises[id].phase.Reading?
    ensures var t := Step(s, Reject(id));
            && |t.promises| == |s.promises| && t.promises[id].phase == Threw
            && t.confirmed == s.confirmed && t.inFlight == s.inFlight && t.waiting == s.waiting && t.log == s.log
  {
  }

  /** The clean-up of a read that was answered or thrown, whatever the answer: its
      key is in flight no more, and the read is settled with that outcome. */
  lemma CleanUpFrees(s: Service, id: ReadId)
    requires id < |s.promises| && (s.promises[id].phase.Answered? || s.promises[id].phase.Threw?)
    ensures var t := Step(s, Settle(id));
            && CacheKey(s.promises[id].anchor) !in t.inFlight
            && |t.promises| == |s.promises|
            && (s.promises[id].phase.Answered? ==> t.promises[id].phase == Settled(Some(s.promises[id].phase.conf)))
            && (s.promises[id].phase.Threw? ==> t.promises[id].phase == Settled(None))
            && (forall key | key in s.inFlight && key != CacheKey(s.promises[id].anchor) ::
                  key in t.inFlight && t.inFlight[key] == s.inFlight[key])
            && t.confirmed == s.confirmed && t.waiting == s.waiting
  {
  }

  /** So the next call for a key that is not confirmed reads the ledger again. */
  lemma ReadAgainAfterCleanUp(s: Service, id: ReadId, caller: Caller, anchor: Anchor)
    requires id < |s.promises| && (s.promises[id].phase.Answered? || s.promises[id].phase.Threw?)
    requires CacheKey(anchor) == CacheKey(s.promises[id].anchor) && CacheKey(anchor) !in s.confirmed
    ensures var t := Step(Step(s, Settle(id)), Verify(caller, anchor));
            && |t.promises| == |s.promises| + 1 && t.promises[|s.promises|] == Read(anchor, Reading)
            && caller in t.waiting && t.waiting[caller] == (anchor, |s.promises|)
  {
    CleanUpFrees(s, id);
    CallAnswers(Step(s, Settle(id)), caller, anchor);
  }

  predicate Leaves(x: Action, caller: Caller) {
    !(x.Verify? && x.caller == caller) && !(x.Deliver? && x.caller == caller)
  }

  lemma SettledStays(s: Service, x: Action, id: ReadId, caller: Caller)
    requires id < |s.promises| && s.promises[id].phase.Settled? && caller in s.waiting && Leaves(x, caller)
    ensures var t := Step(s, x);
            && id < |t.promises| && t.promises[id] == s.promises[id]
            && caller in t.waiting && t.waiting[caller] == s.waiting[caller]
  {
  }

  lemma DeliveryAnswers(s: Service, caller: Caller)
    requires caller in s.waiting && s.waiting[caller].1 < |s.promises| && s.promises[s.waiting[caller].1].phase.Settled?
    ensures var (anchor, id) := s.waiting[caller]; var outcome := s.promises[id].phase.outcome;
            var t := Step(s, Deliver(caller));
            && caller !in t.waiting
            && t.log == s.log + (if outcome.Some? then [Returned(caller, anchor, outcome.value)] else [])
  {
    assert s.log + [] == s.log;
  }

  /** A caller that waits for a read which has been cleaned up is delivered, however
      much later, the answer of that very read; or is thrown to, if it threw. */
  lemma {:induction false} WaiterGetsItsRead(s: Service, xs: seq<Action>, caller: Caller)
    requires caller in s.waiting && s.waiting[caller].1 < |s.promises| && s.promises[s.waiting[caller].1].phase.Settled?
    requires forall x | x in xs :: Leaves(x, caller)
    ensures var (anchor, id) := s.waiting[caller]; var outcome := s.promises[id].phase.outcome;
            var t := Run(s, xs); var u := Step(t, Deliver(caller));
            && caller !in u.waiting
            && u.log == t.log + (if outcome.Some? then [Returned(caller, anchor, outcome.value)] else [])
    decreases |xs|
  {
    if xs == [] {
      DeliveryAnswers(s, caller);
    } else {
      assert xs[0] in xs && forall x | x in xs[1..] :: x in xs;
      SettledStays(s, xs[0], s.waiting[caller].1, caller);
      WaiterGetsItsRead(Step(s, xs[0]), xs[1..], caller);
    }
  }

  /** No two questions in the log share a key by accident. */
  predicate Apart(log: seq<Entry>) {
    forall e, f | e in log && f in log && (e.Returned? || e.FromLedger?) && (f.Returned? || f.FromLedger?) ::
      !Extends(e.anchor, f.anchor)
  }

  /** Entry i is an answer that entry j, an earlier read for the same transaction
      and root, produced. */
  predicate ReadBehind(log: seq<Entry>, j: nat, i: nat) {
    && j < i < |log| && log[j].FromLedger? && log[i].Returned?
    && log[j].anchor.txHash == log[i].anchor.txHash && log[j].anchor.root == log[i].anchor.root
    && ReadFromLedger(log[j].anchor, log[j].tx, log[j].account) == log[i].conf
  }

  lemma SomeReadBehind(xs: seq<Action>, i: nat) returns (j: nat)
    requires var log := Run(START, xs).log; i < |log| && log[i].Returned? && Apart(log)
    ensures ReadBehind(Run(START, xs).log, j, i)
  {
    EveryInterleaving(START, xs);
    var log := Run(START, xs).log;
    assert Produced(log[..i], CacheKey(log[i].anchor), log[i].conf);
    j :| 0 <= j < i && log[..i][j].FromLedger? && CacheKey(log[..i][j].anchor) == CacheKey(log[i].anchor)
      && ReadFromLedger(log[..i][j].anchor, log[..i][j].tx, log[..i][j].account) == log[i].conf;
    assert log[..i][j] == log[j] && log[j] in log && log[i] in log;
    KeysCollideExactlyWhen(log[j].anchor, log[i].anchor);
  }

  /** What a true answer from a read for one anchor says about another with the
      same transaction and root. */
  lemma TrueForAnother(read: Anchor, asked: Anchor, tx: TxRead, account: AccountRead)
    requires read.txHash == asked.txHash && read.root == asked.root
    requires ReadFromLedger(read, tx, account).rootMatchesLedger == Some(true)
    requires ReadFromLedger(read, tx, account).memoMatches || read.dataEntryKey == asked.dataEntryKey
    ensures LedgerCarriesRoot(asked, tx, account)
  {
    TriState(read, tx, account);
  }

  /** A caller told "true" was told so because an earlier read for that very
      transaction and root found the root on the ledger; and found it for the
      caller's own anchor if the memo matched or the read used its entry key. */
  lemma TrueAnswersAreOnTheLedger(xs: seq<Action>, i: nat)
    requires var log := Run(START, xs).log;
             i < |log| && log[i].Returned? && log[i].conf.rootMatchesLedger == Some(true) && Apart(log)
    ensures var log := Run(START, xs).log;
            exists j: nat ::
              && ReadBehind(log, j, i) && LedgerCarriesRoot(log[j].anchor, log[j].tx, log[j].account)
              && (log[i].conf.memoMatches || log[j].anchor.dataEntryKey == log[i].anchor.dataEntryKey ==>
                    LedgerCarriesRoot(log[i].anchor, log[j].tx, log[j].account))
  {
    var log := Run(START, xs).log;
    var j := SomeReadBehind(xs, i);
    TriState(log[j].anchor, log[j].tx, log[j].account);
    if log[i].conf.memoMatches || log[j].anchor.dataEntryKey == log[i].anchor.dataEntryKey {
      TrueForAnother(log[j].anchor, log[i].anchor, log[j].tx, log[j].account);
    }
  }

  /** These calls ask about anchors of qs only. */
  predicate AsksOnly(xs: seq<Action>, qs: set<Anchor>) {
    forall x | x in xs && x.Verify? :: x.anchor in qs
  }

  /** All reads, waiting callers and answers are about anchors of qs. */
  predicate AboutOnly(s: Service, qs: set<Anchor>) {
    && (forall id | 0 <= id < |s.promises| :: s.promises[id].anchor in qs)
    && (forall caller | caller in s.waiting :: s.waiting[caller].0 in qs)
    && (forall i | 0 <= i < |s.log| && (s.log[i].FromLedger? || s.log[i].Returned?) :: s.log[i].anchor in qs)
  }

  lemma StepStaysAbout(s: Service, x: Action, qs: set<Anchor>)
    requires AboutOnly(s, qs) && (x.Verify? ==> x.anchor in qs)
    ensures AboutOnly(Step(s, x), qs)
  {
  }

  lemma {:induction false} AsksStayAbout(s: Service, xs: seq<Action>, qs: set<Anchor>)
    requires AboutOnly(s, qs) && AsksOnly(xs, qs)
    ensures AboutOnly(Run(s, xs), qs)
    decreases |xs|
  {
    if xs != [] {
      assert xs[0] in xs && forall x | x in xs[1..] :: x in xs;
      StepStaysAbout(s, xs[0], qs);
      AsksStayAbout(Step(s, xs[0]), xs[1..], qs);
    }
  }

  predicate Confirms(log: seq<Entry>, i: nat) {
    i < |log| && log[i].Returned? && log[i].conf.rootMatchesLedger == Some(true)
  }

  /** Answer i came from an earlier read for the caller's transaction and root, in
      which the ledger carried the root for the caller's own anchor. */
  ghost predicate CarriedForCaller(log: seq<Entry>, i: nat) {
    exists j: nat :: ReadBehind(log, j, i) && LedgerCarriesRoot(log[i].anchor, log[j].tx, log[j].account)
  }

  /** In every run that asks about anchors of qs only, every true answer is true
      of the caller's own anchor. */
  ghost predicate AlwaysCarried(qs: set<Anchor>) {
    forall xs, i: nat | AsksOnly(xs, qs) && Confirms(Run(START, xs).log, i) :: CarriedForCaller(Run(START, xs).log, i)
  }

  /** No two of these anchors share a cache key. */
  predicate OneAnchorPerKey(qs: set<Anchor>) {
    forall a, b | a in qs && b in qs && CacheKey(a) == CacheKey(b) :: a == b
  }

  lemma OwnKeyIsCarried(xs: seq<Action>, i: nat, qs: set<Anchor>)
    requires OneAnchorPerKey(qs) && AsksOnly(xs, qs) && Confirms(Run(START, xs).log, i)
    ensures CarriedForCaller(Run(START, xs).log, i)
  {
    EveryInterleaving(START, xs);
    AsksStayAbout(START, xs, qs);
    var log := Run(START, xs).log;
    assert Produced(log[..i], CacheKey(log[i].anchor), log[i].conf);
    var j :| 0 <= j < i && log[..i][j].FromLedger? && CacheKey(log[..i][j].anchor) == CacheKey(log[i].anchor)
          && ReadFromLedger(log[..i][j].anchor, log[..i][j].tx, log[..i][j].account) == log[i].conf;
    assert log[..i][j] == log[j] && log[j].anchor == log[i].anchor;
    TriState(log[j].anchor, log[j].tx, log[j].account);
    assert ReadBehind(log, j, i);
  }

  lemma RunOfFour(s: Service, a: Action, b: Action, c: Action, d: Action)
    ensures Run(s, [a, b, c, d]) == Step(Step(Step(Step(s, a), b), c), d)
  {
    assert [a, b, c, d][1..] == [b, c, d] && [b, c, d][1..] == [c, d] && [c, d][1..] == [d] && [d][1..] == [];
    var u, v := Step(s, a), Step(Step(s, a), b);
    assert Run(v, [c, d]) == Run(Step(v, c), [d]) == Run(Step(Step(v, c), d), []);
    assert Run(s, [a, b, c, d]) == Run(u, [b, c, d]) == Run(v, [c, d]);
  }

  /** One anchor is read and confirmed, and another with its key is then asked. */
  function AskAnother(read: Anchor, asked: Anchor, tx: TxRead, account: AccountRead): seq<Action> {
    [Verify(0, read), Answer(0, tx, account), Settle(0), Verify(1, asked)]
  }

  lemma AskAnotherLog(read: Anchor, asked: Anchor, tx: TxRead, account: AccountRead)
    requires CacheKey(read) == CacheKey(asked)
    requires ReadFromLedger(read, tx, account).rootMatchesLedger == Some(true)
    ensures Run(START, AskAnother(read, asked, tx, account)).log
         == [Started(0, CacheKey(read)), FromLedger(read, tx, account), Finished(0, CacheKey(read)),
             Returned(1, asked, ReadFromLedger(read, tx, account))]
  {
    RunOfFour(START, Verify(0, read), Answer(0, tx, account), Settle(0), Verify(1, asked));
    var key, conf := CacheKey(read), ReadFromLedger(read, tx, account);
    var s1 := Step(START, Verify(0, read));
    assert s1.promises == [Read(read, Reading)] && s1.log == [Started(0, key)];
    var s2 := Step(s1, Answer(0, tx, account));
    assert s2.promises == [Read(read, Answered(conf))] && s2.confirmed == map[key := conf];
    assert s2.log == [Started(0, key), FromLedger(read, tx, account)];
    var s3 := Step(s2, Settle(0));
    assert s3.confirmed == s2.confirmed && s3.log == s2.log + [Finished(0, key)];
    assert Step(s3, Verify(1, asked)).log == s3.log + [Returned(1, asked, conf)];
  }

  /** A read for one anchor finds the root under its entry name; asked about
      another with the same key, the service still answers true, and nothing that
      was read carries the root for that one. */
  lemma OtherAnchorAnswered(read: Anchor, asked: Anchor, tx: TxRead, account: AccountRead)
    requires read != asked && CacheKey(read) == CacheKey(asked)
    requires tx == TxFound(Transaction(1, true, false, None, Some([COLON])))
    requires account == AccountFound(map[read.dataEntryKey := read.root])
    ensures var log := Run(START, AskAnother(read, asked, tx, account)).log;
            Confirms(log, 3) && log[3].anchor == asked && !CarriedForCaller(log, 3)
  {
    AskAnotherLog(read, asked, tx, account);
  }

  /** True answers are about the caller's own anchor in every run, if and only if
      no two of the anchors that may be asked about share a key. */
  lemma CarriedExactlyWhen(qs: set<Anchor>)
    ensures AlwaysCarried(qs) <==> OneAnchorPerKey(qs)
  {
    if OneAnchorPerKey(qs) {
      forall xs, i: nat | AsksOnly(xs, qs) && Confirms(Run(START, xs).log, i)
        ensures CarriedForCaller(Run(START, xs).log, i)
      {
        OwnKeyIsCarried(xs, i, qs);
      }
    } else {
      var read, asked :| read in qs && asked in qs && CacheKey(read) == CacheKey(asked) && read != asked;
      var tx := TxFound(Transaction(1, true, false, None, Some([COLON])));
      var account := AccountFound(map[read.dataEntryKey := read.root]);
      OtherAnchorAnswered(read, asked, tx, account);
      assert AsksOnly(AskAnother(read, asked, tx, account), qs);
    }
  }

  // ----- the code -----

  class LedgerVerificationService {
    var confirmed: map<Text, Confirmation>
    var inFlight: map<Text, ReadId>
    // The promises: reads by number, who awaits which, and what has been observed.
    var promises: seq<Read>
    var waiting: map<Caller, (Anchor, ReadId)>
    var log: seq<Entry>

    function State(): Service
      reads this
    {
      Service(confirmed, inFlight, promises, waiting, log)
    }

    constructor ()
      ensures State() == START
    {
      confirmed, inFlight, promises, waiting, log := map[], map[], [], map[], [];
    }

    method VerifyCall(caller: Caller, anchor: Anchor)
      modifies this
      ensures State() == Step(old(State()), Verify(caller, anchor))
      ensures CacheKey(anchor) !in old(confirmed) && CacheKey(anchor) !in old(inFlight) ==>
                promises == old(promises) + [Read(anchor, Reading)] && waiting == old(waiting)[caller := (anchor, |old(promises)|)]
    {
      var key := CacheKey(anchor);
      if key in confirmed {
        log := log + [Returned(caller, anchor, confirmed[key])];
        return;
      }
      if key in inFlight {
        waiting := waiting[caller := (anchor, inFlight[key])];
        return;
      }
      var read := |promises|;
      promises := promises + [Read(anchor, Reading)];
      log := log + [Started(read, key)];
      inFlight := inFlight[key := read];
      waiting := waiting[caller := (anchor, read)];
    }

    method ThenCallback(read: ReadId, tx: TxRead, account: AccountRead)
      requires read < |promises| && promises[read].phase.Reading?
      modifies this
      ensures State() == Step(old(State()), Answer(read, tx, account))
      ensures var c := ReadFromLedger(old(promises)[read].anchor, tx, account);
              && read < |promises| && promises[read].phase == Answered(c)
              && (c.rootMatchesLedger != Some(true) ==> confirmed == old(confirmed))
    {
      var anchor := promises[read].anchor;
      var confirmation := ReadFromLedger(anchor, tx, account);
      if confirmation.rootMatchesLedger == Some(true) {
        confirmed := confirmed[CacheKey(anchor) := confirmation];
      }
      promises := SetPhase(promises, read, Answered(confirmation));
      log := log + [FromLedger(anchor, tx, account)];
    }

    method FinallyCallback(read: ReadId)
      requires read < |promises| && (promises[read].phase.Answered? || promises[read].phase.Threw?)
      modifies this
      ensures State() == Step(old(State()), Settle(read))
      ensures CacheKey(old(promises)[read].anchor) !in inFlight
      ensures read < |promises| && promises[read].phase
           == Settled(if old(promises)[read].phase.Answered? then Some(old(promises)[read].phase.conf) else None)
    {
      var key := CacheKey(promises[read].anchor);
      inFlight := inFlight - {key};
      var outcome := if promises[read].phase.Answered? then Some(promises[read].phase.conf) else None;
      promises := SetPhase(promises, read, Settled(outcome));
      log := log + [Finished(read, key)];
    }
  }
}
