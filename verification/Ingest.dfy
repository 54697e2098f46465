/**
 Ingesting signed weigh-ins: a lookup, then an insert under a unique index on
 the payload hash, then, if that was violated, a read of the winner, for any
 number of concurrent submissions.

 Payload hashes are injective names of payloads. The verdict of the integrity
 checks is part of a submission.
 */
module Ingest {
  import opened Wrappers

  type EventId = nat
  type Hash = nat
  type CallId = nat

  datatype Submission = Submission(
    hash: Hash,
    schemaSupported: bool,
    materialKnown: bool,
    referencesKnown: bool,   // device, collector and hub all exist
    passesIntegrity: bool)

  datatype Row = Row(hash: Hash, quarantined: bool)

  datatype Refusal = UnsupportedSchema | UnknownMaterial | UnknownReference | WinnerMissing

  datatype Reply =
    | Refused(why: Refusal)
    | Stored(eventId: EventId, quarantined: bool, duplicate: bool)

  /** The position of the row with this hash; a row's position is its id. */
  function Find(rows: seq<Row>, h: Hash): (r: Option<EventId>)
    ensures r.Some? ==> r.value < |rows| && rows[r.value].hash == h
    ensures r.None? ==> forall i | 0 <= i < |rows| :: rows[i].hash != h
  {
    if rows == [] then None
    else if rows[|rows| - 1].hash == h then Some(|rows| - 1)
    else Find(rows[..|rows| - 1], h)
  }

  predicate UniqueHashes(rows: seq<Row>) {
    forall i, j | 0 <= i < j < |rows| :: rows[i].hash != rows[j].hash
  }

  lemma OneRowPerHash(rows: seq<Row>, i: nat, j: nat)
    requires UniqueHashes(rows) && i < |rows| && j < |rows| && rows[i].hash == rows[j].hash
    ensures i == j
  {
  }

  // ----- the steps of one call -----

  datatype Lookup = Reject(why: Refusal) | Seen(existing: Option<EventId>)

  function LookupStep(rows: seq<Row>, s: Submission): Lookup {
    if !s.schemaSupported then Reject(UnsupportedSchema)
    else if !s.materialKnown then Reject(UnknownMaterial)
    else Seen(Find(rows, s.hash))
  }

  /** The insert, given what the lookup saw; the index decides who wins. */
  function InsertStep(rows: seq<Row>, s: Submission, existing: Option<EventId>): (seq<Row>, Reply) {
    if existing.Some? then (rows, Stored(existing.value, true, true))
    else if !s.referencesKnown then (rows, Refused(UnknownReference))
    else
      var winner := Find(rows, s.hash);
      if winner.Some? then (rows, Stored(winner.value, true, true))
      else (rows + [Row(s.hash, !s.passesIntegrity)], Stored(|rows|, !s.passesIntegrity, false))
  }

  /** The insert violates the unique index. */
  predicate Clashes(rows: seq<Row>, s: Submission, existing: Option<EventId>) {
    existing.None? && s.referencesKnown && Find(rows, s.hash).Some?
  }

  /** The read that recovers from a violation. */
  function RecoverStep(rows: seq<Row>, s: Submission): Reply {
    var winner := Find(rows, s.hash);
    if winner.Some? then Stored(winner.value, true, true) else Refused(WinnerMissing)
  }

  predicate Known(rows: seq<Row>, h: Hash) {
    exists i :: 0 <= i < |rows| && rows[i].hash == h
  }

  /** Before the insert: refused for its schema, then for its material, and otherwise
      told of the event that its payload has already. */
  lemma LookupAnswers(rows: seq<Row>, s: Submission)
    ensures !s.schemaSupported ==> LookupStep(rows, s) == Reject(UnsupportedSchema)
    ensures s.schemaSupported && !s.materialKnown ==> LookupStep(rows, s) == Reject(UnknownMaterial)
    ensures s.schemaSupported && s.materialKnown && !Known(rows, s.hash) ==> LookupStep(rows, s) == Seen(None)
    ensures s.schemaSupported && s.materialKnown && Known(rows, s.hash) ==>
              var l := LookupStep(rows, s);
              l.Seen? && l.existing.Some? && l.existing.value < |rows| && rows[l.existing.value].hash == s.hash
  {
  }

  /** A replay is told of the original and stores nothing; unknown references are
      refused and store nothing; anything else is stored, and quarantined exactly
      when its checks fail. */
  lemma InsertAnswers(rows: seq<Row>, s: Submission, existing: Option<EventId>)
    ensures existing.Some? ==> InsertStep(rows, s, existing) == (rows, Stored(existing.value, true, true))
    ensures existing.None? && !s.referencesKnown ==> InsertStep(rows, s, existing) == (rows, Refused(UnknownReference))
    ensures existing.None? && s.referencesKnown && !Known(rows, s.hash) ==>
              InsertStep(rows, s, existing) == (rows + [Row(s.hash, !s.passesIntegrity)], Stored(|rows|, !s.passesIntegrity, false))
    ensures Clashes(rows, s, existing) <==> existing.None? && s.referencesKnown && Known(rows, s.hash)
    ensures Known(rows, s.hash) ==>
              var r := RecoverStep(rows, s);
              r.Stored? && r.eventId < |rows| && rows[r.eventId].hash == s.hash && r.duplicate && r.quarantined
  {
  }

  // ----- concurrent calls -----

  datatype Progress = Arrived | LookedUp(existing: Option<EventId>) | Clashed | Done(reply: Reply)
  datatype Call = Call(sub: Submission, at: Progress)
  datatype Server = Server(rows: seq<Row>, calls: map<CallId, Call>)

  /** Runs the next step of one call. */
  function Step(s: Server, c: CallId): Server {
    if c !in s.calls then s
    else
      var call := s.calls[c];
      match call.at
      case Arrived =>
        var l := LookupStep(s.rows, call.sub);
        s.(calls := s.calls[c := call.(at := if l.Reject? then Done(Refused(l.why)) else LookedUp(l.existing))])
      case LookedUp(existing) =>
        if Clashes(s.rows, call.sub, existing) then s.(calls := s.calls[c := call.(at := Clashed)])
        else
          var (rows, reply) := InsertStep(s.rows, call.sub, existing);
          Server(rows, s.calls[c := call.(at := Done(reply))])
      case Clashed =>
        s.(calls := s.calls[c := call.(at := Done(RecoverStep(s.rows, call.sub)))])
      case Done(_) => s
  }

  function Run(s: Server, schedule: seq<CallId>): Server
    decreases |schedule|
  {
    if schedule == [] then s else Run(Step(s, schedule[0]), schedule[1..])
  }

  predicate Accepted(call: Call) {
    call.at.Done? && call.at.reply.Stored?
  }

  /** This call inserted row e and was told it is not a duplicate. */
  predicate Inserted(call: Call, e: EventId) {
    Accepted(call) && call.at.reply.eventId == e && !call.at.reply.duplicate
  }

  predicate HasInserter(calls: map<CallId, Call>, e: EventId) {
    exists c :: c in calls && Inserted(calls[c], e)
  }

  /** A call recovers only when the row of its payload is there. */
  predicate ClashesKnown(s: Server) {
    forall c | c in s.calls && s.calls[c].at.Clashed? :: Find(s.rows, s.calls[c].sub.hash).Some?
  }

  lemma FindStays(rows: seq<Row>, more: seq<Row>, h: Hash)
    requires rows <= more && Find(rows, h).Some?
    ensures Find(more, h).Some?
  {
    assert more[Find(rows, h).value].hash == h;
  }

  lemma ClashesStayKnown(s: Server, t: Server, c: CallId)
    requires ClashesKnown(s) && s.rows <= t.rows && t.calls.Keys == s.calls.Keys && c in s.calls
    requires forall d | d in s.calls && d != c :: t.calls[d] == s.calls[d]
    requires t.calls[c].at.Clashed? ==> Find(s.rows, t.calls[c].sub.hash).Some?
    ensures ClashesKnown(t)
  {
    forall d | d in t.calls && t.calls[d].at.Clashed? ensures Find(t.rows, t.calls[d].sub.hash).Some? {
      FindStays(s.rows, t.rows, t.calls[d].sub.hash);
    }
  }

  /** The first `prior` rows were there before any of the calls. */
  ghost predicate Inv(s: Server, prior: nat) {
    && prior <= |s.rows|
    && UniqueHashes(s.rows)
    && (forall c | c in s.calls && Accepted(s.calls[c]) ::
          var r := s.calls[c].at.reply;
          && r.eventId < |s.rows|
          && s.rows[r.eventId].hash == s.calls[c].sub.hash
          && (r.duplicate ==> r.quarantined)
          && (!r.duplicate ==> prior <= r.eventId && r.quarantined == s.rows[r.eventId].quarantined == !s.calls[c].sub.passesIntegrity))
    && (forall c | c in s.calls && s.calls[c].at.LookedUp? && s.calls[c].at.existing.Some? ::
          var e := s.calls[c].at.existing.value;
          e < |s.rows| && s.rows[e].hash == s.calls[c].sub.hash)
    && ClashesKnown(s)
    && (forall e | prior <= e < |s.rows| :: HasInserter(s.calls, e))
    && (forall c, d, e | c in s.calls && d in s.calls && Inserted(s.calls[c], e) && Inserted(s.calls[d], e) :: c == d)
  }

  /** The steps that only read: the lookup, a violated insert, the recovery. */
  predicate OnlyReads(s: Server, c: CallId) {
    && c in s.calls
    && (|| s.calls[c].at.Arrived? || s.calls[c].at.Clashed?
        || (s.calls[c].at.LookedUp? && Clashes(s.rows, s.calls[c].sub, s.calls[c].at.existing)))
  }

  lemma ReadKeepsInv(s: Server, c: CallId, prior: nat)
    requires Inv(s, prior) && OnlyReads(s, c)
    ensures Inv(Step(s, c), prior) && Step(s, c).rows == s.rows
  {
    var t := Step(s, c);
    ClashesStayKnown(s, t, c);
    forall e | prior <= e < |t.rows| ensures HasInserter(t.calls, e) {
      InserterStays(s, t, c, e);
    }
  }

  lemma InserterStays(s: Server, t: Server, c: CallId, e: EventId)
    requires HasInserter(s.calls, e) && c in s.calls && !s.calls[c].at.Done?
    requires forall d | d in s.calls && d != c :: d in t.calls && t.calls[d] == s.calls[d]
    ensures HasInserter(t.calls, e)
  {
    var d :| d in s.calls && Inserted(s.calls[d], e);
    assert d in t.calls && Inserted(t.calls[d], e);
  }

  lemma InsertKeepsInv(s: Server, c: CallId, prior: nat)
    requires Inv(s, prior) && c in s.calls && s.calls[c].at.LookedUp?
    requires !Clashes(s.rows, s.calls[c].sub, s.calls[c].at.existing)
    ensures Inv(Step(s, c), prior)
    ensures s.rows <= Step(s, c).rows
  {
    var t := Step(s, c);
    ClashesStayKnown(s, t, c);
    forall e | prior <= e < |t.rows| ensures HasInserter(t.calls, e) {
      if e < |s.rows| {
        InserterStays(s, t, c, e);
      } else {
        assert c in t.calls && Inserted(t.calls[c], e);
      }
    }
  }

  lemma StepKeepsInv(s: Server, c: CallId, prior: nat)
    requires Inv(s, prior)
    ensures Inv(Step(s, c), prior)
    ensures s.rows <= Step(s, c).rows
  {
    if OnlyReads(s, c) {
      ReadKeepsInv(s, c, prior);
    } else if c in s.calls && s.calls[c].at.LookedUp? {
      InsertKeepsInv(s, c, prior);
    }
  }

  lemma {:induction false} RunKeepsInv(s: Server, schedule: seq<CallId>, prior: nat)
    requires Inv(s, prior)
    ensures Inv(Run(s, schedule), prior)
    ensures s.rows <= Run(s, schedule).rows
    decreases |schedule|
  {
    if schedule != [] {
      StepKeepsInv(s, schedule[0], prior);
      RunKeepsInv(Step(s, schedule[0]), schedule[1..], prior);
    }
  }

  lemma {:induction false} RunKeepsSubmissions(s: Server, schedule: seq<CallId>)
    ensures Run(s, schedule).calls.Keys == s.calls.Keys
    ensures forall c | c in s.calls :: Run(s, schedule).calls[c].sub == s.calls[c].sub
    decreases |schedule|
  {
    if schedule != [] { RunKeepsSubmissions(Step(s, schedule[0]), schedule[1..]); }
  }

  predicate AllArrived(s: Server) {
    forall c | c in s.calls :: s.calls[c].at.Arrived?
  }

  /** Whatever the schedule, submissions of one payload are given one event, at
      most one of them is told it is new, and one is if the payload was. */
  lemma SamePayloadSameEvent(s: Server, schedule: seq<CallId>, c: CallId, d: CallId)
    requires UniqueHashes(s.rows) && AllArrived(s)
    requires var t := Run(s, schedule);
             c in t.calls && d in t.calls && Accepted(t.calls[c]) && Accepted(t.calls[d])
             && t.calls[c].sub.hash == t.calls[d].sub.hash
    ensures var t := Run(s, schedule);
            && UniqueHashes(t.rows) && s.rows <= t.rows
            && t.calls[c].at.reply.eventId == t.calls[d].at.reply.eventId
            && (!t.calls[c].at.reply.duplicate && !t.calls[d].at.reply.duplicate ==> c == d)
            && (Find(s.rows, t.calls[c].sub.hash).None? ==>
                  exists w :: w in t.calls && t.calls[w].sub.hash == t.calls[c].sub.hash
                           && Inserted(t.calls[w], t.calls[c].at.reply.eventId))
  {
    RunKeepsInv(s, schedule, |s.rows|);
    var t := Run(s, schedule);
    var e := t.calls[c].at.reply.eventId;
    assert t.rows[e].hash == t.calls[c].sub.hash;
    if Find(s.rows, t.calls[c].sub.hash).None? {
      NotAmongPrior(s.rows, t.rows, e, t.calls[c].sub.hash);
      assert HasInserter(t.calls, e);
      var w :| w in t.calls && Inserted(t.calls[w], e);
    }
    if !t.calls[c].at.reply.duplicate && !t.calls[d].at.reply.duplicate {
      assert Inserted(t.calls[c], e) && Inserted(t.calls[d], e);
    }
  }

  lemma NotAmongPrior(prior: seq<Row>, rows: seq<Row>, e: EventId, h: Hash)
    requires Find(prior, h).None? && prior <= rows && e < |rows| && rows[e].hash == h
    ensures e >= |prior|
  {
    assert forall i | 0 <= i < |prior| :: rows[i] == prior[i] && prior[i].hash != h;
  }

  /** One row was added, every caller holds its id, and exactly one of them was
      told it is not a duplicate. */
  predicate Converged(prior: seq<Row>, t: Server, h: Hash) {
    && prior <= t.rows && |t.rows| == |prior| + 1 && t.rows[|prior|].hash == h
    && (forall c | c in t.calls :: Accepted(t.calls[c]) && t.calls[c].at.reply.eventId == |prior|)
    && (exists w :: w in t.calls && SoleInserter(t.calls, w))
  }

  predicate SoleInserter(calls: map<CallId, Call>, w: CallId) {
    forall c | c in calls && Accepted(calls[c]) :: calls[c].at.reply.duplicate <==> c != w
  }

  lemma RowsFromCalls(t: Server, n: nat, h: Hash)
    requires Inv(t, n) && forall c | c in t.calls :: t.calls[c].sub.hash == h
    ensures |t.rows| <= n + 1 && forall e | n <= e < |t.rows| :: t.rows[e].hash == h
  {
    forall e | n <= e < |t.rows| ensures t.rows[e].hash == h {
      assert HasInserter(t.calls, e);
      var c :| c in t.calls && Inserted(t.calls[c], e);
    }
    if |t.rows| > n { OneRowPerHash(t.rows, |t.rows| - 1, n); }
  }

  lemma AllHoldTheNewRow(prior: seq<Row>, t: Server, h: Hash, c: CallId)
    requires Inv(t, |prior|) && prior <= t.rows && Find(prior, h).None? && |t.rows| <= |prior| + 1
    requires c in t.calls && t.calls[c].sub.hash == h && Accepted(t.calls[c])
    ensures t.calls[c].at.reply.eventId == |prior| && |t.rows| == |prior| + 1
  {
    NotAmongPrior(prior, t.rows, t.calls[c].at.reply.eventId, h);
  }

  lemma Converge(prior: seq<Row>, t: Server, h: Hash)
    requires Inv(t, |prior|) && prior <= t.rows && Find(prior, h).None? && t.calls != map[]
    requires forall c | c in t.calls :: t.calls[c].sub.hash == h && Accepted(t.calls[c])
    ensures Converged(prior, t, h)
  {
    var n := |prior|;
    RowsFromCalls(t, n, h);
    forall c | c in t.calls ensures t.calls[c].at.reply.eventId == n && |t.rows| == n + 1 {
      AllHoldTheNewRow(prior, t, h, c);
    }
    var c0 :| c0 in t.calls;
    assert HasInserter(t.calls, n);
    var w :| w in t.calls && Inserted(t.calls[w], n);
    forall c | c in t.calls && Accepted(t.calls[c]) ensures t.calls[c].at.reply.duplicate <==> c != w {
      assert !t.calls[c].at.reply.duplicate ==> Inserted(t.calls[c], n);
    }
    assert SoleInserter(t.calls, w);
  }

  /** A new payload submitted any number of times at once, with known
      references, has converged once all the calls have returned. */
  lemma ConcurrentIngestConverges(s: Server, schedule: seq<CallId>, h: Hash)
    requires UniqueHashes(s.rows) && Find(s.rows, h).None? && s.calls != map[]
    requires AllArrived(s)
    requires forall c | c in s.calls :: var p := s.calls[c].sub;
               p.hash == h && p.schemaSupported && p.materialKnown && p.referencesKnown
    requires forall c | c in Run(s, schedule).calls :: Run(s, schedule).calls[c].at.Done?
    ensures Converged(s.rows, Run(s, schedule), h)
  {
    var t := Run(s, schedule);
    RunKeepsInv(s, schedule, |s.rows|);
    RunKeepsSubmissions(s, schedule);
    NoneRefused(s, schedule);
    var c :| c in s.calls;
    assert c in t.calls;
    Converge(s.rows, t, h);
  }

  predicate NoneRefusedYet(s: Server) {
    ClashesKnown(s) && forall c | c in s.calls && s.calls[c].at.Done? :: s.calls[c].at.reply.Stored?
  }

  lemma StepRefusesNone(s: Server, c: CallId)
    requires NoneRefusedYet(s)
    requires forall d | d in s.calls :: var p := s.calls[d].sub;
               p.schemaSupported && p.materialKnown && p.referencesKnown
    ensures NoneRefusedYet(Step(s, c))
  {
    var t := Step(s, c);
    if c in s.calls { ClashesStayKnown(s, t, c); }
  }

  lemma {:induction false} NoneRefused(s: Server, schedule: seq<CallId>)
    requires NoneRefusedYet(s)
    requires forall c | c in s.calls :: var p := s.calls[c].sub;
               p.schemaSupported && p.materialKnown && p.referencesKnown
    ensures NoneRefusedYet(Run(s, schedule))
    decreases |schedule|
  {
    if schedule != [] {
      StepRefusesNone(s, schedule[0]);
      NoneRefused(Step(s, schedule[0]), schedule[1..]);
    }
  }

  // ----- refusals -----

  /** A call that was refused was refused for what is wrong with its submission. */
  predicate RefusedRightly(call: Call) {
    call.at.Done? && call.at.reply.Refused? ==>
      call.at.reply.why == if !call.sub.schemaSupported then UnsupportedSchema
                           else if !call.sub.materialKnown then UnknownMaterial
                           else UnknownReference
  }

  predicate Sane(s: Submission) {
    s.schemaSupported && s.materialKnown
  }

  /** What cannot be accepted is not, and past the lookup only sane submissions go. */
  predicate RefusalsFit(s: Server) {
    && ClashesKnown(s)
    && (forall c | c in s.calls :: RefusedRightly(s.calls[c]))
    && (forall c | c in s.calls && !s.calls[c].at.Arrived? && !(s.calls[c].at.Done? && s.calls[c].at.reply.Refused?) ::
          Sane(s.calls[c].sub))
    && (forall c | c in s.calls && s.calls[c].at.Clashed? :: s.calls[c].sub.referencesKnown)
    && (forall c | c in s.calls && s.calls[c].at.Done? && s.calls[c].at.reply == Refused(UnknownReference) ::
          Sane(s.calls[c].sub) && !s.calls[c].sub.referencesKnown)
  }

  lemma StepRefusesRightly(s: Server, c: CallId)
    requires RefusalsFit(s)
    ensures RefusalsFit(Step(s, c))
  {
    var t := Step(s, c);
    if c in s.calls { ClashesStayKnown(s, t, c); }
  }

  /** Over every schedule: a submission with an unsupported schema or an unknown
      material is refused as such; one with unknown references is refused as such,
      or its payload was stored before; and a refused call has stored no row. */
  lemma {:induction false} RefusedExactlyForCause(s: Server, schedule: seq<CallId>)
    requires RefusalsFit(s)
    ensures RefusalsFit(Run(s, schedule))
    decreases |schedule|
  {
    if schedule != [] {
      StepRefusesRightly(s, schedule[0]);
      RefusedExactlyForCause(Step(s, schedule[0]), schedule[1..]);
    }
  }

  lemma RefusedStoresNothing(s: Server, c: CallId)
    requires c in s.calls && Step(s, c).calls[c].at.Done? && Step(s, c).calls[c].at.reply.Refused?
    ensures Step(s, c).rows == s.rows
  {
  }

  /** The fate of a call that has returned, over every schedule. */
  lemma UnfitIsRefused(s: Server, schedule: seq<CallId>, c: CallId)
    requires UniqueHashes(s.rows) && AllArrived(s) && c in Run(s, schedule).calls && Run(s, schedule).calls[c].at.Done?
    ensures var call := Run(s, schedule).calls[c];
            && (!call.sub.schemaSupported ==> call.at.reply == Refused(UnsupportedSchema))
            && (call.sub.schemaSupported && !call.sub.materialKnown ==> call.at.reply == Refused(UnknownMaterial))
            && (Sane(call.sub) && call.at.reply.Refused? ==> call.at.reply.why == UnknownReference && !call.sub.referencesKnown)
            && (Accepted(call) && !call.at.reply.duplicate ==>
                  && call.at.reply.eventId < |Run(s, schedule).rows|
                  && Run(s, schedule).rows[call.at.reply.eventId] == Row(call.sub.hash, !call.sub.passesIntegrity))
  {
    RefusedExactlyForCause(s, schedule);
    RunKeepsInv(s, schedule, |s.rows|);
    var call := Run(s, schedule).calls[c];
    assert RefusedRightly(call);
  }

  // ----- the code -----

  class EventsService {
    var rows: seq<Row>

    constructor ()
      ensures rows == []
    {
      rows := [];
    }

    method FindByHash(h: Hash) returns (r: Option<EventId>)
      ensures r == Find(rows, h)
    {
      var i := |rows|;
      assert rows[..i] == rows;
      while i > 0
        invariant 0 <= i <= |rows|
        invariant Find(rows, h) == Find(rows[..i], h)
      {
        i := i - 1;
        assert rows[..i + 1][..i] == rows[..i];
        if rows[i].hash == h { return Some(i); }
      }
      return None;
    }

    /** The part of `ingest` up to and including its reads. */
    method LookupPart(s: Submission) returns (l: Lookup)
      ensures l == LookupStep(rows, s)
      ensures l.Reject? <==> !s.schemaSupported || !s.materialKnown
      ensures l.Reject? ==> l.why == if !s.schemaSupported then UnsupportedSchema else UnknownMaterial
    {
      if !s.schemaSupported { return Reject(UnsupportedSchema); }
      if !s.materialKnown { return Reject(UnknownMaterial); }
      var existing := FindByHash(s.hash);
      return Seen(existing);
    }

    /** The rest up to the insert: report the original, or refuse, or insert. No
        answer yet when the insert violates the unique index. */
    method InsertPart(s: Submission, existing: Option<EventId>) returns (r: Option<Reply>)
      modifies this
      ensures r.None? <==> Clashes(old(rows), s, existing)
      ensures r.Some? ==> (rows, r.value) == InsertStep(old(rows), s, existing)
      ensures r.None? ==> rows == old(rows)
      ensures UniqueHashes(old(rows)) ==> UniqueHashes(rows)
    {
      if existing.Some? { return Some(Stored(existing.value, true, true)); }
      if !s.referencesKnown { return Some(Refused(UnknownReference)); }
      var quarantined := !s.passesIntegrity;
      var clash := FindByHash(s.hash);
      if clash.Some? { return None; }
      rows := rows + [Row(s.hash, quarantined)];
      return Some(Stored(|rows| - 1, quarantined, false));
    }

    /** The recovery: what is stored under the payload's hash now is the winner. */
    method RecoverPart(s: Submission) returns (r: Reply)
      requires Find(rows, s.hash).Some?
      ensures r.Stored? && r.eventId < |rows| && rows[r.eventId].hash == s.hash && r.duplicate && r.quarantined
      ensures r == RecoverStep(rows, s)
    {
      var winner := FindByHash(s.hash);
      return Stored(winner.value, true, true);
    }
  }
}
