/**
 Calls to addEvents that overlap.

 A call locks the row of its batch, reads the events it was named, and only later
 assigns them; it locks no event, and the assignment does not look again whether
 an event is still unbatched. Calls on different batches may come between the two
 halves. A call that needs the lock of a held batch waits.
 */
module Overlap {
  import opened Wrappers
  import opened Sorting
  import opened Batches
  import BatchesService
  import Lifecycle

  /** The tables, and for each batch whose row is held the events chosen for it. */
  datatype Database = Database(tables: Tables, holding: map<BatchId, seq<EventId>>)

  datatype Action =
    | Choose(batch: BatchId, ids: seq<EventId>)   // the first half of addEvents
    | Assign(batch: BatchId)                      // the second half
    | Abandon(batch: BatchId)                     // or a rollback
    | Other(call: Call)                           // any other call, at one moment

  function IdSet(ids: seq<EventId>): set<EventId> {
    set id | id in ids
  }

  /** The call is refused the lock for now, or is not one that comes in one piece. */
  predicate Waits(w: Database, x: Call) {
    x.AddEvents? || ((x.RemoveEvent? || x.Seal?) && x.batch in w.holding)
  }

  /** The second half: the chosen rows become members, and the totals follow. */
  function Assigned(t: Tables, b: BatchId, ids: seq<EventId>): Tables
    requires b < |t.batches|
  {
    Moved(t, b, BatchesService.Assign(t.events, IdSet(ids), Some(b)))
  }

  function Step(w: Database, a: Action): Database {
    match a
    case Choose(b, ids) =>
      if b in w.holding || Transition(w.tables, AddEvents(b, ids)).Err? then w else w.(holding := w.holding[b := ids])
    case Assign(b) =>
      if b !in w.holding || b >= |w.tables.batches| then w
      else Database(Assigned(w.tables, b, w.holding[b]), w.holding - {b})
    case Abandon(b) => w.(holding := w.holding - {b})
    case Other(x) => if Waits(w, x) then w else w.(tables := Batches.Step(w.tables, x))
  }

  function Run(w: Database, xs: seq<Action>): Database
    decreases |xs|
  {
    if xs == [] then w else Run(Step(w, xs[0]), xs[1..])
  }

  // ----- what every interleaving keeps -----

  predicate Fits(e: Event, batch: Batch) {
    !e.quarantined && e.hub == batch.hub && e.material == batch.material
  }

  predicate HasRow(t: Tables, b: BatchId, id: EventId)
    requires b < |t.batches|
  {
    exists i :: 0 <= i < |t.events| && t.events[i].id == id && Fits(t.events[i], t.batches[b]) && t.events[i].batch != Some(b)
  }

  /** A held batch is open, and its chosen events fit it and are not in it yet. */
  predicate HeldFits(t: Tables, b: BatchId, ids: seq<EventId>) {
    && b < |t.batches| && t.batches[b].status.Open?
    && forall id | id in ids :: HasRow(t, b, id)
  }

  predicate Sound(w: Database) {
    && UniqueIds(w.tables.events) && MembersFit(w.tables)
    && forall b | b in w.holding :: HeldFits(w.tables, b, w.holding[b])
  }

  /** Rows and batches stay what they are; a row may come into another batch. */
  predicate SameRows(t: Tables, u: Tables, b: BatchId) {
    && |t.events| <= |u.events| && b < |t.batches| <= |u.batches|
    && (forall i | 0 <= i < |t.events| ::
          && u.events[i] == t.events[i].(batch := u.events[i].batch)
          && (u.events[i].batch == Some(b) ==> t.events[i].batch == Some(b)))
    && u.batches[b].status == t.batches[b].status && u.batches[b].hub == t.batches[b].hub
    && u.batches[b].material == t.batches[b].material
  }

  lemma HeldStays(t: Tables, u: Tables, b: BatchId, ids: seq<EventId>)
    requires HeldFits(t, b, ids) && SameRows(t, u, b)
    ensures HeldFits(u, b, ids)
  {
    forall id | id in ids ensures HasRow(u, b, id) {
      assert HasRow(t, b, id);
      var i :| 0 <= i < |t.events| && t.events[i].id == id && Fits(t.events[i], t.batches[b]) && t.events[i].batch != Some(b);
      assert u.events[i].id == id && Fits(u.events[i], u.batches[b]);
    }
  }

  /** The row of a chosen event is the one that fits. */
  lemma ChosenRow(t: Tables, b: BatchId, ids: seq<EventId>, i: nat)
    requires UniqueIds(t.events) && HeldFits(t, b, ids) && i < |t.events| && t.events[i].id in ids
    ensures Fits(t.events[i], t.batches[b]) && t.events[i].batch != Some(b)
  {
    assert HasRow(t, b, t.events[i].id);
  }

  lemma AssignedRows(t: Tables, b: BatchId, ids: seq<EventId>)
    requires b < |t.batches|
    ensures var u := Assigned(t, b, ids);
            && |u.events| == |t.events| && |u.batches| == |t.batches| && u.anchors == t.anchors
            && (forall i | 0 <= i < |t.events| ::
                  u.events[i] == if t.events[i].id in ids then t.events[i].(batch := Some(b)) else t.events[i])
            && (forall c | 0 <= c < |t.batches| && c != b :: u.batches[c] == t.batches[c])
            && u.batches[b] == WithTotals(t.batches[b], Members(u.events, Some(b)))
  {
  }

  lemma AssignKeepsFit(t: Tables, b: BatchId, ids: seq<EventId>)
    requires UniqueIds(t.events) && MembersFit(t) && HeldFits(t, b, ids)
    ensures UniqueIds(Assigned(t, b, ids).events) && MembersFit(Assigned(t, b, ids))
  {
    AssignedRows(t, b, ids);
    forall i | 0 <= i < |t.events| && t.events[i].id in ids ensures Fits(t.events[i], t.batches[b]) {
      ChosenRow(t, b, ids, i);
    }
  }

  lemma AssignKeepsRows(t: Tables, b: BatchId, ids: seq<EventId>, c: BatchId)
    requires b < |t.batches| && c < |t.batches| && b != c
    ensures SameRows(t, Assigned(t, b, ids), c)
  {
    AssignedRows(t, b, ids);
  }

  lemma AssignKeepsSound(w: Database, b: BatchId)
    requires Sound(w) && b in w.holding
    ensures Sound(Step(w, Assign(b)))
  {
    var t := w.tables;
    assert HeldFits(t, b, w.holding[b]);
    AssignKeepsFit(t, b, w.holding[b]);
    forall c | c in w.holding && c != b ensures HeldFits(Assigned(t, b, w.holding[b]), c, w.holding[c]) {
      assert HeldFits(t, c, w.holding[c]);
      AssignKeepsRows(t, b, w.holding[b], c);
      HeldStays(t, Assigned(t, b, w.holding[b]), c, w.holding[c]);
    }
  }

  lemma ChooseKeepsSound(w: Database, b: BatchId, ids: seq<EventId>)
    requires Sound(w)
    ensures Sound(Step(w, Choose(b, ids)))
  {
    var t := w.tables;
    if Transition(t, AddEvents(b, ids)).Ok? {
      forall id | id in ids ensures HasRow(t, b, id) {
        Lifecycle.NamedIsEligible(t, b, ids, id);
        var i :| 0 <= i < |t.events| && t.events[i].id == id && t.events[i].batch.None?;
        ChosenFits(t, b, ids, i);
      }
    }
  }

  /** The other calls leave rows, and held batches, what they are. */
  lemma OtherKeepsRows(w: Database, x: Call, b: BatchId)
    requires b < |w.tables.batches| && w.tables.batches[b].status.Open? && b in w.holding && !Waits(w, x)
    ensures SameRows(w.tables, Batches.Step(w.tables, x), b)
  {
    if !x.Ingest? { OtherRows(w.tables, x); }
    StaysOpen(w, x, b);
  }

  lemma StaysOpen(w: Database, x: Call, b: BatchId)
    requires b < |w.tables.batches| && w.tables.batches[b].status.Open? && b in w.holding && !Waits(w, x)
    ensures b < |Batches.Step(w.tables, x).batches| && Batches.Step(w.tables, x).batches[b].status.Open?
  {
  }

  lemma OtherKeepsFit(t: Tables, x: Call)
    requires UniqueIds(t.events) && MembersFit(t) && !x.AddEvents?
    ensures UniqueIds(Batches.Step(t, x).events) && MembersFit(Batches.Step(t, x))
  {
    var u := Batches.Step(t, x);
    if x.Ingest? {
      if u != t { assert forall i | 0 <= i < |t.events| :: t.events[i] in t.events; }
    } else {
      OtherRows(t, x);
    }
  }

  /** Short of an ingest, the events stay or leave their batch, and batches keep
      their hub and material. */
  lemma OtherRows(t: Tables, x: Call)
    requires !x.AddEvents? && !x.Ingest?
    ensures var u := Batches.Step(t, x);
            && |u.events| == |t.events| && |t.batches| <= |u.batches|
            && (forall i | 0 <= i < |t.events| :: u.events[i] == t.events[i] || u.events[i] == t.events[i].(batch := None))
            && (forall b | 0 <= b < |t.batches| ::
                  u.batches[b].hub == t.batches[b].hub && u.batches[b].material == t.batches[b].material)
  {
  }

  lemma StepKeepsSound(w: Database, a: Action)
    requires Sound(w)
    ensures Sound(Step(w, a))
  {
    match a
    case Choose(b, ids) => ChooseKeepsSound(w, b, ids);
    case Assign(b) => if b in w.holding { AssignKeepsSound(w, b); }
    case Abandon(b) =>
    case Other(x) =>
      if !Waits(w, x) {
        OtherKeepsFit(w.tables, x);
        forall b | b in w.holding ensures HeldFits(Batches.Step(w.tables, x), b, w.holding[b]) {
          OtherKeepsRows(w, x, b);
          HeldStays(w.tables, Batches.Step(w.tables, x), b, w.holding[b]);
        }
      }
  }

  /** Over every interleaving: members are clean and fit their batch, and a held
      batch stays open. */
  lemma {:induction false} RunKeepsSound(w: Database, xs: seq<Action>)
    requires Sound(w)
    ensures Sound(Run(w, xs))
    decreases |xs|
  {
    if xs != [] {
      StepKeepsSound(w, xs[0]);
      RunKeepsSound(Step(w, xs[0]), xs[1..]);
    }
  }

  // ----- when a run is one of serial calls -----

  /** Another batch has the event, or holds it. */
  predicate Claims(w: Database, c: BatchId, id: EventId) {
    Lifecycle.HasMember(w.tables, c, id) || (c in w.holding && id in w.holding[c])
  }

  /** No event is claimed by a batch beside the one it was chosen for. */
  ghost predicate Uncontested(w: Database) {
    forall b, c: BatchId, id | b in w.holding && id in w.holding[b] && Claims(w, c, id) :: b == c
  }

  /** A call that chooses its events names none that another call has chosen. */
  predicate Apart(w: Database, a: Action) {
    a.Choose? ==> forall c, id | c in w.holding && id in w.holding[c] && id in a.ids :: c == a.batch
  }

  ghost predicate ApartRun(w: Database, xs: seq<Action>)
    decreases |xs|
  {
    xs == [] || (Apart(w, xs[0]) && ApartRun(Step(w, xs[0]), xs[1..]))
  }

  /** None of the other calls brings an event into a batch. */
  lemma OtherAddsNone(t: Tables, x: Call, c: BatchId, id: EventId)
    requires !x.AddEvents? && Lifecycle.HasMember(Batches.Step(t, x), c, id)
    ensures Lifecycle.HasMember(t, c, id)
  {
    var u := Batches.Step(t, x);
    var e :| e in u.events && e.id == id && e.batch == Some(c);
    var i :| 0 <= i < |u.events| && u.events[i] == e;
    if i < |t.events| { assert t.events[i] in t.events; }
  }

  lemma AssignAdds(t: Tables, b: BatchId, ids: seq<EventId>, c: BatchId, id: EventId)
    requires b < |t.batches| && Lifecycle.HasMember(Assigned(t, b, ids), c, id)
    ensures Lifecycle.HasMember(t, c, id) || (c == b && id in ids)
  {
    var u := Assigned(t, b, ids);
    AssignedRows(t, b, ids);
    var e :| e in u.events && e.id == id && e.batch == Some(c);
    var i :| 0 <= i < |u.events| && u.events[i] == e;
    assert t.events[i] in t.events;
  }

  /** An event that was just chosen is in no batch. */
  lemma ChosenIsFree(t: Tables, b: BatchId, ids: seq<EventId>, c: BatchId, id: EventId)
    requires UniqueIds(t.events) && Transition(t, AddEvents(b, ids)).Ok? && id in ids
    ensures !Lifecycle.HasMember(t, c, id)
  {
    Lifecycle.NamedIsEligible(t, b, ids, id);
    if Lifecycle.HasMember(t, c, id) {
      var e :| e in t.events && e.id == id && e.batch == Some(c);
      var i :| 0 <= i < |t.events| && t.events[i].id == id && t.events[i].batch.None?;
      BatchesService.OneRow(t.events, e, i);
    }
  }

  lemma ChooseStaysUncontested(w: Database, d: BatchId, ids: seq<EventId>)
    requires Sound(w) && Uncontested(w) && Apart(w, Choose(d, ids))
    requires d !in w.holding && Transition(w.tables, AddEvents(d, ids)).Ok?
    ensures Uncontested(w.(holding := w.holding[d := ids]))
  {
    var u := w.(holding := w.holding[d := ids]);
    forall b, c: BatchId, id | b in u.holding && id in u.holding[b] && Claims(u, c, id) ensures b == c {
      if b == d {
        if Lifecycle.HasMember(w.tables, c, id) { ChosenIsFree(w.tables, d, ids, c, id); }
      } else if c != d || Lifecycle.HasMember(w.tables, c, id) {
        assert Claims(w, c, id);
      }
    }
  }

  /** Nobody claims more than before. */
  lemma FewerClaims(w: Database, u: Database)
    requires Uncontested(w)
    requires forall b | b in u.holding :: b in w.holding && u.holding[b] == w.holding[b]
    requires forall c: BatchId, id | Lifecycle.HasMember(u.tables, c, id) :: Claims(w, c, id)
    ensures Uncontested(u)
  {
    forall b, c: BatchId, id | b in u.holding && id in u.holding[b] && Claims(u, c, id) ensures b == c {
      assert Claims(w, c, id);
    }
  }

  lemma UncontestedStays(w: Database, a: Action)
    requires Sound(w) && Uncontested(w) && Apart(w, a)
    ensures Uncontested(Step(w, a))
  {
    var u := Step(w, a);
    if u != w {
      match a
      case Choose(b, ids) => ChooseStaysUncontested(w, b, ids);
      case Assign(b) =>
        forall c: BatchId, id | Lifecycle.HasMember(u.tables, c, id) ensures Claims(w, c, id) {
          AssignAdds(w.tables, b, w.holding[b], c, id);
        }
        FewerClaims(w, u);
      case Abandon(b) => FewerClaims(w, u);
      case Other(x) =>
        forall c: BatchId, id | Lifecycle.HasMember(u.tables, c, id) ensures Claims(w, c, id) {
          OtherAddsNone(w.tables, x, c, id);
        }
        FewerClaims(w, u);
    }
  }

  /** Uncontested events are still unbatched, so assigning them now is what an
      addEvents call at one moment would do. */
  lemma AssignIsAddEvents(w: Database, b: BatchId)
    requires Sound(w) && Uncontested(w) && b in w.holding
    ensures Step(w, Assign(b)).tables == Batches.Step(w.tables, AddEvents(b, w.holding[b]))
  {
    var t, ids := w.tables, w.holding[b];
    assert HeldFits(t, b, ids);
    forall i: nat | i < |t.events| && t.events[i].id in ids ensures Eligible(t.events[i], t.batches[b]) && Fits(t.events[i], t.batches[b]) {
      ChosenRow(t, b, ids, i);
      if t.events[i].batch.Some? {
        assert t.events[i] in t.events;
        assert Claims(w, t.events[i].batch.value, t.events[i].id);
      }
    }
    AllAreEligible(t, b, ids);
    BatchesService.AddAccepted(t, b, ids);
    BatchesService.AssignIsMove(t.events, ids, t.batches[b], IdSet(ids), Some(b));
  }

  lemma AllAreEligible(t: Tables, b: BatchId, ids: seq<EventId>)
    requires HeldFits(t, b, ids)
    requires forall i: nat | i < |t.events| && t.events[i].id in ids :: Eligible(t.events[i], t.batches[b]) && Fits(t.events[i], t.batches[b])
    ensures AllEligible(t.events, ids, t.batches[b]) && AllOfMaterial(t.events, ids, t.batches[b])
    ensures forall id :: id in IdSet(ids) <==> exists e :: e in t.events && BatchesService.Chosen(e, ids, t.batches[b]) && e.id == id
  {
    forall id | id in ids
      ensures exists e :: e in t.events && BatchesService.Chosen(e, ids, t.batches[b]) && e.id == id
    {
      assert HasRow(t, b, id);
      var i :| 0 <= i < |t.events| && t.events[i].id == id && Fits(t.events[i], t.batches[b]);
      assert t.events[i] in t.events && BatchesService.Chosen(t.events[i], ids, t.batches[b]);
    }
  }

  lemma OneCall(t: Tables, x: Call)
    ensures Batches.Run(t, [x]) == Batches.Step(t, x)
  {
    assert [x][1..] == [];
    assert Batches.Run(Batches.Step(t, x), []) == Batches.Step(t, x);
  }

  lemma StepIsSerial(w: Database, a: Action) returns (calls: seq<Call>)
    requires Sound(w) && Uncontested(w)
    ensures Step(w, a).tables == Batches.Run(w.tables, calls)
  {
    calls := [];
    assert Batches.Run(w.tables, []) == w.tables;
    if a.Assign? && a.batch in w.holding {
      AssignIsAddEvents(w, a.batch);
      calls := [AddEvents(a.batch, w.holding[a.batch])];
      OneCall(w.tables, calls[0]);
    } else if a.Other? && !Waits(w, a.call) {
      calls := [a.call];
      OneCall(w.tables, a.call);
    }
  }

  lemma {:induction false} CallsAppend(t: Tables, xs: seq<Call>, ys: seq<Call>)
    ensures Batches.Run(t, xs + ys) == Batches.Run(Batches.Run(t, xs), ys)
    decreases |xs|
  {
    if xs == [] {
      assert xs + ys == ys;
    } else {
      assert (xs + ys)[1..] == xs[1..] + ys;
      CallsAppend(Batches.Step(t, xs[0]), xs[1..], ys);
    }
  }

  /** Overlapping calls that name no event in common are as good as calls taken one
      after another: whatever holds of every serial run holds of theirs. */
  lemma {:induction false} ApartIsSerial(w: Database, xs: seq<Action>) returns (calls: seq<Call>)
    requires Sound(w) && Uncontested(w) && ApartRun(w, xs)
    ensures Run(w, xs).tables == Batches.Run(w.tables, calls)
    ensures Sound(Run(w, xs)) && Uncontested(Run(w, xs))
    ensures Inv(w.tables) ==> Inv(Run(w, xs).tables)
    decreases |xs|
  {
    if xs == [] {
      calls := [];
      assert Batches.Run(w.tables, []) == w.tables;
    } else {
      var first := StepIsSerial(w, xs[0]);
      StepKeepsSound(w, xs[0]);
      UncontestedStays(w, xs[0]);
      var rest := ApartIsSerial(Step(w, xs[0]), xs[1..]);
      calls := first + rest;
      CallsAppend(w.tables, first, rest);
    }
    if Inv(w.tables) { RunKeepsInv(w.tables, calls); }
  }

  // ----- when sealed membership survives -----

  /** The calls in progress are completed, or not, among any others but further
      addEvents. */
  predicate NoChoice(xs: seq<Action>) {
    forall a | a in xs :: !a.Choose?
  }

  predicate SealedIn(w: Database, b: BatchId) {
    b < |w.tables.batches| && !w.tables.batches[b].status.Open?
  }

  /** However the calls in progress end: once a batch is sealed, nothing but its
      status changes. */
  ghost predicate SealedSurvives(w: Database) {
    forall xs, ys, b: BatchId | NoChoice(xs) && NoChoice(ys) && SealedIn(Run(w, xs), b) ::
      Lifecycle.Frozen(Run(w, xs).tables, Run(Run(w, xs), ys).tables, b)
  }

  lemma {:induction false} NoChoiceIsApart(w: Database, xs: seq<Action>)
    requires NoChoice(xs)
    ensures ApartRun(w, xs)
    decreases |xs|
  {
    if xs != [] {
      assert xs[0] in xs && forall a | a in xs[1..] :: a in xs;
      NoChoiceIsApart(Step(w, xs[0]), xs[1..]);
    }
  }

  lemma UncontestedSurvives(w: Database, xs: seq<Action>, ys: seq<Action>, b: BatchId)
    requires Sound(w) && Uncontested(w) && ApartRun(w, xs) && ApartRun(Run(w, xs), ys) && SealedIn(Run(w, xs), b)
    ensures Lifecycle.Frozen(Run(w, xs).tables, Run(Run(w, xs), ys).tables, b)
  {
    var _ := ApartIsSerial(w, xs);
    var calls := ApartIsSerial(Run(w, xs), ys);
    Lifecycle.SealedNeverChanges(Run(w, xs).tables, calls, b);
  }

  lemma AssignedHas(t: Tables, c: BatchId, ids: seq<EventId>, id: EventId)
    requires c < |t.batches| && HeldFits(t, c, ids)
    requires Lifecycle.HasMember(t, c, id) || id in ids
    ensures Lifecycle.HasMember(Assigned(t, c, ids), c, id)
  {
    var u := Assigned(t, c, ids);
    AssignedRows(t, c, ids);
    if id in ids {
      assert HasRow(t, c, id);
      var i :| 0 <= i < |t.events| && t.events[i].id == id;
      assert u.events[i] in u.events && u.events[i].batch == Some(c);
    } else {
      var e :| e in t.events && e.id == id && e.batch == Some(c);
      var i :| 0 <= i < |t.events| && t.events[i] == e;
      assert u.events[i] in u.events && u.events[i] == e;
    }
  }

  /** The other claimant's assignment, if it is still to come. */
  lemma ClaimantAssigns(w: Database, b: BatchId, c: BatchId, id: EventId)
    requires Sound(w) && b in w.holding && id in w.holding[b] && c != b && Claims(w, c, id)
    ensures var v := Step(w, Assign(c));
            && Sound(v) && b in v.holding && id in v.holding[b]
            && c !in v.holding && Lifecycle.HasMember(v.tables, c, id)
  {
    StepKeepsSound(w, Assign(c));
    if c in w.holding {
      assert HeldFits(w.tables, c, w.holding[c]);
      AssignedHas(w.tables, c, w.holding[c], id);
    }
  }

  /** A batch with members can be sealed. */
  lemma ClaimantSeals(v: Database, c: BatchId, id: EventId, now: int)
    requires Sound(v) && c !in v.holding && Lifecycle.HasMember(v.tables, c, id)
    ensures var u := Step(v, Other(Seal(c, now)));
            Sound(u) && u.holding == v.holding && SealedIn(u, c) && u.tables.events == v.tables.events
  {
    StepKeepsSound(v, Other(Seal(c, now)));
    var t := v.tables;
    var e :| e in t.events && e.id == id && e.batch == Some(c);
    var i :| 0 <= i < |t.events| && t.events[i] == e;
    if t.batches[c].status.Open? { MembersCanBeSealed(t, c, e, now); }
  }

  lemma MembersCanBeSealed(t: Tables, c: BatchId, e: Event, now: int)
    requires MembersFit(t) && c < |t.batches| && t.batches[c].status.Open? && e in t.events && e.batch == Some(c)
    ensures Transition(t, Seal(c, now)).Ok?
  {
    var ordered := Ordered(t.events, c);
    InSort(Members(t.events, Some(c)), EventOrder);
    assert e in ordered;
    forall f | f in ordered ensures !f.quarantined {
      var j :| 0 <= j < |t.events| && t.events[j] == f;
    }
  }

  lemma AssignedElsewhere(t: Tables, b: BatchId, ids: seq<EventId>, c: BatchId, id: EventId)
    requires b < |t.batches| && b != c && id in ids
    ensures !Lifecycle.HasMember(Assigned(t, b, ids), c, id)
  {
    var u := Assigned(t, b, ids);
    AssignedRows(t, b, ids);
    forall e | e in u.events && e.id == id ensures e.batch == Some(b) {
      var i :| 0 <= i < |u.events| && u.events[i] == e;
    }
  }

  lemma MembersDiffer(t: Tables, u: Tables, c: BatchId, id: EventId)
    requires Lifecycle.HasMember(t, c, id) && !Lifecycle.HasMember(u, c, id)
    ensures Members(u.events, Some(c)) != Members(t.events, Some(c))
  {
    var e :| e in t.events && e.id == id && e.batch == Some(c);
    assert e in Members(t.events, Some(c)) && e !in Members(u.events, Some(c));
  }

  /** The late assignment takes the event away. */
  lemma AssignTakes(u: Database, b: BatchId, c: BatchId, id: EventId)
    requires Sound(u) && b in u.holding && id in u.holding[b] && b != c && Lifecycle.HasMember(u.tables, c, id)
    ensures var v := Step(u, Assign(b)).tables;
            && !Lifecycle.HasMember(v, c, id) && Lifecycle.HasMember(v, b, id)
            && Members(v.events, Some(c)) != Members(u.tables.events, Some(c))
  {
    assert HeldFits(u.tables, b, u.holding[b]);
    AssignedElsewhere(u.tables, b, u.holding[b], c, id);
    AssignedHas(u.tables, b, u.holding[b], id);
    MembersDiffer(u.tables, Step(u, Assign(b)).tables, c, id);
  }

  lemma RunOfTwo(w: Database, a: Action, b: Action)
    ensures Run(w, [a, b]) == Step(Step(w, a), b)
  {
    assert [a, b][1..] == [b];
    RunOfOne(Step(w, a), b);
  }

  lemma RunOfOne(w: Database, a: Action)
    ensures Run(w, [a]) == Step(w, a)
  {
    assert [a][1..] == [];
    assert Run(Step(w, a), []) == Step(w, a);
  }

  /** A contested event: its claimant is sealed with it, and loses it. */
  lemma ContestedIsLost(w: Database, b: BatchId, c: BatchId, id: EventId)
    requires Sound(w) && b in w.holding && id in w.holding[b] && c != b && Claims(w, c, id)
    ensures var u := Run(w, [Assign(c), Other(Seal(c, 0))]);
            && SealedIn(u, c) && Lifecycle.HasMember(u.tables, c, id)
            && !Lifecycle.Frozen(u.tables, Run(u, [Assign(b)]).tables, c)
  {
    RunOfTwo(w, Assign(c), Other(Seal(c, 0)));
    ClaimantAssigns(w, b, c, id);
    var v := Step(w, Assign(c));
    ClaimantSeals(v, c, id, 0);
    var u := Step(v, Other(Seal(c, 0)));
    RunOfOne(u, Assign(b));
    AssignTakes(u, b, c, id);
  }

  lemma UncontestedIsSafe(w: Database)
    requires Sound(w) && Uncontested(w)
    ensures SealedSurvives(w)
  {
    forall xs, ys, b: BatchId | NoChoice(xs) && NoChoice(ys) && SealedIn(Run(w, xs), b)
      ensures Lifecycle.Frozen(Run(w, xs).tables, Run(Run(w, xs), ys).tables, b)
    {
      NoChoiceIsApart(w, xs);
      NoChoiceIsApart(Run(w, xs), ys);
      UncontestedSurvives(w, xs, ys, b);
    }
  }

  lemma ContestedIsUnsafe(w: Database, b: BatchId, c: BatchId, id: EventId)
    requires Sound(w) && b in w.holding && id in w.holding[b] && Claims(w, c, id) && b != c
    ensures !SealedSurvives(w)
  {
    ContestedIsLost(w, b, c, id);
    NotSurviving(w, [Assign(c), Other(Seal(c, 0))], [Assign(b)], c);
  }

  /** However the addEvents calls in progress end, sealed batches stay as they
      were if and only if no chosen event is claimed by a second batch. */
  lemma SealedSurvivesExactlyWhen(w: Database)
    requires Sound(w)
    ensures SealedSurvives(w) <==> Uncontested(w)
  {
    if Uncontested(w) {
      UncontestedIsSafe(w);
    } else {
      var b, c: BatchId, id :| b in w.holding && id in w.holding[b] && Claims(w, c, id) && b != c;
      ContestedIsUnsafe(w, b, c, id);
    }
  }

  lemma NotSurviving(w: Database, xs: seq<Action>, ys: seq<Action>, b: BatchId)
    requires NoChoice(xs) && NoChoice(ys) && SealedIn(Run(w, xs), b)
    requires !Lifecycle.Frozen(Run(w, xs).tables, Run(Run(w, xs), ys).tables, b)
    ensures !SealedSurvives(w)
  {
  }

  /** So it is safe to begin one more addEvents if and only if it names no event
      that a call in progress has chosen. */
  lemma ChoosingIsSafeExactlyWhenApart(w: Database, b: BatchId, ids: seq<EventId>)
    requires Sound(w) && Uncontested(w) && b !in w.holding && Transition(w.tables, AddEvents(b, ids)).Ok?
    ensures SealedSurvives(Step(w, Choose(b, ids))) <==> Apart(w, Choose(b, ids))
  {
    var u := Step(w, Choose(b, ids));
    ChooseKeepsSound(w, b, ids);
    SealedSurvivesExactlyWhen(u);
    if Apart(w, Choose(b, ids)) {
      UncontestedStays(w, Choose(b, ids));
    } else {
      var c, id :| c in w.holding && id in w.holding[c] && id in ids && c != b;
      assert Claims(u, c, id) && id in u.holding[b];
    }
  }

  /** Two calls choose one event; the batch that got it first is sealed. */
  function SealedAmidst(t: Tables, b: BatchId, ids: seq<EventId>, c: BatchId, jds: seq<EventId>, now: int): Database {
    var chosen := Step(Step(Database(t, map[]), Choose(b, ids)), Choose(c, jds));
    Step(Step(chosen, Assign(c)), Other(Seal(c, now)))
  }

  lemma FirstAssigns(t: Tables, c: BatchId, jds: seq<EventId>)
    requires Inv(t) && Transition(t, AddEvents(c, jds)).Ok?
    ensures c < |t.batches| && Assigned(t, c, jds) == Batches.Step(t, AddEvents(c, jds))
  {
    var w := Database(t, map[]);
    ChooseKeepsSound(w, c, jds);
    UncontestedStays(w, Choose(c, jds));
    AssignIsAddEvents(Step(w, Choose(c, jds)), c);
  }

  lemma BothChoose(t: Tables, b: BatchId, ids: seq<EventId>, c: BatchId, jds: seq<EventId>)
    requires Inv(t) && b != c && Transition(t, AddEvents(b, ids)).Ok? && Transition(t, AddEvents(c, jds)).Ok?
    ensures var w := Step(Step(Database(t, map[]), Choose(b, ids)), Choose(c, jds));
            w == Database(t, map[b := ids, c := jds]) && Sound(w)
  {
    ChooseKeepsSound(Database(t, map[]), b, ids);
    ChooseKeepsSound(Step(Database(t, map[]), Choose(b, ids)), c, jds);
  }

  lemma FirstKeepsInv(w: Database, c: BatchId)
    requires Inv(w.tables) && c in w.holding && Transition(w.tables, AddEvents(c, w.holding[c])).Ok?
    ensures Inv(Step(w, Assign(c)).tables)
  {
    FirstAssigns(w.tables, c, w.holding[c]);
    Batches.StepKeepsInv(w.tables, AddEvents(c, w.holding[c]));
  }

  lemma OtherKeepsInv(w: Database, x: Call)
    requires Inv(w.tables)
    ensures Inv(Step(w, Other(x)).tables)
  {
    Batches.StepKeepsInv(w.tables, x);
  }

  /** The first to assign and seal does so as if it were alone. */
  lemma FirstIsSealed(w: Database, b: BatchId, c: BatchId, id: EventId, now: int)
    requires Sound(w) && Inv(w.tables) && b != c && b in w.holding && c in w.holding
    requires id in w.holding[b] && id in w.holding[c] && Transition(w.tables, AddEvents(c, w.holding[c])).Ok?
    ensures var u := Step(Step(w, Assign(c)), Other(Seal(c, now)));
            && Sound(u) && Inv(u.tables) && SealedIn(u, c) && Lifecycle.HasMember(u.tables, c, id)
            && b in u.holding && id in u.holding[b]
  {
    FirstKeepsInv(w, c);
    ClaimantAssigns(w, b, c, id);
    var first := Step(w, Assign(c));
    ClaimantSeals(first, c, id, now);
    OtherKeepsInv(first, Seal(c, now));
  }

  lemma TakenFromSealed(u: Database, b: BatchId, c: BatchId, id: EventId)
    requires Sound(u) && Inv(u.tables) && SealedIn(u, c) && Lifecycle.HasMember(u.tables, c, id)
    requires b != c && b in u.holding && id in u.holding[b]
    ensures var v := Step(u, Assign(b)).tables;
            && Lifecycle.VerifyEvent(u.tables, c, id).Ok? && Lifecycle.VerifyEvent(u.tables, c, id).value.proofValid
            && Lifecycle.VerifyEvent(v, c, id) == Err(EventNotInBatch)
            && |v.batches| == |u.tables.batches| && v.batches[c] == u.tables.batches[c] && Lifecycle.HasMember(v, b, id)
  {
    Lifecycle.MembersVerify(u.tables, c, id);
    assert BatchFits(u.tables.batches[c], Members(u.tables.events, Some(c)));
    assert HeldFits(u.tables, b, u.holding[b]);
    AssignTakes(u, b, c, id);
    AssignedRows(u.tables, b, u.holding[b]);
    Lifecycle.FoundExactlyMembers(Step(u, Assign(b)).tables, c, id);
  }

  /** Two calls that choose one event, from any state in which each would be
      accepted: the event is provable against the batch that was sealed first,
      until the other call assigns it; then it is not in that batch, whose row
      still counts it, and is in the other batch. */
  lemma OverlapTakesSealedMember(t: Tables, b: BatchId, ids: seq<EventId>, c: BatchId, jds: seq<EventId>, id: EventId, now: int)
    requires Inv(t) && b != c && id in ids && id in jds
    requires Transition(t, AddEvents(b, ids)).Ok? && Transition(t, AddEvents(c, jds)).Ok?
    ensures var u := SealedAmidst(t, b, ids, c, jds, now); var v := Step(u, Assign(b)).tables;
            && Lifecycle.VerifyEvent(u.tables, c, id).Ok? && Lifecycle.VerifyEvent(u.tables, c, id).value.proofValid
            && Lifecycle.VerifyEvent(v, c, id) == Err(EventNotInBatch)
            && c < |v.batches| == |u.tables.batches| && v.batches[c] == u.tables.batches[c]
            && Lifecycle.HasMember(v, b, id)
  {
    var w := Step(Step(Database(t, map[]), Choose(b, ids)), Choose(c, jds));
    BothChoose(t, b, ids, c, jds);
    FirstIsSealed(w, b, c, id, now);
    TakenFromSealed(SealedAmidst(t, b, ids, c, jds, now), b, c, id);
  }

  // ----- the halves of one call -----

  lemma ChoosesAlone(t: Tables, b: BatchId, ids: seq<EventId>)
    ensures Step(Database(t, map[]), Choose(b, ids))
         == if Transition(t, AddEvents(b, ids)).Ok? then Database(t, map[b := ids]) else Database(t, map[])
  {
  }

  lemma AssignsAlone(t: Tables, b: BatchId, ids: seq<EventId>)
    requires b < |t.batches|
    ensures Step(Database(t, map[b := ids]), Assign(b)) == Database(Assigned(t, b, ids), map[])
  {
    assert map[b := ids] - {b} == map[];
  }

  /** With nobody else about, the two halves are one accepted call, and a refused one
      chooses nothing. */
  lemma HalvesMakeOneCall(t: Tables, b: BatchId, ids: seq<EventId>)
    requires Inv(t)
    ensures Transition(t, AddEvents(b, ids)).Ok? ==>
              Step(Step(Database(t, map[]), Choose(b, ids)), Assign(b)) == Database(Batches.Step(t, AddEvents(b, ids)), map[])
    ensures Transition(t, AddEvents(b, ids)).Err? ==> Step(Database(t, map[]), Choose(b, ids)) == Database(t, map[])
  {
    ChoosesAlone(t, b, ids);
    if Transition(t, AddEvents(b, ids)).Ok? {
      FirstAssigns(t, b, ids);
      AssignsAlone(t, b, ids);
    }
  }

  /** A held batch keeps out every other call that needs its lock, until the call
      that holds it assigns or is rolled back; the latter writes nothing. */
  lemma LockHolds(w: Database, b: BatchId, ids: seq<EventId>, id: EventId, now: int)
    requires b in w.holding
    ensures Step(w, Choose(b, ids)) == Step(w, Other(Seal(b, now))) == Step(w, Other(RemoveEvent(b, id))) == w
    ensures Step(w, Abandon(b)) == Database(w.tables, w.holding - {b})
    ensures b !in Step(w, Abandon(b)).holding && (b < |w.tables.batches| ==> b !in Step(w, Assign(b)).holding)
  {
  }
}
