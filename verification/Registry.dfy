/**
 The on-chain batch registry: an admin, an allow-list of issuers, and batches
 that are registered once and credited once.

 The specification is the published log. A call is either refused, or publishes
 one event; storage after any run is the replay of the log. The class below
 writes its fields as the contract writes its storage entries.
 */
module Registry {
  import opened Wrappers

  type Address = nat
  type BatchId = nat
  type Bytes32 = nat
  type U64 = x: int | 0 <= x < 0x1_0000_0000_0000_0000
  type U32 = x: int | 0 <= x < 0x1_0000_0000

  datatype BatchRecord = BatchRecord(
    root: Bytes32,
    weight: U64,
    issuer: Address,
    registeredLedger: U32,
    credited: bool,
    creditedLedger: Option<U32>)

  datatype Store = Store(admin: Option<Address>, issuers: set<Address>, batches: map<BatchId, BatchRecord>)

  datatype Event =
    | Initialized(newAdmin: Address)
    | IssuerAdded(issuer: Address)
    | IssuerRemoved(issuer: Address)
    | BatchRegistered(id: BatchId, issuer: Address, root: Bytes32, weight: U64, ledger: U32)
    | BatchCredited(id: BatchId, issuer: Address, weight: U64, ledger: U32)

  datatype Error =
    | AlreadyInitialized
    | NotInitialized
    | NotAuthorized
    | BatchAlreadyRegistered
    | BatchNotFound
    | AlreadyCredited
    | InvalidWeight
    | IssuerAlreadyAdded
    | IssuerNotFound
    | MissingSignature   // the host's own trap when require_auth fails

  datatype Call =
    | Initialize(admin: Address)
    | AddIssuer(issuer: Address)
    | RemoveIssuer(issuer: Address)
    | Register(id: BatchId, root: Bytes32, weight: U64, issuer: Address)
    | MarkCredited(id: BatchId, issuer: Address)

  /** What the network supplies: the ledger sequence and who signed. */
  datatype Env = Env(ledger: U32, signers: set<Address>)

  const EMPTY := Store(None, {}, map[])

  // ----- the log determines storage -----

  function Apply(s: Store, e: Event): Store {
    match e
    case Initialized(a) => s.(admin := Some(a))
    case IssuerAdded(a) => s.(issuers := s.issuers + {a})
    case IssuerRemoved(a) => s.(issuers := s.issuers - {a})
    case BatchRegistered(id, issuer, root, weight, ledger) =>
      s.(batches := s.batches[id := BatchRecord(root, weight, issuer, ledger, false, None)])
    case BatchCredited(id, issuer, weight, ledger) =>
      if id !in s.batches then s
      else s.(batches := s.batches[id := s.batches[id].(credited := true, creditedLedger := Some(ledger))])
  }

  function Replay(log: seq<Event>): Store {
    if log == [] then EMPTY else Apply(Replay(log[..|log| - 1]), log[|log| - 1])
  }

  function IssuerGate(s: Store, issuer: Address, env: Env): Option<Error> {
    if s.admin.None? then Some(NotInitialized)
    else if issuer !in env.signers then Some(MissingSignature)
    else if issuer !in s.issuers then Some(NotAuthorized)
    else None
  }

  function AdminGate(s: Store, env: Env): Option<Error> {
    if s.admin.None? then Some(NotInitialized)
    else if s.admin.value !in env.signers then Some(MissingSignature)
    else None
  }

  /** The event a call publishes, or why it is refused. */
  function Outcome(s: Store, c: Call, env: Env): Result<Event, Error> {
    match c
    case Initialize(a) =>
      if s.admin.Some? then Err(AlreadyInitialized) else Ok(Initialized(a))
    case AddIssuer(a) =>
      if AdminGate(s, env).Some? then Err(AdminGate(s, env).value)
      else if a in s.issuers then Err(IssuerAlreadyAdded)
      else Ok(IssuerAdded(a))
    case RemoveIssuer(a) =>
      if AdminGate(s, env).Some? then Err(AdminGate(s, env).value)
      else if a !in s.issuers then Err(IssuerNotFound)
      else Ok(IssuerRemoved(a))
    case Register(id, root, weight, issuer) =>
      if IssuerGate(s, issuer, env).Some? then Err(IssuerGate(s, issuer, env).value)
      else if weight == 0 then Err(InvalidWeight)
      else if id in s.batches then Err(BatchAlreadyRegistered)
      else Ok(BatchRegistered(id, issuer, root, weight, env.ledger))
    case MarkCredited(id, issuer) =>
      if IssuerGate(s, issuer, env).Some? then Err(IssuerGate(s, issuer, env).value)
      else if id !in s.batches then Err(BatchNotFound)
      else if s.batches[id].credited then Err(AlreadyCredited)
      else Ok(BatchCredited(id, issuer, s.batches[id].weight, env.ledger))
  }

  datatype Machine = Machine(store: Store, log: seq<Event>)

  function Step(m: Machine, c: Call, env: Env): Machine {
    var o := Outcome(m.store, c, env);
    if o.Err? then m else Machine(Apply(m.store, o.value), m.log + [o.value])
  }

  function Run(m: Machine, calls: seq<(Call, Env)>): Machine
    decreases |calls|
  {
    if calls == [] then m else Run(Step(m, calls[0].0, calls[0].1), calls[1..])
  }

  const START := Machine(EMPTY, [])

  // ----- which logs there are -----

  /** What storage must look like just before an event is published. */
  predicate Admissible(s: Store, e: Event) {
    match e
    case Initialized(_) => s.admin.None?
    case IssuerAdded(a) => s.admin.Some? && a !in s.issuers
    case IssuerRemoved(a) => s.admin.Some? && a in s.issuers
    case BatchRegistered(id, issuer, _, weight, _) =>
      s.admin.Some? && issuer in s.issuers && weight > 0 && id !in s.batches
    case BatchCredited(id, issuer, weight, _) =>
      && s.admin.Some? && issuer in s.issuers
      && id in s.batches && !s.batches[id].credited && s.batches[id].weight == weight
  }

  predicate ValidLog(log: seq<Event>) {
    log == [] || (ValidLog(log[..|log| - 1]) && Admissible(Replay(log[..|log| - 1]), log[|log| - 1]))
  }

  lemma Extend(log: seq<Event>, e: Event)
    ensures Replay(log + [e]) == Apply(Replay(log), e)
    ensures ValidLog(log + [e]) <==> ValidLog(log) && Admissible(Replay(log), e)
  {
    assert (log + [e])[..|log|] == log;
  }

  lemma StepReplays(m: Machine, c: Call, env: Env)
    requires m.store == Replay(m.log) && ValidLog(m.log)
    ensures var r := Step(m, c, env); r.store == Replay(r.log) && ValidLog(r.log) && m.log <= r.log
  {
    var o := Outcome(m.store, c, env);
    if o.Ok? { Extend(m.log, o.value); }
  }

  /** Storage is the replay of the log after every run, and each entry of the
      log was admissible when it was published. */
  lemma {:induction false} RunReplays(m: Machine, calls: seq<(Call, Env)>)
    requires m.store == Replay(m.log) && ValidLog(m.log)
    ensures var r := Run(m, calls); r.store == Replay(r.log) && ValidLog(r.log) && m.log <= r.log
    decreases |calls|
  {
    if calls != [] {
      StepReplays(m, calls[0].0, calls[0].1);
      RunReplays(Step(m, calls[0].0, calls[0].1), calls[1..]);
    }
  }

  /** No call but initialize is accepted without a signature: the admin's for
      the allow-list, the named issuer's for batches. */
  lemma AcceptedOnlyWhenSigned(s: Store, c: Call, env: Env)
    requires Outcome(s, c, env).Ok? && !c.Initialize?
    ensures s.admin.Some?
    ensures (if c.Register? || c.MarkCredited? then c.issuer else s.admin.value) in env.signers
    ensures Admissible(s, Outcome(s, c, env).value)
  {
  }

  /** The last word of the log on this issuer was to add it. */
  predicate Listed(log: seq<Event>, issuer: Address) {
    exists i :: 0 <= i < |log| && log[i] == IssuerAdded(issuer)
             && forall j | i < j < |log| :: log[j] != IssuerRemoved(issuer)
  }

  lemma ListedAppend(log: seq<Event>, e: Event, issuer: Address)
    ensures Listed(log + [e], issuer) <==> e == IssuerAdded(issuer) || (Listed(log, issuer) && e != IssuerRemoved(issuer))
  {
    var all := log + [e];
    if e == IssuerAdded(issuer) {
      assert all[|log|] == e;
    } else if Listed(log, issuer) && e != IssuerRemoved(issuer) {
      var i :| 0 <= i < |log| && log[i] == IssuerAdded(issuer) && forall j | i < j < |log| :: log[j] != IssuerRemoved(issuer);
      assert all[i] == IssuerAdded(issuer) && forall j | i < j < |all| :: all[j] != IssuerRemoved(issuer);
    }
    if Listed(all, issuer) {
      var i :| 0 <= i < |all| && all[i] == IssuerAdded(issuer) && forall j | i < j < |all| :: all[j] != IssuerRemoved(issuer);
      if i < |log| {
        assert all[|log|] == e;
        assert log[i] == IssuerAdded(issuer) && forall j | i < j < |log| :: log[j] == all[j];
      }
    }
  }

  /** The allow-list is what the published additions and removals say. */
  lemma {:induction false} AllowListFromLog(log: seq<Event>, issuer: Address)
    ensures issuer in Replay(log).issuers <==> Listed(log, issuer)
  {
    if log != [] {
      var before, e := log[..|log| - 1], log[|log| - 1];
      AllowListFromLog(before, issuer);
      ListedAppend(before, e, issuer);
      assert log == before + [e];
    }
  }

  lemma {:induction false} AdminFromLog(log: seq<Event>, admin: Address)
    requires ValidLog(log)
    ensures Replay(log).admin == Some(admin) <==> Initialized(admin) in log
    ensures Replay(log).admin.None? ==> log == []
  {
    if log != [] {
      var before, e := log[..|log| - 1], log[|log| - 1];
      assert log == before + [e];
      AdminFromLog(before, admin);
      if e.Initialized? { assert before == []; }
    }
  }

  /** After every run the admin gate lets a caller through exactly when the admin
      that the log announced has signed. */
  lemma AdminGateFromLog(log: seq<Event>, env: Env)
    requires ValidLog(log)
    ensures AdminGate(Replay(log), env).None? <==> exists a :: a in env.signers && Initialized(a) in log
  {
    var s := Replay(log);
    if s.admin.Some? { AdminFromLog(log, s.admin.value); }
    forall a | a in env.signers && Initialized(a) in log ensures s.admin == Some(a) {
      AdminFromLog(log, a);
    }
  }

  /** And the issuer gate exactly when the contract was initialised, the issuer
      has signed, and the log's last word on it was to add it. */
  lemma IssuerGateFromLog(log: seq<Event>, issuer: Address, env: Env)
    requires ValidLog(log)
    ensures IssuerGate(Replay(log), issuer, env).None?
       <==> log != [] && issuer in env.signers && Listed(log, issuer)
  {
    AllowListFromLog(log, issuer);
    AdminFromLog(log, issuer);
  }

  /** The call that publishes an admissible event. */
  function CallFor(e: Event): Call {
    match e
    case Initialized(a) => Initialize(a)
    case IssuerAdded(a) => AddIssuer(a)
    case IssuerRemoved(a) => RemoveIssuer(a)
    case BatchRegistered(id, issuer, root, weight, _) => Register(id, root, weight, issuer)
    case BatchCredited(id, issuer, _, _) => MarkCredited(id, issuer)
  }

  function EnvFor(s: Store, e: Event): Env {
    var signer := if e.BatchRegistered? || e.BatchCredited? then {e.issuer}
                  else if s.admin.Some? then {s.admin.value} else {};
    Env(if e.BatchRegistered? || e.BatchCredited? then e.ledger else 0, signer)
  }

  lemma {:induction false} RunAppend(m: Machine, a: seq<(Call, Env)>, b: seq<(Call, Env)>)
    ensures Run(m, a + b) == Run(Run(m, a), b)
    decreases |a|
  {
    if a == [] {
      assert a + b == b;
    } else {
      assert (a + b)[1..] == a[1..] + b;
      RunAppend(Step(m, a[0].0, a[0].1), a[1..], b);
    }
  }

  lemma {:induction false} ValidLogHasRun(log: seq<Event>) returns (calls: seq<(Call, Env)>)
    requires ValidLog(log)
    ensures Run(START, calls).log == log
  {
    if log == [] {
      calls := [];
    } else {
      var before, e := log[..|log| - 1], log[|log| - 1];
      var earlier := ValidLogHasRun(before);
      RunReplays(START, earlier);
      var m := Run(START, earlier);
      var last := (CallFor(e), EnvFor(m.store, e));
      assert Outcome(m.store, last.0, last.1) == Ok(e);
      calls := earlier + [last];
      RunAppend(START, earlier, [last]);
      assert [last][1..] == [];
      assert Run(m, [last]) == Run(Step(m, last.0, last.1), []);
      assert log == before + [e];
    }
  }

  /** A log is the log of some run exactly when every entry was admissible. */
  lemma LogsAreValidLogs(log: seq<Event>)
    ensures (exists calls :: Run(START, calls).log == log) <==> ValidLog(log)
  {
    if ValidLog(log) {
      var calls := ValidLogHasRun(log);
    }
    forall calls | Run(START, calls).log == log ensures ValidLog(log) {
      RunReplays(START, calls);
    }
  }

  // ----- no double anchoring, no double counting -----

  predicate Registers(e: Event, id: BatchId) {
    e.BatchRegistered? && e.id == id
  }

  predicate Credits(e: Event, id: BatchId) {
    e.BatchCredited? && e.id == id
  }

  function CountRegistered(log: seq<Event>, id: BatchId): nat {
    if log == [] then 0
    else CountRegistered(log[..|log| - 1], id) + if Registers(log[|log| - 1], id) then 1 else 0
  }

  function CountCredited(log: seq<Event>, id: BatchId): nat {
    if log == [] then 0
    else CountCredited(log[..|log| - 1], id) + if Credits(log[|log| - 1], id) then 1 else 0
  }

  /** A batch is in storage exactly when it was registered, and then once; it is
      credited exactly when a crediting was published, and then once; and the
      flag and the stored ledger agree. */
  lemma {:induction false} OnceEach(log: seq<Event>, id: BatchId)
    requires ValidLog(log)
    ensures var bs := Replay(log).batches;
            && CountRegistered(log, id) == (if id in bs then 1 else 0)
            && CountCredited(log, id) == (if id in bs && bs[id].credited then 1 else 0)
            && (id in bs ==> (bs[id].credited <==> bs[id].creditedLedger.Some?) && bs[id].weight > 0)
  {
    if log != [] { OnceEach(log[..|log| - 1], id); }
  }

  predicate NeverCredited(log: seq<Event>, id: BatchId) {
    forall e | e in log :: !Credits(e, id)
  }

  predicate NeverRegistered(log: seq<Event>, id: BatchId) {
    forall e | e in log :: !Registers(e, id)
  }

  /** What the log says of a batch that is stored as r. */
  predicate RecordedAs(log: seq<Event>, id: BatchId, r: BatchRecord) {
    && BatchRegistered(id, r.issuer, r.root, r.weight, r.registeredLedger) in log
    && (forall e | e in log && Registers(e, id) :: e == BatchRegistered(id, r.issuer, r.root, r.weight, r.registeredLedger))
    && (if r.credited then
          && r.creditedLedger.Some?
          && (exists e :: e in log && Credits(e, id))
          && (forall e | e in log && Credits(e, id) :: e.ledger == r.creditedLedger.value && e.weight == r.weight)
        else NeverCredited(log, id) && r.creditedLedger.None?)
  }

  lemma InAppended(log: seq<Event>, last: Event)
    ensures forall e :: e in log + [last] <==> e in log || e == last
  {
  }

  lemma RegisteringRecords(before: seq<Event>, e: Event)
    requires e.BatchRegistered? && NeverRegistered(before, e.id) && NeverCredited(before, e.id)
    ensures RecordedAs(before + [e], e.id, BatchRecord(e.root, e.weight, e.issuer, e.ledger, false, None))
  {
    InAppended(before, e);
  }

  lemma CreditingRecords(before: seq<Event>, e: Event, r: BatchRecord)
    requires e.BatchCredited? && RecordedAs(before, e.id, r) && !r.credited && r.weight == e.weight
    ensures RecordedAs(before + [e], e.id, r.(credited := true, creditedLedger := Some(e.ledger)))
  {
    InAppended(before, e);
    assert e in before + [e] && Credits(e, e.id);
  }

  lemma OthersKeepRecord(before: seq<Event>, e: Event, id: BatchId, r: BatchRecord)
    requires RecordedAs(before, id, r) && !Registers(e, id) && !Credits(e, id)
    ensures RecordedAs(before + [e], id, r)
  {
    InAppended(before, e);
    if r.credited {
      var c :| c in before && Credits(c, id);
      assert c in before + [e];
    }
  }

  /** Every stored batch is what its registration and its crediting published,
      field by field, and a batch that is not stored was in neither. */
  lemma {:induction false} StorageFromLog(log: seq<Event>, id: BatchId)
    requires ValidLog(log)
    ensures id in Replay(log).batches ==> RecordedAs(log, id, Replay(log).batches[id])
    ensures id !in Replay(log).batches ==> NeverRegistered(log, id) && NeverCredited(log, id)
  {
    if log != [] {
      var before, e := log[..|log| - 1], log[|log| - 1];
      assert log == before + [e];
      StorageFromLog(before, id);
      InAppended(before, e);
      var was := Replay(before).batches;
      if Registers(e, id) {
        RegisteringRecords(before, e);
      } else if Credits(e, id) {
        CreditingRecords(before, e, was[id]);
      } else if id in was {
        OthersKeepRecord(before, e, id, was[id]);
      }
    }
  }

  lemma RecordedOnce(log: seq<Event>, id: BatchId, r: BatchRecord, q: BatchRecord)
    requires RecordedAs(log, id, r) && RecordedAs(log, id, q)
    ensures r == q
  {
  }

  /** After every run a batch is stored as r if and only if the log registered it
      with r's root, weight, issuer and ledger, and credited it in r's crediting
      ledger, or not at all. */
  lemma StoredExactlyAsPublished(calls: seq<(Call, Env)>, id: BatchId, r: BatchRecord)
    ensures var m := Run(START, calls);
            (id in m.store.batches && m.store.batches[id] == r) <==> RecordedAs(m.log, id, r)
  {
    RunReplays(START, calls);
    var m := Run(START, calls);
    StorageFromLog(m.log, id);
    if id in m.store.batches && RecordedAs(m.log, id, r) { RecordedOnce(m.log, id, r, m.store.batches[id]); }
  }

  /** A batch call by a signed, listed issuer of an initialised contract. */
  predicate MayWrite(s: Store, issuer: Address, env: Env) {
    s.admin.Some? && issuer in env.signers && issuer in s.issuers
  }

  predicate AdminSigned(s: Store, env: Env) {
    s.admin.Some? && s.admin.value in env.signers
  }

  /** Exactly which calls are accepted, and that each publishes its own arguments
      and the ledger it ran in. */
  lemma AcceptedExactlyWhen(s: Store, env: Env, id: BatchId, root: Bytes32, weight: U64, a: Address, e: Event)
    ensures Outcome(s, Initialize(a), env) == Ok(e) <==> s.admin.None? && e == Initialized(a)
    ensures Outcome(s, AddIssuer(a), env) == Ok(e) <==> AdminSigned(s, env) && a !in s.issuers && e == IssuerAdded(a)
    ensures Outcome(s, RemoveIssuer(a), env) == Ok(e) <==> AdminSigned(s, env) && a in s.issuers && e == IssuerRemoved(a)
    ensures Outcome(s, Register(id, root, weight, a), env) == Ok(e)
       <==> (MayWrite(s, a, env) && weight > 0 && id !in s.batches && e == BatchRegistered(id, a, root, weight, env.ledger))
    ensures Outcome(s, MarkCredited(id, a), env) == Ok(e)
       <==> (MayWrite(s, a, env) && id in s.batches && !s.batches[id].credited
             && e == BatchCredited(id, a, s.batches[id].weight, env.ledger))
  {
  }

  /** Why a batch call is refused; the first reason that applies is given. */
  lemma RefusalReasons(s: Store, env: Env, id: BatchId, root: Bytes32, weight: U64, a: Address)
    requires !MayWrite(s, a, env) || weight == 0 || id in s.batches
    ensures Outcome(s, Register(id, root, weight, a), env)
         == Err(if s.admin.None? then NotInitialized else if a !in env.signers then MissingSignature
                else if a !in s.issuers then NotAuthorized
                else if weight == 0 then InvalidWeight else BatchAlreadyRegistered)
    ensures !(MayWrite(s, a, env) && id in s.batches && !s.batches[id].credited) ==>
              (Outcome(s, MarkCredited(id, a), env)
            == Err(if s.admin.None? then NotInitialized else if a !in env.signers then MissingSignature
                   else if a !in s.issuers then NotAuthorized
                   else if id !in s.batches then BatchNotFound else AlreadyCredited))
  {
  }

  lemma AdminRefusalReasons(s: Store, env: Env, a: Address)
    ensures s.admin.Some? ==> Outcome(s, Initialize(a), env) == Err(AlreadyInitialized)
    ensures !AdminSigned(s, env) ==>
              (Outcome(s, AddIssuer(a), env) == Outcome(s, RemoveIssuer(a), env)
            == Err(if s.admin.None? then NotInitialized else MissingSignature))
    ensures AdminSigned(s, env) && a in s.issuers ==> Outcome(s, AddIssuer(a), env) == Err(IssuerAlreadyAdded)
    ensures AdminSigned(s, env) && a !in s.issuers ==> Outcome(s, RemoveIssuer(a), env) == Err(IssuerNotFound)
  {
  }

  /** What later calls cannot change about a batch. */
  predicate Preserved(before: Store, after: Store) {
    forall id | id in before.batches ::
      && id in after.batches
      && after.batches[id].root == before.batches[id].root
      && after.batches[id].weight == before.batches[id].weight
      && after.batches[id].issuer == before.batches[id].issuer
      && after.batches[id].registeredLedger == before.batches[id].registeredLedger
      && (before.batches[id].credited ==> after.batches[id] == before.batches[id])
  }

  /** Over every run a registered batch keeps its root, weight, issuer and
      ledger, and a credited one is never written again; revoking an issuer
      erases nothing. */
  lemma {:induction false} RunPreserves(m: Machine, calls: seq<(Call, Env)>)
    ensures Preserved(m.store, Run(m, calls).store)
    ensures m.store.admin.Some? ==> Run(m, calls).store.admin == m.store.admin
    decreases |calls|
  {
    if calls != [] {
      var n := Step(m, calls[0].0, calls[0].1);
      assert Preserved(m.store, n.store);
      RunPreserves(n, calls[1..]);
    }
  }

  function RegisteredWeight(log: seq<Event>): nat {
    if log == [] then 0
    else RegisteredWeight(log[..|log| - 1]) + if log[|log| - 1].BatchRegistered? then log[|log| - 1].weight else 0
  }

  function CreditedWeight(log: seq<Event>): nat {
    if log == [] then 0
    else CreditedWeight(log[..|log| - 1]) + if log[|log| - 1].BatchCredited? then log[|log| - 1].weight else 0
  }

  /** Weight registered in the log for batches outside `credited`. */
  function Outstanding(log: seq<Event>, credited: set<BatchId>): nat {
    if log == [] then 0
    else
      var e := log[|log| - 1];
      Outstanding(log[..|log| - 1], credited) + if e.BatchRegistered? && e.id !in credited then e.weight else 0
  }

  function CreditedIds(s: Store): set<BatchId> {
    set id | id in s.batches && s.batches[id].credited
  }

  lemma {:induction false} CreditOne(log: seq<Event>, credited: set<BatchId>, id: BatchId)
    requires ValidLog(log) && id !in credited
    ensures Outstanding(log, credited)
         == Outstanding(log, credited + {id}) + if id in Replay(log).batches then Replay(log).batches[id].weight else 0
  {
    if log != [] { CreditOne(log[..|log| - 1], credited, id); }
  }

  /** Registered weight is credited weight plus the weight of the batches not
      yet credited, so credits never exceed what was registered. */
  lemma {:induction false} WeightConserved(log: seq<Event>)
    requires ValidLog(log)
    ensures RegisteredWeight(log) == CreditedWeight(log) + Outstanding(log, CreditedIds(Replay(log)))
    ensures CreditedWeight(log) <= RegisteredWeight(log)
  {
    if log != [] {
      var before, e := log[..|log| - 1], log[|log| - 1];
      WeightConserved(before);
      var was, now := CreditedIds(Replay(before)), CreditedIds(Replay(log));
      if e.BatchCredited? {
        CreditOne(before, was, e.id);
        assert now == was + {e.id};
      } else {
        assert now == was;
      }
    }
  }

  // ----- the contract -----

  class BatchRegistry {
    var admin: Option<Address>
    var issuers: set<Address>
    var batches: map<BatchId, BatchRecord>
    var log: seq<Event>

    function State(): Machine
      reads this
    {
      Machine(Store(admin, issuers, batches), log)
    }

    constructor ()
      ensures State() == START
    {
      admin, issuers, batches, log := None, {}, map[], [];
    }

    method RequireAdminAuth(env: Env) returns (e: Option<Error>)
      ensures State().store == Replay(log) && ValidLog(log) ==>
                (e.None? <==> exists a :: a in env.signers && Initialized(a) in log)
      ensures forall a | a !in issuers :: Outcome(State().store, AddIssuer(a), env).Ok? <==> e.None?
      ensures e == AdminGate(State().store, env)
    {
      if State().store == Replay(log) && ValidLog(log) { AdminGateFromLog(log, env); }
      if admin.None? { return Some(NotInitialized); }
      if admin.value !in env.signers { return Some(MissingSignature); }
      return None;
    }

    method RequireIssuerAuth(issuer: Address, env: Env) returns (e: Option<Error>)
      ensures State().store == Replay(log) && ValidLog(log) ==>
                (e.None? <==> log != [] && issuer in env.signers && Listed(log, issuer))
      ensures forall id, root, weight: U64 | id !in batches && weight > 0 ::
                Outcome(State().store, Register(id, root, weight, issuer), env).Ok? <==> e.None?
      ensures e == IssuerGate(State().store, issuer, env)
    {
      if State().store == Replay(log) && ValidLog(log) { IssuerGateFromLog(log, issuer, env); }
      if admin.None? { return Some(NotInitialized); }
      if issuer !in env.signers { return Some(MissingSignature); }
      if issuer !in issuers { return Some(NotAuthorized); }
      return None;
    }

    method InitializeAdmin(a: Address, env: Env) returns (r: Result<Event, Error>)
      modifies this
      ensures r == Outcome(old(State().store), Initialize(a), env)
      ensures State() == Step(old(State()), Initialize(a), env)
      ensures r.Ok? <==> old(admin).None?
      ensures if r.Ok? then admin == Some(a) && log == old(log) + [Initialized(a)] else admin == old(admin) && log == old(log)
      ensures batches == old(batches) && issuers == old(issuers)
    {
      if admin.Some? { return Err(AlreadyInitialized); }
      admin := Some(a);
      var e := Initialized(a);
      log := log + [e];
      return Ok(e);
    }

    method AddIssuerCall(issuer: Address, env: Env) returns (r: Result<Event, Error>)
      modifies this
      ensures r == Outcome(old(State().store), AddIssuer(issuer), env)
      ensures State() == Step(old(State()), AddIssuer(issuer), env)
      ensures r.Ok? ==> issuers == old(issuers) + {issuer} && log == old(log) + [IssuerAdded(issuer)]
      ensures batches == old(batches) && admin == old(admin) && (r.Err? ==> issuers == old(issuers) && log == old(log))
    {
      var gate := RequireAdminAuth(env);
      if gate.Some? { return Err(gate.value); }
      if issuer in issuers { return Err(IssuerAlreadyAdded); }
      issuers := issuers + {issuer};
      var e := IssuerAdded(issuer);
      log := log + [e];
      return Ok(e);
    }

    method RemoveIssuerCall(issuer: Address, env: Env) returns (r: Result<Event, Error>)
      modifies this
      ensures r == Outcome(old(State().store), RemoveIssuer(issuer), env)
      ensures State() == Step(old(State()), RemoveIssuer(issuer), env)
      ensures r.Ok? ==> issuers == old(issuers) - {issuer} && log == old(log) + [IssuerRemoved(issuer)]
      ensures batches == old(batches) && admin == old(admin) && (r.Err? ==> issuers == old(issuers) && log == old(log))
    {
      var gate := RequireAdminAuth(env);
      if gate.Some? { return Err(gate.value); }
      if issuer !in issuers { return Err(IssuerNotFound); }
      issuers := issuers - {issuer};
      var e := IssuerRemoved(issuer);
      log := log + [e];
      return Ok(e);
    }

    method RegisterCall(id: BatchId, root: Bytes32, weight: U64, issuer: Address, env: Env) returns (r: Result<Event, Error>)
      modifies this
      ensures r == Outcome(old(State().store), Register(id, root, weight, issuer), env)
      ensures State() == Step(old(State()), Register(id, root, weight, issuer), env)
      ensures r.Ok? ==> batches == old(batches)[id := BatchRecord(root, weight, issuer, env.ledger, false, None)]
      ensures r.Ok? ==> log == old(log) + [BatchRegistered(id, issuer, root, weight, env.ledger)]
      ensures r.Err? ==> State() == old(State())
    {
      var gate := RequireIssuerAuth(issuer, env);
      if gate.Some? { return Err(gate.value); }
      if weight == 0 { return Err(InvalidWeight); }
      if id in batches { return Err(BatchAlreadyRegistered); }
      batches := batches[id := BatchRecord(root, weight, issuer, env.ledger, false, None)];
      var e := BatchRegistered(id, issuer, root, weight, env.ledger);
      log := log + [e];
      return Ok(e);
    }

    method MarkCreditedCall(id: BatchId, issuer: Address, env: Env) returns (r: Result<Event, Error>)
      modifies this
      ensures r == Outcome(old(State().store), MarkCredited(id, issuer), env)
      ensures State() == Step(old(State()), MarkCredited(id, issuer), env)
      ensures r.Ok? ==> id in old(batches) && !old(batches)[id].credited
      ensures r.Ok? ==> batches == old(batches)[id := old(batches)[id].(credited := true, creditedLedger := Some(env.ledger))]
      ensures r.Ok? ==> log == old(log) + [BatchCredited(id, issuer, old(batches)[id].weight, env.ledger)]
      ensures r.Err? ==> State() == old(State())
    {
      var gate := RequireIssuerAuth(issuer, env);
      if gate.Some? { return Err(gate.value); }
      if id !in batches { return Err(BatchNotFound); }
      var record := batches[id];
      if record.credited { return Err(AlreadyCredited); }
      record := record.(credited := true);
      record := record.(creditedLedger := Some(env.ledger));
      batches := batches[id := record];
      var e := BatchCredited(id, issuer, record.weight, env.ledger);
      log := log + [e];
      return Ok(e);
    }
  }
}
