/**
 * Any number of server processes opening one PostgreSQL database
 * (src/database/postgresql_store.cpp): bootstrap without a lock, then an
 * advisory lock, a re-read of the ledger under it, and one transaction a step.
 */
module MigrationProtocol {
  import opened Basics
  import opened Migration

  // ---- The database --------------------------------------------------------

  /** `ledger` holds the rows of `schema_migrations`, whose primary key is the version. */
  datatype Database = Database(ledger: seq<Record>, tables: seq<Table>, columns: set<(Table, Column)>)

  predicate HasLedger(db: Database) {
    LEDGER in db.tables
  }

  function MaxVersion(ledger: seq<Record>): (v: U32)
    ensures forall i :: 0 <= i < |ledger| ==> ledger[i].version <= v
  {
    if ledger == [] then 0
    else
      var rest := MaxVersion(ledger[..|ledger| - 1]);
      var last := ledger[|ledger| - 1].version;
      if last > rest then last else rest
  }

  function SchemaOf(db: Database): SchemaState {
    SchemaState(MaxVersion(db.ledger), db.tables, db.ledger)
  }

  method LoadSchemaState(db: Database) returns (state: SchemaState)
    ensures state == SchemaOf(db)
  {
    var version: U32 := 0;
    var applied: seq<Record> := [];
    for i := 0 to |db.ledger|
      invariant applied == db.ledger[..i] && version == MaxVersion(db.ledger[..i])
    {
      assert db.ledger[..i + 1][..i] == db.ledger[..i];
      applied := applied + [db.ledger[i]];
      if db.ledger[i].version > version {
        version := db.ledger[i].version;
      }
    }
    assert db.ledger[..|db.ledger|] == db.ledger;
    return SchemaState(version, db.tables, applied);
  }

  /** One statement; `None` when the database refuses it. */
  function Exec(db: Database, s: Statement): Option<Database> {
    match s
    case CreateTable(t) =>
      if t in db.tables then None else Some(db.(tables := db.tables + [t]))
    case DropTable(t) =>
      if t !in db.tables then None
      else Some(db.(tables := RemoveTable(db.tables, t), columns := set c | c in db.columns && c.0 != t))
    case AddColumn(t, c) =>
      if t !in db.tables || (t, c) in db.columns then None else Some(db.(columns := db.columns + {(t, c)}))
    case DropColumn(t, c) =>
      if t !in db.tables || (t, c) !in db.columns then None else Some(db.(columns := db.columns - {(t, c)}))
    case _ => Some(db)
  }

  function ExecAll(db: Database, statements: seq<Statement>): Option<Database>
    decreases statements
  {
    if statements == [] then Some(db)
    else
      match Exec(db, statements[0])
      case None => None
      case Some(next) => ExecAll(next, statements[1..])
  }

  /** INSERT ... ON CONFLICT (version) DO NOTHING, always recorded as an upgrade. */
  function RecordVersion(db: Database, v: U32): Database {
    if exists i :: 0 <= i < |db.ledger| && db.ledger[i].version == v then db
    else db.(ledger := db.ledger + [Record(v, Up)])
  }

  /** The transaction of one migration step: its statements and its ledger row, or nothing. */
  function StepTransaction(db: Database, step: Step): Option<Database> {
    match ExecAll(db, step.statements)
    case None => None
    case Some(next) => Some(RecordVersion(next, step.version))
  }

  function AddInitial(tables: seq<Table>, n: nat): seq<Table>
    requires n <= INITIAL_TABLES
  {
    if n == 0 then tables else AddTable(AddInitial(tables, n - 1), Initial(n - 1))
  }

  /** CREATE TABLE IF NOT EXISTS for the first schema, and the row of version 1. */
  function BootstrapTransaction(db: Database): Database {
    RecordVersion(db.(tables := AddInitial(db.tables, INITIAL_TABLES)), 1)
  }

  lemma MaxOfRecorded(db: Database, v: U32)
    ensures MaxVersion(RecordVersion(db, v).ledger) == if v > MaxVersion(db.ledger) then v else MaxVersion(db.ledger)
    ensures exists i :: 0 <= i < |RecordVersion(db, v).ledger| && RecordVersion(db, v).ledger[i].version == v
  {
    var next := RecordVersion(db, v);
    if next != db {
      assert next.ledger[..|next.ledger| - 1] == db.ledger;
      assert next.ledger[|db.ledger|].version == v;
    }
  }

  lemma {:induction false} ExecAllKeepsLedger(db: Database, statements: seq<Statement>)
    ensures ExecAll(db, statements).Some? ==> ExecAll(db, statements).value.ledger == db.ledger
    ensures ExecAll(db, statements).Some? && (forall i :: 0 <= i < |statements| ==> !statements[i].DropTable?) ==>
            forall t :: t in db.tables ==> t in ExecAll(db, statements).value.tables
    decreases statements
  {
    if statements != [] {
      match Exec(db, statements[0])
      case None =>
      case Some(next) =>
        ExecAllKeepsLedger(next, statements[1..]);
        assert forall i :: 0 <= i < |statements[1..]| ==> statements[1..][i] == statements[i + 1];
    }
  }

  lemma {:induction false} AddInitialIs(tables: seq<Table>, n: nat)
    requires n <= INITIAL_TABLES
    ensures forall t :: t in AddInitial(tables, n) <==> t in tables || (t.Initial? && t.index < n)
  {
    if n > 0 {
      AddInitialIs(tables, n - 1);
    }
  }

  // ---- Processes -----------------------------------------------------------

  datatype Phase =
    | Inspecting                                    // connected, has not looked for the ledger
    | Bootstrapping                                 // found no ledger
    | Loading                                       // about to read the schema
    | Migrating(snapshot: SchemaState)              // behind; waits for the lock
    | Leased                                        // holds the lock, has not read the ledger again
    | Running(state: SchemaState, plan: Plan, next: nat)
    | Serving(schema: SchemaState)                  // opened the store
    | Refused

  /** `log` lists the versions of the step transactions that committed, in order. */
  datatype System = System(db: Database, lock: Option<nat>, procs: map<nat, Phase>, log: seq<U32>)

  /** `ok` says whether the connection and the server do what they are asked. */
  datatype Action =
    | Start(p: nat)
    | Inspect(p: nat, ok: bool)
    | Bootstrap(p: nat, ok: bool)
    | Load(p: nat, ok: bool)
    | Acquire(p: nat, ok: bool)
    | Reread(p: nat, ok: bool)
    | RunStep(p: nat, ok: bool)
    | Finish(p: nat, unlocked: bool)
    | Crash(p: nat)

  function Unlock(lock: Option<nat>, p: nat): Option<nat> {
    if lock == Some(p) then None else lock
  }

  /** The process gives up: its connection closes, which frees the lock if it held it. */
  function GiveUp(s: System, p: nat): System {
    s.(procs := s.procs[p := Refused], lock := Unlock(s.lock, p))
  }

  function Become(s: System, p: nat, phase: Phase): System {
    s.(procs := s.procs[p := phase])
  }

  /** The end of opening: the store serves only with a compatible schema. */
  function Open(s: System, p: nat, schema: SchemaState): System {
    if Compatible(schema) then Become(s, p, Serving(schema)) else GiveUp(s, p)
  }

  function StartStep(s: System, p: nat): System {
    if p in s.procs then s else Become(s, p, Inspecting)
  }

  function InspectStep(s: System, p: nat, ok: bool): System {
    if p !in s.procs || !s.procs[p].Inspecting? then s
    else if !ok then GiveUp(s, p)
    else Become(s, p, if HasLedger(s.db) then Loading else Bootstrapping)
  }

  function BootstrapStep(s: System, p: nat, ok: bool): System {
    if p !in s.procs || !s.procs[p].Bootstrapping? then s
    else if !ok then GiveUp(s, p)
    else Become(s, p, Loading).(db := BootstrapTransaction(s.db))
  }

  function LoadStep(s: System, p: nat, ok: bool): System {
    if p !in s.procs || !s.procs[p].Loading? then s
    else if !ok then GiveUp(s, p)
    else
      var schema := SchemaOf(s.db);
      if schema.version < CURRENT_VERSION then Become(s, p, Migrating(schema)) else Open(s, p, schema)
  }

  /** Asking for the lock: granted when it is free, waiting while it is taken, or an error. */
  function AcquireStep(s: System, p: nat, ok: bool): System {
    if p !in s.procs || !s.procs[p].Migrating? then s
    else if !ok then NotHeld(s, p, s.procs[p].snapshot)
    else if s.lock.None? then Become(s, p, Leased).(lock := Some(p))
    else s
  }

  function RereadStep(s: System, p: nat, ok: bool): System {
    if p !in s.procs || !s.procs[p].Leased? then s
    else if !ok then GiveUp(s, p)
    else
      var state := SchemaOf(s.db);
      var plan := PlanBetween(state.version, CURRENT_VERSION);
      if PlanIsValid(plan) then Become(s, p, Running(state, plan, 0)) else GiveUp(s, p)
  }

  /** Whether `p` has a step of its plan left. */
  predicate MidPlan(s: System, p: nat) {
    p in s.procs && s.procs[p].Running? && s.procs[p].next < |s.procs[p].plan.steps|
  }

  predicate PlanDone(s: System, p: nat) {
    p in s.procs && s.procs[p].Running? && s.procs[p].next >= |s.procs[p].plan.steps|
  }

  /** What becomes of the step transaction: its effect, or the end of the attempt. */
  function Committed(s: System, p: nat, version: U32, made: Option<Database>): System
    requires MidPlan(s, p)
  {
    var phase := s.procs[p];
    if made.None? then GiveUp(s, p)
    else Become(s, p, phase.(next := phase.next + 1)).(db := made.value, log := s.log + [version])
  }

  function RunStepStep(s: System, p: nat, ok: bool): System {
    if !MidPlan(s, p) then s
    else
      var step := s.procs[p].plan.steps[s.procs[p].next];
      Committed(s, p, step.version, if ok then StepTransaction(s.db, step) else None)
  }

  function Finished(s: System, p: nat, unlocked: bool, schema: Option<SchemaState>): System {
    if schema.None? then GiveUp(s, p)
    else Open(if unlocked then s.(lock := Unlock(s.lock, p)) else s, p, schema.value)
  }

  function FinishStep(s: System, p: nat, unlocked: bool): System {
    if !PlanDone(s, p) then s
    else Finished(s, p, unlocked, Applied(s.procs[p].state, s.procs[p].plan))
  }

  function CrashStep(s: System, p: nat): System {
    s.(procs := s.procs - {p}, lock := Unlock(s.lock, p))
  }

  /** One step of one process; an action that is not enabled changes nothing. */
  function Do(s: System, a: Action): System {
    match a
    case Start(p) => StartStep(s, p)
    case Inspect(p, ok) => InspectStep(s, p, ok)
    case Bootstrap(p, ok) => BootstrapStep(s, p, ok)
    case Load(p, ok) => LoadStep(s, p, ok)
    case Acquire(p, ok) => AcquireStep(s, p, ok)
    case Reread(p, ok) => RereadStep(s, p, ok)
    case RunStep(p, ok) => RunStepStep(s, p, ok)
    case Finish(p, unlocked) => FinishStep(s, p, unlocked)
    case Crash(p) => CrashStep(s, p)
  }

  /** Without the lock a process plans from its old snapshot and goes on only if there is nothing to do. */
  function NotHeld(s: System, p: nat, snapshot: SchemaState): System {
    var plan := PlanBetween(snapshot.version, CURRENT_VERSION);
    if !PlanIsValid(plan) || plan.steps != [] then GiveUp(s, p)
    else
      match Applied(snapshot, plan)
      case None => GiveUp(s, p)
      case Some(schema) => Open(s, p, schema)
  }

  function Run(s: System, actions: seq<Action>): System
    decreases actions
  {
    if actions == [] then s else Run(Do(s, actions[0]), actions[1..])
  }

  /** No process yet; without a ledger table there are no ledger rows. */
  ghost predicate Initially(s: System) {
    s.procs == map[] && s.lock.None? && s.log == [] && (!HasLedger(s.db) ==> s.db.ledger == [])
  }

  /** The version the numbered steps start from: bootstrap itself makes version 1. */
  function BaseVersion(db: Database): U32 {
    if HasLedger(db) then MaxVersion(db.ledger) else 1
  }

  // ---- The invariant -------------------------------------------------------

  ghost predicate RecordsOne(db: Database) {
    exists i :: 0 <= i < |db.ledger| && db.ledger[i].version == 1
  }

  ghost predicate PhaseOk(s: System, blank: bool, p: nat, phase: Phase) {
    match phase
    case Bootstrapping => blank
    case Loading => HasLedger(s.db)
    case Migrating(snapshot) =>
      HasLedger(s.db) && snapshot.version < CURRENT_VERSION && MaxVersion(s.db.ledger) <= CURRENT_VERSION
    case Leased => HasLedger(s.db) && s.lock == Some(p) && MaxVersion(s.db.ledger) <= CURRENT_VERSION
    case Running(state, plan, next) =>
      HasLedger(s.db) && s.lock == Some(p) && state.version <= CURRENT_VERSION &&
      plan == PlanBetween(state.version, CURRENT_VERSION) && next <= |plan.steps| &&
      MaxVersion(s.db.ledger) == state.version + next
    case Serving(schema) =>
      HasLedger(s.db) && schema.version == CURRENT_VERSION && MaxVersion(s.db.ledger) == CURRENT_VERSION
    case _ => true
  }

  ghost predicate Inv(s: System, blank: bool, base: U32) {
    LedgerInv(s, blank, base) && forall p :: p in s.procs ==> PhaseOk(s, blank, p, s.procs[p])
  }

  ghost predicate LedgerInv(s: System, blank: bool, base: U32) {
    && (!blank ==> HasLedger(s.db))
    && (blank ==> base == 1 && (HasLedger(s.db) ==> RecordsOne(s.db)))
    && (!HasLedger(s.db) ==> s.db.ledger == [] && s.log == [])
    && (HasLedger(s.db) ==> MaxVersion(s.db.ledger) == base + |s.log|)
    && (forall i :: 0 <= i < |s.log| ==> s.log[i] == base + 1 + i)
  }

  lemma InitialInv(s: System)
    requires Initially(s)
    ensures Inv(s, !HasLedger(s.db), BaseVersion(s.db))
  {
  }

  /** Other processes' phases survive a step that keeps the ledger and takes the lock from nobody else. */
  lemma OthersKeep(s: System, t: System, blank: bool, base: U32, p: nat)
    requires Inv(s, blank, base)
    requires HasLedger(s.db) ==> HasLedger(t.db)
    requires HasLedger(s.db) ==> MaxVersion(t.db.ledger) == MaxVersion(s.db.ledger)
    requires forall q :: q in t.procs && q != p ==> q in s.procs && t.procs[q] == s.procs[q]
    requires t.lock == s.lock || t.lock == Unlock(s.lock, p) || (s.lock.None? && t.lock == Some(p))
    ensures forall q :: q in t.procs && q != p ==> PhaseOk(t, blank, q, t.procs[q])
  {
    forall q | q in t.procs && q != p
      ensures PhaseOk(t, blank, q, t.procs[q])
    {
      assert PhaseOk(s, blank, q, s.procs[q]);
    }
  }

  /** A step of one process that leaves the database alone need only account for its own phase. */
  lemma PhaseStep(s: System, t: System, blank: bool, base: U32, p: nat)
    requires Inv(s, blank, base) && t.db == s.db && t.log == s.log
    requires forall q :: q in t.procs && q != p ==> q in s.procs && t.procs[q] == s.procs[q]
    requires t.lock == s.lock || t.lock == Unlock(s.lock, p) || (s.lock.None? && t.lock == Some(p))
    requires p in t.procs ==> PhaseOk(t, blank, p, t.procs[p])
    ensures Inv(t, blank, base)
  {
    OthersKeep(s, t, blank, base, p);
    hide PhaseOk, MaxVersion;
  }

  lemma GiveUpKeepsInv(s: System, blank: bool, base: U32, p: nat)
    requires Inv(s, blank, base)
    ensures Inv(GiveUp(s, p), blank, base)
  {
    hide Inv;
    PhaseStep(s, GiveUp(s, p), blank, base, p);
  }

  lemma BootstrapKeeps(db: Database)
    requires if HasLedger(db) then RecordsOne(db) else db.ledger == []
    ensures HasLedger(BootstrapTransaction(db)) && RecordsOne(BootstrapTransaction(db))
    ensures HasLedger(db) ==> BootstrapTransaction(db).ledger == db.ledger
    ensures !HasLedger(db) ==> MaxVersion(BootstrapTransaction(db).ledger) == 1
  {
    AddInitialIs(db.tables, INITIAL_TABLES);
    MaxOfRecorded(db.(tables := AddInitial(db.tables, INITIAL_TABLES)), 1);
  }

  /** Between versions, every step of the plan is the upgrade to the version after the last one. */
  lemma PlanSteps(current: U32, next: nat)
    requires current <= CURRENT_VERSION && next < |PlanBetween(current, CURRENT_VERSION).steps|
    ensures PlanBetween(current, CURRENT_VERSION).steps[next] == UpStep(current + 1 + next)
  {
  }

  lemma UpgradesDropNothing(v: nat)
    requires 1 <= v <= CURRENT_VERSION
    ensures forall i :: 0 <= i < |UpStatements(v)| ==> !UpStatements(v)[i].DropTable?
  {
  }

  lemma StepKeeps(db: Database, v: U32)
    requires HasLedger(db) && 1 <= v <= CURRENT_VERSION && MaxVersion(db.ledger) == v - 1
    ensures StepTransaction(db, UpStep(v)).Some? ==>
            var next := StepTransaction(db, UpStep(v)).value;
            HasLedger(next) && MaxVersion(next.ledger) == v && (RecordsOne(db) ==> RecordsOne(next))
  {
    var made := ExecAll(db, UpStatements(v));
    ExecAllKeepsLedger(db, UpStatements(v));
    UpgradesDropNothing(v);
    if made.Some? {
      MaxOfRecorded(made.value, v);
      if RecordsOne(db) {
        var i :| 0 <= i < |db.ledger| && db.ledger[i].version == 1;
        assert RecordVersion(made.value, v).ledger[i] == db.ledger[i];
      }
    }
  }

  /** Other processes' phases survive a committed step: none of them holds the lock. */
  lemma OthersSurvive(s: System, t: System, blank: bool, base: U32, p: nat, v: U32)
    requires Inv(s, blank, base) && s.lock == Some(p) && t.lock == s.lock && HasLedger(s.db) && HasLedger(t.db)
    requires v <= CURRENT_VERSION && MaxVersion(t.db.ledger) == v && MaxVersion(s.db.ledger) == v - 1
    requires forall q :: q in t.procs && q != p ==> q in s.procs && t.procs[q] == s.procs[q]
    ensures forall q :: q in t.procs && q != p ==> PhaseOk(t, blank, q, t.procs[q])
  {
    hide MaxVersion;
    forall q | q in t.procs && q != p
      ensures PhaseOk(t, blank, q, t.procs[q])
    {
      assert PhaseOk(s, blank, q, s.procs[q]);
    }
  }

  lemma CommittedKeepsInv(s: System, blank: bool, base: U32, p: nat, v: U32, made: Database)
    requires Inv(s, blank, base) && MidPlan(s, p)
    requires v == s.procs[p].state.version + 1 + s.procs[p].next <= CURRENT_VERSION
    requires HasLedger(made) && MaxVersion(made.ledger) == v && (RecordsOne(s.db) ==> RecordsOne(made))
    ensures Inv(Committed(s, p, v, Some(made)), blank, base)
  {
    hide MaxVersion, PlanBetween;
    var t := Committed(s, p, v, Some(made));
    assert PhaseOk(s, blank, p, s.procs[p]);
    OthersSurvive(s, t, blank, base, p, v);
    assert PhaseOk(t, blank, p, t.procs[p]);
  }

  /** The step a migrator is about to run is the upgrade to the version after the ledger's. */
  lemma NextUpgrade(s: System, blank: bool, base: U32, p: nat) returns (v: U32)
    requires Inv(s, blank, base) && MidPlan(s, p)
    ensures v == s.procs[p].state.version + 1 + s.procs[p].next <= CURRENT_VERSION && HasLedger(s.db)
    ensures s.procs[p].plan.steps[s.procs[p].next] == UpStep(v) && MaxVersion(s.db.ledger) == v - 1
  {
    var phase := s.procs[p];
    assert PhaseOk(s, blank, p, phase);
    hide Inv, MaxVersion;
    PlanSteps(phase.state.version, phase.next);
    PlanLength(phase.state.version);
    hide PlanBetween;
    v := phase.state.version + 1 + phase.next;
  }

  lemma RunStepKeepsInv(s: System, blank: bool, base: U32, p: nat, ok: bool)
    requires Inv(s, blank, base)
    ensures Inv(RunStepStep(s, p, ok), blank, base)
  {
    hide Inv, PlanBetween, StepTransaction, MaxVersion;
    if MidPlan(s, p) {
      var v := NextUpgrade(s, blank, base, p);
      var made := StepTransaction(s.db, UpStep(v));
      if ok && made.Some? {
        StepKeeps(s.db, v);
        CommittedKeepsInv(s, blank, base, p, v, made.value);
      } else {
        GiveUpKeepsInv(s, blank, base, p);
      }
    }
  }

  lemma NotHeldRefuses(s: System, p: nat, snapshot: SchemaState)
    requires snapshot.version < CURRENT_VERSION
    ensures NotHeld(s, p, snapshot) == GiveUp(s, p)
  {
  }

  lemma PlanLength(v: U32)
    requires v <= CURRENT_VERSION
    ensures |PlanBetween(v, CURRENT_VERSION).steps| == CURRENT_VERSION - v
  {
  }

  lemma FinishedKeepsInv(s: System, blank: bool, base: U32, p: nat, unlocked: bool, schema: Option<SchemaState>)
    requires Inv(s, blank, base) && PlanDone(s, p)
    ensures Inv(Finished(s, p, unlocked, schema), blank, base)
  {
    if schema.None? || !Compatible(schema.value) {
      hide Inv;
      GiveUpKeepsInv(s, blank, base, p);
      GiveUpAfterUnlock(s, p);
    } else {
      var phase := s.procs[p];
      assert PhaseOk(s, blank, p, phase);
      PlanLength(phase.state.version);
      hide Inv, MaxVersion, PlanBetween;
      CompatibleIsCurrent(schema.value);
      hide Compatible;
      PhaseStep(s, Finished(s, p, unlocked, schema), blank, base, p);
    }
  }

  /** Giving up frees the lock anyway. */
  lemma GiveUpAfterUnlock(s: System, p: nat)
    ensures GiveUp(s.(lock := Unlock(s.lock, p)), p) == GiveUp(s, p)
  {
  }

  lemma CompatibleIsCurrent(schema: SchemaState)
    requires Compatible(schema)
    ensures schema.version == CURRENT_VERSION
  {
  }

  lemma StartKeepsInv(s: System, blank: bool, base: U32, p: nat)
    requires Inv(s, blank, base)
    ensures Inv(StartStep(s, p), blank, base)
  {
    hide Inv, MaxVersion;
    if p !in s.procs {
      PhaseStep(s, StartStep(s, p), blank, base, p);
    }
  }

  lemma InspectKeepsInv(s: System, blank: bool, base: U32, p: nat, ok: bool)
    requires Inv(s, blank, base)
    ensures Inv(InspectStep(s, p, ok), blank, base)
  {
    assert HasLedger(s.db) || blank;
    hide Inv, MaxVersion;
    if p in s.procs && s.procs[p].Inspecting? {
      PhaseStep(s, InspectStep(s, p, ok), blank, base, p);
    }
  }

  lemma LoadKeepsInv(s: System, blank: bool, base: U32, p: nat, ok: bool)
    requires Inv(s, blank, base)
    ensures Inv(LoadStep(s, p, ok), blank, base)
  {
    if p in s.procs && s.procs[p].Loading? {
      assert PhaseOk(s, blank, p, s.procs[p]);
      hide Inv, MaxVersion;
      if Compatible(SchemaOf(s.db)) {
        CompatibleIsCurrent(SchemaOf(s.db));
      }
      hide Compatible;
      PhaseStep(s, LoadStep(s, p, ok), blank, base, p);
    }
  }

  lemma CrashKeepsInv(s: System, blank: bool, base: U32, p: nat)
    requires Inv(s, blank, base)
    ensures Inv(CrashStep(s, p), blank, base)
  {
    hide Inv;
    PhaseStep(s, CrashStep(s, p), blank, base, p);
  }

  lemma BootstrapKeepsInv(s: System, blank: bool, base: U32, p: nat, ok: bool)
    requires Inv(s, blank, base)
    ensures Inv(BootstrapStep(s, p, ok), blank, base)
  {
    if p in s.procs && s.procs[p].Bootstrapping? {
      assert PhaseOk(s, blank, p, s.procs[p]);
      BootstrapKeeps(s.db);
      OthersKeep(s, BootstrapStep(s, p, ok), blank, base, p);
    }
  }

  lemma AcquireKeepsInv(s: System, blank: bool, base: U32, p: nat, ok: bool)
    requires Inv(s, blank, base)
    ensures Inv(AcquireStep(s, p, ok), blank, base)
  {
    if p in s.procs && s.procs[p].Migrating? {
      assert PhaseOk(s, blank, p, s.procs[p]);
      hide Inv, MaxVersion;
      NotHeldRefuses(s, p, s.procs[p].snapshot);
      hide NotHeld;
      GiveUpKeepsInv(s, blank, base, p);
      if ok {
        PhaseStep(s, AcquireStep(s, p, ok), blank, base, p);
      }
    }
  }

  lemma RereadKeepsInv(s: System, blank: bool, base: U32, p: nat, ok: bool)
    requires Inv(s, blank, base)
    ensures Inv(RereadStep(s, p, ok), blank, base)
    ensures p in s.procs && s.procs[p].Leased? && ok ==>
              RereadStep(s, p, ok).procs[p].Running? && RereadStep(s, p, ok).procs[p].next == 0
  {
    if p in s.procs && s.procs[p].Leased? {
      assert PhaseOk(s, blank, p, s.procs[p]);
      hide Inv, MaxVersion;
      PlanBetweenIsValid(MaxVersion(s.db.ledger), CURRENT_VERSION);
      hide PlanBetween, PlanIsValid;
      PhaseStep(s, RereadStep(s, p, ok), blank, base, p);
    }
  }

  lemma DoKeepsInv(s: System, a: Action, blank: bool, base: U32)
    requires Inv(s, blank, base)
    ensures Inv(Do(s, a), blank, base)
  {
    match a
    case Start(p) => StartKeepsInv(s, blank, base, p);
    case Inspect(p, ok) => InspectKeepsInv(s, blank, base, p, ok);
    case Bootstrap(p, ok) => BootstrapKeepsInv(s, blank, base, p, ok);
    case Load(p, ok) => LoadKeepsInv(s, blank, base, p, ok);
    case Acquire(p, ok) => AcquireKeepsInv(s, blank, base, p, ok);
    case Reread(p, ok) => RereadKeepsInv(s, blank, base, p, ok);
    case RunStep(p, ok) => RunStepKeepsInv(s, blank, base, p, ok);
    case Finish(p, unlocked) =>
      if PlanDone(s, p) {
        FinishedKeepsInv(s, blank, base, p, unlocked, Applied(s.procs[p].state, s.procs[p].plan));
      }
    case Crash(p) => CrashKeepsInv(s, blank, base, p);
  }

  lemma {:induction false} RunKeepsInv(s: System, actions: seq<Action>, blank: bool, base: U32)
    requires Inv(s, blank, base)
    ensures Inv(Run(s, actions), blank, base)
    decreases actions
  {
    hide Inv, Do;
    if actions != [] {
      DoKeepsInv(s, actions[0], blank, base);
      RunKeepsInv(Do(s, actions[0]), actions[1..], blank, base);
    }
  }

  // ---- What holds of every run -------------------------------------------------

  /**
   * Whatever processes start, interleave, fail or crash: the numbered steps
   * that commit are one contiguous count up from the version the database
   * started at, so none runs twice, and the ledger always stands at the last
   * of them.
   */
  lemma MigrationsRunOnceInOrder(s: System, actions: seq<Action>)
    requires Initially(s)
    ensures var t := Run(s, actions);
            var base := BaseVersion(s.db);
            (forall i :: 0 <= i < |t.log| ==> t.log[i] == base + 1 + i) &&
            (forall i, j :: 0 <= i < j < |t.log| ==> t.log[i] != t.log[j]) &&
            (HasLedger(t.db) ==> MaxVersion(t.db.ledger) == base + |t.log|)
  {
    InitialInv(s);
    RunKeepsInv(s, actions, !HasLedger(s.db), BaseVersion(s.db));
  }

  lemma OnlyStepsAreLogged(t: System, a: Action)
    requires !a.RunStep?
    ensures Do(t, a).log == t.log
  {
    hide PlanBetween, PlanIsValid, Applied, SchemaOf, Compatible, BootstrapTransaction;
  }

  lemma StepExtendsLog(t: System, a: Action, blank: bool, base: U32)
    requires Inv(t, blank, base)
    ensures var u := Do(t, a);
            u.log != t.log ==>
              |u.log| == |t.log| + 1 && u.log[..|t.log|] == t.log &&
              MaxVersion(t.db.ledger) + 1 == u.log[|t.log|] && MaxVersion(u.db.ledger) == u.log[|t.log|]
  {
    hide Inv, PlanBetween, StepTransaction, MaxVersion;
    if !a.RunStep? {
      OnlyStepsAreLogged(t, a);
    } else if MidPlan(t, a.p) {
      var v := NextUpgrade(t, blank, base, a.p);
      if a.ok && StepTransaction(t.db, UpStep(v)).Some? {
        StepKeeps(t.db, v);
      }
    }
  }

  /** A step commits only on top of the version before it. */
  lemma StepRunsOnPredecessor(s: System, actions: seq<Action>, a: Action)
    requires Initially(s)
    ensures var t := Run(s, actions);
            var u := Do(t, a);
            u.log != t.log ==>
              |u.log| == |t.log| + 1 && u.log[..|t.log|] == t.log &&
              MaxVersion(t.db.ledger) + 1 == u.log[|t.log|] && MaxVersion(u.db.ledger) == u.log[|t.log|]
  {
    InitialInv(s);
    RunKeepsInv(s, actions, !HasLedger(s.db), BaseVersion(s.db));
    StepExtendsLog(Run(s, actions), a, !HasLedger(s.db), BaseVersion(s.db));
  }

  /** At most one process is between taking the lock and finishing its plan. */
  lemma OneMigrator(s: System, actions: seq<Action>, p: nat, q: nat)
    requires Initially(s)
    requires var t := Run(s, actions);
             p in t.procs && q in t.procs && (t.procs[p].Leased? || t.procs[p].Running?) &&
             (t.procs[q].Leased? || t.procs[q].Running?)
    ensures p == q
  {
    InitialInv(s);
    RunKeepsInv(s, actions, !HasLedger(s.db), BaseVersion(s.db));
    var t := Run(s, actions);
    assert PhaseOk(t, !HasLedger(s.db), p, t.procs[p]);
    assert PhaseOk(t, !HasLedger(s.db), q, t.procs[q]);
  }

  /** Whoever gets the lock after another process opened the store finds nothing to do. */
  lemma LoserFindsNothingToDo(s: System, actions: seq<Action>, winner: nat, p: nat)
    requires Initially(s)
    requires var t := Run(s, actions);
             winner in t.procs && t.procs[winner].Serving? && p in t.procs && t.procs[p].Leased?
    ensures var u := Do(Run(s, actions), Reread(p, true));
            u.procs[p].Running? && u.procs[p].plan.steps == []
  {
    ServingMeansCurrent(s, actions, winner);
    var t := Run(s, actions);
    PlanBetweenIsValid(MaxVersion(t.db.ledger), CURRENT_VERSION);
  }

  // ---- No step clashes with what is there ------------------------------------

  /** Whether a column added by a later version belongs to the schema of version `v`. */
  predicate ColumnAt(v: nat, t: Table, c: Column) {
    match c
    case ClientSecret => t == AccountThreepids && v >= 7
    case Sid => t == AccountThreepids && v >= 7
    case DataExtraJson => t == Pushers && v >= 11
    case Deactivated => t == USERS && v >= 14
  }

  /** The database is empty, or it has exactly the tables and columns of its version. */
  ghost predicate Consistent(db: Database) {
    var v := MaxVersion(db.ledger);
    if HasLedger(db) then
      1 <= v && TablesMatch(db.tables, v) && forall t, c :: (t, c) in db.columns <==> ColumnAt(v, t, c)
    else db.tables == [] && db.columns == {} && db.ledger == []
  }

  lemma ExecOne(db: Database, s: Statement)
    ensures ExecAll(db, [s]) == Exec(db, s)
  {
    match Exec(db, s)
    case None =>
    case Some(next) => assert [s][1..] == [];
  }

  lemma ExecTwo(db: Database, a: Statement, b: Statement)
    requires Exec(db, a).Some?
    ensures ExecAll(db, [a, b]) == Exec(Exec(db, a).value, b)
  {
    assert [a, b][1..] == [b];
    ExecOne(Exec(db, a).value, b);
  }

  ghost predicate ReadyFor(db: Database, v: U32) {
    Consistent(db) && HasLedger(db) && MaxVersion(db.ledger) + 1 == v <= CURRENT_VERSION
  }

  /** What a step must make of tables and columns to arrive at version `v`. */
  lemma ArrivesConsistent(db: Database, v: U32, made: Database)
    requires ReadyFor(db, v) && ExecAll(db, UpStatements(v)) == Some(made)
    requires TablesMatch(made.tables, v) && forall t, c :: (t, c) in made.columns <==> ColumnAt(v, t, c)
    ensures StepTransaction(db, UpStep(v)).Some? && Consistent(StepTransaction(db, UpStep(v)).value)
  {
    StepKeeps(db, v);
  }

  lemma CreateIsAccepted(db: Database, v: U32, table: Table)
    requires ReadyFor(db, v) && UpStatements(v) == [CreateTable(table)] && !TableAt(v - 1, table)
    requires forall t :: TableAt(v, t) <==> TableAt(v - 1, t) || t == table
    requires forall t, c :: ColumnAt(v, t, c) <==> ColumnAt(v - 1, t, c)
    ensures StepTransaction(db, UpStep(v)).Some? && Consistent(StepTransaction(db, UpStep(v)).value)
  {
    ExecOne(db, CreateTable(table));
    ArrivesConsistent(db, v, Exec(db, CreateTable(table)).value);
  }

  lemma ColumnIsAccepted(db: Database, v: U32, table: Table, column: Column)
    requires ReadyFor(db, v) && UpStatements(v) == [AddColumn(table, column)]
    requires TableAt(v - 1, table) && !ColumnAt(v - 1, table, column)
    requires forall t :: TableAt(v, t) <==> TableAt(v - 1, t)
    requires forall t, c :: ColumnAt(v, t, c) <==> ColumnAt(v - 1, t, c) || (t == table && c == column)
    ensures StepTransaction(db, UpStep(v)).Some? && Consistent(StepTransaction(db, UpStep(v)).value)
  {
    ExecOne(db, AddColumn(table, column));
    ArrivesConsistent(db, v, Exec(db, AddColumn(table, column)).value);
  }

  lemma SeventhIsAccepted(db: Database)
    requires ReadyFor(db, 7)
    ensures StepTransaction(db, UpStep(7)).Some? && Consistent(StepTransaction(db, UpStep(7)).value)
  {
    var a, b := AddColumn(AccountThreepids, ClientSecret), AddColumn(AccountThreepids, Sid);
    assert TableAt(6, AccountThreepids);
    ExecTwo(db, a, b);
    ArrivesConsistent(db, 7, ExecAll(db, [a, b]).value);
  }

  /** On a consistent database the next step is accepted and leaves it consistent. */
  lemma StepIsAccepted(db: Database, v: U32)
    requires ReadyFor(db, v)
    ensures StepTransaction(db, UpStep(v)).Some? && Consistent(StepTransaction(db, UpStep(v)).value)
  {
    match v
    case 2 => CreateIsAccepted(db, v, SyncStreamWatermark);
    case 3 => CreateIsAccepted(db, v, EventStreamWatermark);
    case 4 => CreateIsAccepted(db, v, StateTransitions);
    case 5 =>
      ExecOne(db, DataOnly);
      ArrivesConsistent(db, v, db);
    case 6 => CreateIsAccepted(db, v, AccountThreepids);
    case 7 => SeventhIsAccepted(db);
    case 8 => CreateIsAccepted(db, v, Pushers);
    case 9 => CreateIsAccepted(db, v, Notifications);
    case 10 => CreateIsAccepted(db, v, OpenidTokens);
    case 11 => ColumnIsAccepted(db, v, Pushers, DataExtraJson);
    case 12 => CreateIsAccepted(db, v, LoginTokens);
    case 13 => CreateIsAccepted(db, v, AppserviceTxnCursor);
    case 14 => ColumnIsAccepted(db, v, USERS, Deactivated);
    case _ =>
  }

  /** Every ledger row of version 14 was written by this catalogue, as an upgrade. */
  ghost predicate LedgerRecordsUpgrades(db: Database) {
    forall i :: 0 <= i < |db.ledger| ==> db.ledger[i].direction == Up
  }

  lemma {:induction false} MaxIsRecorded(ledger: seq<Record>)
    requires ledger != [] && forall i :: 0 <= i < |ledger| ==> ledger[i].direction == Up
    ensures Record(MaxVersion(ledger), Up) in ledger
  {
    var front := ledger[..|ledger| - 1];
    if front != [] {
      MaxIsRecorded(front);
      var i :| 0 <= i < |front| && front[i] == Record(MaxVersion(front), Up);
      assert ledger[i] == front[i];
    }
    assert ledger[|ledger| - 1] == Record(ledger[|ledger| - 1].version, Up);
  }

  lemma BootstrapIsConsistent(db: Database)
    requires Consistent(db) && (HasLedger(db) ==> RecordsOne(db))
    ensures Consistent(BootstrapTransaction(db))
  {
    BootstrapKeeps(db);
    AddInitialIs(db.tables, INITIAL_TABLES);
  }

  /** A running process started from a consistent reading of the schema. */
  ghost predicate ReadingOk(phase: Phase) {
    phase.Running? ==>
      1 <= phase.state.version && TablesMatch(phase.state.tables, phase.state.version) &&
      (phase.state.version == CURRENT_VERSION ==> Record(CURRENT_VERSION, Up) in phase.state.applied)
  }

  ghost predicate Sound(s: System) {
    Consistent(s.db) && LedgerRecordsUpgrades(s.db) && forall p :: p in s.procs ==> ReadingOk(s.procs[p])
  }

  /** The step a migrator is about to run is the one its database is ready for. */
  lemma NextStep(s: System, blank: bool, base: U32, p: nat) returns (v: U32)
    requires Inv(s, blank, base) && Sound(s) && MidPlan(s, p)
    ensures ReadyFor(s.db, v) && s.procs[p].plan.steps[s.procs[p].next] == UpStep(v)
  {
    v := NextUpgrade(s, blank, base, p);
    var phase := s.procs[p];
    assert ReadingOk(phase);
  }

  lemma UpgradeMade(db: Database, v: U32)
    requires ReadyFor(db, v) && LedgerRecordsUpgrades(db)
    ensures var made := StepTransaction(db, UpStep(v));
            made.Some? && Consistent(made.value) && LedgerRecordsUpgrades(made.value)
  {
    StepIsAccepted(db, v);
    var next := ExecAll(db, UpStep(v).statements).value;
    ExecAllKeepsLedger(db, UpStep(v).statements);
    assert LedgerRecordsUpgrades(RecordVersion(next, v));
  }

  lemma StepMade(s: System, blank: bool, base: U32, p: nat)
    requires Inv(s, blank, base) && Sound(s) && MidPlan(s, p)
    ensures var made := StepTransaction(s.db, s.procs[p].plan.steps[s.procs[p].next]);
            made.Some? && Consistent(made.value) && LedgerRecordsUpgrades(made.value)
  {
    var v := NextStep(s, blank, base, p);
    UpgradeMade(s.db, v);
  }

  lemma RunStepKeepsSound(s: System, blank: bool, base: U32, p: nat, ok: bool)
    requires Inv(s, blank, base) && Sound(s)
    ensures Sound(RunStepStep(s, p, ok))
    ensures ok && MidPlan(s, p) ==> RunStepStep(s, p, ok).procs == s.procs[p := s.procs[p].(next := s.procs[p].next + 1)]
  {
    hide Inv, Sound, Consistent, StepTransaction, PlanBetween;
    if MidPlan(s, p) {
      StepMade(s, blank, base, p);
      var step := s.procs[p].plan.steps[s.procs[p].next];
      CommittedKeepsSound(s, p, step.version, if ok then StepTransaction(s.db, step) else None);
    }
  }

  lemma CommittedKeepsSound(s: System, p: nat, v: U32, made: Option<Database>)
    requires Sound(s) && MidPlan(s, p)
    requires made.Some? ==> Consistent(made.value) && LedgerRecordsUpgrades(made.value)
    ensures Sound(Committed(s, p, v, made))
  {
    assert ReadingOk(s.procs[p]);
  }

  lemma RereadKeepsSound(s: System, blank: bool, base: U32, p: nat, ok: bool)
    requires Inv(s, blank, base) && Sound(s)
    ensures Sound(RereadStep(s, p, ok))
  {
    if p in s.procs && s.procs[p].Leased? {
      assert PhaseOk(s, blank, p, s.procs[p]);
      MaxIsRecorded(s.db.ledger);
    }
  }

  lemma BootstrapKeepsSound(s: System, blank: bool, base: U32, p: nat, ok: bool)
    requires Inv(s, blank, base) && Sound(s)
    ensures Sound(BootstrapStep(s, p, ok))
  {
    if p in s.procs && s.procs[p].Bootstrapping? {
      assert PhaseOk(s, blank, p, s.procs[p]);
      BootstrapIsConsistent(s.db);
    }
  }

  lemma DoKeepsSound(s: System, a: Action, blank: bool, base: U32)
    requires Inv(s, blank, base) && Sound(s)
    ensures Sound(Do(s, a))
  {
    match a
    case Bootstrap(p, ok) => BootstrapKeepsSound(s, blank, base, p, ok);
    case Reread(p, ok) => RereadKeepsSound(s, blank, base, p, ok);
    case RunStep(p, ok) => RunStepKeepsSound(s, blank, base, p, ok);
    case _ => OtherStepsKeepSound(s, a);
  }

  /** The steps that neither touch the database nor read the schema under the lock. */
  lemma OtherStepsKeepSound(s: System, a: Action)
    requires Sound(s) && !a.Bootstrap? && !a.Reread? && !a.RunStep?
    ensures Sound(Do(s, a))
  {
    hide Consistent, LedgerRecordsUpgrades, PlanBetween, Applied, Compatible, PlanIsValid;
    var t := Do(s, a);
    forall q | q in t.procs
      ensures ReadingOk(t.procs[q])
    {
      if q in s.procs {
        assert ReadingOk(s.procs[q]);
      }
    }
  }

  lemma {:induction false} RunKeepsSound(s: System, actions: seq<Action>, blank: bool, base: U32)
    requires Inv(s, blank, base) && Sound(s)
    ensures Sound(Run(s, actions))
    decreases actions
  {
    hide Inv, Sound, Do;
    if actions != [] {
      DoKeepsInv(s, actions[0], blank, base);
      DoKeepsSound(s, actions[0], blank, base);
      RunKeepsSound(Do(s, actions[0]), actions[1..], blank, base);
    }
  }

  /**
   * A process that opened the store did so at the current version, and there the
   * ledger stays; started on a consistent database, its tables and columns are
   * exactly the current version's.
   */
  lemma ServingMeansCurrent(s: System, actions: seq<Action>, p: nat)
    requires Initially(s)
    requires var t := Run(s, actions); p in t.procs && t.procs[p].Serving?
    ensures var t := Run(s, actions);
            t.procs[p].schema.version == CURRENT_VERSION && MaxVersion(t.db.ledger) == CURRENT_VERSION
    ensures var t := Run(s, actions);
            Consistent(s.db) && LedgerRecordsUpgrades(s.db) ==>
              TablesMatch(t.db.tables, CURRENT_VERSION) &&
              forall table, column :: (table, column) in t.db.columns <==> ColumnAt(CURRENT_VERSION, table, column)
  {
    var blank, base := !HasLedger(s.db), BaseVersion(s.db);
    InitialInv(s);
    RunKeepsInv(s, actions, blank, base);
    var t := Run(s, actions);
    assert PhaseOk(t, blank, p, t.procs[p]);
    hide Inv, MaxVersion, Run;
    if Consistent(s.db) && LedgerRecordsUpgrades(s.db) {
      SoundFromStart(s, actions);
      assert Sound(t);
    }
  }

  lemma SoundFromStart(s: System, actions: seq<Action>)
    requires Initially(s) && Consistent(s.db) && LedgerRecordsUpgrades(s.db)
    ensures Inv(Run(s, actions), !HasLedger(s.db), BaseVersion(s.db)) && Sound(Run(s, actions))
  {
    var blank, base := !HasLedger(s.db), BaseVersion(s.db);
    InitialInv(s);
    assert Sound(s);
    hide Inv, Sound, Run;
    RunKeepsInv(s, actions, blank, base);
    RunKeepsSound(s, actions, blank, base);
  }

  /** The rest of a plan with nothing in its way. */
  function Remaining(p: nat, n: nat): seq<Action> {
    if n == 0 then [Finish(p, true)] else [RunStep(p, true)] + Remaining(p, n - 1)
  }

  lemma TablesMakeCompatible(schema: SchemaState)
    requires schema.version == CURRENT_VERSION && TablesMatch(schema.tables, CURRENT_VERSION)
    requires Record(CURRENT_VERSION, Up) in schema.applied
    ensures Compatible(schema)
  {
    forall i | 0 <= i < INITIAL_TABLES
      ensures Initial(i) in schema.tables
    {
      assert TableAt(CURRENT_VERSION, Initial(i));
    }
    assert TableAt(CURRENT_VERSION, SyncStreamWatermark) && TableAt(CURRENT_VERSION, EventStreamWatermark);
    assert TableAt(CURRENT_VERSION, StateTransitions) && TableAt(CURRENT_VERSION, AccountThreepids);
    assert TableAt(CURRENT_VERSION, Pushers) && TableAt(CURRENT_VERSION, Notifications);
    assert TableAt(CURRENT_VERSION, OpenidTokens) && TableAt(CURRENT_VERSION, LoginTokens);
    assert TableAt(CURRENT_VERSION, AppserviceTxnCursor);
  }

  predicate Serves(s: System, p: nat) {
    p in s.procs && s.procs[p].Serving?
  }

  lemma StepThenServes(s: System, p: nat, n: nat)
    requires n > 0 && Serves(Run(Do(s, RunStep(p, true)), Remaining(p, n - 1)), p)
    ensures Serves(Run(s, Remaining(p, n)), p)
  {
    assert Remaining(p, n)[1..] == Remaining(p, n - 1);
  }

  lemma FinishThenServes(s: System, p: nat)
    requires Serves(Do(s, Finish(p, true)), p)
    ensures Serves(Run(s, Remaining(p, 0)), p)
  {
    assert Remaining(p, 0)[1..] == [];
  }

  lemma StepForward(s: System, blank: bool, base: U32, p: nat) returns (t: System)
    requires Inv(s, blank, base) && Sound(s) && MidPlan(s, p)
    ensures t == Do(s, RunStep(p, true)) && Inv(t, blank, base) && Sound(t)
    ensures t.procs == s.procs[p := s.procs[p].(next := s.procs[p].next + 1)]
  {
    t := RunStepStep(s, p, true);
    RunStepKeepsInv(s, blank, base, p, true);
    RunStepKeepsSound(s, blank, base, p, true);
  }

  /** What a finished plan leaves in memory passes the compatibility check. */
  lemma FinishedPlanIsCompatible(state: SchemaState)
    requires ReadingOk(Running(state, PlanBetween(state.version, CURRENT_VERSION), 0)) && state.version <= CURRENT_VERSION
    ensures var r := Applied(state, PlanBetween(state.version, CURRENT_VERSION)); r.Some? && Compatible(r.value)
  {
    PlanReachesTarget(state, CURRENT_VERSION);
    hide Applied, PlanBetween;
    TablesMakeCompatible(Applied(state, PlanBetween(state.version, CURRENT_VERSION)).value);
  }

  lemma FinishServes(s: System, blank: bool, base: U32, p: nat)
    requires Inv(s, blank, base) && Sound(s)
    requires p in s.procs && s.procs[p].Running? && s.procs[p].next == |s.procs[p].plan.steps|
    ensures Serves(Do(s, Finish(p, true)), p)
  {
    hide Applied, PlanBetween, Compatible;
    var phase := s.procs[p];
    assert PhaseOk(s, blank, p, phase) && ReadingOk(phase);
    FinishedPlanIsCompatible(phase.state);
  }

  /** From any reachable state of a consistent database, a migrator nothing interrupts opens the store. */
  lemma {:induction false} UninterruptedPlanServes(s: System, blank: bool, base: U32, p: nat, n: nat)
    requires Inv(s, blank, base) && Sound(s)
    requires p in s.procs && s.procs[p].Running? && n == |s.procs[p].plan.steps| - s.procs[p].next
    ensures Serves(Run(s, Remaining(p, n)), p)
    decreases n
  {
    hide Inv, Sound, Do, Run, Serves;
    if n == 0 {
      FinishServes(s, blank, base, p);
      FinishThenServes(s, p);
    } else {
      var next := StepForward(s, blank, base, p);
      UninterruptedPlanServes(next, blank, base, p, n - 1);
      StepThenServes(s, p, n);
    }
  }

  /** What a lock holder has left to do: read the ledger, if it has not, and then its plan. */
  ghost function LeftToDo(s: System, p: nat): seq<Action>
    requires p in s.procs && (s.procs[p].Leased? || s.procs[p].Running?)
  {
    if s.procs[p].Running? then Remaining(p, Steps(s.procs[p]))
    else [Reread(p, true)] + Remaining(p, Steps(Do(s, Reread(p, true)).procs[p]))
  }

  /** How many steps a running process has left. */
  ghost function Steps(phase: Phase): nat {
    if phase.Running? && phase.next <= |phase.plan.steps| then |phase.plan.steps| - phase.next else 0
  }

  lemma RunningCanFinish(t: System, blank: bool, base: U32, p: nat)
    requires Inv(t, blank, base) && Sound(t) && p in t.procs && t.procs[p].Running?
    ensures Serves(Run(t, Remaining(p, Steps(t.procs[p]))), p)
  {
    assert PhaseOk(t, blank, p, t.procs[p]);
    hide Inv, Sound, Run, Serves, MaxVersion, PlanBetween;
    UninterruptedPlanServes(t, blank, base, p, Steps(t.procs[p]));
  }

  lemma RereadThenServes(t: System, p: nat, rest: seq<Action>)
    requires Serves(Run(Do(t, Reread(p, true)), rest), p)
    ensures Serves(Run(t, [Reread(p, true)] + rest), p)
  {
    assert ([Reread(p, true)] + rest)[1..] == rest;
  }

  /** The same over whole runs: started on a consistent database, whoever holds the lock can always finish. */
  lemma LockHolderCanFinish(s: System, actions: seq<Action>, p: nat)
    requires Initially(s) && Consistent(s.db) && LedgerRecordsUpgrades(s.db)
    requires var t := Run(s, actions); p in t.procs && (t.procs[p].Leased? || t.procs[p].Running?)
    ensures var t := Run(s, actions); Serves(Run(t, LeftToDo(t, p)), p)
  {
    hide Consistent, LedgerRecordsUpgrades, Run, Serves, Inv, Sound, RereadStep;
    var blank, base := !HasLedger(s.db), BaseVersion(s.db);
    SoundFromStart(s, actions);
    var t := Run(s, actions);
    if t.procs[p].Running? {
      RunningCanFinish(t, blank, base, p);
    } else {
      RereadKeepsInv(t, blank, base, p, true);
      RereadKeepsSound(t, blank, base, p, true);
      var u := Do(t, Reread(p, true));
      assert u == RereadStep(t, p, true);
      RereadKeepsProcess(t, p);
      RunningCanFinish(u, blank, base, p);
      RereadThenServes(t, p, Remaining(p, Steps(u.procs[p])));
    }
  }

  lemma RereadKeepsProcess(t: System, p: nat)
    requires p in t.procs
    ensures p in RereadStep(t, p, true).procs
  {
  }

  // ---- One migrator, start to end ---------------------------------------------

  /** The database after the transactions of the given steps, if each of them is accepted. */
  function Advance(db: Database, steps: seq<Step>): Option<Database> {
    if steps == [] then Some(db)
    else
      match Advance(db, steps[..|steps| - 1])
      case None => None
      case Some(before) => StepTransaction(before, steps[|steps| - 1])
  }

  /** The plan a process makes from the ledger as it stands. */
  function PendingPlan(db: Database): Plan {
    PlanBetween(MaxVersion(db.ledger), CURRENT_VERSION)
  }

  /** The server took the transactions of the first `k` steps. */
  ghost predicate AllTaken(ok: nat -> bool, k: nat) {
    forall j: nat :: j < k ==> ok(j)
  }

  /** A connection; `held` says whether its session holds the advisory lock. */
  class MigrationSession {
    var db: Database
    var held: bool

    constructor (db: Database)
      ensures this.db == db && !held
    {
      this.db, held := db, false;
    }

    /**
     * `granted` and `readable` say whether the lock and the ledger query
     * succeed, `ok(k)` whether the server takes the transaction of step `k`.
     * The plan comes from the ledger read under the lock, never from `state`.
     */
    method ApplyPendingMigrations(state: SchemaState, granted: bool, readable: bool, ok: nat -> bool)
      returns (r: Option<SchemaState>)
      modifies this
      ensures !held
      ensures !granted ==> db == old(db) && (if state.version == CURRENT_VERSION then r == Some(state) else r.None?)
      ensures granted && (!readable || !PlanIsValid(PendingPlan(old(db)))) ==> r.None? && db == old(db)
      ensures granted && readable && PlanIsValid(PendingPlan(old(db))) ==>
                var steps := PendingPlan(old(db)).steps;
                exists k :: 0 <= k <= |steps| && Advance(old(db), steps[..k]) == Some(db) && AllTaken(ok, k) &&
                  (if k == |steps| then r == Applied(SchemaOf(old(db)), PendingPlan(old(db)))
                   else r.None? && (!ok(k) || StepTransaction(db, steps[k]).None?))
    {
      held := granted;
      var current: Option<SchemaState> := Some(state);
      if held {
        if readable {
          var loaded := LoadSchemaState(db);
          current := Some(loaded);
        } else {
          current := None;
        }
      }
      if current.None? {
        held := false;
        return None;
      }
      var plan := MigrationPlanBetween(current.value.version, CURRENT_VERSION);
      var verdict := MigrationPlanIsValid(plan);
      if verdict != Valid {
        held := false;
        return None;
      }
      if !held && plan.steps != [] {
        return None;
      }
      if !held {
        var same := ApplyMigrationPlan(current.value, plan);
        return same;
      }
      var k := RunSteps(plan.steps, ok);
      if k < |plan.steps| {
        held := false;
        return None;
      }
      var applied := ApplyMigrationPlan(current.value, plan);
      held := false;
      return applied;
    }

    /** One transaction for each step until one fails; how many succeeded. */
    method RunSteps(steps: seq<Step>, ok: nat -> bool) returns (k: nat)
      modifies this`db
      ensures k <= |steps| && Advance(old(db), steps[..k]) == Some(db)
      ensures AllTaken(ok, k) && (k < |steps| ==> !ok(k) || StepTransaction(db, steps[k]).None?)
    {
      k := 0;
      while k < |steps|
        invariant k <= |steps| && Advance(old(db), steps[..k]) == Some(db) && AllTaken(ok, k)
      {
        assert steps[..k + 1][..k] == steps[..k];
        var made := StepTransaction(db, steps[k]);
        if !ok(k) || made.None? {
          return;
        }
        db := made.value;
        k := k + 1;
      }
    }
  }
}
