/**
 * Schema migrations: the catalogue, plans and their checks
 * (src/database/migration.cpp, src/database/schema.cpp).
 */
module Migration {
  import opened Basics

  type U32 = n: int | 0 <= n < 0x1_0000_0000

  datatype Direction = Up | Down

  /** The tables of the first schema by position, then those added by later versions. */
  datatype Table =
    | Initial(index: nat)
    | SyncStreamWatermark
    | EventStreamWatermark
    | StateTransitions
    | AccountThreepids
    | Pushers
    | Notifications
    | OpenidTokens
    | LoginTokens
    | AppserviceTxnCursor

  const CURRENT_VERSION: U32 := 14
  const INITIAL_TABLES: nat := 45

  /** `schema_migrations` and `users`, the first two tables of the schema. */
  const LEDGER := Initial(0)
  const USERS := Initial(1)

  /** Columns added to a table by a later version. */
  datatype Column = ClientSecret | Sid | DataExtraJson | Deactivated

  datatype Statement =
    | CreateTable(table: Table)
    | DropTable(table: Table)
    | AddColumn(table: Table, column: Column)
    | DropColumn(table: Table, column: Column)
    | DataOnly
    | OtherSql

  /** `textOk` is the outcome of the name and SQL-shape checks of the step. */
  datatype Step = Step(version: U32, statements: seq<Statement>, direction: Direction, textOk: bool)

  datatype Plan = Plan(current: U32, target: U32, steps: seq<Step>, direction: Direction)

  datatype Record = Record(version: U32, direction: Direction)

  datatype SchemaState = SchemaState(version: U32, tables: seq<Table>, applied: seq<Record>)

  // ---- Catalogue -----------------------------------------------------------

  function CreateInitial(n: nat): seq<Statement>
    requires n <= INITIAL_TABLES
  {
    seq(n, i requires 0 <= i < n => CreateTable(Initial(i)))
  }

  function DropInitial(n: nat): seq<Statement>
    requires n <= INITIAL_TABLES
  {
    seq(n, i requires 0 <= i < n => DropTable(Initial(n - 1 - i)))
  }

  /** The statements that take version `v - 1` to `v`. */
  function UpStatements(v: nat): seq<Statement>
    requires 1 <= v <= CURRENT_VERSION
  {
    if v == 1 then CreateInitial(INITIAL_TABLES)
    else if v == 2 then [CreateTable(SyncStreamWatermark)]
    else if v == 3 then [CreateTable(EventStreamWatermark)]
    else if v == 4 then [CreateTable(StateTransitions)]
    else if v == 5 then [DataOnly]
    else if v == 6 then [CreateTable(AccountThreepids)]
    else if v == 7 then [AddColumn(AccountThreepids, ClientSecret), AddColumn(AccountThreepids, Sid)]
    else if v == 8 then [CreateTable(Pushers)]
    else if v == 9 then [CreateTable(Notifications)]
    else if v == 10 then [CreateTable(OpenidTokens)]
    else if v == 11 then [AddColumn(Pushers, DataExtraJson)]
    else if v == 12 then [CreateTable(LoginTokens)]
    else if v == 13 then [CreateTable(AppserviceTxnCursor)]
    else [AddColumn(USERS, Deactivated)]
  }

  /** The statements that take version `v + 1` to `v`. */
  function DownStatements(v: nat): seq<Statement>
    requires v < CURRENT_VERSION
  {
    if v == 0 then DropInitial(INITIAL_TABLES)
    else if v == 1 then [DropTable(SyncStreamWatermark)]
    else if v == 2 then [DropTable(EventStreamWatermark)]
    else if v == 3 then [DropTable(StateTransitions)]
    else if v == 4 then [DataOnly]
    else if v == 5 then [DropTable(AccountThreepids)]
    else if v == 6 then [DropColumn(AccountThreepids, Sid), DropColumn(AccountThreepids, ClientSecret)]
    else if v == 7 then [DropTable(Pushers)]
    else if v == 8 then [DropTable(Notifications)]
    else if v == 9 then [DropTable(OpenidTokens)]
    else if v == 10 then [DropColumn(Pushers, DataExtraJson)]
    else if v == 11 then [DropTable(LoginTokens)]
    else if v == 12 then [DropTable(AppserviceTxnCursor)]
    else [DropColumn(USERS, Deactivated)]
  }

  function UpStep(v: nat): Step
    requires 1 <= v <= CURRENT_VERSION
  {
    Step(v, UpStatements(v), Up, true)
  }

  function DownStep(v: nat): Step
    requires v < CURRENT_VERSION
  {
    Step(v, DownStatements(v), Down, true)
  }

  function UpgradeCatalog(): seq<Step> {
    seq(14, i requires 0 <= i < 14 => UpStep(i + 1))
  }

  function DowngradeCatalog(): seq<Step> {
    seq(14, i requires 0 <= i < 14 => DownStep(13 - i))
  }

  // ---- Plans ---------------------------------------------------------------

  datatype Verdict = Valid | NoOpWithSteps | NoSteps | WrongDirection | NotContiguous | BadStep | MissesTarget

  predicate StepIsValid(step: Step) {
    !(step.version == 0 && step.direction == Up) && step.textOk && step.statements != []
  }

  /** The version of step `i` of a plan: counting up, or counting down and staying at 0. */
  function ExpectedVersion(plan: Plan, i: nat): int {
    if plan.direction == Up then plan.current + 1 + i
    else if plan.current - 1 - i >= 0 then plan.current - 1 - i else 0
  }

  predicate StepFits(plan: Plan, i: nat)
    requires i < |plan.steps|
  {
    plan.steps[i].version == ExpectedVersion(plan, i) && plan.steps[i].direction == plan.direction &&
    StepIsValid(plan.steps[i])
  }

  /**
   * What `migration_plan_is_valid` accepts, said without its loop: the steps
   * lead from the current version to the target one version at a time. A plan
   * down to 0 may go on with more steps of version 0.
   */
  predicate PlanIsValid(plan: Plan) {
    if plan.current == plan.target then plan.steps == []
    else
      && (plan.direction == Up <==> plan.current < plan.target)
      && (forall i :: 0 <= i < |plan.steps| ==> StepFits(plan, i))
      && (if plan.direction == Up then |plan.steps| == plan.target - plan.current
          else if plan.target == 0 then |plan.steps| >= plan.current
          else |plan.steps| == plan.current - plan.target)
  }

  /**
   * Step `i` is the first that does not fit: its version does not follow or its
   * direction is not the plan's, or else it is an upgrade to version 0, its
   * text is refused or it has no statements.
   */
  ghost predicate StopsAt(plan: Plan, i: nat, verdict: Verdict) {
    i < |plan.steps| && (forall j :: 0 <= j < i ==> StepFits(plan, j)) &&
    var step := plan.steps[i];
    var follows :=
      (if plan.direction == Up then step.version == (plan.current + 1 + i) % 0x1_0000_0000
       else step.version == if plan.current > i then plan.current - 1 - i else 0) &&
      step.direction == plan.direction;
    if follows
    then verdict == BadStep && ((step.version == 0 && step.direction == Up) || !step.textOk || step.statements == [])
    else verdict == NotContiguous
  }

  method MigrationPlanIsValid(plan: Plan) returns (verdict: Verdict)
    ensures verdict == Valid <==> PlanIsValid(plan)
    ensures verdict == NoSteps <==> plan.current != plan.target && plan.steps == []
    ensures verdict == NoOpWithSteps <==> plan.current == plan.target && plan.steps != []
    ensures verdict == WrongDirection <==>
            plan.steps != [] && ((plan.current < plan.target && plan.direction == Down) ||
                                 (plan.current > plan.target && plan.direction == Up))
    ensures verdict == NotContiguous || verdict == BadStep ==> exists i: nat :: StopsAt(plan, i, verdict)
    ensures verdict == MissesTarget ==>
              plan.steps != [] && (forall i :: 0 <= i < |plan.steps| ==> StepFits(plan, i)) &&
              plan.steps[|plan.steps| - 1].version != plan.target
  {
    if plan.current == plan.target {
      return if plan.steps == [] then Valid else NoOpWithSteps;
    }
    if plan.steps == [] {
      return NoSteps;
    }
    if plan.target > plan.current && plan.direction != Up {
      return WrongDirection;
    }
    if plan.target < plan.current && plan.direction != Down {
      return WrongDirection;
    }
    var expected: int := if plan.direction == Up then plan.current + 1 else plan.current - 1;
    for i := 0 to |plan.steps|
      invariant forall j :: 0 <= j < i ==> StepFits(plan, j)
      invariant expected == ExpectedVersion(plan, i) % 0x1_0000_0000
      invariant plan.direction == Up ==> ExpectedVersion(plan, i) <= 0x1_0000_0000
    {
      var step := plan.steps[i];
      if step.version != expected || step.direction != plan.direction {
        assert !StepFits(plan, i) && StopsAt(plan, i, NotContiguous);
        return NotContiguous;
      }
      if !StepIsValid(step) {
        assert !StepFits(plan, i) && StopsAt(plan, i, BadStep);
        return BadStep;
      }
      if plan.direction == Up {
        expected := (expected + 1) % 0x1_0000_0000;
      } else if expected > 0 {
        expected := expected - 1;
      }
    }
    assert StepFits(plan, |plan.steps| - 1);
    return if plan.steps[|plan.steps| - 1].version == plan.target then Valid else MissesTarget;
  }

  /** The repeated steps are really accepted: a plan from 1 to 0 that drops the schema twice. */
  lemma RepeatedFinalStep()
    ensures PlanIsValid(Plan(1, 0, [DownStep(0), DownStep(0)], Down))
  {
    var plan := Plan(1, 0, [DownStep(0), DownStep(0)], Down);
    assert DownStatements(0)[0] == DropTable(Initial(INITIAL_TABLES - 1));
    assert StepFits(plan, 0) && StepFits(plan, 1);
  }

  /** Exactly then does a valid plan visit a version twice. */
  lemma ValidPlanVersionsAreDistinct(plan: Plan)
    requires PlanIsValid(plan)
    ensures (forall i, j :: 0 <= i < j < |plan.steps| ==> plan.steps[i].version != plan.steps[j].version) <==>
            !(plan.direction == Down && plan.target == 0 && plan.current > 0 && |plan.steps| > plan.current)
  {
    forall i | 0 <= i < |plan.steps| && plan.current != plan.target
      ensures plan.steps[i].version == ExpectedVersion(plan, i)
    {
      assert StepFits(plan, i);
    }
    if plan.direction == Down && plan.target == 0 && plan.current > 0 && |plan.steps| > plan.current {
      assert plan.steps[plan.current - 1].version == plan.steps[plan.current].version;
    }
  }

  function UpSteps(current: nat, target: nat): (steps: seq<Step>)
    requires current <= target <= CURRENT_VERSION
    ensures |steps| == target - current
    ensures forall i :: 0 <= i < |steps| ==> steps[i] == UpStep(current + 1 + i)
    decreases target
  {
    if current == target then [] else UpSteps(current, target - 1) + [UpStep(target)]
  }

  function DownSteps(current: nat, target: nat): (steps: seq<Step>)
    requires target <= current <= CURRENT_VERSION
    ensures |steps| == current - target
    ensures forall i :: 0 <= i < |steps| ==> steps[i] == DownStep(current - 1 - i)
    decreases current - target
  {
    if current == target then [] else DownSteps(current, target + 1) + [DownStep(target)]
  }

  function PlanBetween(current: U32, target: U32): Plan {
    var direction := if target >= current then Up else Down;
    if current > CURRENT_VERSION || target > CURRENT_VERSION then Plan(current, target, [], direction)
    else if direction == Up then Plan(current, target, UpSteps(current, target), Up)
    else Plan(current, target, DownSteps(current, target), Down)
  }

  method FindStep(catalog: seq<Step>, version: nat, direction: Direction) returns (found: Option<Step>)
    ensures found.Some? ==> found.value in catalog && found.value.version == version && found.value.direction == direction
    ensures found.None? ==> forall s :: s in catalog ==> !(s.version == version && s.direction == direction)
  {
    for i := 0 to |catalog|
      invariant forall j :: 0 <= j < i ==> !(catalog[j].version == version && catalog[j].direction == direction)
    {
      if catalog[i].version == version && catalog[i].direction == direction {
        return Some(catalog[i]);
      }
    }
    return None;
  }

  lemma Catalogs(v: nat)
    ensures 1 <= v <= CURRENT_VERSION ==>
              UpStep(v) in UpgradeCatalog() && UpStep(v).version == v && UpStep(v).direction == Up
    ensures v < CURRENT_VERSION ==>
              DownStep(v) in DowngradeCatalog() && DownStep(v).version == v && DownStep(v).direction == Down
    ensures forall s :: s in UpgradeCatalog() && s.version == v ==> 1 <= v <= CURRENT_VERSION && s == UpStep(v)
    ensures forall s :: s in DowngradeCatalog() && s.version == v ==> v < CURRENT_VERSION && s == DownStep(v)
  {
    if 1 <= v <= CURRENT_VERSION {
      assert UpgradeCatalog()[v - 1] == UpStep(v);
    }
    if v < CURRENT_VERSION {
      assert DowngradeCatalog()[13 - v] == DownStep(v);
    }
  }

  method CollectUpgrades(current: nat, target: nat) returns (steps: seq<Step>)
    requires current <= target <= CURRENT_VERSION
    ensures steps == UpSteps(current, target)
  {
    hide DownStep, UpStep, DowngradeCatalog, UpgradeCatalog;
    var catalog := UpgradeCatalog();
    steps := [];
    var version := current + 1;
    while version <= target
      invariant current + 1 <= version <= target + 1
      invariant steps == UpSteps(current, version - 1)
    {
      Catalogs(version);
      var found := FindStep(catalog, version, Up);
      if found.Some? {
        steps := steps + [found.value];
      }
      version := version + 1;
    }
  }

  method CollectDowngrades(current: nat, target: nat) returns (steps: seq<Step>)
    requires target < current <= CURRENT_VERSION
    ensures steps == DownSteps(current, target)
  {
    hide DownStep, UpStep, DowngradeCatalog, UpgradeCatalog;
    var catalog := DowngradeCatalog();
    steps := [];
    var version := current - 1;
    while true
      invariant target <= version < current
      invariant steps == DownSteps(current, version + 1)
      decreases version
    {
      Catalogs(version);
      var found := FindStep(catalog, version, Down);
      if found.Some? {
        steps := steps + [found.value];
      }
      if version == target {
        return;
      }
      version := version - 1;
    }
  }

  method MigrationPlanBetween(current: U32, target: U32) returns (plan: Plan)
    ensures plan == PlanBetween(current, target)
  {
    if current == target {
      return Plan(current, target, [], Up);
    }
    if current > CURRENT_VERSION || target > CURRENT_VERSION {
      return Plan(current, target, [], if target > current then Up else Down);
    }
    var direction := if target > current then Up else Down;
    var steps: seq<Step>;
    if direction == Up {
      steps := CollectUpgrades(current, target);
    } else {
      steps := CollectDowngrades(current, target);
    }
    return Plan(current, target, steps, direction);
  }

  /** Between versions this build knows there is always a valid plan; otherwise only for staying put. */
  lemma PlanBetweenIsValid(current: U32, target: U32)
    ensures PlanIsValid(PlanBetween(current, target)) <==>
            current == target || (current <= CURRENT_VERSION && target <= CURRENT_VERSION)
  {
    var plan := PlanBetween(current, target);
    if current != target && current <= CURRENT_VERSION && target <= CURRENT_VERSION {
      forall i | 0 <= i < |plan.steps|
        ensures StepFits(plan, i)
      {
        assert DownStatements(0)[0] == DropTable(Initial(INITIAL_TABLES - 1));
        assert UpStatements(1)[0] == CreateTable(Initial(0));
      }
    }
  }

  // ---- Applying a plan to the schema state ----------------------------------

  function AddTable(tables: seq<Table>, t: Table): seq<Table> {
    if t in tables then tables else tables + [t]
  }

  function RemoveTable(tables: seq<Table>, t: Table): seq<Table> {
    Filter(tables, (x: Table) => x != t)
  }

  function TablesAfter(tables: seq<Table>, statements: seq<Statement>): seq<Table> {
    if statements == [] then tables
    else
      var last := statements[|statements| - 1];
      var before := TablesAfter(tables, statements[..|statements| - 1]);
      if last.CreateTable? then AddTable(before, last.table)
      else if last.DropTable? then RemoveTable(before, last.table)
      else before
  }

  function StateAfter(state: SchemaState, steps: seq<Step>): SchemaState {
    if steps == [] then state
    else
      var last := steps[|steps| - 1];
      var before := StateAfter(state, steps[..|steps| - 1]);
      SchemaState(last.version, TablesAfter(before.tables, last.statements),
                  before.applied + [Record(last.version, last.direction)])
  }

  predicate Applicable(steps: seq<Step>) {
    forall i, j :: 0 <= i < |steps| && 0 <= j < |steps[i].statements| ==> !steps[i].statements[j].OtherSql?
  }

  /** The state a plan leads to, if the plan is valid, starts where the state is and is understood. */
  function Applied(state: SchemaState, plan: Plan): Option<SchemaState> {
    if PlanIsValid(plan) && state.version == plan.current && Applicable(plan.steps)
    then Some(StateAfter(state, plan.steps)) else None
  }

  /** The statements of one step; `None` at one that is not understood. */
  method ApplyStatements(initial: seq<Table>, statements: seq<Statement>) returns (r: Option<seq<Table>>)
    ensures r.Some? ==> r.value == TablesAfter(initial, statements)
    ensures r.None? <==> exists j :: 0 <= j < |statements| && statements[j].OtherSql?
  {
    var tables := initial;
    for j := 0 to |statements|
      invariant tables == TablesAfter(initial, statements[..j])
      invariant forall k :: 0 <= k < j ==> !statements[k].OtherSql?
    {
      assert statements[..j + 1][..j] == statements[..j];
      match statements[j]
      case CreateTable(t) => tables := AddTable(tables, t);
      case DropTable(t) => tables := RemoveTable(tables, t);
      case OtherSql => return None;
      case _ =>
    }
    assert statements[..|statements|] == statements;
    return Some(tables);
  }

  method ApplyMigrationPlan(initial: SchemaState, plan: Plan) returns (r: Option<SchemaState>)
    ensures r == Applied(initial, plan)
  {
    hide PlanIsValid, StopsAt, StepFits, TablesAfter;
    var verdict := MigrationPlanIsValid(plan);
    if verdict != Valid {
      return None;
    }
    if initial.version != plan.current {
      return None;
    }
    var state := initial;
    for i := 0 to |plan.steps|
      invariant state == StateAfter(initial, plan.steps[..i])
      invariant forall k, j :: 0 <= k < i && 0 <= j < |plan.steps[k].statements| ==> !plan.steps[k].statements[j].OtherSql?
    {
      var step := plan.steps[i];
      var tables := ApplyStatements(state.tables, step.statements);
      if tables.None? {
        return None;
      }
      assert plan.steps[..i + 1][..i] == plan.steps[..i];
      state := SchemaState(step.version, tables.value, state.applied + [Record(step.version, step.direction)]);
    }
    assert plan.steps[..|plan.steps|] == plan.steps;
    return Some(state);
  }

  // ---- The schema of each version --------------------------------------------

  /** Whether a table belongs to the schema of version `v`. */
  predicate TableAt(v: nat, t: Table) {
    match t
    case Initial(i) => v >= 1 && i < INITIAL_TABLES
    case SyncStreamWatermark => v >= 2
    case EventStreamWatermark => v >= 3
    case StateTransitions => v >= 4
    case AccountThreepids => v >= 6
    case Pushers => v >= 8
    case Notifications => v >= 9
    case OpenidTokens => v >= 10
    case LoginTokens => v >= 12
    case AppserviceTxnCursor => v >= 13
  }

  ghost predicate TablesMatch(tables: seq<Table>, v: nat) {
    forall t :: t in tables <==> TableAt(v, t)
  }

  predicate Compatible(state: SchemaState) {
    && state.version == CURRENT_VERSION
    && Record(CURRENT_VERSION, Up) in state.applied
    && (forall i :: 0 <= i < INITIAL_TABLES ==> Initial(i) in state.tables)
    && SyncStreamWatermark in state.tables && EventStreamWatermark in state.tables
    && StateTransitions in state.tables && AccountThreepids in state.tables && Pushers in state.tables
    && Notifications in state.tables && OpenidTokens in state.tables && LoginTokens in state.tables
    && AppserviceTxnCursor in state.tables
  }

  lemma {:induction false} CreatesInitial(tables: seq<Table>, n: nat)
    requires n <= INITIAL_TABLES
    ensures forall t :: t in TablesAfter(tables, CreateInitial(n)) <==> t in tables || (t.Initial? && t.index < n)
  {
    if n > 0 {
      assert CreateInitial(n)[..n - 1] == CreateInitial(n - 1);
      CreatesInitial(tables, n - 1);
    }
  }

  lemma {:induction false} DropsInitial(tables: seq<Table>, n: nat)
    requires n <= INITIAL_TABLES
    ensures forall t :: t in TablesAfter(tables, DropInitial(INITIAL_TABLES)[..n]) <==>
                        t in tables && !(t.Initial? && INITIAL_TABLES - n <= t.index < INITIAL_TABLES)
  {
    var drops := DropInitial(INITIAL_TABLES);
    if n > 0 {
      assert drops[..n][..n - 1] == drops[..n - 1];
      DropsInitial(tables, n - 1);
    }
  }

  lemma TablesAfterOne(tables: seq<Table>, s: Statement)
    ensures TablesAfter(tables, [s]) ==
            if s.CreateTable? then AddTable(tables, s.table)
            else if s.DropTable? then RemoveTable(tables, s.table) else tables
  {
    assert [s][..0] == [];
  }

  lemma TablesAfterColumns(tables: seq<Table>, a: Statement, b: Statement)
    requires !a.CreateTable? && !a.DropTable? && !b.CreateTable? && !b.DropTable?
    ensures TablesAfter(tables, [a, b]) == tables
  {
    assert [a, b][..1] == [a];
    TablesAfterOne(tables, a);
  }

  /** One step up leads from the tables of one version to those of the next, */
  lemma UpStepTables(tables: seq<Table>, v: nat)
    requires 1 <= v <= CURRENT_VERSION && TablesMatch(tables, v - 1)
    ensures TablesMatch(TablesAfter(tables, UpStatements(v)), v)
  {
    if v == 1 {
      CreatesInitial(tables, INITIAL_TABLES);
    } else if v == 7 {
      TablesAfterColumns(tables, UpStatements(v)[0], UpStatements(v)[1]);
    } else {
      TablesAfterOne(tables, UpStatements(v)[0]);
    }
  }

  /** and one step down leads back. */
  lemma DownStepTables(tables: seq<Table>, v: nat)
    requires v < CURRENT_VERSION && TablesMatch(tables, v + 1)
    ensures TablesMatch(TablesAfter(tables, DownStatements(v)), v)
  {
    if v == 0 {
      assert DropInitial(INITIAL_TABLES)[..INITIAL_TABLES] == DownStatements(0);
      DropsInitial(tables, INITIAL_TABLES);
    } else if v == 6 {
      TablesAfterColumns(tables, DownStatements(v)[0], DownStatements(v)[1]);
    } else {
      TablesAfterOne(tables, DownStatements(v)[0]);
    }
  }

  lemma CatalogueIsApplicable(v: nat)
    ensures 1 <= v <= CURRENT_VERSION ==>
            forall j :: 0 <= j < |UpStatements(v)| ==> !UpStatements(v)[j].OtherSql?
    ensures v < CURRENT_VERSION ==>
            forall j :: 0 <= j < |DownStatements(v)| ==> !DownStatements(v)[j].OtherSql?
  {
  }

  /** A state at version `v`, recorded as such by the last entry of its history. */
  ghost predicate ArrivedAt(state: SchemaState, v: U32, direction: Direction) {
    state.version == v && TablesMatch(state.tables, v) &&
    state.applied != [] && state.applied[|state.applied| - 1] == Record(v, direction)
  }

  lemma OneMoreStep(state: SchemaState, steps: seq<Step>, last: Step)
    ensures var before := StateAfter(state, steps);
            StateAfter(state, steps + [last]) ==
            SchemaState(last.version, TablesAfter(before.tables, last.statements),
                        before.applied + [Record(last.version, last.direction)])
  {
    assert (steps + [last])[..|steps|] == steps;
  }

  lemma NothingToDo(state: SchemaState)
    ensures StateAfter(state, []) == state
  {
  }

  lemma {:induction false} UpStepsArrive(state: SchemaState, target: U32)
    requires state.version < target <= CURRENT_VERSION && TablesMatch(state.tables, state.version)
    ensures ArrivedAt(StateAfter(state, UpSteps(state.version, target)), target, Up)
    decreases target
  {
    hide UpStatements, TablesAfter, TablesMatch, StateAfter;
    var before := UpSteps(state.version, target - 1);
    OneMoreStep(state, before, UpStep(target));
    if state.version < target - 1 {
      UpStepsArrive(state, target - 1);
    } else {
      NothingToDo(state);
    }
    UpStepTables(StateAfter(state, before).tables, target);
  }

  lemma {:induction false} DownStepsArrive(state: SchemaState, target: U32)
    requires target < state.version <= CURRENT_VERSION && TablesMatch(state.tables, state.version)
    ensures ArrivedAt(StateAfter(state, DownSteps(state.version, target)), target, Down)
    decreases state.version - target
  {
    hide DownStatements, TablesAfter, TablesMatch, StateAfter;
    var before := DownSteps(state.version, target + 1);
    OneMoreStep(state, before, DownStep(target));
    if target + 1 < state.version {
      DownStepsArrive(state, target + 1);
    } else {
      NothingToDo(state);
    }
    DownStepTables(StateAfter(state, before).tables, target);
  }

  lemma PlansAreApplicable(current: U32, target: U32)
    ensures Applicable(PlanBetween(current, target).steps)
  {
    hide UpStatements, DownStatements;
    var plan := PlanBetween(current, target);
    forall i, j | 0 <= i < |plan.steps| && 0 <= j < |plan.steps[i].statements|
      ensures !plan.steps[i].statements[j].OtherSql?
    {
      CatalogueIsApplicable(plan.steps[i].version);
    }
  }

  /**
   * Applying the plan between two known versions to a state at the first
   * gives a state at the second, with its tables. Upgrading and downgrading
   * again comes back to the tables there were.
   */
  lemma PlanReachesTarget(state: SchemaState, target: U32)
    requires state.version <= CURRENT_VERSION && target <= CURRENT_VERSION
    requires TablesMatch(state.tables, state.version)
    ensures var plan := PlanBetween(state.version, target);
            if target == state.version then Applied(state, plan) == Some(state)
            else Applied(state, plan).Some? && ArrivedAt(Applied(state, plan).value, target, plan.direction)
  {
    PlanBetweenIsValid(state.version, target);
    PlansAreApplicable(state.version, target);
    if target > state.version {
      UpStepsArrive(state, target);
    } else if target < state.version {
      DownStepsArrive(state, target);
    }
  }
}
