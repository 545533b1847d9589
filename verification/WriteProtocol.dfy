/**
 * Many writers on one store: each prepares an update from the mirror, commits
 * its transaction without holding the mirror, and applies it to the mirror
 * later, in whatever order the writers get back to it
 * (src/database/persistent_store.cpp). Whole runs of such steps, with failed
 * transactions and restarts.
 */
module WriteProtocol {
  import opened Basics
  import opened EventMirror
  import opened Backend

  // ---- Single-step writes, mirror and tables together --------------------------

  function StoreEvent(m: Mirror, t: Tables, e: Event, online: bool): (Mirror, Tables, bool) {
    var committed := Commit(t, EventStatements(e), online);
    var (m', ok) := EventStored(m, e, committed.Some?);
    (m', if ok then committed.value else t, ok)
  }

  function StoreState(m: Mirror, t: Tables, entry: StateEntry, online: bool): (Mirror, Tables, bool) {
    var existing := Current(m.state, entry.tuple);
    var previous := if existing.Some? then existing.value else "";
    var committed := Commit(t, StateStatements(entry, previous != "", previous), online);
    var (m', ok) := StateStored(m, entry, committed.Some?);
    (m', if ok && existing != Some(entry.event) then committed.value else t, ok)
  }

  /** What `prepare_store_event_with_state` refuses. */
  predicate Refused(m: Mirror, e: Event, state: Option<StateEntry>) {
    HasEvent(m.events, e.id) || (state.Some? && !(state.value.event == e.id && IsStateFor(e, state.value.tuple)))
  }

  function Prepared(m: Mirror, e: Event, state: Option<StateEntry>, previous: Id): Update {
    if state.None? then Update(e, None, false, "")
    else Update(e, Some(state.value.tuple), Current(m.state, state.value.tuple).Some?, previous)
  }

  /** A mirror loaded from listed rows: relations re-derived, index rebuilt. */
  function Loaded(raw: Mirror): Mirror {
    Reconstructed(raw).(index := IndexOf(raw.transitions))
  }

  // ---- The system --------------------------------------------------------------

  type Writer = nat

  /** A committed update that the mirror does not show yet, with the number of its commit. */
  datatype Waiting = Waiting(update: Update, number: nat)

  /** What there was before a commit, and what the commit was for. */
  datatype Past = Past(ledger: Mirror, tables: Tables, room: Id, entry: Option<StateEntry>)

  /**
   * Beside the mirror, the tables and the updates on their way, a record of the
   * past: `ledger` is the mirror as it would be had every commit been applied at
   * once, `history` has one entry for each commit, `applied` is the commit last
   * applied for each tuple, and `committed` lists the events committed.
   */
  datatype World = World(
    mirror: Mirror, tables: Tables, prepared: map<Writer, Update>, pending: seq<Waiting>,
    ledger: Mirror, history: seq<Past>, applied: map<Tuple, nat>, committed: seq<Id>)

  datatype Action =
    | Prepare(writer: Writer, event: Event, state: Option<StateEntry>, previous: Id)
    | CommitUpdate(writer: Writer, online: bool)
    | Apply(i: nat)
    | WriteEvent(event: Event, online: bool)
    | WriteState(entry: StateEntry, online: bool)
    | Restart(raw: Mirror)

  const EMPTY_MIRROR := Mirror([], [], [], [], [], [], map[], [], [], [])

  const START := World(EMPTY_MIRROR, EMPTY_TABLES, map[], [], EMPTY_MIRROR, [], map[], [])

  function EntryOf(u: Update): Option<StateEntry> {
    if u.state.None? then None else Some(StateEntry(u.state.value, u.event.id))
  }

  function Removed(pending: seq<Waiting>, i: nat): seq<Waiting>
    requires i < |pending|
  {
    pending[..i] + pending[i + 1..]
  }

  /** Any writer may prepare at any time; the predecessor found is left open. */
  function DoPrepare(w: World, writer: Writer, e: Event, state: Option<StateEntry>, previous: Id): World {
    if Refused(w.mirror, e, state) then w
    else w.(prepared := w.prepared[writer := Prepared(w.mirror, e, state, previous)])
  }

  function Recorded(w: World, room: Id, entry: Option<StateEntry>): seq<Past> {
    w.history + [Past(w.ledger, w.tables, room, entry)]
  }

  function DoCommit(w: World, writer: Writer, online: bool): World {
    if writer !in w.prepared then w
    else
      var u := w.prepared[writer];
      var left := w.(prepared := w.prepared - {writer});
      var t := Commit(w.tables, UpdateStatements(u), online);
      if t.None? then left
      else left.(tables := t.value, pending := w.pending + [Waiting(u, |w.history|)],
                 ledger := UpdateApplied(w.ledger, u), history := Recorded(w, u.event.room, EntryOf(u)),
                 committed := w.committed + [u.event.id])
  }

  function DoApply(w: World, i: nat): World {
    if i >= |w.pending| then w
    else
      var u := w.pending[i].update;
      w.(mirror := UpdateApplied(w.mirror, u), pending := Removed(w.pending, i),
         applied := if u.state.None? then w.applied else w.applied[u.state.value := w.pending[i].number])
  }

  /** `store_event` and `store_state` commit and apply in one go, whatever else is pending. */
  function DoWriteEvent(w: World, e: Event, online: bool): World {
    var (m, t, ok) := StoreEvent(w.mirror, w.tables, e, online);
    if !ok then w
    else w.(mirror := m, tables := t, ledger := AddEvent(w.ledger, e), history := Recorded(w, e.room, None),
            committed := w.committed + [e.id])
  }

  function DoWriteState(w: World, entry: StateEntry, online: bool): World {
    var (m, t, ok) := StoreState(w.mirror, w.tables, entry, online);
    var existing := Current(w.mirror.state, entry.tuple);
    if !ok || existing == Some(entry.event) then w
    else w.(mirror := m, tables := t,
            ledger := MakeCurrent(w.ledger, entry, if existing.Some? then existing.value else ""),
            history := Recorded(w, entry.tuple.room, Some(entry)), applied := w.applied[entry.tuple := |w.history|])
  }

  /** The last commit for a tuple. */
  function Newest(history: seq<Past>, tuple: Tuple): (n: Option<nat>)
    ensures n.Some? ==> n.value < |history| && history[n.value].entry.Some? && history[n.value].entry.value.tuple == tuple
  {
    if history == [] then None
    else
      var last := |history| - 1;
      if history[last].entry.Some? && history[last].entry.value.tuple == tuple then Some(last)
      else Newest(history[..last], tuple)
  }

  /** The process dies and a new one loads the tables, in whatever row order they come. */
  ghost function DoRestart(w: World, raw: Mirror): World {
    if !Lists(raw, w.tables) then w
    else w.(mirror := Loaded(raw), prepared := map[], pending := [], ledger := Loaded(raw),
            applied := map tuple | tuple in w.tables.state && Newest(w.history, tuple).Some? :: Newest(w.history, tuple).value)
  }

  ghost function Do(w: World, a: Action): World {
    match a
    case Prepare(writer, e, state, previous) => DoPrepare(w, writer, e, state, previous)
    case CommitUpdate(writer, online) => DoCommit(w, writer, online)
    case Apply(i) => DoApply(w, i)
    case WriteEvent(e, online) => DoWriteEvent(w, e, online)
    case WriteState(entry, online) => DoWriteState(w, entry, online)
    case Restart(raw) => DoRestart(w, raw)
  }

  ghost function Run(w: World, actions: seq<Action>): World
    decreases actions
  {
    if actions == [] then w else Run(Do(w, actions[0]), actions[1..])
  }

  // ---- Rows are conserved --------------------------------------------------------

  // The rows an update on its way brings to each list of the mirror.
  function NewEvents(p: Waiting): seq<Event> { [p.update.event] }
  function NewEdges(p: Waiting): seq<Row<Id>> { RowsOf(p.update.event.id, p.update.event.prev) }
  function NewAuths(p: Waiting): seq<Row<Id>> { RowsOf(p.update.event.id, p.update.event.auth) }
  function NewSigs(p: Waiting): seq<Row<Signature>> { RowsOf(p.update.event.id, p.update.event.sigs) }
  function NewTransitions(p: Waiting): seq<Transition> {
    var u := p.update;
    if u.state.None? then [] else [Transition(u.state.value, u.event.id, u.previous)]
  }

  function Gather<T>(pending: seq<Waiting>, rows: Waiting -> seq<T>): seq<T> {
    if pending == [] then [] else rows(pending[0]) + Gather(pending[1..], rows)
  }

  lemma {:induction false} GatherAppend<T>(a: seq<Waiting>, b: seq<Waiting>, rows: Waiting -> seq<T>)
    ensures Gather(a + b, rows) == Gather(a, rows) + Gather(b, rows)
  {
    if a == [] {
      assert a + b == b;
    } else {
      assert (a + b)[0] == a[0] && (a + b)[1..] == a[1..] + b;
      GatherAppend(a[1..], b, rows);
    }
  }

  lemma GatherOne<T>(p: Waiting, rows: Waiting -> seq<T>)
    ensures Gather([p], rows) == rows(p)
  {
    assert Gather([p], rows) == rows(p) + Gather([], rows);
  }

  /** What is shown and what is on its way are together what was committed, each row as often. */
  ghost predicate Conserved<T>(shown: seq<T>, pending: seq<Waiting>, rows: Waiting -> seq<T>, all: seq<T>) {
    multiset(shown) + multiset(Gather(pending, rows)) == multiset(all)
  }

  lemma ConservedByCommit<T>(shown: seq<T>, pending: seq<Waiting>, rows: Waiting -> seq<T>, all: seq<T>, p: Waiting)
    requires Conserved(shown, pending, rows, all)
    ensures Conserved(shown, pending + [p], rows, all + rows(p))
  {
    GatherAppend(pending, [p], rows);
    GatherOne(p, rows);
    hide Gather;
  }

  lemma ConservedByApply<T>(shown: seq<T>, pending: seq<Waiting>, rows: Waiting -> seq<T>, all: seq<T>, i: nat)
    requires Conserved(shown, pending, rows, all) && i < |pending|
    ensures Conserved(shown + rows(pending[i]), Removed(pending, i), rows, all)
  {
    var before, after := pending[..i], pending[i + 1..];
    assert pending == before + ([pending[i]] + after);
    GatherAppend(before, [pending[i]] + after, rows);
    GatherAppend([pending[i]], after, rows);
    GatherOne(pending[i], rows);
    GatherAppend(before, after, rows);
    hide Gather;
  }

  lemma ConservedByWrite<T>(shown: seq<T>, pending: seq<Waiting>, rows: Waiting -> seq<T>, all: seq<T>, more: seq<T>)
    requires Conserved(shown, pending, rows, all)
    ensures Conserved(shown + more, pending, rows, all + more)
  {
  }

  ghost predicate RowsConserved(m: Mirror, pending: seq<Waiting>, ledger: Mirror) {
    Conserved(m.events, pending, NewEvents, ledger.events) &&
    Conserved(m.edges, pending, NewEdges, ledger.edges) &&
    Conserved(m.auths, pending, NewAuths, ledger.auths) &&
    Conserved(m.sigs, pending, NewSigs, ledger.sigs) &&
    Conserved(m.transitions, pending, NewTransitions, ledger.transitions)
  }

  /** What applying an update that is not there yet does to each list. */
  lemma AppliedRows(m: Mirror, p: Waiting)
    requires !HasEvent(m.events, p.update.event.id)
    ensures var n := UpdateApplied(m, p.update);
            n.events == m.events + NewEvents(p) && n.edges == m.edges + NewEdges(p) && n.auths == m.auths + NewAuths(p) &&
            n.sigs == m.sigs + NewSigs(p) && n.transitions == m.transitions + NewTransitions(p) &&
            n.state == (if p.update.state.None? then m.state
                        else SetCurrent(m.state, p.update.state.value, p.update.event.id))
  {
    assert m.transitions + [] == m.transitions;
  }

  lemma CommitConserves(m: Mirror, pending: seq<Waiting>, ledger: Mirror, p: Waiting)
    requires RowsConserved(m, pending, ledger) && !HasEvent(ledger.events, p.update.event.id)
    ensures RowsConserved(m, pending + [p], UpdateApplied(ledger, p.update))
  {
    AppliedRows(ledger, p);
    hide Conserved, UpdateApplied;
    ConservedByCommit(m.events, pending, NewEvents, ledger.events, p);
    ConservedByCommit(m.edges, pending, NewEdges, ledger.edges, p);
    ConservedByCommit(m.auths, pending, NewAuths, ledger.auths, p);
    ConservedByCommit(m.sigs, pending, NewSigs, ledger.sigs, p);
    ConservedByCommit(m.transitions, pending, NewTransitions, ledger.transitions, p);
  }

  lemma ApplyConserves(m: Mirror, pending: seq<Waiting>, ledger: Mirror, i: nat)
    requires RowsConserved(m, pending, ledger) && i < |pending| && !HasEvent(m.events, pending[i].update.event.id)
    ensures RowsConserved(UpdateApplied(m, pending[i].update), Removed(pending, i), ledger)
  {
    AppliedRows(m, pending[i]);
    hide Conserved, UpdateApplied;
    ConservedByApply(m.events, pending, NewEvents, ledger.events, i);
    ConservedByApply(m.edges, pending, NewEdges, ledger.edges, i);
    ConservedByApply(m.auths, pending, NewAuths, ledger.auths, i);
    ConservedByApply(m.sigs, pending, NewSigs, ledger.sigs, i);
    ConservedByApply(m.transitions, pending, NewTransitions, ledger.transitions, i);
  }

  lemma WriteEventConserves(m: Mirror, pending: seq<Waiting>, ledger: Mirror, e: Event)
    requires RowsConserved(m, pending, ledger)
    ensures RowsConserved(AddEvent(m, e), pending, AddEvent(ledger, e))
  {
    hide Conserved;
    ConservedByWrite(m.events, pending, NewEvents, ledger.events, [e]);
    ConservedByWrite(m.edges, pending, NewEdges, ledger.edges, RowsOf(e.id, e.prev));
    ConservedByWrite(m.auths, pending, NewAuths, ledger.auths, RowsOf(e.id, e.auth));
    ConservedByWrite(m.sigs, pending, NewSigs, ledger.sigs, RowsOf(e.id, e.sigs));
  }

  lemma WriteStateConserves(m: Mirror, pending: seq<Waiting>, ledger: Mirror, entry: StateEntry, previous: Id)
    requires RowsConserved(m, pending, ledger)
    ensures RowsConserved(MakeCurrent(m, entry, previous), pending, MakeCurrent(ledger, entry, previous))
  {
    hide Conserved;
    ConservedByWrite(m.transitions, pending, NewTransitions, ledger.transitions,
                     [Transition(entry.tuple, entry.event, previous)]);
  }

  /** An update on its way is not in the mirror yet. */
  lemma NotShownYet(shown: seq<Event>, pending: seq<Waiting>, all: seq<Event>, i: nat)
    requires Conserved(shown, pending, NewEvents, all) && UniqueIds(all) && i < |pending|
    ensures !HasEvent(shown, pending[i].update.event.id)
  {
    var e := pending[i].update.event;
    ConservedByApply(shown, pending, NewEvents, all, i);
    NoDupCount(all, e);
    var more := shown + [e];
    assert multiset(more) <= multiset(all);
    assert multiset(more)[e] == multiset(shown)[e] + 1;
    assert e !in multiset(shown);
    forall k | 0 <= k < |shown|
      ensures shown[k].id != e.id
    {
      assert shown[k] in multiset(more) && e in multiset(more);
      assert shown[k] in all && e in all && shown[k] in multiset(shown);
    }
  }

  // ---- Current state and the commits it comes from -------------------------------

  ghost predicate UniqueTuples(state: seq<StateEntry>) {
    forall i, j :: 0 <= i < j < |state| ==> state[i].tuple != state[j].tuple
  }

  lemma SetKeepsUnique(state: seq<StateEntry>, tuple: Tuple, event: Id)
    requires UniqueTuples(state)
    ensures UniqueTuples(SetCurrent(state, tuple, event))
  {
    var i := SetCurrentPosition(state, tuple);
    if i < |state| {
      SetAt(state, tuple, event, i);
    } else {
      SetAtEnd(state, tuple, event);
    }
  }

  /** The commit last applied for a tuple. */
  function LastApplied(applied: map<Tuple, nat>, tuple: Tuple): Option<nat> {
    if tuple in applied then Some(applied[tuple]) else None
  }

  /** What is current for the tuple is what that commit made current. */
  ghost predicate ComesFrom(state: seq<StateEntry>, tuple: Tuple, history: seq<Past>, n: Option<nat>) {
    if n.None? then Current(state, tuple).None?
    else
      n.value < |history| && Current(state, tuple).Some? &&
      history[n.value].entry == Some(StateEntry(tuple, Current(state, tuple).value))
  }

  ghost predicate HasTransition(transitions: seq<Transition>, entry: StateEntry) {
    exists i :: 0 <= i < |transitions| && transitions[i].tuple == entry.tuple && transitions[i].event == entry.event
  }

  /** No two commits made the same event current for the same tuple. */
  ghost predicate EntriesDistinct(history: seq<Past>) {
    forall i, j :: 0 <= i < j < |history| && history[i].entry.Some? ==> history[i].entry != history[j].entry
  }

  ghost predicate IsWaiting(pending: seq<Waiting>, n: nat) {
    exists i :: 0 <= i < |pending| && pending[i].number == n
  }

  // ---- The invariant -----------------------------------------------------------

  /** An update prepared as an overwrite has a row to overwrite. */
  ghost predicate FindsRow(u: Update, t: Tables) {
    u.state.Some? && u.existed ==> u.state.value in t.state
  }

  /** A state event is state of its own room. */
  predicate OwnRoom(u: Update) {
    u.state.Some? ==> u.state.value.room == u.event.room
  }

  ghost predicate PastListed(history: seq<Past>) {
    forall n :: 0 <= n < |history| ==> Lists(history[n].ledger, history[n].tables) && MirrorOk(history[n].ledger)
  }

  ghost predicate PreparedOk(prepared: map<Writer, Update>, t: Tables) {
    forall writer :: writer in prepared ==> FindsRow(prepared[writer], t) && OwnRoom(prepared[writer])
  }

  ghost predicate CommittedOnce(committed: seq<Id>, t: Tables) {
    NoDup(committed) && forall id :: id in committed ==> id in t.events
  }

  /** For every tuple, a list of state shows what the given commit made current. */
  ghost predicate StateFrom(state: seq<StateEntry>, history: seq<Past>, commit: Tuple -> Option<nat>) {
    forall tuple :: ComesFrom(state, tuple, history, commit(tuple))
  }

  function AppliedCommit(applied: map<Tuple, nat>): Tuple -> Option<nat> {
    (tuple: Tuple) => LastApplied(applied, tuple)
  }

  function NewestCommit(history: seq<Past>): Tuple -> Option<nat> {
    (tuple: Tuple) => Newest(history, tuple)
  }

  /** The commits that made something current, no two the same thing, and the transitions there are. */
  ghost predicate EntriesRecorded(history: seq<Past>, transitions: seq<Transition>) {
    EntriesDistinct(history) &&
    (forall n :: 0 <= n < |history| && history[n].entry.Some? ==> HasTransition(transitions, history[n].entry.value)) &&
    forall t :: t in transitions ==> Newest(history, t.tuple).Some?
  }

  ghost predicate InHistory(history: seq<Past>, p: Waiting) {
    p.number < |history| && history[p.number].entry == EntryOf(p.update) &&
    history[p.number].room == p.update.event.room && OwnRoom(p.update)
  }

  /** Updates wait in commit order, and a commit for a tuple is on its way unless some commit for it was applied. */
  ghost predicate PendingOk(pending: seq<Waiting>, history: seq<Past>, applied: map<Tuple, nat>) {
    (forall i :: 0 <= i < |pending| ==> InHistory(history, pending[i])) &&
    (forall i, j :: 0 <= i < j < |pending| ==> pending[i].number < pending[j].number) &&
    forall n :: 0 <= n < |history| && history[n].entry.Some? ==>
      IsWaiting(pending, n) || history[n].entry.value.tuple in applied
  }

  ghost predicate Inv(w: World) {
    MirrorOk(w.mirror) && MirrorOk(w.ledger) && Lists(w.ledger, w.tables) && PastListed(w.history) &&
    PreparedOk(w.prepared, w.tables) && CommittedOnce(w.committed, w.tables) &&
    RowsConserved(w.mirror, w.pending, w.ledger) && PendingOk(w.pending, w.history, w.applied) &&
    UniqueTuples(w.mirror.state) && StateFrom(w.mirror.state, w.history, AppliedCommit(w.applied)) &&
    StateFrom(w.ledger.state, w.history, NewestCommit(w.history)) && EntriesRecorded(w.history, w.ledger.transitions)
  }

  // ---- Helpers about state and commits -------------------------------------------

  lemma {:induction false} NewestBounds(history: seq<Past>, tuple: Tuple, n: nat)
    requires n < |history| && history[n].entry.Some? && history[n].entry.value.tuple == tuple
    ensures Newest(history, tuple).Some? && n <= Newest(history, tuple).value
    decreases |history|
  {
    var last := |history| - 1;
    if n < last {
      NewestBounds(history[..last], tuple, n);
    }
  }

  lemma NewestAppend(history: seq<Past>, past: Past, tuple: Tuple)
    ensures Newest(history + [past], tuple) ==
            if past.entry.Some? && past.entry.value.tuple == tuple then Some(|history|) else Newest(history, tuple)
  {
    assert (history + [past])[..|history|] == history;
  }

  lemma ListedTuplesUnique(state: seq<StateEntry>, table: map<Tuple, StateEntry>)
    requires ListsTable(state, StateKey, Same, table)
    ensures UniqueTuples(state)
  {
    forall i, j | 0 <= i < j < |state|
      ensures state[i].tuple != state[j].tuple
    {
      assert StateKey(state[i]) != StateKey(state[j]);
    }
  }

  /** What a listing shows as current is what the table has. */
  lemma CurrentOfListing(state: seq<StateEntry>, table: map<Tuple, StateEntry>, tuple: Tuple)
    requires ListsTable(state, StateKey, Same, table)
    ensures Current(state, tuple) == if tuple in table then Some(table[tuple].event) else None
  {
    var i := SetCurrentPosition(state, tuple);
    assert tuple in table ==> exists k :: 0 <= k < |state| && StateKey(state[k]) == tuple;
    if i < |state| {
      SetAt(state, tuple, "", i);
      assert StateKey(state[i]) in table && table[StateKey(state[i])] == Same(state[i]);
    } else {
      SetAtEnd(state, tuple, "");
    }
  }

  /** What the mirror shows for a tuple has a row in the tables. */
  lemma ShownIsStored(w: World, tuple: Tuple)
    requires Inv(w)
    ensures Current(w.mirror.state, tuple).Some? ==> tuple in w.tables.state
  {
    assert ComesFrom(w.mirror.state, tuple, w.history, AppliedCommit(w.applied)(tuple));
    assert ComesFrom(w.ledger.state, tuple, w.history, NewestCommit(w.history)(tuple));
    CurrentOfListing(w.ledger.state, w.tables.state, tuple);
    if Current(w.mirror.state, tuple).Some? {
      NewestBounds(w.history, tuple, w.applied[tuple]);
    }
  }

  /** A transition listed last has a key that was not listed before. */
  lemma NewKeyIsNew(transitions: seq<Transition>, t: Transition, table: map<(Tuple, Id), Transition>)
    requires ListsTable(transitions + [t], TransitionKey, Same, table)
    ensures !HasTransition(transitions, StateEntry(t.tuple, t.event))
  {
    var all := transitions + [t];
    forall i | 0 <= i < |transitions|
      ensures !(transitions[i].tuple == t.tuple && transitions[i].event == t.event)
    {
      assert TransitionKey(all[i]) != TransitionKey(all[|transitions|]);
    }
  }

  // ---- Every step keeps the invariant --------------------------------------------

  lemma PreparedUpdateOk(w: World, e: Event, state: Option<StateEntry>, previous: Id)
    requires Inv(w) && !Refused(w.mirror, e, state)
    ensures var u := Prepared(w.mirror, e, state, previous); FindsRow(u, w.tables) && OwnRoom(u)
  {
    if state.Some? {
      ShownIsStored(w, state.value.tuple);
    }
    hide Inv, Current, HasEvent;
  }

  lemma PrepareKeepsInv(w: World, writer: Writer, e: Event, state: Option<StateEntry>, previous: Id)
    requires Inv(w)
    ensures Inv(DoPrepare(w, writer, e, state, previous))
  {
    hide Lists, MirrorOk, StateFrom, EntriesRecorded, RowsConserved, PendingOk, UniqueTuples, PastListed, CommittedOnce;
    hide Refused, Prepared, FindsRow, OwnRoom;
    if !Refused(w.mirror, e, state) {
      PreparedUpdateOk(w, e, state, previous);
      PreparedOneMore(w.prepared, w.tables, writer, Prepared(w.mirror, e, state, previous));
      hide PreparedOk;
    }
  }

  lemma PreparedOneMore(prepared: map<Writer, Update>, t: Tables, writer: Writer, u: Update)
    requires PreparedOk(prepared, t) && FindsRow(u, t) && OwnRoom(u)
    ensures PreparedOk(prepared[writer := u], t)
  {
  }

  lemma ExecGrows(t: Tables, s: Statement)
    requires Exec(t, s).Some?
    ensures t.events.Keys <= Exec(t, s).value.events.Keys && t.state.Keys <= Exec(t, s).value.state.Keys
  {
  }

  lemma {:induction false} ExecAllGrows(t: Tables, statements: seq<Statement>)
    requires ExecAll(t, statements).Some?
    ensures var t' := ExecAll(t, statements).value;
            t.events.Keys <= t'.events.Keys && t.state.Keys <= t'.state.Keys
    decreases statements
  {
    if statements != [] {
      ExecGrows(t, statements[0]);
      hide Exec;
      ExecAllGrows(Exec(t, statements[0]).value, statements[1..]);
    }
  }

  /** A committed update's event was new, and no event is ever lost. */
  lemma UpdateAddsEvent(t: Tables, u: Update)
    requires ExecAll(t, UpdateStatements(u)).Some?
    ensures u.event.id !in t.events
    ensures var t' := ExecAll(t, UpdateStatements(u)).value;
            t.events.Keys <= t'.events.Keys && u.event.id in t'.events
  {
    var statements := UpdateStatements(u);
    assert statements[0] == InsertEvent(u.event);
    ExecAllGrows(Exec(t, statements[0]).value, statements[1..]);
  }

  lemma StateFromLater(state: seq<StateEntry>, history: seq<Past>, past: Past, commit: Tuple -> Option<nat>)
    requires StateFrom(state, history, commit)
    ensures StateFrom(state, history + [past], commit)
  {
    forall tuple
      ensures ComesFrom(state, tuple, history + [past], commit(tuple))
    {
      assert ComesFrom(state, tuple, history, commit(tuple));
    }
  }

  /** The list of state after a commit, as the commit changes it. */
  function StateAfter(state: seq<StateEntry>, entry: Option<StateEntry>): seq<StateEntry> {
    if entry.None? then state else SetCurrent(state, entry.value.tuple, entry.value.event)
  }

  lemma StateFromNewest(state: seq<StateEntry>, history: seq<Past>, past: Past)
    requires StateFrom(state, history, NewestCommit(history))
    ensures StateFrom(StateAfter(state, past.entry), history + [past], NewestCommit(history + [past]))
  {
    var after, history' := StateAfter(state, past.entry), history + [past];
    forall tuple
      ensures ComesFrom(after, tuple, history', NewestCommit(history')(tuple))
    {
      assert ComesFrom(state, tuple, history, NewestCommit(history)(tuple));
      NewestAppend(history, past, tuple);
      if past.entry.Some? {
        CurrentOfSet(state, past.entry.value.tuple, past.entry.value.event, tuple);
      }
    }
  }

  lemma StateFromApplied(state: seq<StateEntry>, history: seq<Past>, applied: map<Tuple, nat>, n: nat, entry: StateEntry)
    requires StateFrom(state, history, AppliedCommit(applied)) && n < |history| && history[n].entry == Some(entry)
    ensures StateFrom(SetCurrent(state, entry.tuple, entry.event), history, AppliedCommit(applied[entry.tuple := n]))
  {
    var after, applied' := SetCurrent(state, entry.tuple, entry.event), applied[entry.tuple := n];
    forall tuple
      ensures ComesFrom(after, tuple, history, AppliedCommit(applied')(tuple))
    {
      assert ComesFrom(state, tuple, history, AppliedCommit(applied)(tuple));
      CurrentOfSet(state, entry.tuple, entry.event, tuple);
    }
  }

  lemma HasTransitionAppend(transitions: seq<Transition>, t: Transition, entry: StateEntry)
    ensures HasTransition(transitions, entry) ==> HasTransition(transitions + [t], entry)
    ensures HasTransition(transitions + [t], StateEntry(t.tuple, t.event))
  {
    var all := transitions + [t];
    assert all[|transitions|] == t;
    if i :| 0 <= i < |transitions| && transitions[i].tuple == entry.tuple && transitions[i].event == entry.event {
      assert all[i] == transitions[i];
    }
  }

  lemma NewestStays(history: seq<Past>, past: Past, transitions: seq<Transition>)
    requires forall t :: t in transitions ==> Newest(history, t.tuple).Some?
    ensures forall t :: t in transitions ==> Newest(history + [past], t.tuple).Some?
  {
    forall t | t in transitions
      ensures Newest(history + [past], t.tuple).Some?
    {
      NewestAppend(history, past, t.tuple);
    }
  }

  lemma EntriesWithout(history: seq<Past>, past: Past, transitions: seq<Transition>)
    requires EntriesRecorded(history, transitions) && past.entry.None?
    ensures EntriesRecorded(history + [past], transitions)
  {
    NewestStays(history, past, transitions);
    hide Newest, HasTransition;
  }

  lemma EntriesWith(history: seq<Past>, past: Past, transitions: seq<Transition>, t: Transition)
    requires EntriesRecorded(history, transitions) && past.entry == Some(StateEntry(t.tuple, t.event))
    requires !HasTransition(transitions, past.entry.value)
    ensures EntriesRecorded(history + [past], transitions + [t])
  {
    var history' := history + [past];
    NewestStays(history, past, transitions);
    NewestAppend(history, past, t.tuple);
    hide Newest;
    forall n | 0 <= n < |history'| && history'[n].entry.Some?
      ensures HasTransition(transitions + [t], history'[n].entry.value)
    {
      HasTransitionAppend(transitions, t, history'[n].entry.value);
    }
    hide HasTransition;
  }

  lemma WaitingAppend(pending: seq<Waiting>, p: Waiting, n: nat)
    ensures IsWaiting(pending + [p], n) <==> IsWaiting(pending, n) || p.number == n
  {
    var all := pending + [p];
    assert all[|pending|] == p;
    if i :| 0 <= i < |pending| && pending[i].number == n {
      assert all[i] == pending[i];
    }
  }

  lemma PendingByCommit(pending: seq<Waiting>, history: seq<Past>, applied: map<Tuple, nat>, past: Past, p: Waiting)
    requires PendingOk(pending, history, applied) && p.number == |history| && InHistory(history + [past], p)
    ensures PendingOk(pending + [p], history + [past], applied)
  {
    var history' := history + [past];
    forall n | 0 <= n < |history'| && history'[n].entry.Some?
      ensures IsWaiting(pending + [p], n) || history'[n].entry.value.tuple in applied
    {
      WaitingAppend(pending, p, n);
    }
  }

  lemma PendingByWrite(pending: seq<Waiting>, history: seq<Past>, applied: map<Tuple, nat>, past: Past)
    requires PendingOk(pending, history, applied)
    ensures past.entry.None? ==> PendingOk(pending, history + [past], applied)
    ensures past.entry.Some? ==> PendingOk(pending, history + [past], applied[past.entry.value.tuple := |history|])
  {
  }

  lemma WaitingRemoved(pending: seq<Waiting>, i: nat, n: nat)
    requires i < |pending|
    ensures IsWaiting(pending, n) && pending[i].number != n ==> IsWaiting(Removed(pending, i), n)
  {
    if IsWaiting(pending, n) && pending[i].number != n {
      var j :| 0 <= j < |pending| && pending[j].number == n;
      var rest := Removed(pending, i);
      assert if j < i then rest[j] == pending[j] else rest[j - 1] == pending[j];
    }
  }

  lemma PendingByApply(pending: seq<Waiting>, history: seq<Past>, applied: map<Tuple, nat>, i: nat)
    requires PendingOk(pending, history, applied) && i < |pending|
    ensures var u := pending[i].update;
            PendingOk(Removed(pending, i), history,
                      if u.state.None? then applied else applied[u.state.value := pending[i].number])
  {
    assert InHistory(history, pending[i]);
    var rest := Removed(pending, i);
    forall k | 0 <= k < |rest|
      ensures rest[k] == if k < i then pending[k] else pending[k + 1]
    {
    }
    forall n | 0 <= n < |history| && history[n].entry.Some?
      ensures IsWaiting(rest, n) || n == pending[i].number || history[n].entry.value.tuple in applied
    {
      WaitingRemoved(pending, i, n);
    }
    hide IsWaiting, Removed;
  }

  lemma PreparedLater(prepared: map<Writer, Update>, t: Tables, t': Tables)
    requires PreparedOk(prepared, t) && t.state.Keys <= t'.state.Keys
    ensures PreparedOk(prepared, t')
  {
  }

  lemma PastListedAppend(history: seq<Past>, past: Past)
    requires PastListed(history) && Lists(past.ledger, past.tables) && MirrorOk(past.ledger)
    ensures PastListed(history + [past])
  {
    hide Lists, MirrorOk;
  }

  lemma NotInLedger(ledger: Mirror, t: Tables, id: Id)
    requires Lists(ledger, t) && id !in t.events
    ensures !HasEvent(ledger.events, id)
  {
    ListedEvent(ledger, t, id);
  }

  lemma CommittedOneMore(committed: seq<Id>, t: Tables, t': Tables, id: Id)
    requires CommittedOnce(committed, t) && id !in t.events && t.events.Keys <= t'.events.Keys && id in t'.events
    ensures CommittedOnce(committed + [id], t')
  {
  }

  lemma LastTransitionNew(m: Mirror, t: Tables, transitions: seq<Transition>, row: Transition)
    requires Lists(m, t) && m.transitions == transitions + [row]
    ensures !HasTransition(transitions, StateEntry(row.tuple, row.event))
  {
    NewKeyIsNew(transitions, row, t.transitions);
  }

  /** A committed update: what the ledger and the record of commits become. */
  lemma CommitExtendsLedger(ledger: Mirror, t: Tables, history: seq<Past>, u: Update, past: Past)
    requires MirrorOk(ledger) && Lists(ledger, t) && FindsRow(u, t) && ExecAll(t, UpdateStatements(u)).Some?
    requires StateFrom(ledger.state, history, NewestCommit(history)) && EntriesRecorded(history, ledger.transitions)
    requires past.entry == EntryOf(u)
    ensures var ledger', t' := UpdateApplied(ledger, u), ExecAll(t, UpdateStatements(u)).value;
            MirrorOk(ledger') && Lists(ledger', t') && t.state.Keys <= t'.state.Keys &&
            StateFrom(ledger'.state, history + [past], NewestCommit(history + [past])) &&
            EntriesRecorded(history + [past], ledger'.transitions)
  {
    ApplyLists(ledger, t, u);
    NotInLedger(ledger, t, u.event.id);
    ApplyKeepsMirror(ledger, u);
    AppliedRows(ledger, Waiting(u, 0));
    var ledger', t' := UpdateApplied(ledger, u), ExecAll(t, UpdateStatements(u)).value;
    hide MirrorOk, Lists, StateFrom, EntriesRecorded, HasTransition, ExecAll, UpdateStatements, UpdateApplied, HasEvent, SetCurrent;
    StateFromNewest(ledger.state, history, past);
    if u.state.None? {
      assert ledger'.transitions == ledger.transitions + [] == ledger.transitions;
      EntriesWithout(history, past, ledger.transitions);
    } else {
      var row := Transition(u.state.value, u.event.id, u.previous);
      LastTransitionNew(ledger', t', ledger.transitions, row);
      EntriesWith(history, past, ledger.transitions, row);
    }
  }

  lemma CommitKeepsInv(w: World, writer: Writer, online: bool)
    requires Inv(w)
    ensures Inv(DoCommit(w, writer, online))
  {
    hide MirrorOk, Lists, StateFrom, EntriesRecorded, RowsConserved, UniqueTuples, UpdateApplied, ExecAll, UpdateStatements;
    if writer in w.prepared {
      var u := w.prepared[writer];
      assert PreparedOk(w.prepared - {writer}, w.tables);
      if Commit(w.tables, UpdateStatements(u), online).Some? {
        CommittedKeepsInv(w, writer, online);
      }
    }
  }

  lemma CommittedKeepsInv(w: World, writer: Writer, online: bool)
    requires Inv(w) && writer in w.prepared && Commit(w.tables, UpdateStatements(w.prepared[writer]), online).Some?
    ensures Inv(DoCommit(w, writer, online))
  {
    var u := w.prepared[writer];
    var past, p := Past(w.ledger, w.tables, u.event.room, EntryOf(u)), Waiting(u, |w.history|);
    hide MirrorOk, Lists, StateFrom, EntriesRecorded, RowsConserved, UniqueTuples, UpdateApplied, ExecAll, UpdateStatements;
    hide PastListed, PendingOk, CommittedOnce, HasEvent;
    var w' := DoCommit(w, writer, online);
    CommitExtendsLedger(w.ledger, w.tables, w.history, u, past);
    UpdateAddsEvent(w.tables, u);
    PreparedLater(w.prepared - {writer}, w.tables, w'.tables);
    PastListedAppend(w.history, past);
    CommittedOneMore(w.committed, w.tables, w'.tables, u.event.id);
    NotInLedger(w.ledger, w.tables, u.event.id);
    CommitConserves(w.mirror, w.pending, w.ledger, p);
    PendingByCommit(w.pending, w.history, w.applied, past, p);
    StateFromLater(w.mirror.state, w.history, past, AppliedCommit(w.applied));
  }

  lemma ApplyKeepsInv(w: World, i: nat)
    requires Inv(w)
    ensures Inv(DoApply(w, i))
  {
    if i < |w.pending| {
      var p := w.pending[i];
      assert InHistory(w.history, p);
      NotShownYet(w.mirror.events, w.pending, w.ledger.events, i);
      AppliedRows(w.mirror, p);
      ApplyKeepsMirror(w.mirror, p.update);
      hide MirrorOk, Lists, StateFrom, EntriesRecorded, RowsConserved, UniqueTuples, UpdateApplied, PastListed, PendingOk;
      hide CommittedOnce, PreparedOk, HasEvent, SetCurrent;
      ApplyConserves(w.mirror, w.pending, w.ledger, i);
      PendingByApply(w.pending, w.history, w.applied, i);
      if p.update.state.Some? {
        StateFromApplied(w.mirror.state, w.history, w.applied, p.number, EntryOf(p.update).value);
        SetKeepsUnique(w.mirror.state, p.update.state.value, p.update.event.id);
      }
    }
  }

  lemma WriteEventKeepsInv(w: World, e: Event, online: bool)
    requires Inv(w)
    ensures Inv(DoWriteEvent(w, e, online))
  {
    hide MirrorOk, Lists, StateFrom, EntriesRecorded, RowsConserved, UniqueTuples, ExecAll, EventStatements;
    hide PastListed, PendingOk, CommittedOnce, PreparedOk, HasEvent;
    if StoreEvent(w.mirror, w.tables, e, online).2 {
      var w', past := DoWriteEvent(w, e, online), Past(w.ledger, w.tables, e.room, None);
      AddEventLists(w.ledger, w.tables, e);
      StoreEventKeepsMirror(w.mirror, e, true);
      StoreEventKeepsMirror(w.ledger, e, true);
      WriteEventConserves(w.mirror, w.pending, w.ledger, e);
      PreparedLater(w.prepared, w.tables, w'.tables);
      PastListedAppend(w.history, past);
      CommittedOneMore(w.committed, w.tables, w'.tables, e.id);
      PendingByWrite(w.pending, w.history, w.applied, past);
      StateFromLater(w.mirror.state, w.history, past, AppliedCommit(w.applied));
      StateFromNewest(w.ledger.state, w.history, past);
      EntriesWithout(w.history, past, w.ledger.transitions);
    }
  }

  /** A state write that went through, on the ledger's side. */
  lemma WriteStateExtendsLedger(w: World, entry: StateEntry, online: bool)
    requires Inv(w) && StoreState(w.mirror, w.tables, entry, online).2
    requires Current(w.mirror.state, entry.tuple) != Some(entry.event)
    ensures var w' := DoWriteState(w, entry, online);
            var existing := Current(w.mirror.state, entry.tuple);
            var previous := if existing.Some? then existing.value else "";
            w'.mirror == MakeCurrent(w.mirror, entry, previous) && w'.ledger == MakeCurrent(w.ledger, entry, previous) &&
            Lists(w'.ledger, w'.tables) && w'.tables.events == w.tables.events && w.tables.state.Keys <= w'.tables.state.Keys &&
            !HasTransition(w.ledger.transitions, entry)
  {
    var existing := Current(w.mirror.state, entry.tuple);
    var previous := if existing.Some? then existing.value else "";
    ShownIsStored(w, entry.tuple);
    hide Lists, StateIsPersisted, ExecAll, StateStatements;
    MakeCurrentLists(w.ledger, w.tables, entry, previous != "", previous);
    var w' := DoWriteState(w, entry, online);
    LastTransitionNew(w'.ledger, w'.tables, w.ledger.transitions, Transition(entry.tuple, entry.event, previous));
  }

  lemma WriteStateKeepsInv(w: World, entry: StateEntry, online: bool)
    requires Inv(w)
    ensures Inv(DoWriteState(w, entry, online))
  {
    if StoreState(w.mirror, w.tables, entry, online).2 && Current(w.mirror.state, entry.tuple) != Some(entry.event) {
      WriteStateExtendsLedger(w, entry, online);
      WrittenStateKeepsInv(w, entry, online);
    }
  }

  lemma WrittenStateKeepsInv(w: World, entry: StateEntry, online: bool)
    requires Inv(w) && StoreState(w.mirror, w.tables, entry, online).2
    requires Current(w.mirror.state, entry.tuple) != Some(entry.event)
    ensures Inv(DoWriteState(w, entry, online))
  {
    var existing := Current(w.mirror.state, entry.tuple);
    var previous := if existing.Some? then existing.value else "";
    var w', past := DoWriteState(w, entry, online), Past(w.ledger, w.tables, entry.tuple.room, Some(entry));
    WriteStateExtendsLedger(w, entry, online);
    hide MirrorOk, Lists, StateFrom, EntriesRecorded, RowsConserved, UniqueTuples, HasTransition, PastListed, PendingOk;
    hide PreparedOk, StoreState, Current, SetCurrent;
    var row := Transition(entry.tuple, entry.event, previous);
    MakeCurrentKeepsMirror(w.mirror, entry, previous);
    MakeCurrentKeepsMirror(w.ledger, entry, previous);
    WriteStateConserves(w.mirror, w.pending, w.ledger, entry, previous);
    PreparedLater(w.prepared, w.tables, w'.tables);
    PastListedAppend(w.history, past);
    PendingByWrite(w.pending, w.history, w.applied, past);
    StateFromLater(w.mirror.state, w.history, past, AppliedCommit(w.applied));
    StateFromApplied(w.mirror.state, w.history + [past], w.applied, |w.history|, entry);
    SetKeepsUnique(w.mirror.state, entry.tuple, entry.event);
    StateFromNewest(w.ledger.state, w.history, past);
    EntriesWith(w.history, past, w.ledger.transitions, row);
  }

  lemma MakeCurrentKeepsMirror(m: Mirror, entry: StateEntry, previous: Id)
    requires MirrorOk(m)
    ensures MirrorOk(MakeCurrent(m, entry, previous))
  {
    MakeCurrentKeeps(m, entry, previous);
  }

  /** A state write that changes something does to the tables what it does to the mirror. */
  lemma StoreStateLists(m: Mirror, t: Tables, entry: StateEntry, online: bool)
    requires Lists(m, t) && MirrorOk(m) && StoreState(m, t, entry, online).2
    ensures var (m', t', ok) := StoreState(m, t, entry, online);
            Lists(m', t') && MirrorOk(m') && t'.events == t.events && t.state.Keys <= t'.state.Keys
  {
    var existing := Current(m.state, entry.tuple);
    if existing != Some(entry.event) {
      var previous := if existing.Some? then existing.value else "";
      SetCurrentLists(m.state, t.state, entry);
      StoreStateKeepsMirror(m, entry, true);
      hide ListsTable, MirrorOk, Lists, ExecAll, StateStatements, MakeCurrent;
      MakeCurrentLists(m, t, entry, previous != "", previous);
    }
  }

  /** A relation table listed without orphans has none however it is listed. */
  lemma RelistedOrphans<T(!new), K(!new)>(
    events: seq<Event>, rows: seq<Row<T>>, events': seq<Event>, rows': seq<Row<T>>,
    key: Row<T> -> K, t: map<Id, Event>, table: map<K, Row<T>>)
    requires ListsTable(events, EventKey, Bare, t) && ListsTable(events', EventKey, Bare, t)
    requires ListsTable(rows, key, Same, table) && ListsTable(rows', key, Same, table)
    requires NoOrphans(events, rows)
    ensures NoOrphans(events', rows')
  {
    forall r | r in rows'
      ensures HasEvent(events', r.event)
    {
      var i :| 0 <= i < |rows'| && rows'[i] == r;
      assert key(rows'[i]) in table;
      var j :| 0 <= j < |rows| && key(rows[j]) == key(r);
      assert rows[j] == r && r in rows;
      var k :| 0 <= k < |events| && events[k].id == r.event;
      assert EventKey(events[k]) in t;
      var l :| 0 <= l < |events'| && EventKey(events'[l]) == r.event;
    }
  }

  lemma ListedIdsUnique(events: seq<Event>, t: map<Id, Event>)
    requires ListsTable(events, EventKey, Bare, t)
    ensures UniqueIds(events)
  {
    forall i, j | 0 <= i < j < |events|
      ensures events[i].id != events[j].id
    {
      assert EventKey(events[i]) != EventKey(events[j]);
    }
  }

  /** Loading brings relations and index in step, whatever the row order. */
  lemma LoadedLists(m: Mirror, raw: Mirror, t: Tables)
    requires MirrorOk(m) && Lists(m, t) && Lists(raw, t)
    ensures MirrorOk(Loaded(raw)) && Lists(Loaded(raw), t)
  {
    RelistedOrphans(m.events, m.edges, raw.events, raw.edges, RowKey, t.events, t.edges);
    RelistedOrphans(m.events, m.auths, raw.events, raw.auths, RowKey, t.events, t.auths);
    RelistedOrphans(m.events, m.sigs, raw.events, raw.sigs, SigKey, t.events, t.sigs);
    ListedIdsUnique(raw.events, t.events);
    hide ListsTable, NoOrphans, UniqueIds;
    ReconstructionEstablishes(raw);
    SameRowsSameTable(raw.events, Reconstructed(raw).events, t.events);
    IndexKeepsRelations(Reconstructed(raw), IndexOf(raw.transitions));
  }

  lemma SameRowsSameTable(a: seq<Event>, b: seq<Event>, t: map<Id, Event>)
    requires ListsTable(a, EventKey, Bare, t)
    requires |a| == |b| && forall i :: 0 <= i < |a| ==> Bare(b[i]) == Bare(a[i])
    ensures ListsTable(b, EventKey, Bare, t)
  {
    assert forall i :: 0 <= i < |a| ==> EventKey(b[i]) == EventKey(Bare(b[i])) == EventKey(Bare(a[i])) == EventKey(a[i]);
    forall k | k in t
      ensures exists i :: 0 <= i < |b| && EventKey(b[i]) == k
    {
      var i :| 0 <= i < |a| && EventKey(a[i]) == k;
      assert EventKey(b[i]) == k;
    }
  }

  lemma IndexKeepsRelations(m: Mirror, index: map<string, nat>)
    requires RelationsOk(m)
    ensures RelationsOk(m.(index := index))
  {
    var n := m.(index := index);
    forall e | e in n.events
      ensures Embeds(n, e)
    {
      assert Embeds(m, e);
    }
  }

  /** The commits last applied, once a restart has loaded everything. */
  lemma RestartAppliesNewest(w: World, raw: Mirror)
    requires Inv(w) && Lists(raw, w.tables)
    ensures forall tuple :: LastApplied(DoRestart(w, raw).applied, tuple) == Newest(w.history, tuple)
  {
    forall tuple
      ensures LastApplied(DoRestart(w, raw).applied, tuple) == Newest(w.history, tuple)
    {
      assert ComesFrom(w.ledger.state, tuple, w.history, NewestCommit(w.history)(tuple));
      CurrentOfListing(w.ledger.state, w.tables.state, tuple);
    }
  }

  lemma StateFromListing(state: seq<StateEntry>, other: seq<StateEntry>, table: map<Tuple, StateEntry>, history: seq<Past>)
    requires ListsTable(state, StateKey, Same, table) && ListsTable(other, StateKey, Same, table)
    requires StateFrom(state, history, NewestCommit(history))
    ensures StateFrom(other, history, NewestCommit(history))
  {
    forall tuple
      ensures ComesFrom(other, tuple, history, NewestCommit(history)(tuple))
    {
      assert ComesFrom(state, tuple, history, NewestCommit(history)(tuple));
      CurrentOfListing(state, table, tuple);
      CurrentOfListing(other, table, tuple);
    }
  }

  lemma EntriesOfListing(history: seq<Past>, a: seq<Transition>, b: seq<Transition>, table: map<(Tuple, Id), Transition>)
    requires ListsTable(a, TransitionKey, Same, table) && ListsTable(b, TransitionKey, Same, table)
    requires EntriesRecorded(history, a)
    ensures EntriesRecorded(history, b)
  {
    forall n | 0 <= n < |history| && history[n].entry.Some?
      ensures HasTransition(b, history[n].entry.value)
    {
      var entry := history[n].entry.value;
      assert HasTransition(a, entry);
      var i :| 0 <= i < |a| && a[i].tuple == entry.tuple && a[i].event == entry.event;
      assert TransitionKey(a[i]) in table;
      var j :| 0 <= j < |b| && TransitionKey(b[j]) == TransitionKey(a[i]);
    }
    forall t | t in b
      ensures Newest(history, t.tuple).Some?
    {
      var j :| 0 <= j < |b| && b[j] == t;
      assert TransitionKey(b[j]) in table;
      var i :| 0 <= i < |a| && TransitionKey(a[i]) == TransitionKey(t);
      assert a[i] in a;
    }
  }

  lemma PendingAfterRestart(w: World, raw: Mirror)
    requires Inv(w) && Lists(raw, w.tables)
    ensures PendingOk([], w.history, DoRestart(w, raw).applied)
  {
    RestartAppliesNewest(w, raw);
    hide Inv, DoRestart, Lists;
    forall n | 0 <= n < |w.history| && w.history[n].entry.Some?
      ensures w.history[n].entry.value.tuple in DoRestart(w, raw).applied
    {
      NewestBounds(w.history, w.history[n].entry.value.tuple, n);
      assert LastApplied(DoRestart(w, raw).applied, w.history[n].entry.value.tuple).Some?;
    }
  }

  lemma NothingWaits(m: Mirror)
    ensures RowsConserved(m, [], m)
  {
  }

  lemma SameCommits(state: seq<StateEntry>, history: seq<Past>, a: Tuple -> Option<nat>, b: Tuple -> Option<nat>)
    requires StateFrom(state, history, a) && forall tuple :: a(tuple) == b(tuple)
    ensures StateFrom(state, history, b)
  {
    forall tuple
      ensures ComesFrom(state, tuple, history, b(tuple))
    {
      assert ComesFrom(state, tuple, history, a(tuple));
    }
  }

  /** The state a restart loads. */
  lemma RestartState(w: World, raw: Mirror)
    requires Inv(w) && Lists(raw, w.tables)
    ensures UniqueTuples(raw.state) && StateFrom(raw.state, w.history, NewestCommit(w.history))
    ensures EntriesRecorded(w.history, raw.transitions)
  {
    hide MirrorOk, StateFrom, EntriesRecorded, RowsConserved, UniqueTuples, PastListed, PendingOk, Newest, ListsTable;
    StateFromListing(w.ledger.state, raw.state, w.tables.state, w.history);
    ListedTuplesUnique(raw.state, w.tables.state);
    EntriesOfListing(w.history, w.ledger.transitions, raw.transitions, w.tables.transitions);
  }

  lemma RestartKeepsInv(w: World, raw: Mirror)
    requires Inv(w)
    ensures Inv(DoRestart(w, raw))
  {
    hide MirrorOk, Lists, StateFrom, EntriesRecorded, RowsConserved, UniqueTuples, PastListed, PendingOk, Newest;
    hide CommittedOnce, ListsTable;
    if Lists(raw, w.tables) {
      var w' := DoRestart(w, raw);
      LoadedLists(w.ledger, raw, w.tables);
      PendingAfterRestart(w, raw);
      RestartAppliesNewest(w, raw);
      RestartState(w, raw);
      NothingWaits(w'.mirror);
      SameCommits(raw.state, w.history, NewestCommit(w.history), AppliedCommit(w'.applied));
    }
  }

  lemma DoKeepsInv(w: World, a: Action)
    requires Inv(w)
    ensures Inv(Do(w, a))
  {
    hide Inv;
    match a
    case Prepare(writer, e, state, previous) => PrepareKeepsInv(w, writer, e, state, previous);
    case CommitUpdate(writer, online) => CommitKeepsInv(w, writer, online);
    case Apply(i) => ApplyKeepsInv(w, i);
    case WriteEvent(e, online) => WriteEventKeepsInv(w, e, online);
    case WriteState(entry, online) => WriteStateKeepsInv(w, entry, online);
    case Restart(raw) => RestartKeepsInv(w, raw);
  }

  lemma {:induction false} RunKeepsInv(w: World, actions: seq<Action>)
    requires Inv(w)
    ensures Inv(Run(w, actions))
    decreases actions
  {
    hide Inv;
    if actions != [] {
      DoKeepsInv(w, actions[0]);
      RunKeepsInv(Do(w, actions[0]), actions[1..]);
    }
  }

  lemma EmptyLists()
    ensures MirrorOk(EMPTY_MIRROR) && Lists(EMPTY_MIRROR, EMPTY_TABLES)
  {
  }

  lemma NothingCurrent()
    ensures StateFrom([], [], AppliedCommit(map[])) && StateFrom([], [], NewestCommit([]))
  {
  }

  lemma StartInv()
    ensures Inv(START)
  {
    hide MirrorOk, Lists, RowsConserved, StateFrom;
    NothingWaits(EMPTY_MIRROR);
    EmptyLists();
    NothingCurrent();
  }

  // ---- What holds over every run, in whatever order updates are applied ----------------

  /**
   * Every row committed is in the mirror or in an update on its way, once: what
   * the mirror shows and what is pending are together a listing of the tables.
   */
  lemma RowsAreConserved(actions: seq<Action>)
    ensures var w := Run(START, actions);
            Lists(w.ledger, w.tables) && RowsConserved(w.mirror, w.pending, w.ledger)
  {
    StartInv();
    RunKeepsInv(START, actions);
  }

  /** The mirror lists the tables, but for current state. */
  ghost predicate ListsRows(m: Mirror, t: Tables) {
    ListsTable(m.events, EventKey, Bare, t.events) &&
    ListsTable(m.edges, RowKey, Same, t.edges) &&
    ListsTable(m.auths, RowKey, Same, t.auths) &&
    ListsTable(m.sigs, SigKey, Same, t.sigs) &&
    ListsTable(m.transitions, TransitionKey, Same, t.transitions)
  }

  lemma NothingPending<T>(shown: seq<T>, rows: Waiting -> seq<T>, all: seq<T>)
    requires Conserved(shown, [], rows, all)
    ensures multiset(shown) == multiset(all)
  {
  }

  lemma AppliedListsRows(m: Mirror, ledger: Mirror, t: Tables)
    requires RowsConserved(m, [], ledger) && Lists(ledger, t)
    ensures ListsRows(m, t)
  {
    NothingPending(m.events, NewEvents, ledger.events);
    NothingPending(m.edges, NewEdges, ledger.edges);
    NothingPending(m.auths, NewAuths, ledger.auths);
    NothingPending(m.sigs, NewSigs, ledger.sigs);
    NothingPending(m.transitions, NewTransitions, ledger.transitions);
    hide ListsTable, Conserved;
    ListsPermuted(ledger.events, m.events, EventKey, Bare, t.events);
    ListsPermuted(ledger.edges, m.edges, RowKey, Same, t.edges);
    ListsPermuted(ledger.auths, m.auths, RowKey, Same, t.auths);
    ListsPermuted(ledger.sigs, m.sigs, SigKey, Same, t.sigs);
    ListsPermuted(ledger.transitions, m.transitions, TransitionKey, Same, t.transitions);
  }

  /** While an update is pending, the tables have an event the mirror lacks. */
  lemma PendingIsMissing(shown: seq<Event>, pending: seq<Waiting>, all: seq<Event>, table: map<Id, Event>)
    requires Conserved(shown, pending, NewEvents, all) && UniqueIds(all) && pending != []
    requires ListsTable(all, EventKey, Bare, table)
    ensures !ListsTable(shown, EventKey, Bare, table)
  {
    var e := pending[0].update.event;
    NotShownYet(shown, pending, all, 0);
    ConservedByApply(shown, pending, NewEvents, all, 0);
    assert e in multiset(shown + [e]) && e in multiset(all);
    var i :| 0 <= i < |all| && all[i] == e;
    assert EventKey(all[i]) in table;
    assert forall k :: 0 <= k < |shown| ==> EventKey(shown[k]) != e.id;
  }

  /** Events, relations and transitions are those of the database exactly when every commit has been applied, in any order. */
  lemma RowsAreCurrentIffApplied(actions: seq<Action>)
    ensures var w := Run(START, actions); ListsRows(w.mirror, w.tables) <==> w.pending == []
  {
    StartInv();
    RunKeepsInv(START, actions);
    var w := Run(START, actions);
    if w.pending == [] {
      AppliedListsRows(w.mirror, w.ledger, w.tables);
    } else {
      PendingIsMissing(w.mirror.events, w.pending, w.ledger.events, w.tables.events);
    }
  }

  /** The event the database has as current for a tuple. */
  function StoredCurrent(t: Tables, tuple: Tuple): Option<Id> {
    if tuple in t.state then Some(t.state[tuple].event) else None
  }

  /** Two lists of state agree on a tuple exactly when what they show comes from one commit. */
  lemma OneCommitOneEvent(a: seq<StateEntry>, b: seq<StateEntry>, tuple: Tuple, history: seq<Past>, m: Option<nat>, n: Option<nat>)
    requires ComesFrom(a, tuple, history, m) && ComesFrom(b, tuple, history, n) && EntriesDistinct(history)
    ensures Current(a, tuple) == Current(b, tuple) <==> m == n
  {
    hide Current;
    if m.Some? && n.Some? && m != n {
      assert history[m.value].entry != history[n.value].entry;
    }
  }

  lemma CurrentIsStoredIff(w: World, tuple: Tuple)
    requires Inv(w)
    ensures Current(w.mirror.state, tuple) == StoredCurrent(w.tables, tuple) <==>
            LastApplied(w.applied, tuple) == Newest(w.history, tuple)
  {
    assert ComesFrom(w.mirror.state, tuple, w.history, AppliedCommit(w.applied)(tuple));
    assert ComesFrom(w.ledger.state, tuple, w.history, NewestCommit(w.history)(tuple));
    CurrentOfListing(w.ledger.state, w.tables.state, tuple);
    OneCommitOneEvent(w.mirror.state, w.ledger.state, tuple, w.history,
                      LastApplied(w.applied, tuple), Newest(w.history, tuple));
  }

  /**
   * Over every run, the mirror shows the database's current event for a tuple
   * exactly when the commit applied last for the tuple is its newest commit.
   */
  lemma CurrentIffNewestAppliedLast(actions: seq<Action>, tuple: Tuple)
    ensures var w := Run(START, actions);
            Current(w.mirror.state, tuple) == StoredCurrent(w.tables, tuple) <==>
            LastApplied(w.applied, tuple) == Newest(w.history, tuple)
  {
    StartInv();
    RunKeepsInv(START, actions);
    CurrentIsStoredIff(Run(START, actions), tuple);
  }

  lemma NothingWaitsForTuple(history: seq<Past>, applied: map<Tuple, nat>, tuple: Tuple)
    requires PendingOk([], history, applied) && Newest(history, tuple).Some?
    ensures tuple in applied
  {
    var n := Newest(history, tuple).value;
    hide Newest;
    assert history[n].entry.Some? && history[n].entry.value.tuple == tuple;
  }

  lemma SameTuples(w: World, tuple: Tuple)
    requires Inv(w) && w.pending == []
    ensures Current(w.mirror.state, tuple).Some? <==> tuple in w.tables.state
  {
    ShownIsStored(w, tuple);
    assert ComesFrom(w.mirror.state, tuple, w.history, AppliedCommit(w.applied)(tuple));
    assert ComesFrom(w.ledger.state, tuple, w.history, NewestCommit(w.history)(tuple));
    CurrentOfListing(w.ledger.state, w.tables.state, tuple);
    hide Lists, MirrorOk, RowsConserved, StateFrom, EntriesRecorded, PastListed, PendingOk, Newest, Current, ListsTable;
    if Newest(w.history, tuple).Some? {
      NothingWaitsForTuple(w.history, w.applied, tuple);
    }
  }

  /** In whatever order updates were applied, once none is pending the mirror has state for exactly the tuples the database has. */
  lemma SameTuplesOnceApplied(actions: seq<Action>, tuple: Tuple)
    requires Run(START, actions).pending == []
    ensures var w := Run(START, actions); Current(w.mirror.state, tuple).Some? <==> tuple in w.tables.state
  {
    StartInv();
    RunKeepsInv(START, actions);
    hide Inv, Run;
    SameTuples(Run(START, actions), tuple);
  }

  /** No event commits twice, however many writers race on it. */
  lemma EventsCommitOnce(actions: seq<Action>)
    ensures NoDup(Run(START, actions).committed)
  {
    StartInv();
    RunKeepsInv(START, actions);
  }

  lemma ShownNoDup<E(!new), K(!new), R>(
    shown: seq<E>, pending: seq<Waiting>, rows: Waiting -> seq<E>, all: seq<E>, key: E -> K, row: E -> R, table: map<K, R>)
    requires Conserved(shown, pending, rows, all) && ListsTable(all, key, row, table)
    ensures NoDup(shown)
  {
    ListsNoDup(all, key, row, table);
    SublistNoDup(shown, all);
  }

  /** No event, edge, auth edge, signature, state tuple or transition is ever in the mirror twice. */
  lemma NothingTwice(actions: seq<Action>)
    ensures var m := Run(START, actions).mirror;
            UniqueIds(m.events) && NoDup(m.edges) && NoDup(m.auths) && NoDup(m.sigs) && UniqueTuples(m.state) && NoDup(m.transitions)
  {
    StartInv();
    RunKeepsInv(START, actions);
    var w := Run(START, actions);
    hide Run, ListsTable, NoDup, Conserved;
    ShownNoDup(w.mirror.edges, w.pending, NewEdges, w.ledger.edges, RowKey, Same, w.tables.edges);
    ShownNoDup(w.mirror.auths, w.pending, NewAuths, w.ledger.auths, RowKey, Same, w.tables.auths);
    ShownNoDup(w.mirror.sigs, w.pending, NewSigs, w.ledger.sigs, SigKey, Same, w.tables.sigs);
    ShownNoDup(w.mirror.transitions, w.pending, NewTransitions, w.ledger.transitions, TransitionKey, Same, w.tables.transitions);
  }

  /** The relations stay in step and the index stays what a rebuild would make, through every run. */
  lemma MirrorStaysInStep(actions: seq<Action>)
    ensures MirrorOk(Run(START, actions).mirror)
  {
    StartInv();
    RunKeepsInv(START, actions);
  }

  /** Every tuple with a transition has a current event. */
  ghost predicate HaveState(t: Tables) {
    forall key :: key in t.transitions ==> key.0 in t.state
  }

  /** Over every run, a tuple that ever had a current event has one. */
  lemma TransitionsHaveState(actions: seq<Action>)
    ensures HaveState(Run(START, actions).tables)
  {
    StartInv();
    RunKeepsInv(START, actions);
    var w := Run(START, actions);
    forall key | key in w.tables.transitions
      ensures key.0 in w.tables.state
    {
      var i :| 0 <= i < |w.ledger.transitions| && TransitionKey(w.ledger.transitions[i]) == key;
      assert w.ledger.transitions[i] in w.ledger.transitions;
      assert ComesFrom(w.ledger.state, key.0, w.history, NewestCommit(w.history)(key.0));
      CurrentOfListing(w.ledger.state, w.tables.state, key.0);
    }
  }

  // ---- State that was replaced stays replaced --------------------------------------------

  /** Exactly when a state write succeeds on a store in step with its database. */
  lemma StoreStateSucceedsIff(m: Mirror, t: Tables, entry: StateEntry, online: bool)
    requires Lists(m, t)
    ensures var existing := Current(m.state, entry.tuple);
            StoreState(m, t, entry, online).2 <==>
            StateIsPersisted(m, entry) &&
            (existing == Some(entry.event) ||
             (online && existing != Some("") && (entry.tuple, entry.event) !in t.transitions))
  {
    var existing := Current(m.state, entry.tuple);
    var previous := if existing.Some? then existing.value else "";
    SetCurrentLists(m.state, t.state, entry);
    StateWriteRuns(t, entry, previous != "", previous);
    hide ExecAll, StateStatements, Lists, ListsTable, StateIsPersisted, MakeCurrent;
  }

  lemma StateWriteRuns(t: Tables, entry: StateEntry, update: bool, previous: Id)
    ensures ExecAll(t, StateStatements(entry, update, previous)).Some? <==>
            (update || entry.tuple !in t.state) && (entry.tuple, entry.event) !in t.transitions
  {
    var statements := StateStatements(entry, update, previous);
    var row := Transition(entry.tuple, entry.event, previous);
    assert statements[1..] == [InsertTransition(row)];
    var t1 := Exec(t, statements[0]);
    if t1.Some? {
      assert [InsertTransition(row)][1..] == [];
      assert ExecAll(t1.value, [InsertTransition(row)]) == Exec(t1.value, InsertTransition(row));
    }
  }

  /** The event was made current for the tuple at some time, and another one is current now. */
  ghost predicate IsReplaced(t: Tables, tuple: Tuple, event: Id) {
    (tuple, event) in t.transitions && tuple in t.state && t.state[tuple].event != event
  }

  ghost predicate LeavesState(s: Statement) {
    !s.InsertState? && !s.UpdateState? && !s.InsertTransition?
  }

  lemma {:induction false} GraphKeepsState(t: Tables, statements: seq<Statement>)
    requires ExecAll(t, statements).Some? && forall i :: 0 <= i < |statements| ==> LeavesState(statements[i])
    ensures var t' := ExecAll(t, statements).value; t'.state == t.state && t'.transitions == t.transitions
    decreases statements
  {
    if statements != [] {
      GraphKeepsState(Exec(t, statements[0]).value, statements[1..]);
    }
  }

  lemma {:induction false} RowsLeaveState<T(!new)>(make: Row<T> -> Statement, rows: seq<Row<T>>)
    requires forall row :: LeavesState(make(row))
    ensures forall i :: 0 <= i < |RowStatements(make, rows)| ==> LeavesState(RowStatements(make, rows)[i])
  {
    if rows != [] {
      RowsLeaveState(make, rows[1..]);
    }
  }

  lemma EventWriteKeepsState(t: Tables, e: Event)
    requires ExecAll(t, EventStatements(e)).Some?
    ensures var t' := ExecAll(t, EventStatements(e)).value; t'.state == t.state && t'.transitions == t.transitions
  {
    RowsLeaveState(EdgeInsert, RowsOf(e.id, e.prev));
    RowsLeaveState(AuthInsert, RowsOf(e.id, e.auth));
    RowsLeaveState(SignatureInsert, RowsOf(e.id, e.sigs));
    hide RowStatements, ExecAll;
    GraphKeepsState(t, EventStatements(e));
  }

  /** A committed state write: its key was free and is taken, and it is what is current. */
  lemma StateWriteEffect(t: Tables, entry: StateEntry, update: bool, previous: Id)
    requires ExecAll(t, StateStatements(entry, update, previous)).Some?
    ensures var t' := ExecAll(t, StateStatements(entry, update, previous)).value;
            (entry.tuple, entry.event) !in t.transitions &&
            t'.transitions == t.transitions[(entry.tuple, entry.event) := Transition(entry.tuple, entry.event, previous)] &&
            t'.state == (if update && entry.tuple !in t.state then t.state else t.state[entry.tuple := entry])
  {
    var statements := StateStatements(entry, update, previous);
    var row := Transition(entry.tuple, entry.event, previous);
    var t1 := Exec(t, statements[0]).value;
    assert statements[1..] == [InsertTransition(row)] && [InsertTransition(row)][1..] == [];
    assert ExecAll(t1, [InsertTransition(row)]) == Exec(t1, InsertTransition(row));
  }

  /** What later tables keep of earlier ones, whatever committed in between. */
  ghost predicate KeepsReplaced(t: Tables, t': Tables) {
    forall tuple, event :: IsReplaced(t, tuple, event) ==> IsReplaced(t', tuple, event)
  }

  lemma StateWriteKeepsReplaced(t: Tables, entry: StateEntry, update: bool, previous: Id)
    requires ExecAll(t, StateStatements(entry, update, previous)).Some?
    ensures KeepsReplaced(t, ExecAll(t, StateStatements(entry, update, previous)).value)
  {
    StateWriteEffect(t, entry, update, previous);
    hide ExecAll, StateStatements;
  }

  lemma UpdateKeepsReplaced(t: Tables, u: Update)
    requires ExecAll(t, UpdateStatements(u)).Some?
    ensures KeepsReplaced(t, ExecAll(t, UpdateStatements(u)).value)
  {
    var first := EventStatements(u.event);
    if u.state.None? {
      assert UpdateStatements(u) == first;
      EventWriteKeepsState(t, u.event);
    } else {
      var entry := StateEntry(u.state.value, u.event.id);
      ExecAllAppend(t, first, StateStatements(entry, u.existed, u.previous));
      EventWriteKeepsState(t, u.event);
      StateWriteKeepsReplaced(ExecAll(t, first).value, entry, u.existed, u.previous);
    }
  }

  lemma DoKeepsReplaced(w: World, a: Action)
    ensures KeepsReplaced(w.tables, Do(w, a).tables)
  {
    hide ExecAll, EventStatements, StateStatements, UpdateStatements, Lists;
    match a
    case CommitUpdate(writer, online) =>
      if writer in w.prepared && Commit(w.tables, UpdateStatements(w.prepared[writer]), online).Some? {
        UpdateKeepsReplaced(w.tables, w.prepared[writer]);
      }
    case WriteEvent(e, online) =>
      if ExecAll(w.tables, EventStatements(e)).Some? {
        EventWriteKeepsState(w.tables, e);
      }
    case WriteState(entry, online) =>
      var existing := Current(w.mirror.state, entry.tuple);
      var previous := if existing.Some? then existing.value else "";
      if ExecAll(w.tables, StateStatements(entry, previous != "", previous)).Some? {
        StateWriteKeepsReplaced(w.tables, entry, previous != "", previous);
      }
    case _ =>
  }

  /** An event once replaced as current for a tuple is never current for it again, in any later run. */
  lemma {:induction false} ReplacedStaysReplaced(w: World, actions: seq<Action>, tuple: Tuple, event: Id)
    requires IsReplaced(w.tables, tuple, event)
    ensures IsReplaced(Run(w, actions).tables, tuple, event)
    decreases actions
  {
    hide IsReplaced;
    if actions != [] {
      DoKeepsReplaced(w, actions[0]);
      ReplacedStaysReplaced(Do(w, actions[0]), actions[1..], tuple, event);
    }
  }
}
