/**
 * When a write succeeds and what it leaves, said of the fields of the event,
 * the mirror and the tables themselves, for single writes and over whole runs
 * (src/database/persistent_store.cpp, src/database/schema.cpp).
 */
module WriteLaws {
  import opened Basics
  import opened EventMirror
  import opened Backend
  import opened WriteProtocol

  // ---- Rows of one relation table ----------------------------------------------------

  /** The table afterwards: the rows before and the new ones. */
  ghost predicate AddsRows<T(!new), K(!new)>(before: map<K, Row<T>>, after: map<K, Row<T>>, rows: seq<Row<T>>, key: Row<T> -> K) {
    (forall k :: k in before ==> k in after && after[k] == before[k]) &&
    (forall i :: 0 <= i < |rows| ==> key(rows[i]) in after && after[key(rows[i])] == rows[i]) &&
    forall k :: k in after ==> k in before || exists i :: 0 <= i < |rows| && key(rows[i]) == k
  }

  ghost predicate Free<T(!new), K(!new)>(table: map<K, Row<T>>, rows: seq<Row<T>>, key: Row<T> -> K) {
    DistinctBy(rows, key) && forall i :: 0 <= i < |rows| ==> key(rows[i]) !in table
  }

  lemma FreeTail<T(!new), K(!new)>(table: map<K, Row<T>>, rows: seq<Row<T>>, key: Row<T> -> K)
    requires rows != []
    ensures Free(table, rows, key) <==>
            key(rows[0]) !in table && Free(table[key(rows[0]) := rows[0]], rows[1..], key)
  {
    var rest, table' := rows[1..], table[key(rows[0]) := rows[0]];
    assert forall i :: 0 <= i < |rest| ==> rest[i] == rows[i + 1];
    if key(rows[0]) !in table && Free(table', rest, key) {
      forall i, j | 0 <= i < j < |rows|
        ensures key(rows[i]) != key(rows[j])
      {
        assert key(rest[j - 1]) !in table';
        if i > 0 {
          assert key(rest[i - 1]) != key(rest[j - 1]);
        }
      }
      forall i | 0 <= i < |rows|
        ensures key(rows[i]) !in table
      {
        assert i > 0 ==> key(rest[i - 1]) !in table';
      }
    }
  }

  lemma AddsTail<T(!new), K(!new)>(before: map<K, Row<T>>, after: map<K, Row<T>>, rows: seq<Row<T>>, key: Row<T> -> K)
    requires rows != [] && key(rows[0]) !in before
    requires AddsRows(before[key(rows[0]) := rows[0]], after, rows[1..], key)
    ensures AddsRows(before, after, rows, key)
  {
    var rest, before' := rows[1..], before[key(rows[0]) := rows[0]];
    assert forall i :: 0 <= i < |rest| ==> rest[i] == rows[i + 1];
    forall i | 0 <= i < |rows|
      ensures key(rows[i]) in after && after[key(rows[i])] == rows[i]
    {
      if i == 0 {
        assert key(rows[0]) in before';
      } else {
        assert key(rest[i - 1]) in after;
      }
    }
    forall k | k in after && k !in before
      ensures exists i :: 0 <= i < |rows| && key(rows[i]) == k
    {
      if k !in before' {
        var i :| 0 <= i < |rest| && key(rest[i]) == k;
        assert key(rows[i + 1]) == k;
      }
    }
  }

  /** Inserting rows succeeds exactly when their keys are free and different, and adds them all. */
  lemma {:induction false} RowsRunIff<T(!new), K(!new)>(
    t: Tables, rows: seq<Row<T>>,
    make: Row<T> -> Statement, key: Row<T> -> K, get: Tables -> map<K, Row<T>>, put: (Tables, map<K, Row<T>>) -> Tables)
    requires InsertsInto(make, key, get, put)
    ensures var r := ExecAll(t, RowStatements(make, rows));
            (r.Some? <==> Free(get(t), rows, key)) &&
            (r.Some? ==> r.value == put(t, get(r.value)) && AddsRows(get(t), get(r.value), rows, key))
    decreases rows
  {
    if rows == [] {
      assert Free(get(t), rows, key) && AddsRows(get(t), get(t), rows, key);
    } else {
      hide Free, AddsRows;
      assert RowStatements(make, rows)[1..] == RowStatements(make, rows[1..]);
      FreeTail(get(t), rows, key);
      if key(rows[0]) !in get(t) {
        var t1 := Exec(t, make(rows[0])).value;
        assert t1 == put(t, get(t)[key(rows[0]) := rows[0]]);
        RowsRunIff(t1, rows[1..], make, key, get, put);
        var r := ExecAll(t1, RowStatements(make, rows[1..]));
        if r.Some? {
          AddsTail(get(t), get(r.value), rows, key);
        }
      }
    }
  }

  // ---- The transaction of one event ----------------------------------------------------

  /** Every row of the table belongs to an event of the tables. */
  ghost predicate Owned<T(!new), K(!new)>(table: map<K, Row<T>>, events: map<Id, Event>, key: Row<T> -> K) {
    forall k :: k in table ==> key(table[k]) == k && table[k].event in events
  }

  ghost predicate AllOwned(t: Tables) {
    Owned(t.edges, t.events, RowKey) && Owned(t.auths, t.events, RowKey) && Owned(t.sigs, t.events, SigKey)
  }

  /** No two of the event's parents, of its auth events, or of its signatures by one key of one server. */
  ghost predicate NoRepeats(e: Event) {
    NoDup(e.prev) && NoDup(e.auth) &&
    forall i, j :: 0 <= i < j < |e.sigs| ==> (e.sigs[i].server, e.sigs[i].key) != (e.sigs[j].server, e.sigs[j].key)
  }

  lemma IdRowsFree(table: map<Row<Id>, Row<Id>>, events: map<Id, Event>, id: Id, values: seq<Id>)
    requires Owned(table, events, RowKey) && id !in events
    ensures Free(table, RowsOf(id, values), RowKey) <==> NoDup(values)
  {
    var rows := RowsOf(id, values);
    if DistinctBy(rows, RowKey) {
      forall i, j | 0 <= i < j < |values|
        ensures values[i] != values[j]
      {
        assert RowKey(rows[i]) != RowKey(rows[j]);
      }
    }
  }

  lemma SigRowsFree(table: map<(Id, Id, Id), Row<Signature>>, events: map<Id, Event>, id: Id, values: seq<Signature>)
    requires Owned(table, events, SigKey) && id !in events
    ensures Free(table, RowsOf(id, values), SigKey) <==>
            forall i, j :: 0 <= i < j < |values| ==> (values[i].server, values[i].key) != (values[j].server, values[j].key)
  {
    var rows := RowsOf(id, values);
    if DistinctBy(rows, SigKey) {
      forall i, j | 0 <= i < j < |values|
        ensures (values[i].server, values[i].key) != (values[j].server, values[j].key)
      {
        assert SigKey(rows[i]) != SigKey(rows[j]);
      }
    }
  }

  /** The tables after the event's transaction, field by field. */
  ghost predicate EventWritten(t: Tables, t': Tables, e: Event) {
    t'.events == t.events[e.id := Event(e.id, e.room, e.sender, e.json, e.depth, e.ordering, [], [], [])] &&
    AddsRows(t.edges, t'.edges, RowsOf(e.id, e.prev), RowKey) &&
    AddsRows(t.auths, t'.auths, RowsOf(e.id, e.auth), RowKey) &&
    AddsRows(t.sigs, t'.sigs, RowsOf(e.id, e.sigs), SigKey) &&
    t'.state == t.state && t'.transitions == t.transitions
  }

  /** The transaction goes through exactly for a new event without repeats, and writes that event. */
  lemma EventRunsIff(t: Tables, e: Event)
    requires AllOwned(t)
    ensures var r := ExecAll(t, EventStatements(e));
            (r.Some? <==> e.id !in t.events && NoRepeats(e)) && (r.Some? ==> EventWritten(t, r.value, e))
  {
    EventStatementsRun(t, e);
    RelationInserts();
    hide InsertsInto, ExecAll, RowStatements, EventStatements, Free, AddsRows, Owned;
    if e.id !in t.events {
      var t1 := Exec(t, InsertEvent(e)).value;
      var edges, auths, sigs := RowsOf(e.id, e.prev), RowsOf(e.id, e.auth), RowsOf(e.id, e.sigs);
      IdRowsFree(t.edges, t.events, e.id, e.prev);
      IdRowsFree(t.auths, t.events, e.id, e.auth);
      SigRowsFree(t.sigs, t.events, e.id, e.sigs);
      RowsRunIff(t1, edges, EdgeInsert, RowKey, Edges, WithEdges);
      var t2 := ExecAll(t1, RowStatements(EdgeInsert, edges));
      if t2.Some? {
        RowsRunIff(t2.value, auths, AuthInsert, RowKey, Auths, WithAuths);
        var t3 := ExecAll(t2.value, RowStatements(AuthInsert, auths));
        if t3.Some? {
          RowsRunIff(t3.value, sigs, SignatureInsert, SigKey, Sigs, WithSigs);
        }
      }
    }
  }

  /** Rows listed without orphans are owned. */
  lemma ListedAreOwned<T(!new), K(!new)>(m: Mirror, t: Tables, rows: seq<Row<T>>, key: Row<T> -> K, table: map<K, Row<T>>)
    requires ListsTable(m.events, EventKey, Bare, t.events) && ListsTable(rows, key, Same, table) && NoOrphans(m.events, rows)
    ensures Owned(table, t.events, key)
  {
    forall k | k in table
      ensures key(table[k]) == k && table[k].event in t.events
    {
      var i :| 0 <= i < |rows| && key(rows[i]) == k;
      assert table[key(rows[i])] == Same(rows[i]) && rows[i] in rows;
      ListedEvent(m, t, rows[i].event);
    }
  }

  lemma ListedAllOwned(m: Mirror, t: Tables)
    requires Lists(m, t) && RelationsOk(m)
    ensures AllOwned(t)
  {
    hide ListsTable, NoOrphans, Owned;
    ListedAreOwned(m, t, m.edges, RowKey, t.edges);
    ListedAreOwned(m, t, m.auths, RowKey, t.auths);
    ListedAreOwned(m, t, m.sigs, SigKey, t.sigs);
  }

  // ---- store_event -----------------------------------------------------------------------

  /** The mirror's events are in the tables. */
  ghost predicate Within(m: Mirror, t: Tables) {
    forall i :: 0 <= i < |m.events| ==> m.events[i].id in t.events
  }

  /** The list grew by one row for each value, in order. */
  ghost predicate Appended<T>(before: seq<Row<T>>, after: seq<Row<T>>, id: Id, values: seq<T>) {
    before <= after && |after| == |before| + |values| &&
    forall i :: 0 <= i < |values| ==> after[|before| + i] == Row(id, values[i])
  }

  /** The mirror after an event was stored, field by field. */
  ghost predicate EventShown(m: Mirror, m': Mirror, e: Event) {
    m'.events == m.events + [e] && Appended(m.edges, m'.edges, e.id, e.prev) &&
    Appended(m.auths, m'.auths, e.id, e.auth) && Appended(m.sigs, m'.sigs, e.id, e.sigs) &&
    m'.state == m.state && m'.transitions == m.transitions && m'.index == m.index &&
    m'.rooms == m.rooms && m'.memberships == m.memberships && m'.invites == m.invites
  }

  ghost predicate StoreEventIs(m: Mirror, t: Tables, e: Event, online: bool) {
    var (m', t', ok) := StoreEvent(m, t, e, online);
    (ok <==> online && e.id !in t.events && NoRepeats(e)) &&
    (if ok then EventShown(m, m', e) && EventWritten(t, t', e) else m' == m && t' == t)
  }

  lemma StoreEventWithin(m: Mirror, t: Tables, e: Event, online: bool)
    requires AllOwned(t) && Within(m, t)
    ensures StoreEventIs(m, t, e, online)
  {
    hide AllOwned, ExecAll, EventStatements, EventWritten, NoRepeats, EventShown, AddEvent;
    EventRunsIff(t, e);
    AddedIsShown(m, e);
  }

  lemma AddedIsShown(m: Mirror, e: Event)
    ensures EventShown(m, AddEvent(m, e), e)
  {
  }

  /**
   * On a mirror that lists the tables with relations in step, an event is
   * stored exactly when the database is reached, the id is new and nothing in
   * the event is repeated; then mirror and tables gain it and its rows, and
   * otherwise neither changes.
   */
  lemma StoreEventSucceedsIff(m: Mirror, t: Tables, e: Event, online: bool)
    requires Lists(m, t) && RelationsOk(m)
    ensures StoreEventIs(m, t, e, online)
  {
    hide StoreEventIs, RelationsOk, AllOwned;
    ListedAllOwned(m, t);
    ListedEvent(m, t, e.id);
    assert forall i :: 0 <= i < |m.events| ==> m.events[i] in m.events;
    hide Lists;
    StoreEventWithin(m, t, e, online);
  }

  // ---- store_state -----------------------------------------------------------------------

  /** The mirror has the entry's event, and it is of that room, type and state key. */
  ghost predicate HasStateEvent(m: Mirror, entry: StateEntry) {
    exists e :: e in m.events && e.id == entry.event && e.room == entry.tuple.room &&
                e.json.typeField == Some(entry.tuple.kind) && e.json.stateKeyField == Some(entry.tuple.key)
  }

  ghost predicate StoreStateIs(m: Mirror, t: Tables, entry: StateEntry, online: bool) {
    var (m', t', ok) := StoreState(m, t, entry, online);
    var was := if entry.tuple in t.state then Some(t.state[entry.tuple].event) else None;
    var row := Transition(entry.tuple, entry.event, if was.Some? then was.value else "");
    (ok <==> HasStateEvent(m, entry) &&
             (was == Some(entry.event) || (online && was != Some("") && (entry.tuple, entry.event) !in t.transitions))) &&
    (if ok && was != Some(entry.event)
     then m'.events == m.events && m'.transitions == m.transitions + [row] &&
          t'.events == t.events && t'.state == t.state[entry.tuple := entry] &&
          t'.transitions == t.transitions[(entry.tuple, entry.event) := row]
     else m' == m && t' == t)
  }

  /**
   * On such a mirror, an event is made current exactly when it is a stored
   * state event for the tuple, and either is current already or was never
   * current, the database is reached and what it replaces has an id.
   */
  lemma StoreStateOnFields(m: Mirror, t: Tables, entry: StateEntry, online: bool)
    requires Lists(m, t)
    ensures StoreStateIs(m, t, entry, online)
  {
    hide ExecAll, StateStatements, Lists, ListsTable, StateIsPersisted, HasStateEvent, SetCurrent, Current;
    StoreStateSucceedsIff(m, t, entry, online);
    ListedCurrent(m, t, entry.tuple);
    PersistedIff(m, entry);
    var existing := Current(m.state, entry.tuple);
    var previous := if existing.Some? then existing.value else "";
    if ExecAll(t, StateStatements(entry, previous != "", previous)).Some? {
      StateWriteEffect(t, entry, previous != "", previous);
      StateWriteKeepsEvents(t, entry, previous != "", previous);
    }
  }

  lemma ListedCurrent(m: Mirror, t: Tables, tuple: Tuple)
    requires Lists(m, t)
    ensures Current(m.state, tuple) == if tuple in t.state then Some(t.state[tuple].event) else None
  {
    CurrentOfListing(m.state, t.state, tuple);
  }

  lemma PersistedIff(m: Mirror, entry: StateEntry)
    ensures StateIsPersisted(m, entry) <==> HasStateEvent(m, entry)
  {
    if i :| 0 <= i < |m.events| && m.events[i].id == entry.event && IsStateFor(m.events[i], entry.tuple) {
      assert m.events[i] in m.events;
    }
  }

  // ---- Over whole runs ---------------------------------------------------------------------

  lemma ShownAreWithin(w: World)
    requires Inv(w)
    ensures AllOwned(w.tables) && Within(w.mirror, w.tables)
    ensures forall e :: e in w.mirror.events ==> e in w.ledger.events
  {
    hide AllOwned, RelationsOk, Lists;
    ListedAllOwned(w.ledger, w.tables);
    forall e | e in w.mirror.events
      ensures e in w.ledger.events
    {
      assert e in multiset(w.mirror.events);
      assert e in multiset(w.ledger.events);
    }
    forall i | 0 <= i < |w.mirror.events|
      ensures w.mirror.events[i].id in w.tables.events
    {
      assert w.mirror.events[i] in w.mirror.events;
      LedgerEventStored(w.ledger, w.tables, w.mirror.events[i]);
    }
  }

  lemma LedgerEventStored(ledger: Mirror, t: Tables, e: Event)
    requires Lists(ledger, t) && e in ledger.events
    ensures e.id in t.events && t.events[e.id] == Bare(e)
  {
    var i :| 0 <= i < |ledger.events| && ledger.events[i] == e;
    assert EventKey(ledger.events[i]) in t.events;
  }

  /** The same in every run, whatever is still waiting to be applied. */
  lemma WriteEventSucceedsIff(actions: seq<Action>, e: Event, online: bool)
    ensures var w := Run(START, actions); StoreEventIs(w.mirror, w.tables, e, online)
  {
    hide Inv, Run, StoreEventIs;
    StartInv();
    RunKeepsInv(START, actions);
    ShownAreWithin(Run(START, actions));
    StoreEventWithin(Run(START, actions).mirror, Run(START, actions).tables, e, online);
  }

  // ---- Current state is state of its event --------------------------------------------------

  /** The event is in the tables, in the tuple's room, with the tuple's type and state key. */
  ghost predicate IsStateOf(events: map<Id, Event>, id: Id, tuple: Tuple) {
    id in events && events[id].room == tuple.room && events[id].json.typeField == Some(tuple.kind) &&
    events[id].json.stateKeyField == Some(tuple.key)
  }

  ghost predicate StateTrue(t: Tables) {
    (forall tuple :: tuple in t.state ==> t.state[tuple].tuple == tuple && IsStateOf(t.events, t.state[tuple].event, tuple)) &&
    forall tuple, id :: (tuple, id) in t.transitions ==> IsStateOf(t.events, id, tuple)
  }

  /** An update on its way names a tuple its event is state for. */
  ghost predicate UpdateTrue(u: Update) {
    u.state.Some? ==> u.event.room == u.state.value.room && u.event.json.typeField == Some(u.state.value.kind) &&
                      u.event.json.stateKeyField == Some(u.state.value.key)
  }

  ghost predicate WorldTrue(w: World) {
    StateTrue(w.tables) && forall writer :: writer in w.prepared ==> UpdateTrue(w.prepared[writer])
  }

  lemma EventKeepsTrue(t: Tables, t': Tables, e: Event)
    requires StateTrue(t) && EventWritten(t, t', e) && e.id !in t.events
    ensures StateTrue(t')
  {
    hide AddsRows;
  }

  lemma StateKeepsTrue(t: Tables, entry: StateEntry, update: bool, previous: Id)
    requires StateTrue(t) && IsStateOf(t.events, entry.event, entry.tuple)
    requires ExecAll(t, StateStatements(entry, update, previous)).Some?
    ensures StateTrue(ExecAll(t, StateStatements(entry, update, previous)).value)
  {
    StateWriteEffect(t, entry, update, previous);
    StateWriteKeepsEvents(t, entry, update, previous);
    hide ExecAll, StateStatements;
  }

  lemma StateWriteKeepsEvents(t: Tables, entry: StateEntry, update: bool, previous: Id)
    requires ExecAll(t, StateStatements(entry, update, previous)).Some?
    ensures ExecAll(t, StateStatements(entry, update, previous)).value.events == t.events
  {
    var statements := StateStatements(entry, update, previous);
    var row := Transition(entry.tuple, entry.event, previous);
    var t1 := Exec(t, statements[0]).value;
    assert statements[1..] == [InsertTransition(row)] && [InsertTransition(row)][1..] == [];
    assert ExecAll(t1, [InsertTransition(row)]) == Exec(t1, InsertTransition(row));
  }

  /** A whole update's transaction: the event's, then the state's. */
  lemma UpdateRuns(t: Tables, u: Update)
    ensures var r := ExecAll(t, EventStatements(u.event));
            ExecAll(t, UpdateStatements(u)) ==
            if r.None? || u.state.None? then r
            else ExecAll(r.value, StateStatements(StateEntry(u.state.value, u.event.id), u.existed, u.previous))
  {
    if u.state.None? {
      assert UpdateStatements(u) == EventStatements(u.event);
    } else {
      ExecAllAppend(t, EventStatements(u.event),
                    StateStatements(StateEntry(u.state.value, u.event.id), u.existed, u.previous));
    }
  }

  lemma UpdateKeepsTrue(t: Tables, u: Update)
    requires AllOwned(t) && StateTrue(t) && UpdateTrue(u) && ExecAll(t, UpdateStatements(u)).Some?
    ensures StateTrue(ExecAll(t, UpdateStatements(u)).value)
  {
    hide AllOwned, ExecAll, EventStatements, StateStatements, UpdateStatements, StateTrue;
    UpdateRuns(t, u);
    EventRunsIff(t, u.event);
    var t1 := ExecAll(t, EventStatements(u.event)).value;
    EventKeepsTrue(t, t1, u.event);
    if u.state.Some? {
      assert IsStateOf(t1.events, u.event.id, u.state.value);
      StateKeepsTrue(t1, StateEntry(u.state.value, u.event.id), u.existed, u.previous);
    }
  }

  lemma PersistedIsStateOf(w: World, entry: StateEntry)
    requires Inv(w) && StateIsPersisted(w.mirror, entry)
    ensures IsStateOf(w.tables.events, entry.event, entry.tuple)
  {
    ShownAreWithin(w);
    hide AllOwned, Lists;
    var i :| 0 <= i < |w.mirror.events| && w.mirror.events[i].id == entry.event && IsStateFor(w.mirror.events[i], entry.tuple);
    assert w.mirror.events[i] in w.mirror.events;
    LedgerEventStored(w.ledger, w.tables, w.mirror.events[i]);
  }

  lemma StateWriteTrue(w: World, entry: StateEntry, online: bool)
    requires Inv(w) && StateTrue(w.tables)
    ensures StateTrue(DoWriteState(w, entry, online).tables) && DoWriteState(w, entry, online).prepared == w.prepared
  {
    hide Inv, ExecAll, StateStatements, StateTrue, StateIsPersisted, SetCurrent, Current, IsStateOf, AddTransition;
    var existing := Current(w.mirror.state, entry.tuple);
    var previous := if existing.Some? then existing.value else "";
    if StateIsPersisted(w.mirror, entry) && ExecAll(w.tables, StateStatements(entry, previous != "", previous)).Some? {
      PersistedIsStateOf(w, entry);
      StateKeepsTrue(w.tables, entry, previous != "", previous);
    }
  }

  lemma DoKeepsTrue(w: World, a: Action)
    requires Inv(w) && WorldTrue(w)
    ensures WorldTrue(Do(w, a))
  {
    hide Inv, AllOwned, ExecAll, EventStatements, UpdateStatements, StateTrue, Lists, EventWritten, DoWriteState, NoRepeats;
    ShownAreWithin(w);
    match a
    case CommitUpdate(writer, online) =>
      if writer in w.prepared && Commit(w.tables, UpdateStatements(w.prepared[writer]), online).Some? {
        UpdateKeepsTrue(w.tables, w.prepared[writer]);
      }
    case WriteEvent(e, online) =>
      EventRunsIff(w.tables, e);
      if ExecAll(w.tables, EventStatements(e)).Some? {
        EventKeepsTrue(w.tables, ExecAll(w.tables, EventStatements(e)).value, e);
      }
    case WriteState(entry, online) => StateWriteTrue(w, entry, online);
    case _ =>
  }

  lemma {:induction false} RunKeepsTrue(w: World, actions: seq<Action>)
    requires Inv(w) && WorldTrue(w)
    ensures WorldTrue(Run(w, actions))
    decreases actions
  {
    hide Inv, WorldTrue;
    if actions != [] {
      DoKeepsTrue(w, actions[0]);
      DoKeepsInv(w, actions[0]);
      RunKeepsTrue(Do(w, actions[0]), actions[1..]);
    }
  }

  /**
   * In every run, whatever is or was current for a tuple is a stored event of
   * that room with that type and state key.
   */
  lemma CurrentIsStateOfItsEvent(actions: seq<Action>)
    ensures StateTrue(Run(START, actions).tables)
  {
    StartInv();
    hide Inv;
    RunKeepsTrue(START, actions);
  }

  // ---- Preparing and committing ---------------------------------------------------------------

  /** What may be prepared, and the update that is then on its way. */
  lemma PrepareIs(w: World, writer: Writer, e: Event, state: Option<StateEntry>, previous: Id)
    ensures var w' := Do(w, Prepare(writer, e, state, previous));
            if (exists x :: x in w.mirror.events && x.id == e.id) ||
               (state.Some? && (state.value.event != e.id || state.value.tuple.room != e.room ||
                                e.json.typeField != Some(state.value.tuple.kind) ||
                                e.json.stateKeyField != Some(state.value.tuple.key)))
            then w' == w
            else
              writer in w'.prepared && w' == w.(prepared := w.prepared[writer := w'.prepared[writer]]) &&
              var u := w'.prepared[writer];
              u.event == e &&
              (state.None? ==> u.state.None?) &&
              (state.Some? ==> u.state == Some(state.value.tuple) && u.previous == previous &&
                               (u.existed <==> exists s :: s in w.mirror.state && s.tuple == state.value.tuple))
  {
    assert HasEvent(w.mirror.events, e.id) <==> exists x :: x in w.mirror.events && x.id == e.id by {
      if i :| 0 <= i < |w.mirror.events| && w.mirror.events[i].id == e.id {
        assert w.mirror.events[i] in w.mirror.events;
      }
    }
    if state.Some? {
      CurrentIsThere(w.mirror.state, state.value.tuple);
    }
  }

  lemma {:induction false} CurrentIsThere(state: seq<StateEntry>, tuple: Tuple)
    ensures Current(state, tuple).Some? <==> exists s :: s in state && s.tuple == tuple
  {
    if state != [] {
      CurrentIsThere(state[1..], tuple);
      assert forall s :: s in state <==> s == state[0] || s in state[1..];
    }
  }

  /** A step that commits a prepared update, field by field: when it does, and what the tables are then. */
  ghost predicate CommitIs(w: World, w': World, u: Update, online: bool) {
    if online && u.event.id !in w.tables.events && NoRepeats(u.event) &&
       (u.state.Some? && !u.existed ==> u.state.value !in w.tables.state)
    then
      w'.committed == w.committed + [u.event.id] && u.event.id in w'.tables.events &&
      w'.tables.events == w.tables.events[u.event.id := Event(u.event.id, u.event.room, u.event.sender, u.event.json,
                                                               u.event.depth, u.event.ordering, [], [], [])] &&
      w'.tables.state == (if u.state.None? then w.tables.state
                          else w.tables.state[u.state.value := StateEntry(u.state.value, u.event.id)])
    else
      w'.committed == w.committed && w'.tables == w.tables && w'.pending == w.pending
  }

  /**
   * In every run a prepared update commits exactly when the database is
   * reached, the id is still new, nothing is repeated and no other writer made
   * something current for a tuple that had nothing when it was prepared.
   */
  lemma CommitSucceedsIff(actions: seq<Action>, writer: Writer, online: bool)
    requires writer in Run(START, actions).prepared
    ensures var w := Run(START, actions);
            CommitIs(w, Do(w, CommitUpdate(writer, online)), w.prepared[writer], online)
  {
    hide Inv, Run, CommitIs, StateTrue, AllOwned;
    StartInv();
    RunKeepsInv(START, actions);
    CurrentIsStateOfItsEvent(actions);
    CommitStep(Run(START, actions), writer, online);
  }

  lemma CommitStep(w: World, writer: Writer, online: bool)
    requires Inv(w) && StateTrue(w.tables) && writer in w.prepared
    ensures CommitIs(w, Do(w, CommitUpdate(writer, online)), w.prepared[writer], online)
  {
    hide Inv, StateTrue, AllOwned, ExecAll, UpdateStatements, NoRepeats, UpdateApplied, FindsRow, EntryOf, Within;
    ShownAreWithin(w);
    PreparedFindsRow(w, writer);
    UpdateCommits(w.tables, w.prepared[writer]);
  }

  lemma PreparedFindsRow(w: World, writer: Writer)
    requires Inv(w) && writer in w.prepared
    ensures FindsRow(w.prepared[writer], w.tables)
  {
  }

  lemma UpdateCommits(t: Tables, u: Update)
    requires AllOwned(t) && StateTrue(t) && FindsRow(u, t)
    ensures var r := ExecAll(t, UpdateStatements(u));
            (r.Some? <==> u.event.id !in t.events && NoRepeats(u.event) &&
                          (u.state.Some? && !u.existed ==> u.state.value !in t.state)) &&
            (r.Some? ==>
               r.value.events == t.events[u.event.id := Event(u.event.id, u.event.room, u.event.sender, u.event.json,
                                                               u.event.depth, u.event.ordering, [], [], [])] &&
               r.value.state == if u.state.None? then t.state
                                else t.state[u.state.value := StateEntry(u.state.value, u.event.id)])
  {
    hide AllOwned, ExecAll, EventStatements, StateStatements, UpdateStatements, NoRepeats, AddsRows;
    UpdateRuns(t, u);
    EventRunsIff(t, u.event);
    var r := ExecAll(t, EventStatements(u.event));
    if r.Some? && u.state.Some? {
      var entry := StateEntry(u.state.value, u.event.id);
      StateWriteRuns(r.value, entry, u.existed, u.previous);
      if ExecAll(r.value, StateStatements(entry, u.existed, u.previous)).Some? {
        StateWriteEffect(r.value, entry, u.existed, u.previous);
        StateWriteKeepsEvents(r.value, entry, u.existed, u.previous);
      }
    }
  }
}
