/**
 * The database behind the mirror: tables as maps from primary key to row,
 * statements that violate a key fail, transactions that do all or nothing
 * (src/database/schema.cpp, src/database/postgresql_store.cpp), and what it
 * means for the mirror to list the tables.
 */
module Backend {
  import opened Basics
  import opened EventMirror

  datatype Tables = Tables(
    events: map<Id, Event>,
    edges: map<Row<Id>, Row<Id>>,
    auths: map<Row<Id>, Row<Id>>,
    sigs: map<(Id, Id, Id), Row<Signature>>,
    state: map<Tuple, StateEntry>,
    transitions: map<(Tuple, Id), Transition>)

  const EMPTY_TABLES := Tables(map[], map[], map[], map[], map[], map[])

  datatype Statement =
    | InsertEvent(event: Event)
    | InsertEdge(edge: Row<Id>)
    | InsertAuth(auth: Row<Id>)
    | InsertSignature(sig: Row<Signature>)
    | InsertState(entry: StateEntry)
    | UpdateState(entry: StateEntry)
    | InsertTransition(transition: Transition)

  // ---- Primary keys ----------------------------------------------------------

  function EventKey(e: Event): Id { e.id }

  /** The event row without what the relation tables hold. */
  function Bare(e: Event): Event { e.(prev := [], auth := [], sigs := []) }

  function RowKey(r: Row<Id>): Row<Id> { r }

  function SigKey(r: Row<Signature>): (Id, Id, Id) { (r.event, r.value.server, r.value.key) }

  function StateKey(s: StateEntry): Tuple { s.tuple }

  function TransitionKey(t: Transition): (Tuple, Id) { (t.tuple, t.event) }

  function Same<R>(r: R): R { r }

  // ---- Statements and transactions -------------------------------------------

  function Insert<K, R>(table: map<K, R>, key: K, row: R): Option<map<K, R>> {
    if key in table then None else Some(table[key := row])
  }

  function Exec(t: Tables, s: Statement): Option<Tables> {
    match s
    case InsertEvent(e) =>
      var r := Insert(t.events, e.id, Bare(e)); if r.None? then None else Some(t.(events := r.value))
    case InsertEdge(row) =>
      var r := Insert(t.edges, row, row); if r.None? then None else Some(t.(edges := r.value))
    case InsertAuth(row) =>
      var r := Insert(t.auths, row, row); if r.None? then None else Some(t.(auths := r.value))
    case InsertSignature(row) =>
      var r := Insert(t.sigs, SigKey(row), row); if r.None? then None else Some(t.(sigs := r.value))
    case InsertState(entry) =>
      var r := Insert(t.state, entry.tuple, entry); if r.None? then None else Some(t.(state := r.value))
    case UpdateState(entry) =>
      Some(if entry.tuple in t.state then t.(state := t.state[entry.tuple := entry]) else t)
    case InsertTransition(row) =>
      var r := Insert(t.transitions, TransitionKey(row), row); if r.None? then None else Some(t.(transitions := r.value))
  }

  function ExecAll(t: Tables, statements: seq<Statement>): Option<Tables>
    decreases statements
  {
    if statements == [] then Some(t)
    else
      var next := Exec(t, statements[0]);
      if next.None? then None else ExecAll(next.value, statements[1..])
  }

  /** A transaction that reaches the database or does not. */
  function Commit(t: Tables, statements: seq<Statement>, online: bool): Option<Tables> {
    if online then ExecAll(t, statements) else None
  }

  lemma {:induction false} ExecAllAppend(t: Tables, a: seq<Statement>, b: seq<Statement>)
    ensures ExecAll(t, a + b) == if ExecAll(t, a).None? then None else ExecAll(ExecAll(t, a).value, b)
    decreases a
  {
    if a == [] {
      assert a + b == b;
    } else {
      assert (a + b)[0] == a[0] && (a + b)[1..] == a[1..] + b;
      if Exec(t, a[0]).Some? {
        ExecAllAppend(Exec(t, a[0]).value, a[1..], b);
      }
    }
  }

  // ---- The statements of each write --------------------------------------------

  function EdgeInsert(row: Row<Id>): Statement { InsertEdge(row) }
  function AuthInsert(row: Row<Id>): Statement { InsertAuth(row) }
  function SignatureInsert(row: Row<Signature>): Statement { InsertSignature(row) }

  /** One statement for each row of a relation table. */
  function RowStatements<T>(make: Row<T> -> Statement, rows: seq<Row<T>>): seq<Statement> {
    if rows == [] then [] else [make(rows[0])] + RowStatements(make, rows[1..])
  }

  function EventStatements(e: Event): seq<Statement> {
    [InsertEvent(e)] + RowStatements(EdgeInsert, RowsOf(e.id, e.prev)) + RowStatements(AuthInsert, RowsOf(e.id, e.auth)) +
    RowStatements(SignatureInsert, RowsOf(e.id, e.sigs))
  }

  function StateStatements(entry: StateEntry, update: bool, previous: Id): seq<Statement> {
    [if update then UpdateState(entry) else InsertState(entry),
     InsertTransition(Transition(entry.tuple, entry.event, previous))]
  }

  function UpdateStatements(u: Update): seq<Statement> {
    EventStatements(u.event) +
    if u.state.None? then [] else StateStatements(StateEntry(u.state.value, u.event.id), u.existed, u.previous)
  }

  // ---- The mirror lists the tables ---------------------------------------------

  /** Every row of the table is listed exactly once, and nothing else is. */
  ghost predicate ListsTable<E(!new), K(!new), R>(list: seq<E>, key: E -> K, row: E -> R, table: map<K, R>) {
    (forall i, j :: 0 <= i < j < |list| ==> key(list[i]) != key(list[j])) &&
    (forall i :: 0 <= i < |list| ==> key(list[i]) in table && table[key(list[i])] == row(list[i])) &&
    (forall k :: k in table ==> exists i :: 0 <= i < |list| && key(list[i]) == k)
  }

  lemma ListsAppend<E(!new), K(!new), R>(list: seq<E>, key: E -> K, row: E -> R, table: map<K, R>, e: E)
    requires ListsTable(list, key, row, table) && key(e) !in table
    ensures ListsTable(list + [e], key, row, table[key(e) := row(e)])
  {
    var list', table' := list + [e], table[key(e) := row(e)];
    forall k | k in table'
      ensures exists i :: 0 <= i < |list'| && key(list'[i]) == k
    {
      if k == key(e) {
        assert list'[|list|] == e;
      } else {
        var i :| 0 <= i < |list| && key(list[i]) == k;
        assert list'[i] == list[i];
      }
    }
  }

  /** A list fixes the table it lists. */
  lemma ListsOneTable<E(!new), K(!new), R>(list: seq<E>, key: E -> K, row: E -> R, a: map<K, R>, b: map<K, R>)
    requires ListsTable(list, key, row, a) && ListsTable(list, key, row, b)
    ensures a == b
  {
    assert forall k :: k in a ==> k in b && a[k] == b[k];
    assert forall k :: k in b ==> k in a;
  }

  lemma ListsNoDup<E(!new), K(!new), R>(list: seq<E>, key: E -> K, row: E -> R, table: map<K, R>)
    requires ListsTable(list, key, row, table)
    ensures NoDup(list)
  {
    forall i, j | 0 <= i < j < |list|
      ensures list[i] != list[j]
    {
      assert key(list[i]) != key(list[j]);
    }
  }

  /** Rearranged, a listing lists the same table. */
  lemma ListsPermuted<E(!new), K(!new), R>(a: seq<E>, b: seq<E>, key: E -> K, row: E -> R, table: map<K, R>)
    requires ListsTable(a, key, row, table) && multiset(a) == multiset(b)
    ensures ListsTable(b, key, row, table)
  {
    ListsNoDup(a, key, row, table);
    SublistNoDup(b, a);
    forall i | 0 <= i < |b|
      ensures b[i] in a
    {
      assert b[i] in multiset(b);
    }
    forall i, j | 0 <= i < j < |b|
      ensures key(b[i]) != key(b[j])
    {
      var k :| 0 <= k < |a| && a[k] == b[i];
      var l :| 0 <= l < |a| && a[l] == b[j];
      assert k != l;
    }
    forall k | k in table
      ensures exists i :: 0 <= i < |b| && key(b[i]) == k
    {
      var i :| 0 <= i < |a| && key(a[i]) == k;
      assert a[i] in multiset(a);
      assert a[i] in b;
      var j :| 0 <= j < |b| && b[j] == a[i];
    }
  }

  ghost predicate DistinctBy<E(!new), K(!new)>(list: seq<E>, key: E -> K) {
    forall i, j :: 0 <= i < j < |list| ==> key(list[i]) != key(list[j])
  }

  lemma {:induction false} FilterKeepsKeys<E(!new), K(!new)>(list: seq<E>, key: E -> K, p: E -> bool)
    requires DistinctBy(list, key)
    ensures DistinctBy(Filter(list, p), key)
  {
    if list != [] {
      var first, rest := list[0], list[1..];
      assert forall i :: 0 <= i < |rest| ==> rest[i] == list[i + 1];
      FilterKeepsKeys(rest, key, p);
      var later := Filter(rest, p);
      forall i | 0 <= i < |later|
        ensures key(later[i]) != key(first)
      {
        assert later[i] in later;
        var k :| 0 <= k < |rest| && rest[k] == later[i];
        assert list[k + 1] == later[i];
      }
      assert DistinctBy([first] + later, key);
    }
  }

  function Part<K, R>(table: map<K, R>, q: R -> bool): map<K, R> {
    map k | k in table && q(table[k]) :: table[k]
  }

  /** Part of a listing lists that part of the table. */
  lemma FilterLists<E(!new), K(!new), R>(list: seq<E>, key: E -> K, row: E -> R, table: map<K, R>, p: E -> bool, q: R -> bool)
    requires ListsTable(list, key, row, table) && forall e :: p(e) == q(row(e))
    ensures ListsTable(Filter(list, p), key, row, Part(table, q))
  {
    var kept, part := Filter(list, p), Part(table, q);
    FilterKeepsKeys(list, key, p);
    forall i | 0 <= i < |kept|
      ensures key(kept[i]) in part && part[key(kept[i])] == row(kept[i])
    {
      assert kept[i] in kept;
      var j :| 0 <= j < |list| && list[j] == kept[i];
      assert key(list[j]) in table && table[key(list[j])] == row(list[j]);
    }
    forall k | k in part
      ensures exists i :: 0 <= i < |kept| && key(kept[i]) == k
    {
      var j :| 0 <= j < |list| && key(list[j]) == k;
      assert list[j] in kept;
      var i :| 0 <= i < |kept| && kept[i] == list[j];
    }
  }

  ghost predicate Lists(m: Mirror, t: Tables) {
    ListsTable(m.events, EventKey, Bare, t.events) &&
    ListsTable(m.edges, RowKey, Same, t.edges) &&
    ListsTable(m.auths, RowKey, Same, t.auths) &&
    ListsTable(m.sigs, SigKey, Same, t.sigs) &&
    ListsTable(m.state, StateKey, Same, t.state) &&
    ListsTable(m.transitions, TransitionKey, Same, t.transitions)
  }

  /** In a listing, an id belongs to an event of the table. */
  lemma ListedEvent(m: Mirror, t: Tables, id: Id)
    requires ListsTable(m.events, EventKey, Bare, t.events)
    ensures HasEvent(m.events, id) <==> id in t.events
    ensures forall e :: e in m.events ==> e.id in t.events && t.events[e.id].room == e.room
  {
    forall e | e in m.events
      ensures e.id in t.events && t.events[e.id].room == e.room
    {
      var i :| 0 <= i < |m.events| && m.events[i] == e;
      assert EventKey(m.events[i]) in t.events;
    }
    if id in t.events {
      var i :| 0 <= i < |m.events| && EventKey(m.events[i]) == id;
    }
    if i :| 0 <= i < |m.events| && m.events[i].id == id {
      assert m.events[i] in m.events;
    }
  }

  function Edges(t: Tables): map<Row<Id>, Row<Id>> { t.edges }
  function WithEdges(t: Tables, table: map<Row<Id>, Row<Id>>): Tables { t.(edges := table) }
  function Auths(t: Tables): map<Row<Id>, Row<Id>> { t.auths }
  function WithAuths(t: Tables, table: map<Row<Id>, Row<Id>>): Tables { t.(auths := table) }
  function Sigs(t: Tables): map<(Id, Id, Id), Row<Signature>> { t.sigs }
  function WithSigs(t: Tables, table: map<(Id, Id, Id), Row<Signature>>): Tables { t.(sigs := table) }

  /** The statement inserts its row, under its key, into one table and touches no other. */
  ghost predicate InsertsInto<T(!new), K(!new)>(
    make: Row<T> -> Statement, key: Row<T> -> K, get: Tables -> map<K, Row<T>>, put: (Tables, map<K, Row<T>>) -> Tables)
  {
    (forall t, row :: Exec(t, make(row)) ==
                      if key(row) in get(t) then None else Some(put(t, get(t)[key(row) := row]))) &&
    (forall t, x :: get(put(t, x)) == x) && (forall t, x, y :: put(put(t, x), y) == put(t, y)) &&
    (forall t :: put(t, get(t)) == t)
  }

  /** Committed rows of one relation table: the list of the old rows and the new ones lists the new table. */
  lemma {:induction false} RowsListed<T(!new), K(!new)>(
    list: seq<Row<T>>, t: Tables, rows: seq<Row<T>>,
    make: Row<T> -> Statement, key: Row<T> -> K, get: Tables -> map<K, Row<T>>, put: (Tables, map<K, Row<T>>) -> Tables)
    requires InsertsInto(make, key, get, put)
    requires ListsTable(list, key, Same, get(t)) && ExecAll(t, RowStatements(make, rows)).Some?
    ensures var t' := ExecAll(t, RowStatements(make, rows)).value;
            ListsTable(list + rows, key, Same, get(t')) && t' == put(t, get(t'))
    decreases rows
  {
    hide ListsTable;
    if rows == [] {
      assert list + rows == list;
    } else {
      var row, t1 := rows[0], Exec(t, make(rows[0])).value;
      assert RowStatements(make, rows)[1..] == RowStatements(make, rows[1..]);
      assert t1 == put(t, get(t)[key(row) := row]);
      ListsAppend(list, key, Same, get(t), row);
      assert list + rows == (list + [row]) + rows[1..];
      RowsListed(list + [row], t1, rows[1..], make, key, get, put);
    }
  }

  lemma RelationInserts()
    ensures InsertsInto(EdgeInsert, RowKey, Edges, WithEdges)
    ensures InsertsInto(AuthInsert, RowKey, Auths, WithAuths)
    ensures InsertsInto(SignatureInsert, SigKey, Sigs, WithSigs)
  {
  }

  /** The transaction that stores an event, table by table. */
  lemma EventStatementsRun(t: Tables, e: Event)
    ensures ExecAll(t, EventStatements(e)) ==
            var t1 := Exec(t, InsertEvent(e));
            if t1.None? then None else
            var t2 := ExecAll(t1.value, RowStatements(EdgeInsert, RowsOf(e.id, e.prev)));
            if t2.None? then None else
            var t3 := ExecAll(t2.value, RowStatements(AuthInsert, RowsOf(e.id, e.auth)));
            if t3.None? then None else ExecAll(t3.value, RowStatements(SignatureInsert, RowsOf(e.id, e.sigs)))
  {
    var a, b := [InsertEvent(e)], RowStatements(EdgeInsert, RowsOf(e.id, e.prev));
    var c, d := RowStatements(AuthInsert, RowsOf(e.id, e.auth)), RowStatements(SignatureInsert, RowsOf(e.id, e.sigs));
    assert ExecAll(t, a) == Exec(t, InsertEvent(e)) by {
      assert a[1..] == [];
    }
    ExecAllAppend(t, a + b + c, d);
    ExecAllAppend(t, a + b, c);
    ExecAllAppend(t, a, b);
  }

  /** What the mirror does for an accepted event is what the transaction did to the tables. */
  lemma AddEventLists(m: Mirror, t: Tables, e: Event)
    requires Lists(m, t) && ExecAll(t, EventStatements(e)).Some?
    ensures !HasEvent(m.events, e.id) && e.id !in t.events
    ensures var t' := ExecAll(t, EventStatements(e)).value;
            Lists(AddEvent(m, e), t') && t'.state == t.state && t'.events == t.events[e.id := Bare(e)]
  {
    EventStatementsRun(t, e);
    RelationInserts();
    hide InsertsInto, ExecAll, RowStatements;
    var t1 := Exec(t, InsertEvent(e)).value;
    ListsAppend(m.events, EventKey, Bare, t.events, e);
    var t2 := ExecAll(t1, RowStatements(EdgeInsert, RowsOf(e.id, e.prev))).value;
    RowsListed(m.edges, t1, RowsOf(e.id, e.prev), EdgeInsert, RowKey, Edges, WithEdges);
    var t3 := ExecAll(t2, RowStatements(AuthInsert, RowsOf(e.id, e.auth))).value;
    RowsListed(m.auths, t2, RowsOf(e.id, e.auth), AuthInsert, RowKey, Auths, WithAuths);
    RowsListed(m.sigs, t3, RowsOf(e.id, e.sigs), SignatureInsert, SigKey, Sigs, WithSigs);
  }

  lemma {:induction false} SetCurrentPosition(state: seq<StateEntry>, tuple: Tuple) returns (i: nat)
    ensures i <= |state| && forall j :: 0 <= j < i ==> state[j].tuple != tuple
    ensures i < |state| ==> state[i].tuple == tuple
  {
    i := 0;
    while i < |state| && state[i].tuple != tuple
      invariant i <= |state| && forall j :: 0 <= j < i ==> state[j].tuple != tuple
    {
      i := i + 1;
    }
  }

  lemma SetCurrentLists(state: seq<StateEntry>, table: map<Tuple, StateEntry>, entry: StateEntry)
    requires ListsTable(state, StateKey, Same, table)
    ensures ListsTable(SetCurrent(state, entry.tuple, entry.event), StateKey, Same, table[entry.tuple := entry])
    ensures Current(state, entry.tuple).Some? <==> entry.tuple in table
  {
    var i := SetCurrentPosition(state, entry.tuple);
    if i < |state| {
      SetAt(state, entry.tuple, entry.event, i);
      var state', table' := state[i := entry], table[entry.tuple := entry];
      forall k | k in table'
        ensures exists j :: 0 <= j < |state'| && StateKey(state'[j]) == k
      {
        var j :| 0 <= j < |state| && StateKey(state[j]) == k;
        assert StateKey(state'[j]) == k;
      }
    } else {
      SetAtEnd(state, entry.tuple, entry.event);
      ListsAppend(state, StateKey, Same, table, entry);
    }
  }

  lemma StateStatementsRun(t: Tables, entry: StateEntry, update: bool, previous: Id)
    requires ExecAll(t, StateStatements(entry, update, previous)).Some? && (update ==> entry.tuple in t.state)
    ensures (entry.tuple, entry.event) !in t.transitions
    ensures ExecAll(t, StateStatements(entry, update, previous)).value ==
            t.(state := t.state[entry.tuple := entry],
               transitions := t.transitions[(entry.tuple, entry.event) := Transition(entry.tuple, entry.event, previous)])
  {
    var statements := StateStatements(entry, update, previous);
    var row := Transition(entry.tuple, entry.event, previous);
    var t1 := Exec(t, statements[0]).value;
    assert statements[1..] == [InsertTransition(row)];
    assert ExecAll(t1, [InsertTransition(row)]) == Exec(t1, InsertTransition(row));
  }

  /** The same for making an event current, when the update finds its row. */
  lemma MakeCurrentLists(m: Mirror, t: Tables, entry: StateEntry, update: bool, previous: Id)
    requires Lists(m, t) && ExecAll(t, StateStatements(entry, update, previous)).Some?
    requires update ==> entry.tuple in t.state
    ensures var t' := ExecAll(t, StateStatements(entry, update, previous)).value;
            Lists(MakeCurrent(m, entry, previous), t') && t'.events == t.events && t'.state == t.state[entry.tuple := entry]
  {
    StateStatementsRun(t, entry, update, previous);
    hide ListsTable, SetCurrent;
    SetCurrentLists(m.state, t.state, entry);
    ListsAppend(m.transitions, TransitionKey, Same, t.transitions, Transition(entry.tuple, entry.event, previous));
  }

  /** And for a whole update: applying it follows its transaction. */
  lemma ApplyLists(m: Mirror, t: Tables, u: Update)
    requires Lists(m, t) && ExecAll(t, UpdateStatements(u)).Some?
    requires u.state.Some? && u.existed ==> u.state.value in t.state
    ensures u.event.id !in t.events
    ensures var t' := ExecAll(t, UpdateStatements(u)).value;
            Lists(UpdateApplied(m, u), t') && t.state.Keys <= t'.state.Keys && t'.events == t.events[u.event.id := Bare(u.event)]
  {
    var first := EventStatements(u.event);
    if u.state.None? {
      assert UpdateStatements(u) == first;
      AddEventLists(m, t, u.event);
    } else {
      var entry := StateEntry(u.state.value, u.event.id);
      ExecAllAppend(t, first, StateStatements(entry, u.existed, u.previous));
      AddEventLists(m, t, u.event);
      MakeCurrentLists(AddEvent(m, u.event), ExecAll(t, first).value, entry, u.existed, u.previous);
    }
  }
}
