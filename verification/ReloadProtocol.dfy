/**
 * Reloading a room beside writes: when the mirror still lists the database
 * afterwards, and what a reload costs that overtakes a pending update
 * (src/database/persistent_store.cpp).
 */
module ReloadProtocol {
  import opened Basics
  import opened EventMirror
  import opened Backend
  import opened RoomOrder
  import opened RoomReload
  import opened WriteOrder
  import opened WriteProtocol
  import RoomSnapshot

  // ---- Lists put together from parts ----------------------------------------------------

  /** A list for the rows with a property and one for those without are together a list of the table. */
  lemma ListsTogether<E(!new), K(!new), R>(
    a: seq<E>, b: seq<E>, key: E -> K, row: E -> R, table: map<K, R>, p: R -> bool, q: R -> bool)
    requires ListsTable(a, key, row, Part(table, p)) && ListsTable(b, key, row, Part(table, q))
    requires forall k :: k in table ==> p(table[k]) != q(table[k])
    ensures ListsTable(a + b, key, row, table)
  {
    var all := a + b;
    forall i | 0 <= i < |all|
      ensures key(all[i]) in table && table[key(all[i])] == row(all[i])
      ensures p(row(all[i])) <==> i < |a|
    {
      if i < |a| {
        assert key(a[i]) in Part(table, p);
      } else {
        assert key(b[i - |a|]) in Part(table, q);
      }
    }
    forall i, j | 0 <= i < j < |all|
      ensures key(all[i]) != key(all[j])
    {
      if j < |a| {
        assert key(a[i]) != key(a[j]);
      } else if i >= |a| {
        assert key(b[i - |a|]) != key(b[j - |a|]);
      } else {
        assert p(table[key(all[i])]) && !p(table[key(all[j])]);
      }
    }
    forall k | k in table
      ensures exists i :: 0 <= i < |all| && key(all[i]) == k
    {
      if p(table[k]) {
        assert k in Part(table, p);
        var i :| 0 <= i < |a| && key(a[i]) == k;
        assert key(all[i]) == k;
      } else {
        assert k in Part(table, q);
        var i :| 0 <= i < |b| && key(b[i]) == k;
        assert key(all[|a| + i]) == k;
      }
    }
  }

  // ---- The room and the rest --------------------------------------------------------------

  /** The events of other rooms. */
  function OutsideIds(t: Tables, room: Id): set<Id> {
    set id | id in t.events && t.events[id].room != room
  }

  /** Outside the room, the tables have the same events, relation rows and state. */
  ghost predicate SameOutside(t: Tables, t': Tables, room: Id) {
    Part(t.events, EventOutside(room)) == Part(t'.events, EventOutside(room)) &&
    Part(t.state, StateOutside(room)) == Part(t'.state, StateOutside(room)) &&
    Part(t.edges, RowFor(OutsideIds(t, room))) == Part(t'.edges, RowFor(OutsideIds(t', room))) &&
    Part(t.auths, RowFor(OutsideIds(t, room))) == Part(t'.auths, RowFor(OutsideIds(t', room))) &&
    Part(t.sigs, RowFor(OutsideIds(t, room))) == Part(t'.sigs, RowFor(OutsideIds(t', room)))
  }

  lemma SameOutsideIds(t: Tables, t': Tables, room: Id)
    requires Part(t.events, EventOutside(room)) == Part(t'.events, EventOutside(room))
    ensures OutsideIds(t, room) == OutsideIds(t', room)
  {
    forall id
      ensures id in OutsideIds(t, room) <==> id in OutsideIds(t', room)
    {
      assert id in OutsideIds(t, room) <==> id in Part(t.events, EventOutside(room));
      assert id in OutsideIds(t', room) <==> id in Part(t'.events, EventOutside(room));
    }
  }

  /** Which of the old rows a reload keeps: those of other rooms' events. */
  lemma KeptRows(m: Mirror, t0: Tables, db: Mirror, t: Tables, room: Id, s: Snapshot, id: Id)
    requires ListsTable(m.events, EventKey, Bare, t0.events) && ListsTable(db.events, EventKey, Bare, t.events)
    requires OutsideIds(t0, room) == OutsideIds(t, room) && s.events == Filter(db.events, EventIn(room))
    ensures id in t0.events ==> (id !in StaleIds(m, room, s) <==> id in OutsideIds(t0, room))
    ensures id in t.events ==> (id !in EventIds(s.events) <==> id in OutsideIds(t, room))
  {
    InRoomIds(m, t0, room, id);
    InRoomIds(db, t, room, id);
  }

  lemma SamePart<K(!new), R>(table: map<K, R>, p: R -> bool, q: R -> bool)
    requires forall k :: k in table ==> p(table[k]) == q(table[k])
    ensures Part(table, p) == Part(table, q)
  {
  }

  /** Every row of the table is of an event of the table. */
  lemma RowsHaveEvents<T(!new), K(!new)>(
    m: Mirror, t: Tables, rows: seq<Row<T>>, key: Row<T> -> K, table: map<K, Row<T>>)
    requires ListsTable(m.events, EventKey, Bare, t.events) && ListsTable(rows, key, Same, table) && NoOrphans(m.events, rows)
    ensures forall k :: k in table ==> table[k].event in t.events
  {
    forall k | k in table
      ensures table[k].event in t.events
    {
      var i :| 0 <= i < |rows| && key(rows[i]) == k;
      assert table[key(rows[i])] == Same(rows[i]) && rows[i] in rows;
      ListedEvent(m, t, rows[i].event);
    }
  }

  /** One relation table after the reload. */
  lemma RelationReloaded<T(!new), K(!new)>(
    m: Mirror, t0: Tables, db: Mirror, t: Tables, room: Id, s: Snapshot,
    rows: seq<Row<T>>, dbRows: seq<Row<T>>, get: Event -> seq<T>, key: Row<T> -> K, table0: map<K, Row<T>>, table: map<K, Row<T>>)
    requires ListsTable(m.events, EventKey, Bare, t0.events) && ListsTable(db.events, EventKey, Bare, t.events)
    requires OutsideIds(t0, room) == OutsideIds(t, room) && s.events == Filter(db.events, EventIn(room)) && UniqueIds(s.events)
    requires ListsTable(rows, key, Same, table0) && ListsTable(dbRows, key, Same, table)
    requires NoOrphans(m.events, rows) && NoOrphans(db.events, dbRows)
    requires forall i :: 0 <= i < |s.events| ==> get(s.events[i]) == Values(dbRows, s.events[i].id)
    requires Part(table0, RowFor(OutsideIds(t0, room))) == Part(table, RowFor(OutsideIds(t, room)))
    ensures ListsTable(Filter(rows, RowNotFor(StaleIds(m, room, s))) + EventRows(s.events, get), key, Same, table)
  {
    var stale, own, outside := StaleIds(m, room, s), EventIds(s.events), OutsideIds(t, room);
    RowsHaveEvents(m, t0, rows, key, table0);
    RowsHaveEvents(db, t, dbRows, key, table);
    forall k | k in table0
      ensures RowNotFor(stale)(table0[k]) == RowFor(outside)(table0[k])
    {
      KeptRows(m, t0, db, t, room, s, table0[k].event);
    }
    forall k | k in table
      ensures RowFor(own)(table[k]) != RowFor(outside)(table[k])
    {
      KeptRows(m, t0, db, t, room, s, table[k].event);
    }
    hide ListsTable, Filter, StaleIds, EventRows, NoOrphans, Part;
    FilterLists(rows, key, Same, table0, RowNotFor(stale), RowNotFor(stale));
    SamePart(table0, RowNotFor(stale), RowFor(outside));
    FilterLists(dbRows, key, Same, table, RowFor(own), RowFor(own));
    RowsRegrouped(s.events, get, dbRows);
    ListsPermuted(Filter(dbRows, RowFor(own)), EventRows(s.events, get), key, Same, Part(table, RowFor(own)));
    ListsTogether(Filter(rows, RowNotFor(stale)), EventRows(s.events, get), key, Same, table, RowFor(outside), RowFor(own));
  }

  // ---- What a reload promises beside writes -----------------------------------------------

  lemma EventsReloaded(m: Mirror, t0: Tables, db: Mirror, t: Tables, room: Id)
    requires ListsTable(m.events, EventKey, Bare, t0.events) && ListsTable(db.events, EventKey, Bare, t.events)
    requires Part(t0.events, EventOutside(room)) == Part(t.events, EventOutside(room))
    ensures ListsTable(Filter(m.events, EventOutside(room)) + Filter(db.events, EventIn(room)), EventKey, Bare, t.events)
  {
    hide ListsTable, Part, Filter;
    FilterLists(m.events, EventKey, Bare, t0.events, EventOutside(room), EventOutside(room));
    FilterLists(db.events, EventKey, Bare, t.events, EventIn(room), EventIn(room));
    ListsTogether(Filter(m.events, EventOutside(room)), Filter(db.events, EventIn(room)), EventKey, Bare, t.events,
                  EventOutside(room), EventIn(room));
  }

  lemma StateReloaded(m: Mirror, t0: Tables, db: Mirror, t: Tables, room: Id)
    requires ListsTable(m.state, StateKey, Same, t0.state) && ListsTable(db.state, StateKey, Same, t.state)
    requires Part(t0.state, StateOutside(room)) == Part(t.state, StateOutside(room))
    ensures ListsTable(Filter(m.state, StateOutside(room)) + Filter(db.state, StateIn(room)), StateKey, Same, t.state)
  {
    hide ListsTable, Part, Filter;
    FilterLists(m.state, StateKey, Same, t0.state, StateOutside(room), StateOutside(room));
    FilterLists(db.state, StateKey, Same, t.state, StateIn(room), StateIn(room));
    ListsTogether(Filter(m.state, StateOutside(room)), Filter(db.state, StateIn(room)), StateKey, Same, t.state,
                  StateOutside(room), StateIn(room));
  }

  lemma RelationsReloaded(m: Mirror, t0: Tables, db: Mirror, t: Tables, room: Id)
    requires Lists(m, t0) && RelationsOk(m) && Lists(db, t) && RelationsOk(db) && SameOutside(t0, t, room)
    ensures var n := Reloaded(m, room, RoomSnapshot.SnapshotOf(db, room));
            ListsTable(n.edges, RowKey, Same, t.edges) && ListsTable(n.auths, RowKey, Same, t.auths) &&
            ListsTable(n.sigs, SigKey, Same, t.sigs)
  {
    var s := RoomSnapshot.SnapshotOf(db, room);
    RoomSnapshot.SnapshotIsFaithful(db, room);
    SameOutsideIds(t0, t, room);
    forall i | 0 <= i < |s.events|
      ensures Embeds(db, s.events[i])
    {
      assert s.events[i] in db.events;
    }
    hide ListsTable, NoOrphans, UniqueIds, Part, Filter, RoomSnapshot.SnapshotOf, OutsideIds, EventRows, StaleIds, Values, ForRoom;
    RelationReloaded(m, t0, db, t, room, s, m.edges, db.edges, PrevOf, RowKey, t0.edges, t.edges);
    RelationReloaded(m, t0, db, t, room, s, m.auths, db.auths, AuthOf, RowKey, t0.auths, t.auths);
    RelationReloaded(m, t0, db, t, room, s, m.sigs, db.sigs, SigsOf, SigKey, t0.sigs, t.sigs);
  }

  /**
   * A mirror that listed tables `t0` reloads a room after the tables became `t`,
   * the same outside the room. It lists `t` exactly when no transition was added:
   * a reload brings events, relations and state, but no transitions.
   */
  lemma ReloadKeepsListsIff(m: Mirror, t0: Tables, db: Mirror, t: Tables, room: Id)
    requires Lists(m, t0) && RelationsOk(m) && Lists(db, t) && RelationsOk(db) && SameOutside(t0, t, room)
    ensures Lists(Reloaded(m, room, RoomSnapshot.SnapshotOf(db, room)), t) <==> t0.transitions == t.transitions
  {
    var n := Reloaded(m, room, RoomSnapshot.SnapshotOf(db, room));
    RoomSnapshot.SnapshotIsFaithful(db, room);
    RelationsReloaded(m, t0, db, t, room);
    EventsReloaded(m, t0, db, t, room);
    StateReloaded(m, t0, db, t, room);
    hide ListsTable, RelationsOk, Part, Filter, OutsideIds, EventRows, StaleIds, ForRoom, UniqueIds;
    if Lists(n, t) {
      ListsOneTable(m.transitions, TransitionKey, Same, t0.transitions, t.transitions);
    }
  }

  /** In particular, a reload of a store that is in step leaves it in step. */
  lemma ReloadOfCurrentIsCurrent(m: Mirror, t: Tables, db: Mirror, room: Id)
    requires Lists(m, t) && MirrorOk(m) && Lists(db, t) && RelationsOk(db)
    ensures var n := Reloaded(m, room, RoomSnapshot.SnapshotOf(db, room)); Lists(n, t) && MirrorOk(n)
  {
    ReloadKeepsListsIff(m, t, db, t, room);
    RoomSnapshot.SnapshotIsFaithful(db, room);
    assert OwnIds(m, room, RoomSnapshot.SnapshotOf(db, room)) by {
      SnapshotHasOwnIds(m, t, db, room);
    }
    hide Lists, RelationsOk, OwnIds, RoomSnapshot.SnapshotOf, ForRoom, UniqueIds;
    ReloadKeepsRelations(m, room, RoomSnapshot.SnapshotOf(db, room));
  }

  lemma SnapshotHasOwnIds(m: Mirror, t: Tables, db: Mirror, room: Id)
    requires Lists(m, t) && Lists(db, t) && RelationsOk(db)
    ensures OwnIds(m, room, RoomSnapshot.SnapshotOf(db, room))
  {
    RoomSnapshot.SnapshotIsFaithful(db, room);
    hide RoomSnapshot.SnapshotOf, RelationsOk, ForRoom, UniqueIds;
    forall e | e in m.events && e.room != room
      ensures !HasEvent(Filter(db.events, EventIn(room)), e.id)
    {
      ListedEvent(m, t, e.id);
      InRoomIds(db, t, room, e.id);
    }
  }

  /** Over every run in which each tuple's commits are applied in order: a reload while nothing is pending changes nothing. */
  lemma ReloadBetweenWrites(actions: seq<Action>, db: Mirror, room: Id)
    requires OrderedRun(START, actions)
    requires var w := Run(START, actions); w.pending == [] && Lists(db, w.tables) && RelationsOk(db)
    ensures var w := Run(START, actions);
            var n := Reloaded(w.mirror, room, RoomSnapshot.SnapshotOf(db, room)); Lists(n, w.tables) && MirrorOk(n)
  {
    var w := Run(START, actions);
    hide Run, Lists, MirrorOk, RelationsOk, Reloaded, RoomSnapshot.SnapshotOf, OrderedRun;
    MirrorIsCurrentIffApplied(actions);
    MirrorStaysInStep(actions);
    ReloadOfCurrentIsCurrent(w.mirror, w.tables, db, room);
  }

  /** What the ledger has of a pending state event: the event and its transition, and the mirror has neither. */
  lemma PendingTransitionIsMissing(w: World, i: nat)
    requires Inv(w) && i < |w.pending| && w.pending[i].update.state.Some?
    ensures var u := w.pending[i].update;
            u.event in w.ledger.events && HasTransition(w.ledger.transitions, EntryOf(u).value) &&
            !HasTransition(w.mirror.transitions, EntryOf(u).value)
  {
    var p, shown, all := w.pending[i], w.mirror, w.ledger;
    ConservedByApply(shown.events, w.pending, NewEvents, all.events, i);
    assert p.update.event in multiset(shown.events + NewEvents(p)) && p.update.event in multiset(all.events);
    var t := NewTransitions(p)[0];
    ConservedByApply(shown.transitions, w.pending, NewTransitions, all.transitions, i);
    NewKeyOnce(shown.transitions, t, all.transitions, w.tables.transitions);
  }

  /** A transition beyond those shown, all of them among those listed, has a key of its own. */
  lemma NewKeyOnce(shown: seq<Transition>, t: Transition, all: seq<Transition>, table: map<(Tuple, Id), Transition>)
    requires multiset(shown + [t]) <= multiset(all) && ListsTable(all, TransitionKey, Same, table)
    ensures HasTransition(all, StateEntry(t.tuple, t.event)) && !HasTransition(shown, StateEntry(t.tuple, t.event))
  {
    var more := shown + [t];
    ListsNoDup(all, TransitionKey, Same, table);
    SublistNoDup(more, all);
    assert more[|shown|] == t;
    forall x | x in more
      ensures x in all
    {
      assert x in multiset(more);
    }
    assert t in more;
    var k :| 0 <= k < |all| && all[k] == t;
    forall i | 0 <= i < |shown|
      ensures TransitionKey(shown[i]) != TransitionKey(t)
    {
      assert more[i] == shown[i] && shown[i] != t && shown[i] in more;
      var j :| 0 <= j < |all| && all[j] == shown[i];
      assert TransitionKey(all[j]) != TransitionKey(all[k]);
    }
  }

  /** Updates applied one after another. */
  function AllApplied(m: Mirror, updates: seq<Update>): Mirror
    decreases updates
  {
    if updates == [] then m else AllApplied(UpdateApplied(m, updates[0]), updates[1..])
  }

  /** An event that is stored gets no transition from any later update. */
  lemma {:induction false} StaysOut(m: Mirror, updates: seq<Update>, entry: StateEntry)
    requires HasEvent(m.events, entry.event) && !HasTransition(m.transitions, entry)
    ensures !HasTransition(AllApplied(m, updates).transitions, entry)
    decreases updates
  {
    if updates != [] {
      OneStaysOut(m, updates[0], entry);
      StaysOut(UpdateApplied(m, updates[0]), updates[1..], entry);
    }
  }

  lemma OneStaysOut(m: Mirror, u: Update, entry: StateEntry)
    requires HasEvent(m.events, entry.event) && !HasTransition(m.transitions, entry)
    ensures HasEvent(UpdateApplied(m, u).events, entry.event) && !HasTransition(UpdateApplied(m, u).transitions, entry)
  {
    if !HasEvent(m.events, u.event.id) {
      AppliedRows(m, Waiting(u, 0));
      HasEventAppend(m.events, u.event, entry.event);
    }
  }

  /** What a snapshot of the database has of an event of the room. */
  lemma ReloadBringsEvent(m: Mirror, t: Tables, db: Mirror, room: Id, id: Id)
    requires Lists(db, t) && RelationsOk(db) && id in t.events && t.events[id].room == room
    ensures HasEvent(Reloaded(m, room, RoomSnapshot.SnapshotOf(db, room)).events, id)
  {
    var s := RoomSnapshot.SnapshotOf(db, room);
    var n := Reloaded(m, room, s);
    RoomSnapshot.SnapshotIsFaithful(db, room);
    InRoomIds(db, t, room, id);
    hide ListsTable, RelationsOk, RoomSnapshot.SnapshotOf, ForRoom, UniqueIds, EventRows, StaleIds, Filter;
    var i :| 0 <= i < |s.events| && s.events[i].id == id;
    assert n.events[|n.events| - |s.events| + i] == s.events[i];
  }

  lemma LedgerInTables(ledger: Mirror, t: Tables, e: Event, entry: StateEntry)
    requires Lists(ledger, t) && e in ledger.events && HasTransition(ledger.transitions, entry)
    ensures e.id in t.events && t.events[e.id].room == e.room && (entry.tuple, entry.event) in t.transitions
  {
    ListedEvent(ledger, t, e.id);
    var i :| 0 <= i < |ledger.transitions| && ledger.transitions[i].tuple == entry.tuple && ledger.transitions[i].event == entry.event;
    assert TransitionKey(ledger.transitions[i]) in t.transitions;
  }

  lemma UnlistedTransition(m: Mirror, t: Tables, entry: StateEntry)
    requires (entry.tuple, entry.event) in t.transitions && !HasTransition(m.transitions, entry)
    ensures !Lists(m, t)
  {
    assert forall i :: 0 <= i < |m.transitions| ==> TransitionKey(m.transitions[i]) != (entry.tuple, entry.event);
  }

  /**
   * In every run, a reload that overtakes the apply of a committed state event
   * finds the event in the database. Its apply is then dropped as a duplicate,
   * and whatever updates are applied later, its transition does not enter the
   * mirror, which so fails to list the database.
   */
  lemma ReloadDropsPendingTransition(actions: seq<Action>, i: nat, db: Mirror, later: seq<Update>)
    requires var w := Run(START, actions);
             i < |w.pending| && w.pending[i].update.state.Some? && Lists(db, w.tables) && RelationsOk(db)
    ensures var w := Run(START, actions);
            var u := w.pending[i].update;
            var n := Reloaded(w.mirror, u.event.room, RoomSnapshot.SnapshotOf(db, u.event.room));
            UpdateApplied(n, u) == n && (u.state.value, u.event.id) in w.tables.transitions &&
            !HasTransition(AllApplied(n, later).transitions, EntryOf(u).value) && !Lists(AllApplied(n, later), w.tables)
  {
    hide Inv, Run, Lists, RelationsOk, RoomSnapshot.SnapshotOf, HasTransition, HasEvent, AllApplied, EventRows, StaleIds;
    StartInv();
    RunKeepsInv(START, actions);
    var w := Run(START, actions);
    var u := w.pending[i].update;
    var entry, n := EntryOf(u).value, Reloaded(w.mirror, u.event.room, RoomSnapshot.SnapshotOf(db, u.event.room));
    PendingTransitionIsMissing(w, i);
    LedgerListed(w, |w.history|);
    LedgerInTables(w.ledger, w.tables, u.event, entry);
    ReloadBringsEvent(w.mirror, w.tables, db, u.event.room, u.event.id);
    StaysOut(n, later, entry);
    UnlistedTransition(AllApplied(n, later), w.tables, entry);
  }
}
