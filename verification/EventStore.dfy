/**
 * The store object: the vectors of the mirror, updated in place, and the
 * database it writes through to (src/database/persistent_store.cpp).
 */
module EventStore {
  import opened Basics
  import opened EventMirror
  import opened Backend
  import opened Predecessor
  import opened RoomReload
  import WriteProtocol

  class PersistentStore {
    var events: seq<Event>
    var edges: seq<Row<Id>>
    var auths: seq<Row<Id>>
    var sigs: seq<Row<Signature>>
    var state: seq<StateEntry>
    var transitions: seq<Transition>
    var index: map<string, nat>
    var rooms: seq<Room>
    var memberships: seq<Membership>
    var invites: seq<Invite>
    var tables: Tables

    function View(): Mirror
      reads this
    {
      Mirror(events, edges, auths, sigs, state, transitions, index, rooms, memberships, invites)
    }

    constructor ()
      ensures View() == WriteProtocol.START.mirror && tables == EMPTY_TABLES
    {
      events, edges, auths, sigs := [], [], [], [];
      state, transitions, index := [], [], map[];
      rooms, memberships, invites := [], [], [];
      tables := EMPTY_TABLES;
    }

    method CommitTransaction(statements: seq<Statement>, online: bool) returns (ok: bool)
      modifies this`tables
      ensures ok <==> Commit(old(tables), statements, online).Some?
      ensures tables == if ok then Commit(old(tables), statements, online).value else old(tables)
    {
      var next := Commit(tables, statements, online);
      ok := next.Some?;
      if ok {
        tables := next.value;
      }
    }

    method RebuildStateTransitionIndex()
      modifies this`index
      ensures index == IndexOf(transitions)
    {
      index := map[];
      for i := 0 to |transitions|
        invariant index == IndexOf(transitions[..i])
      {
        var t := transitions[i];
        assert transitions[..i + 1] == transitions[..i] + [t];
        IndexOfAppend(transitions[..i], t);
        index := Emplace(index, IndexKey(t.tuple, t.event), i);
      }
      assert transitions[..|transitions|] == transitions;
    }

    method FindStateTransition(tuple: Tuple, event: Id) returns (r: Option<Transition>)
      requires IndexOk(View())
      ensures TransitionsNulFree(transitions) && TupleNulFree(tuple) ==> r == FirstTransition(transitions, tuple, event)
    {
      var key := IndexKey(tuple, event);
      r := if key in index then Some(transitions[index[key]]) else None;
      if TransitionsNulFree(transitions) && TupleNulFree(tuple) {
        IndexRefinesScan(transitions, tuple, event);
      }
    }

    method AppendEventGraphRows(e: Event)
      modifies this`edges, this`auths, this`sigs
      ensures edges == old(edges) + RowsOf(e.id, e.prev)
      ensures auths == old(auths) + RowsOf(e.id, e.auth)
      ensures sigs == old(sigs) + RowsOf(e.id, e.sigs)
    {
      edges := AppendRows(edges, e.id, e.prev);
      auths := AppendRows(auths, e.id, e.auth);
      sigs := AppendRows(sigs, e.id, e.sigs);
    }

    method StoreEvent(e: Event, online: bool) returns (ok: bool)
      modifies this
      ensures (View(), tables, ok) == WriteProtocol.StoreEvent(old(View()), old(tables), e, online)
    {
      if HasEvent(events, e.id) {
        return false;
      }
      var statements := EventGraphStatements(e);
      ok := CommitTransaction(statements, online);
      if !ok {
        return false;
      }
      AppendEventGraphRows(e);
      events := events + [e];
    }

    /** The position of the tuple's current entry, or the end. */
    method FindCurrent(tuple: Tuple) returns (i: nat)
      ensures i <= |state|
      ensures i < |state| ==> state[i].tuple == tuple && Current(state, tuple) == Some(state[i].event)
      ensures i == |state| ==> Current(state, tuple) == None
      ensures forall event :: SetCurrent(state, tuple, event) ==
                              if i < |state| then state[i := StateEntry(tuple, event)] else state + [StateEntry(tuple, event)]
    {
      i := 0;
      while i < |state| && state[i].tuple != tuple
        invariant i <= |state| && forall j :: 0 <= j < i ==> state[j].tuple != tuple
      {
        i := i + 1;
      }
      forall event
        ensures SetCurrent(state, tuple, event) ==
                if i < |state| then state[i := StateEntry(tuple, event)] else state + [StateEntry(tuple, event)]
      {
        if i < |state| {
          SetAt(state, tuple, event, i);
        } else {
          SetAtEnd(state, tuple, event);
        }
      }
      if i < |state| {
        SetAt(state, tuple, "", i);
      } else {
        SetAtEnd(state, tuple, "");
      }
    }

    /** The state, transition and index writes that follow a commit. */
    method WriteCurrent(entry: StateEntry, previous: Id)
      modifies this`state, this`transitions, this`index
      ensures View() == MakeCurrent(old(View()), entry, previous)
    {
      var i := FindCurrent(entry.tuple);
      if i < |state| {
        state := state[i := StateEntry(entry.tuple, entry.event)];
      } else {
        state := state + [entry];
      }
      transitions := transitions + [Transition(entry.tuple, entry.event, previous)];
      index := Emplace(index, IndexKey(entry.tuple, entry.event), |transitions| - 1);
    }

    method StoreState(entry: StateEntry, online: bool) returns (ok: bool)
      modifies this
      ensures (View(), tables, ok) == WriteProtocol.StoreState(old(View()), old(tables), entry, online)
    {
      if !StateIsPersisted(View(), entry) {
        return false;
      }
      var i := FindCurrent(entry.tuple);
      if i < |state| && state[i].event == entry.event {
        return true;
      }
      var previous := if i < |state| then state[i].event else "";
      ok := CommitTransaction(StateStatements(entry, previous != "", previous), online);
      if ok {
        WriteCurrent(entry, previous);
      }
    }

    method PrepareStoreEventWithState(e: Event, entry: Option<StateEntry>) returns (r: Option<(Update, seq<Statement>)>)
      ensures r.None? <==> WriteProtocol.Refused(View(), e, entry)
      ensures r.Some? ==> r.value.0 == WriteProtocol.Prepared(View(), e, entry, r.value.0.previous)
      ensures r.Some? ==> r.value.1 == UpdateStatements(r.value.0)
      ensures r.Some? && entry.Some? ==>
                IsPredecessor(View(), entry.value.tuple, e.prev, e.auth, 50, r.value.0.previous)
    {
      if HasEvent(events, e.id) ||
         (entry.Some? && !(entry.value.event == e.id && IsStateFor(e, entry.value.tuple))) {
        return None;
      }
      var statements := EventGraphStatements(e);
      if entry.None? {
        return Some((Update(e, None, false, ""), statements));
      }
      var tuple := entry.value.tuple;
      var i := FindCurrent(tuple);
      var existed := i < |state|;
      ghost var enqueued;
      var previous;
      previous, enqueued := FindPredecessor(View(), tuple, e.prev, e.auth, MAX_DEPTH);
      statements := statements + StateStatements(entry.value, existed, previous);
      return Some((Update(e, Some(tuple), existed, previous), statements));
    }

    method ApplyStoreEventWithState(u: Update)
      modifies this`events, this`edges, this`auths, this`sigs, this`state, this`transitions, this`index
      ensures View() == UpdateApplied(old(View()), u)
    {
      if HasEvent(events, u.event.id) {
        return;
      }
      AppendEventGraphRows(u.event);
      events := events + [u.event];
      if u.state.Some? {
        WriteCurrent(StateEntry(u.state.value, u.event.id), u.previous);
      }
    }

    method StoreEventWithState(e: Event, entry: Option<StateEntry>, online: bool)
      returns (ok: bool, ghost previous: Id)
      modifies this
      ensures ok <==> !WriteProtocol.Refused(old(View()), e, entry) &&
                      Commit(old(tables), UpdateStatements(WriteProtocol.Prepared(old(View()), e, entry, previous)), online).Some?
      ensures !ok ==> View() == old(View()) && tables == old(tables)
      ensures ok ==> var u := WriteProtocol.Prepared(old(View()), e, entry, previous);
                     View() == UpdateApplied(old(View()), u) && Some(tables) == Commit(old(tables), UpdateStatements(u), online)
      ensures ok && entry.Some? ==> IsPredecessor(old(View()), entry.value.tuple, e.prev, e.auth, 50, previous)
    {
      previous := "";
      var prepared := PrepareStoreEventWithState(e, entry);
      if prepared.None? {
        return false, "";
      }
      previous := prepared.value.0.previous;
      ok := CommitTransaction(prepared.value.1, online);
      if ok {
        ApplyStoreEventWithState(prepared.value.0);
      }
    }

    /** Each event's relations cleared and filled again from the relation tables. */
    method ReconstructEventRelations()
      modifies this`events
      ensures View() == Reconstructed(old(View()))
    {
      ghost var was := events;
      var positions;
      events, positions := ClearRelations(events);
      events := FillFrom(events, edges, positions, PrevOf, WithPrev, was);
      events := FillFrom(events, auths, positions, AuthOf, WithAuth, was);
      events := FillFrom(events, sigs, positions, SigsOf, WithSignatures, was);
      forall j | 0 <= j < |was|
        ensures events[j] == Rederived(old(View()), j)
      {
        hide Values;
        var e := Bare(was[j]);
        assert e.prev + OwnValues(was, j, edges) == OwnValues(was, j, edges);
        assert e.auth + OwnValues(was, j, auths) == OwnValues(was, j, auths);
        assert e.sigs + OwnValues(was, j, sigs) == OwnValues(was, j, sigs);
      }
      assert events == Reconstructed(old(View())).events;
    }

    /** The room's slice dropped and the snapshot pushed in its place; the memory backend has nothing to reload. */
    method ReloadRoom(room: Id, memory: bool, snapshot: Option<Snapshot>) returns (ok: bool)
      modifies this`rooms, this`memberships, this`invites, this`state, this`events, this`edges, this`auths, this`sigs
      ensures ok <==> memory || snapshot.Some?
      ensures View() == if memory || snapshot.None? then old(View()) else Reloaded(old(View()), room, snapshot.value)
    {
      if memory {
        return true;
      }
      if snapshot.None? {
        return false;
      }
      var s := snapshot.value;
      hide Filter;
      var stale := CollectStale(events, room, s.events);
      DropRoom(room, stale);
      Extend(s);
      return true;
    }

    method DropRoom(room: Id, stale: set<Id>)
      modifies this`rooms, this`memberships, this`invites, this`state, this`events, this`edges, this`auths, this`sigs
      ensures View() == Dropped(old(View()), room, stale)
    {
      hide Filter;
      DropRoomRows(room);
      DropEventRows(room, stale);
    }

    method DropRoomRows(room: Id)
      modifies this`rooms, this`memberships, this`invites, this`state
      ensures rooms == Filter(old(rooms), RoomIsNot(room)) && memberships == Filter(old(memberships), MembershipOutside(room))
      ensures invites == Filter(old(invites), InviteOutside(room)) && state == Filter(old(state), StateOutside(room))
    {
      hide Filter;
      rooms := Filter(rooms, RoomIsNot(room));
      memberships := Filter(memberships, MembershipOutside(room));
      invites := Filter(invites, InviteOutside(room));
      state := Filter(state, StateOutside(room));
    }

    method DropEventRows(room: Id, stale: set<Id>)
      modifies this`events, this`edges, this`auths, this`sigs
      ensures events == Filter(old(events), EventOutside(room)) && edges == Filter(old(edges), RowNotFor(stale))
      ensures auths == Filter(old(auths), RowNotFor(stale)) && sigs == Filter(old(sigs), RowNotFor(stale))
    {
      hide Filter;
      events := Filter(events, EventOutside(room));
      edges := Filter(edges, RowNotFor(stale));
      auths := Filter(auths, RowNotFor(stale));
      sigs := Filter(sigs, RowNotFor(stale));
    }

    method Extend(s: Snapshot)
      modifies this`rooms, this`memberships, this`invites, this`state, this`events, this`edges, this`auths, this`sigs
      ensures View() == Extended(old(View()), s)
    {
      if s.room.Some? {
        rooms := rooms + [s.room.value];
      }
      memberships := memberships + s.memberships;
      invites := invites + s.invites;
      state := state + s.state;
      PushEvents(s.events);
    }

    method PushEvents(more: seq<Event>)
      modifies this`events, this`edges, this`auths, this`sigs
      ensures events == old(events) + more && edges == old(edges) + EventRows(more, PrevOf)
      ensures auths == old(auths) + EventRows(more, AuthOf) && sigs == old(sigs) + EventRows(more, SigsOf)
    {
      edges, auths, sigs := AppendAllRows(edges, auths, sigs, more);
      events := events + more;
    }
  }

  /** The relation rows of each event in turn, at the end of each relation table. */
  method AppendAllRows(edges: seq<Row<Id>>, auths: seq<Row<Id>>, sigs: seq<Row<Signature>>, more: seq<Event>)
    returns (edges': seq<Row<Id>>, auths': seq<Row<Id>>, sigs': seq<Row<Signature>>)
    ensures edges' == edges + EventRows(more, PrevOf) && auths' == auths + EventRows(more, AuthOf)
    ensures sigs' == sigs + EventRows(more, SigsOf)
  {
    edges', auths', sigs' := edges, auths, sigs;
    for i := 0 to |more|
      invariant edges' == edges + EventRows(more[..i], PrevOf) && auths' == auths + EventRows(more[..i], AuthOf)
      invariant sigs' == sigs + EventRows(more[..i], SigsOf)
    {
      hide EventRows, RowsOf;
      RowsAfterNext(edges, more, PrevOf, i);
      RowsAfterNext(auths, more, AuthOf, i);
      RowsAfterNext(sigs, more, SigsOf, i);
      edges' := AppendRows(edges', more[i].id, more[i].prev);
      auths' := AppendRows(auths', more[i].id, more[i].auth);
      sigs' := AppendRows(sigs', more[i].id, more[i].sigs);
    }
    assert more[..|more|] == more;
  }

  lemma {:induction false} RowsOfNext<T>(events: seq<Event>, get: Event -> seq<T>, i: nat)
    requires i < |events|
    ensures EventRows(events[..i + 1], get) == EventRows(events[..i], get) + RowsOf(events[i].id, get(events[i]))
  {
    if i > 0 {
      assert events[..i + 1][1..] == events[1..][..i];
      assert events[..i][1..] == events[1..][..i - 1];
      RowsOfNext(events[1..], get, i - 1);
    } else {
      assert events[..1][1..] == [];
    }
  }

  lemma RowsAfterNext<T>(base: seq<Row<T>>, events: seq<Event>, get: Event -> seq<T>, i: nat)
    requires i < |events|
    ensures base + EventRows(events[..i + 1], get) ==
            (base + EventRows(events[..i], get)) + RowsOf(events[i].id, get(events[i]))
  {
    hide EventRows;
    RowsOfNext(events, get, i);
  }

  lemma StaleNext(events: seq<Event>, i: nat, room: Id)
    requires i < |events|
    ensures EventIds(Filter(events[..i + 1], EventIn(room))) ==
            EventIds(Filter(events[..i], EventIn(room))) + if events[i].room == room then {events[i].id} else {}
  {
    var e, before := events[i], Filter(events[..i], EventIn(room));
    assert events[..i + 1] == events[..i] + [e];
    FilterAppend(events[..i], [e], EventIn(room));
    assert Filter(events[..i + 1], EventIn(room)) == if e.room == room then before + [e] else before;
    EventIdsAppend(before, e);
  }

  method CollectStale(events: seq<Event>, room: Id, added: seq<Event>) returns (stale: set<Id>)
    ensures stale == EventIds(Filter(events, EventIn(room))) + EventIds(added)
  {
    stale := {};
    for i := 0 to |events|
      invariant stale == EventIds(Filter(events[..i], EventIn(room)))
    {
      hide Filter, EventIds;
      StaleNext(events, i, room);
      if events[i].room == room {
        stale := stale + {events[i].id};
      }
    }
    assert events[..|events|] == events;
    ghost var own := stale;
    for i := 0 to |added|
      invariant stale == own + EventIds(added[..i])
    {
      assert added[..i + 1] == added[..i] + [added[i]];
      EventIdsAppend(added[..i], added[i]);
      stale := stale + {added[i].id};
    }
    assert added[..|added|] == added;
  }

  lemma EventIdsAppend(events: seq<Event>, e: Event)
    ensures EventIds(events + [e]) == EventIds(events) + {e.id}
  {
    forall id
      ensures id in EventIds(events + [e]) <==> id in EventIds(events) + {e.id}
    {
      HasEventAppend(events, e, id);
    }
  }

  /** The values an event gets from a relation table: none, if its id came earlier. */
  ghost function OwnValues<T>(events: seq<Event>, i: nat, rows: seq<Row<T>>): seq<T>
    requires i < |events|
  {
    if IsFirst(events, i) then Values(rows, events[i].id) else []
  }

  lemma FirstIsUnique(events: seq<Event>, i: nat, j: nat)
    requires i < |events| && j < |events| && events[i].id == events[j].id
    requires IsFirst(events, i) && IsFirst(events, j)
    ensures i == j
  {
  }

  lemma OwnValuesNext<T>(events: seq<Event>, rows: seq<Row<T>>, k: nat, positions: map<Id, nat>)
    requires k < |rows| && PositionsOf(positions, events, |events|)
    ensures forall j :: 0 <= j < |events| ==>
              OwnValues(events, j, rows[..k + 1]) ==
              if rows[k].event in positions && positions[rows[k].event] == j
              then OwnValues(events, j, rows[..k]) + [rows[k].value]
              else OwnValues(events, j, rows[..k])
  {
    forall j | 0 <= j < |events|
      ensures OwnValues(events, j, rows[..k + 1]) ==
              if rows[k].event in positions && positions[rows[k].event] == j
              then OwnValues(events, j, rows[..k]) + [rows[k].value]
              else OwnValues(events, j, rows[..k])
    {
      assert rows[..k + 1] == rows[..k] + [rows[k]];
      ValuesAppend(rows[..k], [rows[k]], events[j].id);
      if IsFirst(events, j) {
        FirstIsUnique(events, j, positions[events[j].id]);
      }
    }
  }

  /** The map holds the position of the first event with each id among the first `n`. */
  ghost predicate PositionsOf(positions: map<Id, nat>, events: seq<Event>, n: nat)
    requires n <= |events|
  {
    (forall id :: id in positions ==> positions[id] < n && events[positions[id]].id == id && IsFirst(events, positions[id])) &&
    (forall j :: 0 <= j < n ==> events[j].id in positions)
  }

  method ClearRelations(events: seq<Event>) returns (r: seq<Event>, positions: map<Id, nat>)
    ensures |r| == |events| && forall j :: 0 <= j < |r| ==> r[j] == Bare(events[j])
    ensures PositionsOf(positions, events, |events|)
  {
    r, positions := events, map[];
    for i := 0 to |events|
      invariant |r| == |events| && PositionsOf(positions, events, i)
      invariant forall j :: 0 <= j < |r| ==> r[j] == if j < i then Bare(events[j]) else events[j]
    {
      r := r[i := Bare(r[i])];
      if events[i].id !in positions {
        positions := positions[events[i].id := i];
      }
    }
  }

  /** A list an event carries, and the event with another one in its place. */
  ghost predicate IsField<T(!new)>(get: Event -> seq<T>, put: (Event, seq<T>) -> Event) {
    (forall e, x :: get(put(e, x)) == x) && (forall e, x, y :: put(put(e, x), y) == put(e, y)) &&
    (forall e :: put(e, get(e)) == e)
  }

  function WithPrev(e: Event, prev: seq<Id>): Event { e.(prev := prev) }
  function WithAuth(e: Event, auth: seq<Id>): Event { e.(auth := auth) }
  function WithSignatures(e: Event, sigs: seq<Signature>): Event { e.(sigs := sigs) }

  /** The loop over one relation table: each row's value goes to the end of its event's list. */
  method FillFrom<T(!new)>(
    events: seq<Event>, rows: seq<Row<T>>, positions: map<Id, nat>,
    get: Event -> seq<T>, put: (Event, seq<T>) -> Event, ghost was: seq<Event>)
    returns (r: seq<Event>)
    requires IsField(get, put) && |events| == |was| && PositionsOf(positions, was, |was|)
    ensures |r| == |events|
    ensures forall j :: 0 <= j < |r| ==> r[j] == put(events[j], get(events[j]) + OwnValues(was, j, rows))
  {
    r := events;
    NoOwnValues(was, rows);
    assert forall j :: 0 <= j < |r| ==> get(events[j]) + [] == get(events[j]);
    for k := 0 to |rows|
      invariant |r| == |events|
      invariant forall j :: 0 <= j < |r| ==> r[j] == put(events[j], get(events[j]) + OwnValues(was, j, rows[..k]))
    {
      hide OwnValues, Values, IsFirst;
      OwnValuesNext(was, rows, k, positions);
      if rows[k].event in positions {
        var i := positions[rows[k].event];
        assert get(r[i]) + [rows[k].value] == get(events[i]) + OwnValues(was, i, rows[..k + 1]);
        r := r[i := put(r[i], get(r[i]) + [rows[k].value])];
      }
    }
    assert rows[..|rows|] == rows;
  }

  lemma NoOwnValues<T>(events: seq<Event>, rows: seq<Row<T>>)
    ensures forall j :: 0 <= j < |events| ==> OwnValues(events, j, rows[..0]) == []
  {
  }

  method AppendRows<T>(rows: seq<Row<T>>, id: Id, values: seq<T>) returns (r: seq<Row<T>>)
    ensures r == rows + RowsOf(id, values)
  {
    r := rows;
    for i := 0 to |values|
      invariant r == rows + RowsOf(id, values)[..i]
    {
      r := r + [Row(id, values[i])];
    }
  }

  method EventGraphStatements(e: Event) returns (statements: seq<Statement>)
    ensures statements == EventStatements(e)
  {
    statements := [InsertEvent(e)];
    var more := RowInserts(EdgeInsert, e.id, e.prev);
    statements := statements + more;
    more := RowInserts(AuthInsert, e.id, e.auth);
    statements := statements + more;
    more := RowInserts(SignatureInsert, e.id, e.sigs);
    statements := statements + more;
  }

  method RowInserts<T>(make: Row<T> -> Statement, id: Id, values: seq<T>) returns (r: seq<Statement>)
    ensures r == RowStatements(make, RowsOf(id, values))
  {
    r := [];
    for i := 0 to |values|
      invariant |r| == i && forall j :: 0 <= j < i ==> r[j] == make(Row(id, values[j]))
    {
      r := r + [make(Row(id, values[i]))];
    }
    RowStatementsAre(make, RowsOf(id, values), r);
  }

  lemma {:induction false} RowStatementsAre<T>(make: Row<T> -> Statement, rows: seq<Row<T>>, r: seq<Statement>)
    requires |r| == |rows| && forall i :: 0 <= i < |r| ==> r[i] == make(rows[i])
    ensures r == RowStatements(make, rows)
  {
    if rows != [] {
      RowStatementsAre(make, rows[1..], r[1..]);
    }
  }
}
