/**
 * Reloading one room from the backend: the slice of the mirror a snapshot
 * replaces (src/database/persistent_store.cpp).
 */
module RoomReload {
  import opened Basics
  import opened EventMirror

  datatype Snapshot = Snapshot(
    room: Option<Room>, memberships: seq<Membership>, invites: seq<Invite>, state: seq<StateEntry>, events: seq<Event>)

  // ---- What belongs to a room --------------------------------------------------

  function RoomIs(id: Id): Room -> bool { (r: Room) => r.id == id }
  function RoomIsNot(id: Id): Room -> bool { (r: Room) => r.id != id }
  function MembershipIn(id: Id): Membership -> bool { (m: Membership) => m.room == id }
  function MembershipOutside(id: Id): Membership -> bool { (m: Membership) => m.room != id }
  function InviteIn(id: Id): Invite -> bool { (i: Invite) => i.room == id }
  function InviteOutside(id: Id): Invite -> bool { (i: Invite) => i.room != id }
  function StateIn(id: Id): StateEntry -> bool { (s: StateEntry) => s.tuple.room == id }
  function StateOutside(id: Id): StateEntry -> bool { (s: StateEntry) => s.tuple.room != id }
  function EventIn(id: Id): Event -> bool { (e: Event) => e.room == id }
  function EventOutside(id: Id): Event -> bool { (e: Event) => e.room != id }
  function RowFor<T>(ids: set<Id>): Row<T> -> bool { (r: Row<T>) => r.event in ids }
  function RowNotFor<T>(ids: set<Id>): Row<T> -> bool { (r: Row<T>) => r.event !in ids }

  function EventIds(events: seq<Event>): (ids: set<Id>)
    ensures forall id :: id in ids <==> HasEvent(events, id)
  {
    set i | 0 <= i < |events| :: events[i].id
  }

  // ---- The relation rows of a list of events -----------------------------------

  function EventRows<T>(events: seq<Event>, get: Event -> seq<T>): seq<Row<T>> {
    if events == [] then [] else RowsOf(events[0].id, get(events[0])) + EventRows(events[1..], get)
  }

  // ---- The reload ----------------------------------------------------------------

  function StaleIds(m: Mirror, room: Id, s: Snapshot): set<Id> {
    EventIds(Filter(m.events, EventIn(room))) + EventIds(s.events)
  }

  function Dropped(m: Mirror, room: Id, stale: set<Id>): Mirror {
    m.(rooms := Filter(m.rooms, RoomIsNot(room)),
       memberships := Filter(m.memberships, MembershipOutside(room)),
       invites := Filter(m.invites, InviteOutside(room)),
       state := Filter(m.state, StateOutside(room)),
       events := Filter(m.events, EventOutside(room)),
       edges := Filter(m.edges, RowNotFor(stale)),
       auths := Filter(m.auths, RowNotFor(stale)),
       sigs := Filter(m.sigs, RowNotFor(stale)))
  }

  function Extended(m: Mirror, s: Snapshot): Mirror {
    m.(rooms := m.rooms + if s.room.Some? then [s.room.value] else [],
       memberships := m.memberships + s.memberships,
       invites := m.invites + s.invites,
       state := m.state + s.state,
       events := m.events + s.events,
       edges := m.edges + EventRows(s.events, PrevOf),
       auths := m.auths + EventRows(s.events, AuthOf),
       sigs := m.sigs + EventRows(s.events, SigsOf))
  }

  function Reloaded(m: Mirror, room: Id, s: Snapshot): Mirror {
    Extended(Dropped(m, room, StaleIds(m, room, s)), s)
  }

  /** Everything in the snapshot is the room's: each query selects by room id. */
  ghost predicate ForRoom(room: Id, s: Snapshot) {
    (s.room.Some? ==> s.room.value.id == room) &&
    (forall x :: x in s.memberships ==> x.room == room) &&
    (forall x :: x in s.invites ==> x.room == room) &&
    (forall x :: x in s.state ==> x.tuple.room == room) &&
    (forall x :: x in s.events ==> x.room == room)
  }

  /** No event of another room has an id of the snapshot: event ids are the key of the events table. */
  ghost predicate OwnIds(m: Mirror, room: Id, s: Snapshot) {
    forall e :: e in m.events && e.room != room ==> !HasEvent(s.events, e.id)
  }

  /** Splits a list that was filtered and extended: what was kept, and what was added. */
  lemma FilterExtended<T(!new)>(list: seq<T>, added: seq<T>, outside: T -> bool, inside: T -> bool)
    requires forall x :: inside(x) == !outside(x)
    requires forall x :: x in added ==> inside(x)
    ensures Filter(Filter(list, outside) + added, outside) == Filter(list, outside)
    ensures Filter(Filter(list, outside) + added, inside) == added
  {
    var kept := Filter(list, outside);
    FilterAppend(kept, added, outside);
    FilterAppend(kept, added, inside);
    FilterAll(kept, outside);
    FilterNone(kept, inside);
    FilterNone(added, outside);
    FilterAll(added, inside);
  }

  /** The room's slice becomes the snapshot and every other room's stays as it was, in order. */
  lemma ReloadReplacesOneRoom(m: Mirror, room: Id, s: Snapshot)
    requires ForRoom(room, s)
    ensures var n := Reloaded(m, room, s);
            Filter(n.events, EventIn(room)) == s.events &&
            Filter(n.events, EventOutside(room)) == Filter(m.events, EventOutside(room)) &&
            Filter(n.state, StateIn(room)) == s.state &&
            Filter(n.state, StateOutside(room)) == Filter(m.state, StateOutside(room)) &&
            Filter(n.memberships, MembershipIn(room)) == s.memberships &&
            Filter(n.memberships, MembershipOutside(room)) == Filter(m.memberships, MembershipOutside(room)) &&
            Filter(n.invites, InviteIn(room)) == s.invites &&
            Filter(n.invites, InviteOutside(room)) == Filter(m.invites, InviteOutside(room)) &&
            Filter(n.rooms, RoomIs(room)) == (if s.room.Some? then [s.room.value] else []) &&
            Filter(n.rooms, RoomIsNot(room)) == Filter(m.rooms, RoomIsNot(room)) &&
            n.transitions == m.transitions && n.index == m.index
  {
    FilterExtended(m.events, s.events, EventOutside(room), EventIn(room));
    FilterExtended(m.state, s.state, StateOutside(room), StateIn(room));
    FilterExtended(m.memberships, s.memberships, MembershipOutside(room), MembershipIn(room));
    FilterExtended(m.invites, s.invites, InviteOutside(room), InviteIn(room));
    FilterExtended(m.rooms, if s.room.Some? then [s.room.value] else [], RoomIsNot(room), RoomIs(room));
  }

  // ---- Relation rows ---------------------------------------------------------------

  lemma {:induction false} RowsBelong<T(!new)>(events: seq<Event>, get: Event -> seq<T>)
    ensures NoOrphans(events, EventRows(events, get))
  {
    if events != [] {
      RowsBelong(events[1..], get);
      assert HasEvent(events, events[0].id);
      forall id | HasEvent(events[1..], id)
        ensures HasEvent(events, id)
      {
        var i :| 0 <= i < |events[1..]| && events[1..][i].id == id;
        assert events[i + 1].id == id;
      }
    }
  }

  /** Each event's rows are its own lists. */
  lemma {:induction false} RowsCarryLists<T(!new)>(events: seq<Event>, get: Event -> seq<T>, i: nat)
    requires UniqueIds(events) && i < |events|
    ensures Values(EventRows(events, get), events[i].id) == get(events[i])
  {
    var first, rest, id := events[0], events[1..], events[i].id;
    ValuesAppend(RowsOf(first.id, get(first)), EventRows(rest, get), id);
    ValuesOfRows(first.id, get(first), id);
    if i > 0 {
      RowsCarryLists(rest, get, i - 1);
    } else {
      NotInRest(events);
      RowsBelong(rest, get);
      ValuesNone(EventRows(rest, get), id);
    }
  }

  lemma NotInRest(events: seq<Event>)
    requires UniqueIds(events) && events != []
    ensures !HasEvent(events[1..], events[0].id)
  {
  }

  function RowIs<T>(id: Id): Row<T> -> bool { (r: Row<T>) => r.event == id }

  lemma {:induction false} RowsOfOneEvent<T(!new)>(rows: seq<Row<T>>, id: Id)
    ensures Filter(rows, RowIs(id)) == RowsOf(id, Values(rows, id))
  {
    if rows != [] {
      RowsOfOneEvent(rows[1..], id);
      if rows[0].event == id {
        var values := Values(rows[1..], id);
        assert RowsOf(id, [rows[0].value] + values) == [Row(id, rows[0].value)] + RowsOf(id, values);
      }
    }
  }

  /** Rows for one more id are the rows for that id and the rows for the others. */
  lemma {:induction false} RowsForMore<T(!new)>(rows: seq<Row<T>>, id: Id, ids: set<Id>)
    requires id !in ids
    ensures multiset(Filter(rows, RowFor(ids + {id}))) == multiset(Filter(rows, RowIs(id))) + multiset(Filter(rows, RowFor(ids)))
  {
    if rows != [] {
      RowsForMore(rows[1..], id, ids);
    }
  }

  /** The lists the events carry are the rows of the table for them, in some order. */
  lemma {:induction false} RowsRegrouped<T(!new)>(events: seq<Event>, get: Event -> seq<T>, rows: seq<Row<T>>)
    requires UniqueIds(events) && forall i :: 0 <= i < |events| ==> get(events[i]) == Values(rows, events[i].id)
    ensures multiset(EventRows(events, get)) == multiset(Filter(rows, RowFor(EventIds(events))))
  {
    if events == [] {
      FilterNone(rows, RowFor(EventIds(events)));
    } else {
      var first, rest := events[0], events[1..];
      RowsRegrouped(rest, get, rows);
      NotInRest(events);
      assert EventIds(events) == EventIds(rest) + {first.id} by {
        assert forall i :: 0 <= i < |rest| ==> rest[i] == events[i + 1];
        assert forall id :: HasEvent(events, id) <==> id == first.id || HasEvent(rest, id) by {
          forall id
            ensures HasEvent(events, id) <==> id == first.id || HasEvent(rest, id)
          {
            OneMoreEvent(events, id);
          }
        }
      }
      RowsForMore(rows, first.id, EventIds(rest));
      RowsOfOneEvent(rows, first.id);
    }
  }

  lemma OneMoreEvent(events: seq<Event>, id: Id)
    requires events != []
    ensures HasEvent(events, id) <==> id == events[0].id || HasEvent(events[1..], id)
  {
    var rest := events[1..];
    if i :| 0 <= i < |events| && events[i].id == id {
      assert i > 0 ==> rest[i - 1].id == id;
    }
    if i :| 0 <= i < |rest| && rest[i].id == id {
      assert events[i + 1].id == id;
    }
  }

  /** A relation table after the reload: an untouched id keeps its values, a snapshot id has the new ones. */
  lemma ReloadedValues<T(!new)>(rows: seq<Row<T>>, stale: set<Id>, added: seq<Row<T>>, id: Id)
    ensures id !in stale && (forall r :: r in added ==> r.event in stale) ==>
              Values(Filter(rows, RowNotFor(stale)) + added, id) == Values(rows, id)
    ensures id in stale ==> Values(Filter(rows, RowNotFor(stale)) + added, id) == Values(added, id)
  {
    var kept := Filter(rows, RowNotFor(stale));
    ValuesAppend(kept, added, id);
    if id in stale {
      ValuesNone(kept, id);
    } else {
      ValuesFilter(rows, RowNotFor(stale), id);
      if forall r :: r in added ==> r.event in stale {
        ValuesNone(added, id);
      }
    }
  }

  /** Relation rows of every event outside the room keep their values and order. */
  lemma ReloadKeepsOtherRelations(m: Mirror, room: Id, s: Snapshot, e: Event)
    requires RelationsOk(m) && OwnIds(m, room, s) && e in m.events && e.room != room
    ensures Embeds(Reloaded(m, room, s), e)
  {
    var stale := StaleIds(m, room, s);
    RowsBelong(s.events, PrevOf);
    RowsBelong(s.events, AuthOf);
    RowsBelong(s.events, SigsOf);
    SameIdSameEvent(m.events);
    assert e.id !in stale;
    assert Embeds(m, e);
    ReloadedValues(m.edges, stale, EventRows(s.events, PrevOf), e.id);
    ReloadedValues(m.auths, stale, EventRows(s.events, AuthOf), e.id);
    ReloadedValues(m.sigs, stale, EventRows(s.events, SigsOf), e.id);
  }

  /** In one relation table: what is kept of ids that are not stale is what there was. */
  lemma OtherRowsStay<T(!new)>(rows: seq<Row<T>>, stale: set<Id>, added: seq<Row<T>>, others: set<Id>)
    requires stale !! others && forall r :: r in added ==> r.event !in others
    ensures Filter(Filter(rows, RowNotFor(stale)) + added, RowFor(others)) == Filter(rows, RowFor(others))
  {
    FilterAppend(Filter(rows, RowNotFor(stale)), added, RowFor(others));
    FilterNone(added, RowFor(others));
    FilterTwice(rows, RowNotFor(stale), RowFor(others), RowFor(others));
  }

  /** The relation rows of all other rooms' events are the same rows in the same order, in every relation table. */
  lemma ReloadKeepsOtherRows(m: Mirror, room: Id, s: Snapshot)
    requires UniqueIds(m.events) && OwnIds(m, room, s)
    ensures var n, others := Reloaded(m, room, s), EventIds(Filter(m.events, EventOutside(room)));
            Filter(n.edges, RowFor(others)) == Filter(m.edges, RowFor(others)) &&
            Filter(n.auths, RowFor(others)) == Filter(m.auths, RowFor(others)) &&
            Filter(n.sigs, RowFor(others)) == Filter(m.sigs, RowFor(others))
  {
    var stale, others := StaleIds(m, room, s), EventIds(Filter(m.events, EventOutside(room)));
    RowsBelong(s.events, PrevOf);
    RowsBelong(s.events, AuthOf);
    RowsBelong(s.events, SigsOf);
    OthersAreNotStale(m, room, s);
    OtherRowsStay(m.edges, stale, EventRows(s.events, PrevOf), others);
    OtherRowsStay(m.auths, stale, EventRows(s.events, AuthOf), others);
    OtherRowsStay(m.sigs, stale, EventRows(s.events, SigsOf), others);
  }

  lemma OthersAreNotStale(m: Mirror, room: Id, s: Snapshot)
    requires UniqueIds(m.events) && OwnIds(m, room, s)
    ensures forall id :: HasEvent(Filter(m.events, EventOutside(room)), id) ==>
              id !in StaleIds(m, room, s) && !HasEvent(s.events, id)
  {
    SameIdSameEvent(m.events);
    var outside, inside := Filter(m.events, EventOutside(room)), Filter(m.events, EventIn(room));
    forall id | HasEvent(outside, id)
      ensures !HasEvent(s.events, id) && !HasEvent(inside, id)
    {
      var i :| 0 <= i < |outside| && outside[i].id == id;
      assert outside[i] in outside;
      forall j | 0 <= j < |inside|
        ensures inside[j].id != id
      {
        assert inside[j] in inside;
      }
    }
  }

  lemma SameIdSameEvent(events: seq<Event>)
    requires UniqueIds(events)
    ensures forall e, f :: e in events && f in events && e.id == f.id ==> e == f
  {
  }

  lemma ReloadBringsSnapshotRelations(m: Mirror, room: Id, s: Snapshot, i: nat)
    requires UniqueIds(s.events) && i < |s.events|
    ensures Embeds(Reloaded(m, room, s), s.events[i])
  {
    var stale, id := StaleIds(m, room, s), s.events[i].id;
    assert HasEvent(s.events, id);
    ReloadedValues(m.edges, stale, EventRows(s.events, PrevOf), id);
    ReloadedValues(m.auths, stale, EventRows(s.events, AuthOf), id);
    ReloadedValues(m.sigs, stale, EventRows(s.events, SigsOf), id);
    RowsCarryLists(s.events, PrevOf, i);
    RowsCarryLists(s.events, AuthOf, i);
    RowsCarryLists(s.events, SigsOf, i);
  }

  lemma {:induction false} FilterKeepsUnique(events: seq<Event>, p: Event -> bool)
    requires UniqueIds(events)
    ensures UniqueIds(Filter(events, p))
  {
    if events != [] {
      FilterKeepsUnique(events[1..], p);
      var rest := Filter(events[1..], p);
      assert forall x :: x in rest ==> x in events[1..] && x.id != events[0].id;
    }
  }

  lemma ReloadKeepsUnique(m: Mirror, room: Id, s: Snapshot)
    requires UniqueIds(m.events) && UniqueIds(s.events) && OwnIds(m, room, s)
    ensures UniqueIds(Reloaded(m, room, s).events)
  {
    var kept := Filter(m.events, EventOutside(room));
    FilterKeepsUnique(m.events, EventOutside(room));
    forall i, j | 0 <= i < |kept| && 0 <= j < |s.events|
      ensures kept[i].id != s.events[j].id
    {
      assert kept[i] in m.events && !HasEvent(s.events, kept[i].id);
    }
  }

  lemma ReloadLeavesNoOrphans<T(!new)>(
    m: Mirror, room: Id, s: Snapshot, rows: seq<Row<T>>, added: seq<Row<T>>)
    requires NoOrphans(m.events, rows) && NoOrphans(s.events, added)
    ensures NoOrphans(Reloaded(m, room, s).events, Filter(rows, RowNotFor(StaleIds(m, room, s))) + added)
  {
    var kept, stale := Filter(m.events, EventOutside(room)), StaleIds(m, room, s);
    var all := kept + s.events;
    forall r | r in Filter(rows, RowNotFor(stale)) + added
      ensures HasEvent(all, r.event)
    {
      if r in added {
        var i :| 0 <= i < |s.events| && s.events[i].id == r.event;
        assert all[|kept| + i].id == r.event;
      } else {
        assert r in rows && r.event !in stale;
        var i :| 0 <= i < |m.events| && m.events[i].id == r.event;
        StaleIfInRoom(m, room, s, i);
        assert m.events[i] in kept;
        var j :| 0 <= j < |kept| && kept[j] == m.events[i];
        assert all[j].id == r.event;
      }
    }
  }

  lemma StaleIfInRoom(m: Mirror, room: Id, s: Snapshot, i: nat)
    requires i < |m.events|
    ensures m.events[i].room == room ==> m.events[i].id in StaleIds(m, room, s)
  {
    var own := Filter(m.events, EventIn(room));
    if m.events[i].room == room {
      assert m.events[i] in own;
      var j :| 0 <= j < |own| && own[j] == m.events[i];
    }
  }

  /** Reloading keeps events and relation tables in step. */
  lemma ReloadKeepsRelations(m: Mirror, room: Id, s: Snapshot)
    requires RelationsOk(m) && UniqueIds(s.events) && OwnIds(m, room, s)
    ensures RelationsOk(Reloaded(m, room, s))
  {
    var n := Reloaded(m, room, s);
    ReloadKeepsUnique(m, room, s);
    RowsBelong(s.events, PrevOf);
    RowsBelong(s.events, AuthOf);
    RowsBelong(s.events, SigsOf);
    ReloadLeavesNoOrphans(m, room, s, m.edges, EventRows(s.events, PrevOf));
    ReloadLeavesNoOrphans(m, room, s, m.auths, EventRows(s.events, AuthOf));
    ReloadLeavesNoOrphans(m, room, s, m.sigs, EventRows(s.events, SigsOf));
    forall e | e in n.events
      ensures Embeds(n, e)
    {
      hide UniqueIds, NoOrphans, Embeds, Reloaded;
      if e in s.events {
        var i :| 0 <= i < |s.events| && s.events[i] == e;
        ReloadBringsSnapshotRelations(m, room, s, i);
      } else {
        assert e in Filter(m.events, EventOutside(room));
        ReloadKeepsOtherRelations(m, room, s, e);
      }
    }
  }

  /** Filtering by fewer ids what was filtered by more, then extended by rows of the fewer. */
  lemma RefilteredRows<T(!new)>(rows: seq<Row<T>>, stale: set<Id>, fewer: set<Id>, added: seq<Row<T>>)
    requires fewer <= stale && forall r :: r in added ==> r.event in fewer
    ensures Filter(Filter(rows, RowNotFor(stale)) + added, RowNotFor(fewer)) == Filter(rows, RowNotFor(stale))
  {
    var kept := Filter(rows, RowNotFor(stale));
    FilterAppend(kept, added, RowNotFor(fewer));
    FilterAll(kept, RowNotFor(fewer));
    FilterNone(added, RowNotFor(fewer));
  }

  /** Reloading the same snapshot again leaves the identical mirror. */
  lemma ReloadTwiceIsOnce(m: Mirror, room: Id, s: Snapshot)
    requires ForRoom(room, s)
    ensures Reloaded(Reloaded(m, room, s), room, s) == Reloaded(m, room, s)
  {
    var n := Reloaded(m, room, s);
    ReloadReplacesOneRoom(m, room, s);
    var stale, again := StaleIds(m, room, s), StaleIds(n, room, s);
    assert again == EventIds(s.events);
    RowsBelong(s.events, PrevOf);
    RowsBelong(s.events, AuthOf);
    RowsBelong(s.events, SigsOf);
    RefilteredRows(m.edges, stale, again, EventRows(s.events, PrevOf));
    RefilteredRows(m.auths, stale, again, EventRows(s.events, AuthOf));
    RefilteredRows(m.sigs, stale, again, EventRows(s.events, SigsOf));
  }
}
