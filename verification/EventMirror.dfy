/**
 * The event part of the in-memory mirror (src/database/persistent_store.cpp)
 * as a value, and what each write does to it once the backend has accepted.
 * JSON is opaque but for the two top-level string fields the store reads.
 */
module EventMirror {
  import opened Basics

  type Id = string

  datatype Json = Json(text: string, typeField: Option<string>, stateKeyField: Option<string>)

  datatype Signature = Signature(server: Id, key: Id, signature: string)

  datatype Event = Event(
    id: Id, room: Id, sender: Id, json: Json, depth: nat, ordering: nat,
    prev: seq<Id>, auth: seq<Id>, sigs: seq<Signature>)

  /** A row of a relation table: `event_edges`, `event_auth` or `event_signatures`. */
  datatype Row<T> = Row(event: Id, value: T)

  /** What a state event is current for: its room, type and state key. */
  datatype Tuple = Tuple(room: Id, kind: Id, key: Id)

  datatype StateEntry = StateEntry(tuple: Tuple, event: Id)

  datatype Transition = Transition(tuple: Tuple, event: Id, previous: Id)

  datatype Room = Room(id: Id, creator: Id)

  datatype Membership = Membership(room: Id, user: Id, membership: string, ordering: nat)

  datatype Invite = Invite(room: Id, user: Id, sender: Id, event: Id, signedJson: string)

  datatype Mirror = Mirror(
    events: seq<Event>, edges: seq<Row<Id>>, auths: seq<Row<Id>>, sigs: seq<Row<Signature>>,
    state: seq<StateEntry>, transitions: seq<Transition>, index: map<string, nat>,
    rooms: seq<Room>, memberships: seq<Membership>, invites: seq<Invite>)

  // ---- Relation rows -------------------------------------------------------

  /** The rows of one event, in order. */
  function RowsOf<T>(id: Id, values: seq<T>): (rows: seq<Row<T>>)
    ensures |rows| == |values|
    ensures forall i :: 0 <= i < |rows| ==> rows[i] == Row(id, values[i])
  {
    seq(|values|, i requires 0 <= i < |values| => Row(id, values[i]))
  }

  // The three lists an event carries.
  function PrevOf(e: Event): seq<Id> { e.prev }
  function AuthOf(e: Event): seq<Id> { e.auth }
  function SigsOf(e: Event): seq<Signature> { e.sigs }

  /** The values a relation table holds for one event, in row order. */
  function Values<T>(rows: seq<Row<T>>, id: Id): seq<T> {
    if rows == [] then []
    else if rows[0].event == id then [rows[0].value] + Values(rows[1..], id)
    else Values(rows[1..], id)
  }

  lemma {:induction false} ValuesAppend<T>(a: seq<Row<T>>, b: seq<Row<T>>, id: Id)
    ensures Values(a + b, id) == Values(a, id) + Values(b, id)
  {
    if a == [] {
      assert a + b == b;
    } else {
      assert (a + b)[0] == a[0] && (a + b)[1..] == a[1..] + b;
      ValuesAppend(a[1..], b, id);
    }
  }

  lemma {:induction false} ValuesOfRows<T>(id: Id, values: seq<T>, other: Id)
    ensures Values(RowsOf(id, values), other) == if other == id then values else []
  {
    if values != [] {
      assert RowsOf(id, values)[1..] == RowsOf(id, values[1..]);
      ValuesOfRows(id, values[1..], other);
    }
  }

  lemma {:induction false} ValuesNone<T(!new)>(rows: seq<Row<T>>, id: Id)
    requires forall r :: r in rows ==> r.event != id
    ensures Values(rows, id) == []
  {
    if rows != [] {
      ValuesNone(rows[1..], id);
    }
  }

  /** Erasing rows of other events leaves the values of an event alone. */
  lemma {:induction false} ValuesFilter<T(!new)>(rows: seq<Row<T>>, keep: Row<T> -> bool, id: Id)
    requires forall r :: r in rows && r.event == id ==> keep(r)
    ensures Values(Filter(rows, keep), id) == Values(rows, id)
  {
    if rows != [] {
      ValuesFilter(rows[1..], keep, id);
      var rest := Filter(rows[1..], keep);
      assert ([rows[0]] + rest)[1..] == rest;
    }
  }

  // ---- Events and their relations ------------------------------------------

  predicate HasEvent(events: seq<Event>, id: Id) {
    exists i :: 0 <= i < |events| && events[i].id == id
  }

  ghost predicate UniqueIds(events: seq<Event>) {
    forall i, j :: 0 <= i < j < |events| ==> events[i].id != events[j].id
  }

  /** The event carries exactly the relation rows filed under its id, in order. */
  ghost predicate Embeds(m: Mirror, e: Event) {
    e.prev == Values(m.edges, e.id) && e.auth == Values(m.auths, e.id) && e.sigs == Values(m.sigs, e.id)
  }

  ghost predicate NoOrphans<T(!new)>(events: seq<Event>, rows: seq<Row<T>>) {
    forall r :: r in rows ==> HasEvent(events, r.event)
  }

  ghost predicate RelationsOk(m: Mirror) {
    UniqueIds(m.events) &&
    (forall e :: e in m.events ==> Embeds(m, e)) &&
    NoOrphans(m.events, m.edges) && NoOrphans(m.events, m.auths) && NoOrphans(m.events, m.sigs)
  }

  /** `append_event_graph_rows` and the push of the event itself. */
  function AddEvent(m: Mirror, e: Event): Mirror {
    m.(events := m.events + [e],
       edges := m.edges + RowsOf(e.id, e.prev),
       auths := m.auths + RowsOf(e.id, e.auth),
       sigs := m.sigs + RowsOf(e.id, e.sigs))
  }

  lemma HasEventAppend(events: seq<Event>, e: Event, id: Id)
    ensures HasEvent(events + [e], id) <==> HasEvent(events, id) || e.id == id
  {
    var all := events + [e];
    assert all[|events|] == e;
    if HasEvent(events, id) {
      var i :| 0 <= i < |events| && events[i].id == id;
      assert all[i].id == id;
    }
  }

  lemma RowsAppend<T(!new)>(rows: seq<Row<T>>, events: seq<Event>, e: Event, values: seq<T>)
    requires NoOrphans(events, rows) && !HasEvent(events, e.id)
    ensures NoOrphans(events + [e], rows + RowsOf(e.id, values))
    ensures forall id :: Values(rows + RowsOf(e.id, values), id) == if id == e.id then values else Values(rows, id)
  {
    forall r | r in rows + RowsOf(e.id, values)
      ensures HasEvent(events + [e], r.event)
    {
      HasEventAppend(events, e, r.event);
    }
    forall id
      ensures Values(rows + RowsOf(e.id, values), id) == if id == e.id then values else Values(rows, id)
    {
      ValuesAppend(rows, RowsOf(e.id, values), id);
      ValuesOfRows(e.id, values, id);
      if id == e.id {
        ValuesNone(rows, id);
      }
    }
  }

  /** Storing a new event keeps every event and the relation tables in step. */
  lemma AddEventKeepsRelations(m: Mirror, e: Event)
    requires RelationsOk(m) && !HasEvent(m.events, e.id)
    ensures RelationsOk(AddEvent(m, e))
  {
    var n := AddEvent(m, e);
    RowsAppend(m.edges, m.events, e, e.prev);
    RowsAppend(m.auths, m.events, e, e.auth);
    RowsAppend(m.sigs, m.events, e, e.sigs);
    forall x | x in n.events
      ensures Embeds(n, x)
    {
      if x in m.events {
        var i :| 0 <= i < |m.events| && m.events[i] == x;
        assert Embeds(m, x) && x.id != e.id;
      }
    }
  }

  // ---- Reconstruction from the relation tables -----------------------------

  /** Whether `events[i]` is the first event with its id. */
  predicate IsFirst(events: seq<Event>, i: nat)
    requires i < |events|
  {
    forall j :: 0 <= j < i ==> events[j].id != events[i].id
  }

  /** Relations re-derived from the tables; a later event repeating an id gets none. */
  function Rederived(m: Mirror, i: nat): Event
    requires i < |m.events|
  {
    var e := m.events[i];
    if IsFirst(m.events, i)
    then e.(prev := Values(m.edges, e.id), auth := Values(m.auths, e.id), sigs := Values(m.sigs, e.id))
    else e.(prev := [], auth := [], sigs := [])
  }

  function Reconstructed(m: Mirror): (n: Mirror)
    ensures |n.events| == |m.events|
    ensures forall i :: 0 <= i < |m.events| ==> n.events[i] == Rederived(m, i)
  {
    m.(events := seq(|m.events|, i requires 0 <= i < |m.events| => Rederived(m, i)))
  }

  /** On a mirror in step with its tables, reconstruction changes nothing. */
  lemma ReconstructionIsIdentity(m: Mirror)
    requires RelationsOk(m)
    ensures Reconstructed(m) == m
  {
    forall i | 0 <= i < |m.events|
      ensures Rederived(m, i) == m.events[i]
    {
      assert Embeds(m, m.events[i]);
    }
    assert Reconstructed(m).events == m.events;
  }

  /** Whatever relations the events came with, reconstruction brings them in step. */
  lemma ReconstructionEstablishes(m: Mirror)
    requires UniqueIds(m.events)
    requires NoOrphans(m.events, m.edges) && NoOrphans(m.events, m.auths) && NoOrphans(m.events, m.sigs)
    ensures RelationsOk(Reconstructed(m))
  {
    var n := Reconstructed(m);
    forall e | e in n.events
      ensures Embeds(n, e)
    {
      var i :| 0 <= i < |m.events| && n.events[i] == e;
      assert IsFirst(m.events, i);
    }
    SameIdsSameOrphans(m.events, n.events, m.edges);
    SameIdsSameOrphans(m.events, n.events, m.auths);
    SameIdsSameOrphans(m.events, n.events, m.sigs);
  }

  lemma SameIdsSameOrphans<T(!new)>(a: seq<Event>, b: seq<Event>, rows: seq<Row<T>>)
    requires |a| == |b| && (forall i :: 0 <= i < |a| ==> a[i].id == b[i].id) && NoOrphans(a, rows)
    ensures NoOrphans(b, rows)
  {
    forall r | r in rows
      ensures HasEvent(b, r.event)
    {
      var i :| 0 <= i < |a| && a[i].id == r.event;
      assert b[i].id == r.event;
    }
  }

  // ---- Current state and transitions -----------------------------------------

  /** The event id current for a tuple: that of its first entry. */
  function Current(state: seq<StateEntry>, tuple: Tuple): Option<Id> {
    if state == [] then None
    else if state[0].tuple == tuple then Some(state[0].event)
    else Current(state[1..], tuple)
  }

  /** The first entry of the tuple re-pointed, or an entry added. */
  function SetCurrent(state: seq<StateEntry>, tuple: Tuple, event: Id): seq<StateEntry> {
    if state == [] then [StateEntry(tuple, event)]
    else if state[0].tuple == tuple then [StateEntry(tuple, event)] + state[1..]
    else [state[0]] + SetCurrent(state[1..], tuple, event)
  }

  lemma {:induction false} CurrentOfSet(state: seq<StateEntry>, tuple: Tuple, event: Id, other: Tuple)
    ensures Current(SetCurrent(state, tuple, event), other) == if other == tuple then Some(event) else Current(state, other)
  {
    if state != [] && state[0].tuple != tuple {
      CurrentOfSet(state[1..], tuple, event, other);
      assert SetCurrent(state, tuple, event)[1..] == SetCurrent(state[1..], tuple, event);
    } else if state != [] {
      assert SetCurrent(state, tuple, event)[1..] == state[1..];
    }
  }

  lemma {:induction false} SetAt(state: seq<StateEntry>, tuple: Tuple, event: Id, i: nat)
    requires i < |state| && state[i].tuple == tuple && forall j :: 0 <= j < i ==> state[j].tuple != tuple
    ensures SetCurrent(state, tuple, event) == state[i := StateEntry(tuple, event)]
    ensures Current(state, tuple) == Some(state[i].event)
  {
    if i > 0 {
      SetAt(state[1..], tuple, event, i - 1);
    }
  }

  lemma {:induction false} SetAtEnd(state: seq<StateEntry>, tuple: Tuple, event: Id)
    requires forall j :: 0 <= j < |state| ==> state[j].tuple != tuple
    ensures SetCurrent(state, tuple, event) == state + [StateEntry(tuple, event)] && Current(state, tuple) == None
  {
    if state != [] {
      SetAtEnd(state[1..], tuple, event);
    }
  }

  // ---- The transition index --------------------------------------------------

  const NUL: char := '\0'

  predicate NulFree(s: string) {
    NUL !in s
  }

  predicate TupleNulFree(t: Tuple) {
    NulFree(t.room) && NulFree(t.kind) && NulFree(t.key)
  }

  /** Room, type, state key and event id, joined by NUL. */
  function IndexKey(t: Tuple, event: Id): string {
    t.room + [NUL] + t.kind + [NUL] + t.key + [NUL] + event
  }

  lemma FirstNul(a: string, x: string)
    requires NulFree(a)
    ensures (a + [NUL] + x)[|a|] == NUL
    ensures forall i :: 0 <= i < |a| ==> (a + [NUL] + x)[i] != NUL
  {
    forall i | 0 <= i < |a|
      ensures (a + [NUL] + x)[i] != NUL
    {
      assert (a + [NUL] + x)[i] == a[i];
    }
  }

  lemma NulSplits(a: string, b: string, x: string, y: string)
    requires NulFree(a) && NulFree(b) && a + [NUL] + x == b + [NUL] + y
    ensures a == b && x == y
  {
    FirstNul(a, x);
    FirstNul(b, y);
    var s, t := a + [NUL] + x, b + [NUL] + y;
    assert |a| == |b|;
    assert s[..|a|] == a && t[..|b|] == b;
    assert s[|a| + 1..] == x && t[|b| + 1..] == y;
  }

  /** The key tells tuples and event ids apart, because none of the first three parts contains NUL. */
  lemma IndexKeyInjective(t: Tuple, e: Id, u: Tuple, f: Id)
    requires TupleNulFree(t) && TupleNulFree(u) && IndexKey(t, e) == IndexKey(u, f)
    ensures t == u && e == f
  {
    var x := t.kind + [NUL] + t.key + [NUL] + e;
    var y := u.kind + [NUL] + u.key + [NUL] + f;
    assert IndexKey(t, e) == t.room + [NUL] + x && IndexKey(u, f) == u.room + [NUL] + y;
    NulSplits(t.room, u.room, x, y);
    var x' := t.key + [NUL] + e;
    var y' := u.key + [NUL] + f;
    assert x == t.kind + [NUL] + x' && y == u.kind + [NUL] + y';
    NulSplits(t.kind, u.kind, x', y');
    NulSplits(t.key, u.key, e, f);
  }

  /** `emplace`: a key that is there stays as it is. */
  function Emplace(index: map<string, nat>, key: string, position: nat): map<string, nat> {
    if key in index then index else index[key := position]
  }

  /** The index a full rebuild makes: each key at the position of its first row. */
  function IndexOf(transitions: seq<Transition>): (index: map<string, nat>)
    ensures forall key :: key in index ==> index[key] < |transitions|
  {
    if transitions == [] then map[]
    else
      var n := |transitions| - 1;
      var t := transitions[n];
      Emplace(IndexOf(transitions[..n]), IndexKey(t.tuple, t.event), n)
  }

  lemma IndexOfAppend(transitions: seq<Transition>, t: Transition)
    ensures IndexOf(transitions + [t]) == Emplace(IndexOf(transitions), IndexKey(t.tuple, t.event), |transitions|)
  {
    assert (transitions + [t])[..|transitions|] == transitions;
  }

  /** The first row for a tuple and event, by scanning. */
  function FirstTransition(transitions: seq<Transition>, tuple: Tuple, event: Id): Option<Transition> {
    if transitions == [] then None
    else if transitions[0].tuple == tuple && transitions[0].event == event then Some(transitions[0])
    else FirstTransition(transitions[1..], tuple, event)
  }

  ghost predicate TransitionsNulFree(transitions: seq<Transition>) {
    forall i :: 0 <= i < |transitions| ==> TupleNulFree(transitions[i].tuple)
  }

  lemma {:induction false} FirstTransitionAppend(ts: seq<Transition>, t: Transition, tuple: Tuple, event: Id)
    ensures FirstTransition(ts + [t], tuple, event) ==
            if FirstTransition(ts, tuple, event).Some? then FirstTransition(ts, tuple, event)
            else if t.tuple == tuple && t.event == event then Some(t) else None
  {
    if ts == [] {
      assert ts + [t] == [t];
    } else {
      assert (ts + [t])[0] == ts[0] && (ts + [t])[1..] == ts[1..] + [t];
      FirstTransitionAppend(ts[1..], t, tuple, event);
    }
  }

  /** Looking up through the index finds what a scan for the first matching row finds. */
  lemma {:induction false} IndexRefinesScan(ts: seq<Transition>, tuple: Tuple, event: Id)
    requires TransitionsNulFree(ts) && TupleNulFree(tuple)
    ensures var key := IndexKey(tuple, event);
            (if key in IndexOf(ts) then Some(ts[IndexOf(ts)[key]]) else None) == FirstTransition(ts, tuple, event)
  {
    if ts != [] {
      var n := |ts| - 1;
      var front, last := ts[..n], ts[n];
      assert ts == front + [last];
      IndexRefinesScan(front, tuple, event);
      FirstTransitionAppend(front, last, tuple, event);
      if IndexKey(last.tuple, last.event) == IndexKey(tuple, event) {
        IndexKeyInjective(last.tuple, last.event, tuple, event);
      }
    }
  }

  ghost predicate IndexOk(m: Mirror) {
    m.index == IndexOf(m.transitions)
  }

  /** The push of a transition row with its index entry. */
  function AddTransition(m: Mirror, t: Transition): Mirror {
    m.(transitions := m.transitions + [t],
       index := Emplace(m.index, IndexKey(t.tuple, t.event), |m.transitions|))
  }

  /** Maintained row by row, the index is always the one a rebuild would make. */
  lemma AddTransitionKeepsIndex(m: Mirror, t: Transition)
    requires IndexOk(m)
    ensures IndexOk(AddTransition(m, t))
  {
    IndexOfAppend(m.transitions, t);
  }

  // ---- Accepted writes -------------------------------------------------------

  /** Whether the event is a state event for the tuple. */
  predicate IsStateFor(e: Event, tuple: Tuple) {
    e.room == tuple.room && e.json.typeField == Some(tuple.kind) && e.json.stateKeyField == Some(tuple.key)
  }

  predicate StateIsPersisted(m: Mirror, entry: StateEntry) {
    exists i :: 0 <= i < |m.events| && m.events[i].id == entry.event && IsStateFor(m.events[i], entry.tuple)
  }

  /** Making an event current: state, transition row and index entry. */
  function MakeCurrent(m: Mirror, entry: StateEntry, previous: Id): Mirror {
    AddTransition(m.(state := SetCurrent(m.state, entry.tuple, entry.event)),
                  Transition(entry.tuple, entry.event, previous))
  }

  /** `store_state`, given the backend's answer. */
  function StateStored(m: Mirror, entry: StateEntry, accepted: bool): (Mirror, bool) {
    if !StateIsPersisted(m, entry) then (m, false)
    else
      var existing := Current(m.state, entry.tuple);
      if existing == Some(entry.event) then (m, true)
      else if !accepted then (m, false)
      else (MakeCurrent(m, entry, if existing.Some? then existing.value else ""), true)
  }

  /** `store_event`, given the backend's answer. */
  function EventStored(m: Mirror, e: Event, accepted: bool): (Mirror, bool) {
    if HasEvent(m.events, e.id) || !accepted then (m, false) else (AddEvent(m, e), true)
  }

  /** A prepared update: the event, what it is state for, and the predecessor found for it. */
  datatype Update = Update(event: Event, state: Option<Tuple>, existed: bool, previous: Id)

  /** `apply_store_event_with_state`. */
  function UpdateApplied(m: Mirror, u: Update): Mirror {
    if HasEvent(m.events, u.event.id) then m
    else
      var n := AddEvent(m, u.event);
      if u.state.None? then n else MakeCurrent(n, StateEntry(u.state.value, u.event.id), u.previous)
  }

  lemma MakeCurrentKeeps(m: Mirror, entry: StateEntry, previous: Id)
    requires IndexOk(m)
    ensures IndexOk(MakeCurrent(m, entry, previous))
    ensures RelationsOk(m) ==> RelationsOk(MakeCurrent(m, entry, previous))
  {
    AddTransitionKeepsIndex(m.(state := SetCurrent(m.state, entry.tuple, entry.event)),
                            Transition(entry.tuple, entry.event, previous));
    if RelationsOk(m) {
      var n := MakeCurrent(m, entry, previous);
      forall e | e in n.events
        ensures Embeds(n, e)
      {
        assert Embeds(m, e);
      }
    }
  }

  ghost predicate MirrorOk(m: Mirror) {
    RelationsOk(m) && IndexOk(m)
  }

  // Every write keeps the relations in step and the index as a rebuild would make it.

  lemma StoreEventKeepsMirror(m: Mirror, e: Event, accepted: bool)
    requires MirrorOk(m)
    ensures MirrorOk(EventStored(m, e, accepted).0)
  {
    if !HasEvent(m.events, e.id) {
      AddEventKeepsRelations(m, e);
    }
  }

  lemma StoreStateKeepsMirror(m: Mirror, entry: StateEntry, accepted: bool)
    requires MirrorOk(m)
    ensures MirrorOk(StateStored(m, entry, accepted).0)
  {
    var existing := Current(m.state, entry.tuple);
    MakeCurrentKeeps(m, entry, if existing.Some? then existing.value else "");
  }

  lemma ApplyKeepsMirror(m: Mirror, u: Update)
    requires MirrorOk(m)
    ensures MirrorOk(UpdateApplied(m, u))
  {
    if !HasEvent(m.events, u.event.id) {
      AddEventKeepsRelations(m, u.event);
      if u.state.Some? {
        MakeCurrentKeeps(AddEvent(m, u.event), StateEntry(u.state.value, u.event.id), u.previous);
      }
    }
  }

  // What a write makes current, and what it records as replaced.

  /** An accepted change of state makes the event current for its tuple alone and records what it replaced. */
  lemma StoreStateMovesCurrent(m: Mirror, entry: StateEntry)
    requires StateIsPersisted(m, entry) && Current(m.state, entry.tuple) != Some(entry.event)
    ensures var m' := StateStored(m, entry, true).0;
            var before := Current(m.state, entry.tuple);
            StateStored(m, entry, true).1 && m'.events == m.events &&
            m'.transitions == m.transitions + [Transition(entry.tuple, entry.event, if before.Some? then before.value else "")] &&
            forall tuple :: Current(m'.state, tuple) == if tuple == entry.tuple then Some(entry.event) else Current(m.state, tuple)
  {
    forall tuple
      ensures Current(SetCurrent(m.state, entry.tuple, entry.event), tuple) ==
              if tuple == entry.tuple then Some(entry.event) else Current(m.state, tuple)
    {
      CurrentOfSet(m.state, entry.tuple, entry.event, tuple);
    }
  }

  /** So does applying an update for a state event; any other update leaves current state alone. */
  lemma ApplyMovesCurrent(m: Mirror, u: Update)
    requires !HasEvent(m.events, u.event.id)
    ensures var m' := UpdateApplied(m, u);
            HasEvent(m'.events, u.event.id) && m'.events == m.events + [u.event] &&
            (u.state.Some? ==> m'.transitions == m.transitions + [Transition(u.state.value, u.event.id, u.previous)]) &&
            forall tuple :: Current(m'.state, tuple) == if u.state == Some(tuple) then Some(u.event.id) else Current(m.state, tuple)
  {
    HasEventAppend(m.events, u.event, u.event.id);
    if u.state.Some? {
      forall tuple
        ensures Current(SetCurrent(m.state, u.state.value, u.event.id), tuple) ==
                if tuple == u.state.value then Some(u.event.id) else Current(m.state, tuple)
      {
        CurrentOfSet(m.state, u.state.value, u.event.id, tuple);
      }
    }
  }
}
