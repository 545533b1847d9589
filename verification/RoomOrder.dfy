/**
 * Runs in which each room's updates reach the mirror in the order of their
 * commits, as the lock of a room arranges it (src/homeserver/local_http_router.cpp),
 * while rooms overtake one another freely.
 */
module RoomOrder {
  import opened Basics
  import opened EventMirror
  import opened Backend
  import opened WriteProtocol
  import opened WriteOrder
  import opened RoomReload

  // ---- What a mirror shows of one room -----------------------------------------------

  datatype Slice = Slice(events: seq<Event>, state: seq<StateEntry>, transitions: seq<Transition>)

  function TransitionIn(room: Id): Transition -> bool { (t: Transition) => t.tuple.room == room }

  function SliceOf(m: Mirror, room: Id): Slice {
    Slice(Filter(m.events, EventIn(room)), Filter(m.state, StateIn(room)), Filter(m.transitions, TransitionIn(room)))
  }

  /** What an update of the room makes of its slice. */
  function SliceAfter(s: Slice, p: Waiting): Slice {
    Slice(s.events + NewEvents(p), StateAfter(s.state, EntryOf(p.update)), s.transitions + NewTransitions(p))
  }

  lemma {:induction false} FilterOfSet(state: seq<StateEntry>, tuple: Tuple, event: Id, room: Id)
    ensures Filter(SetCurrent(state, tuple, event), StateIn(room)) ==
            if tuple.room == room then SetCurrent(Filter(state, StateIn(room)), tuple, event) else Filter(state, StateIn(room))
  {
    if state == [] {
      assert Filter([StateEntry(tuple, event)], StateIn(room)) ==
             if tuple.room == room then [StateEntry(tuple, event)] + Filter([], StateIn(room)) else Filter([], StateIn(room));
    } else {
      var rest := state[1..];
      if state[0].tuple == tuple {
        assert ([StateEntry(tuple, event)] + rest)[1..] == rest;
        assert tuple.room == room ==> ([state[0]] + Filter(rest, StateIn(room)))[1..] == Filter(rest, StateIn(room));
      } else {
        FilterOfSet(rest, tuple, event, room);
        var after := SetCurrent(rest, tuple, event);
        assert ([state[0]] + after)[1..] == after;
        assert StateIn(room)(state[0]) ==> ([state[0]] + Filter(rest, StateIn(room)))[1..] == Filter(rest, StateIn(room));
      }
    }
  }

  lemma FilterOne<T(!new)>(x: T, p: T -> bool)
    ensures Filter([x], p) == if p(x) then [x] else []
  {
    assert [x][1..] == [];
  }

  lemma EventsOfUpdate(m: Mirror, p: Waiting, room: Id)
    ensures Filter(m.events + NewEvents(p), EventIn(room)) ==
            Filter(m.events, EventIn(room)) + if p.update.event.room == room then NewEvents(p) else []
  {
    FilterAppend(m.events, NewEvents(p), EventIn(room));
    FilterOne(p.update.event, EventIn(room));
  }

  lemma TransitionsOfUpdate(m: Mirror, p: Waiting, room: Id)
    requires OwnRoom(p.update)
    ensures Filter(m.transitions + NewTransitions(p), TransitionIn(room)) ==
            Filter(m.transitions, TransitionIn(room)) + if p.update.event.room == room then NewTransitions(p) else []
  {
    FilterAppend(m.transitions, NewTransitions(p), TransitionIn(room));
    if p.update.state.Some? {
      FilterOne(NewTransitions(p)[0], TransitionIn(room));
    }
  }

  lemma StateOfUpdate(state: seq<StateEntry>, u: Update, room: Id)
    requires OwnRoom(u)
    ensures Filter(StateAfter(state, EntryOf(u)), StateIn(room)) ==
            if u.event.room == room then StateAfter(Filter(state, StateIn(room)), EntryOf(u)) else Filter(state, StateIn(room))
  {
    if u.state.Some? {
      FilterOfSet(state, u.state.value, u.event.id, room);
    }
  }

  lemma SliceOfUpdate(m: Mirror, p: Waiting, room: Id)
    requires !HasEvent(m.events, p.update.event.id) && OwnRoom(p.update)
    ensures SliceOf(UpdateApplied(m, p.update), room) ==
            if p.update.event.room == room then SliceAfter(SliceOf(m, room), p) else SliceOf(m, room)
  {
    AppliedRows(m, p);
    hide UpdateApplied, HasEvent, SetCurrent, Filter, NewEvents, NewTransitions;
    EventsOfUpdate(m, p, room);
    TransitionsOfUpdate(m, p, room);
    StateOfUpdate(m.state, p.update, room);
    assert SliceOf(m, room).events + [] == SliceOf(m, room).events;
    assert SliceOf(m, room).transitions + [] == SliceOf(m, room).transitions;
  }

  lemma SliceOfEvent(m: Mirror, e: Event, room: Id)
    ensures SliceOf(AddEvent(m, e), room) ==
            if e.room == room then SliceOf(m, room).(events := SliceOf(m, room).events + [e]) else SliceOf(m, room)
  {
    FilterAppend(m.events, [e], EventIn(room));
    FilterOne(e, EventIn(room));
  }

  lemma SliceOfCurrent(m: Mirror, entry: StateEntry, previous: Id, room: Id)
    ensures var s := SliceOf(m, room);
            SliceOf(MakeCurrent(m, entry, previous), room) ==
            if entry.tuple.room != room then s
            else s.(state := SetCurrent(s.state, entry.tuple, entry.event),
                    transitions := s.transitions + [Transition(entry.tuple, entry.event, previous)])
  {
    var t := Transition(entry.tuple, entry.event, previous);
    FilterOfSet(m.state, entry.tuple, entry.event, room);
    FilterAppend(m.transitions, [t], TransitionIn(room));
    FilterOne(t, TransitionIn(room));
    hide Filter, SetCurrent;
  }

  // ---- Order by room -----------------------------------------------------------------

  function RoomOf(p: Waiting): Id { p.update.event.room }

  /** Of the first `i` pending updates, none is of the room. */
  ghost predicate NoneBefore(pending: seq<Waiting>, i: nat, room: Id)
    requires i <= |pending|
  {
    forall j :: 0 <= j < i ==> RoomOf(pending[j]) != room
  }

  ghost predicate NoneOf(pending: seq<Waiting>, room: Id) {
    NoneBefore(pending, |pending|, room)
  }

  /** The action leaves no older commit of its room to be applied later. */
  ghost predicate InRoomOrder(w: World, a: Action) {
    match a
    case Apply(i) => i < |w.pending| ==> NoneBefore(w.pending, i, RoomOf(w.pending[i]))
    case WriteEvent(e, online) => StoreEvent(w.mirror, w.tables, e, online).2 ==> NoneOf(w.pending, e.room)
    case WriteState(entry, online) => Changes(w, entry, online) ==> NoneOf(w.pending, entry.tuple.room)
    case _ => true
  }

  ghost predicate RoomOrderedRun(w: World, actions: seq<Action>)
    decreases actions
  {
    actions == [] || (InRoomOrder(w, actions[0]) && RoomOrderedRun(Do(w, actions[0]), actions[1..]))
  }

  lemma OtherRoomOtherTuple(history: seq<Past>, p: Waiting, tuple: Tuple)
    requires InHistory(history, p) && RoomOf(p) != tuple.room
    ensures p.update.state != Some(tuple)
  {
  }

  /** Commits in order for each room are in order for each tuple. */
  lemma RoomOrderIsOrder(w: World, a: Action)
    requires Inv(w) && InRoomOrder(w, a)
    ensures InTupleOrder(w, a)
  {
    hide Inv, StoreState, StoreEvent, Changes, InHistory;
    PendingIsOk(w);
    match a
    case Apply(i) =>
      if i < |w.pending| && w.pending[i].update.state.Some? {
        var p := w.pending[i];
        assert InHistory(w.history, p);
        assert RoomOf(p) == p.update.state.value.room by {
          RoomOfTuple(w.history, p);
        }
        forall j | 0 <= j < i
          ensures !SameTuple(w.pending[j].update, p.update)
        {
          OtherRoomOtherTuple(w.history, w.pending[j], p.update.state.value);
        }
      }
    case WriteState(entry, online) =>
      if Changes(w, entry, online) {
        forall j | 0 <= j < |w.pending|
          ensures w.pending[j].update.state != Some(entry.tuple)
        {
          OtherRoomOtherTuple(w.history, w.pending[j], entry.tuple);
        }
      }
    case _ =>
  }

  lemma RoomOfTuple(history: seq<Past>, p: Waiting)
    requires InHistory(history, p) && p.update.state.Some?
    ensures RoomOf(p) == p.update.state.value.room
  {
  }

  lemma {:induction false} RoomOrderedIsOrdered(w: World, actions: seq<Action>)
    requires Inv(w) && RoomOrderedRun(w, actions)
    ensures OrderedRun(w, actions)
    decreases actions
  {
    hide Inv, InTupleOrder, InRoomOrder, Do;
    if actions != [] {
      RoomOrderIsOrder(w, actions[0]);
      DoKeepsInv(w, actions[0]);
      RoomOrderedIsOrdered(Do(w, actions[0]), actions[1..]);
    }
  }

  // ---- Which commit a room shows -----------------------------------------------------

  /** The first pending commit of the room, or `end`. */
  function First(pending: seq<Waiting>, room: Id, end: nat): nat {
    if pending == [] then end
    else if RoomOf(pending[0]) == room then pending[0].number
    else First(pending[1..], room, end)
  }

  /** The update whose commit that is. */
  ghost predicate IsFirstOf(pending: seq<Waiting>, room: Id, i: nat) {
    i < |pending| && RoomOf(pending[i]) == room && NoneBefore(pending, i, room)
  }

  lemma {:induction false} FirstIs(pending: seq<Waiting>, room: Id, end: nat) returns (i: nat)
    ensures NoneOf(pending, room) ==> First(pending, room, end) == end
    ensures !NoneOf(pending, room) ==> IsFirstOf(pending, room, i) && First(pending, room, end) == pending[i].number
  {
    i := 0;
    if pending != [] && RoomOf(pending[0]) != room {
      var rest := pending[1..];
      var k := FirstIs(rest, room, end);
      assert forall j :: 0 < j < |pending| ==> pending[j] == rest[j - 1];
      assert forall j :: 0 <= j < |rest| ==> rest[j] == pending[j + 1];
      i := k + 1;
    }
  }

  lemma FirstIsNumber(pending: seq<Waiting>, room: Id, end: nat, i: nat)
    requires IsFirstOf(pending, room, i)
    ensures First(pending, room, end) == pending[i].number
  {
    var k := FirstIs(pending, room, end);
    assert !NoneOf(pending, room);
  }

  lemma FirstAppend(pending: seq<Waiting>, p: Waiting, room: Id, end: nat)
    ensures First(pending + [p], room, end) ==
            if !NoneOf(pending, room) then First(pending, room, p.number)
            else if RoomOf(p) == room then p.number else end
  {
    var all := pending + [p];
    var i := FirstIs(pending, room, p.number);
    var k := FirstIs(all, room, end);
    hide First;
    if !NoneOf(pending, room) {
      FirstIsNumber(all, room, end, i);
    } else if RoomOf(p) == room {
      assert all[|pending|] == p;
      FirstIsNumber(all, room, end, |pending|);
    }
  }

  ghost predicate Increasing(pending: seq<Waiting>) {
    forall i, j :: 0 <= i < j < |pending| ==> pending[i].number < pending[j].number
  }

  lemma RemovedAt(pending: seq<Waiting>, i: nat)
    requires i < |pending|
    ensures var rest := Removed(pending, i);
            |rest| == |pending| - 1 && (forall j :: 0 <= j < |rest| ==> rest[j] == pending[if j < i then j else j + 1]) &&
            (Increasing(pending) ==> Increasing(rest))
  {
  }

  /** In commit order, the first is at or before every other of its room. */
  lemma FirstIsLeast(pending: seq<Waiting>, room: Id, end: nat, i: nat)
    requires Increasing(pending) && i < |pending| && RoomOf(pending[i]) == room
    ensures First(pending, room, end) <= pending[i].number
  {
    var k := FirstIs(pending, room, end);
    assert !NoneOf(pending, room) && !(i < k);
  }


  // ---- What room order keeps ---------------------------------------------------------

  /** The commit leaves the room's slice alone. */
  ghost predicate SteadyAt(history: seq<Past>, ledger: Mirror, n: nat, room: Id) {
    SliceOf(LedgerAt(history, ledger, n + 1), room) == SliceOf(LedgerAt(history, ledger, n), room)
  }

  /** Commits from `from` on change the slice of their own room only. */
  ghost predicate Steady(history: seq<Past>, ledger: Mirror, from: nat) {
    forall n: nat, room | from <= n < |history| && room != history[n].room :: SteadyAt(history, ledger, n, room)
  }

  function Oldest(pending: seq<Waiting>, end: nat): nat {
    if pending == [] then end else pending[0].number
  }

  ghost predicate ShowsCommit(m: Mirror, history: seq<Past>, ledger: Mirror, room: Id, n: nat) {
    SliceOf(m, room) == SliceOf(LedgerAt(history, ledger, n), room)
  }

  /** Every room shows the ledger as of its first pending commit. */
  ghost predicate AllShow(m: Mirror, pending: seq<Waiting>, ledger: Mirror, history: seq<Past>) {
    forall room :: ShowsCommit(m, history, ledger, room, First(pending, room, |history|))
  }

  ghost predicate AllContinue(pending: seq<Waiting>, ledger: Mirror, history: seq<Past>) {
    forall i :: 0 <= i < |pending| ==> Continues(history, ledger, pending[i])
  }

  /** From a room's first pending commit on, its commits are all pending. */
  ghost predicate AllWait(pending: seq<Waiting>, history: seq<Past>) {
    forall n :: 0 <= n < |history| && First(pending, history[n].room, |history|) <= n ==> IsWaiting(pending, n)
  }

  ghost predicate RoomInv(m: Mirror, pending: seq<Waiting>, ledger: Mirror, history: seq<Past>) {
    AllShow(m, pending, ledger, history) && Steady(history, ledger, Oldest(pending, |history|)) &&
    AllContinue(pending, ledger, history) && AllWait(pending, history)
  }

  /** Pending updates are commits of the record, in its order. */
  ghost predicate Numbered(pending: seq<Waiting>, history: seq<Past>) {
    (forall i :: 0 <= i < |pending| ==> InHistory(history, pending[i])) && Increasing(pending)
  }

  lemma SteadyLater(history: seq<Past>, ledger: Mirror, past: Past, ledger': Mirror, from: nat)
    requires Steady(history, ledger, from) && past.ledger == ledger
    requires forall room :: room != past.room ==> SliceOf(ledger', room) == SliceOf(ledger, room)
    ensures Steady(history + [past], ledger', from)
  {
    var history' := history + [past];
    forall n: nat, room | from <= n < |history'| && room != history'[n].room
      ensures SteadyAt(history', ledger', n, room)
    {
      LedgerAtLater(history, ledger, past, ledger', n);
      LedgerAtLater(history, ledger, past, ledger', n + 1);
      if n < |history| {
        assert SteadyAt(history, ledger, n, room);
      }
    }
  }

  lemma {:induction false} SteadyWalk(history: seq<Past>, ledger: Mirror, room: Id, a: nat, b: nat)
    requires a <= b && forall n: nat :: a <= n < b ==> SteadyAt(history, ledger, n, room)
    ensures SliceOf(LedgerAt(history, ledger, b), room) == SliceOf(LedgerAt(history, ledger, a), room)
    decreases b
  {
    if a < b {
      SteadyWalk(history, ledger, room, a, b - 1);
      assert SteadyAt(history, ledger, b - 1, room);
    }
  }

  lemma OldestIsLeast(pending: seq<Waiting>, end: nat, i: nat)
    requires i < |pending| && Increasing(pending)
    ensures Oldest(pending, end) <= pending[i].number
  {
  }

  /** A first pending commit stays first when one is added behind. */
  lemma FirstStays(pending: seq<Waiting>, room: Id, end: nat, other: nat)
    requires !NoneOf(pending, room)
    ensures First(pending, room, end) == First(pending, room, other)
  {
    var i := FirstIs(pending, room, end);
    FirstIsNumber(pending, room, other, i);
  }

  lemma FirstBound(pending: seq<Waiting>, history: seq<Past>, room: Id)
    requires Numbered(pending, history)
    ensures First(pending, room, |history|) <= |history|
    ensures !NoneOf(pending, room) ==> First(pending, room, |history|) < |history|
  {
    var i := FirstIs(pending, room, |history|);
    if !NoneOf(pending, room) {
      assert InHistory(history, pending[i]);
    }
  }

  // Committing.

  lemma CommitShows(m: Mirror, pending: seq<Waiting>, ledger: Mirror, history: seq<Past>, past: Past, p: Waiting, room: Id)
    requires ShowsCommit(m, history, ledger, room, First(pending, room, |history|)) && Numbered(pending, history)
    requires past.ledger == ledger && past.room == RoomOf(p) && p.number == |history|
    requires !HasEvent(ledger.events, p.update.event.id) && OwnRoom(p.update)
    ensures ShowsCommit(m, history + [past], UpdateApplied(ledger, p.update), room, First(pending + [p], room, |history| + 1))
  {
    FirstAppend(pending, p, room, |history| + 1);
    FirstBound(pending, history, room);
    var i := FirstIs(pending, room, |history|);
    SliceOfUpdate(ledger, p, room);
    hide First, SliceOf, UpdateApplied, HasEvent, NoneOf;
    LedgerAtLater(history, ledger, past, UpdateApplied(ledger, p.update), First(pending + [p], room, |history| + 1));
  }

  lemma CommitKeepsRooms(m: Mirror, pending: seq<Waiting>, ledger: Mirror, history: seq<Past>, past: Past, p: Waiting)
    requires RoomInv(m, pending, ledger, history) && Numbered(pending, history)
    requires past.ledger == ledger && past.room == RoomOf(p) && p.number == |history|
    requires !HasEvent(ledger.events, p.update.event.id) && OwnRoom(p.update)
    ensures RoomInv(m, pending + [p], UpdateApplied(ledger, p.update), history + [past])
  {
    var pending', ledger', history' := pending + [p], UpdateApplied(ledger, p.update), history + [past];
    forall room
      ensures ShowsCommit(m, history', ledger', room, First(pending', room, |history'|))
    {
      assert ShowsCommit(m, history, ledger, room, First(pending, room, |history|));
      CommitShows(m, pending, ledger, history, past, p, room);
    }
    forall room | room != past.room
      ensures SliceOf(ledger', room) == SliceOf(ledger, room)
    {
      SliceOfUpdate(ledger, p, room);
    }
    hide ShowsCommit, SliceOf, UpdateApplied, HasEvent, Steady;
    SteadyLater(history, ledger, past, ledger', Oldest(pending, |history|));
    forall i | 0 <= i < |pending'|
      ensures Continues(history', ledger', pending'[i])
    {
      if i < |pending| {
        assert InHistory(history, pending[i]);
        ContinuesLater(history, ledger, past, ledger', pending[i]);
      } else {
        LedgerAtLater(history, ledger, past, ledger', |history|);
        LedgerAtLater(history, ledger, past, ledger', |history| + 1);
      }
    }
    forall n | 0 <= n < |history'| && First(pending', history'[n].room, |history'|) <= n
      ensures IsWaiting(pending', n)
    {
      hide Continues;
      WaitingAppend(pending, p, n);
      if n < |history| {
        var room := history[n].room;
        FirstAppend(pending, p, room, |history'|);
        var i := FirstIs(pending, room, |history|);
      }
    }
  }

  // Applying the first pending update of a room.

  lemma RemovedFirst(pending: seq<Waiting>, i: nat, room: Id, end: nat)
    requires i < |pending| && RoomOf(pending[i]) != room
    ensures First(Removed(pending, i), room, end) == First(pending, room, end)
  {
    hide First, Removed;
    var rest := Removed(pending, i);
    RemovedAt(pending, i);
    var k := FirstIs(pending, room, end);
    var l := FirstIs(rest, room, end);
    if NoneOf(pending, room) {
      assert NoneOf(rest, room);
    } else {
      var k' := if k < i then k else k - 1;
      assert rest[k'] == pending[k] && IsFirstOf(rest, room, k');
      FirstIsNumber(rest, room, end, k');
    }
  }

  lemma LaterIsNext(pending: seq<Waiting>, i: nat, k: nat, end: nat)
    requires Increasing(pending) && i < k < |pending| && RoomOf(pending[k]) == RoomOf(pending[i])
    ensures First(Removed(pending, i), RoomOf(pending[i]), end) <= pending[k].number
  {
    hide First, Removed, Increasing;
    RemovedAt(pending, i);
    assert Removed(pending, i)[k - 1] == pending[k];
    FirstIsLeast(Removed(pending, i), RoomOf(pending[i]), end, k - 1);
  }

  lemma NextIsNot(pending: seq<Waiting>, history: seq<Past>, i: nat, n: nat)
    requires Numbered(pending, history) && i < |pending| && n < |history| && history[n].room == RoomOf(pending[i])
    requires pending[i].number < n && IsWaiting(pending, n)
    ensures First(Removed(pending, i), RoomOf(pending[i]), |history|) <= n
  {
    hide First, Removed;
    var k :| 0 <= k < |pending| && pending[k].number == n;
    assert InHistory(history, pending[k]);
    assert !(k < i) && k != i;
    hide Increasing;
    LaterIsNext(pending, i, k, |history|);
  }

  lemma NextBound(pending: seq<Waiting>, history: seq<Past>, i: nat)
    requires Numbered(pending, history) && i < |pending| && IsFirstOf(pending, RoomOf(pending[i]), i)
    ensures pending[i].number < First(Removed(pending, i), RoomOf(pending[i]), |history|) <= |history|
  {
    hide First, Removed;
    var room, rest := RoomOf(pending[i]), Removed(pending, i);
    RemovedAt(pending, i);
    assert InHistory(history, pending[i]);
    var l := FirstIs(rest, room, |history|);
    if !NoneOf(rest, room) {
      assert i <= l && rest[l] == pending[l + 1] && InHistory(history, pending[l + 1]);
    }
  }

  /** Between one pending commit of a room and its next there is no other commit of the room. */
  lemma SteadyBetween(pending: seq<Waiting>, ledger: Mirror, history: seq<Past>, i: nat, n: nat)
    requires Numbered(pending, history) && i < |pending| && IsFirstOf(pending, RoomOf(pending[i]), i)
    requires Steady(history, ledger, Oldest(pending, |history|)) && AllWait(pending, history)
    requires pending[i].number < n < First(Removed(pending, i), RoomOf(pending[i]), |history|)
    ensures SteadyAt(history, ledger, n, RoomOf(pending[i]))
  {
    hide First, Removed, SteadyAt, Increasing;
    FirstIsNumber(pending, RoomOf(pending[i]), |history|, i);
    OldestIsLeast(pending, |history|, i);
    NextBound(pending, history, i);
    if history[n].room == RoomOf(pending[i]) {
      NextIsNot(pending, history, i, n);
    }
  }

  /** From one pending commit of a room to its next, or to the present, the room's slice is steady. */
  lemma SteadyUntilNext(pending: seq<Waiting>, ledger: Mirror, history: seq<Past>, i: nat)
    requires Numbered(pending, history) && i < |pending| && IsFirstOf(pending, RoomOf(pending[i]), i)
    requires Steady(history, ledger, Oldest(pending, |history|)) && AllWait(pending, history)
    ensures var p, room := pending[i], RoomOf(pending[i]);
            var next := First(Removed(pending, i), room, |history|);
            SliceOf(LedgerAt(history, ledger, next), room) == SliceOf(LedgerAt(history, ledger, p.number + 1), room)
  {
    hide First, SliceOf, Removed, SteadyAt, Steady, AllWait, Numbered, IsFirstOf, LedgerAt;
    var p, room := pending[i], RoomOf(pending[i]);
    var next := First(Removed(pending, i), room, |history|);
    NextBound(pending, history, i);
    forall n: nat | p.number + 1 <= n < next
      ensures SteadyAt(history, ledger, n, room)
    {
      SteadyBetween(pending, ledger, history, i, n);
    }
    SteadyWalk(history, ledger, room, p.number + 1, next);
  }

  /** The room itself moves on to its next pending commit, */
  lemma ApplyShowsOwn(m: Mirror, pending: seq<Waiting>, ledger: Mirror, history: seq<Past>, i: nat)
    requires Numbered(pending, history) && i < |pending| && IsFirstOf(pending, RoomOf(pending[i]), i)
    requires ShowsCommit(m, history, ledger, RoomOf(pending[i]), pending[i].number) && Continues(history, ledger, pending[i])
    requires Steady(history, ledger, Oldest(pending, |history|)) && AllWait(pending, history)
    requires !HasEvent(m.events, pending[i].update.event.id) && OwnRoom(pending[i].update)
    ensures var room := RoomOf(pending[i]);
            ShowsCommit(UpdateApplied(m, pending[i].update), history, ledger, room, First(Removed(pending, i), room, |history|))
  {
    hide First, SliceOf, UpdateApplied, Steady, HasEvent, Numbered, IsFirstOf, AllWait, LedgerAt, SliceAfter;
    var p, room := pending[i], RoomOf(pending[i]);
    SliceOfUpdate(m, p, room);
    SteadyUntilNext(pending, ledger, history, i);
    SliceOfUpdate(LedgerAt(history, ledger, p.number), p, room);
  }

  /** and every other room stays where it is. */
  lemma ApplyShows(m: Mirror, pending: seq<Waiting>, ledger: Mirror, history: seq<Past>, i: nat, room: Id)
    requires RoomInv(m, pending, ledger, history) && Numbered(pending, history)
    requires i < |pending| && IsFirstOf(pending, RoomOf(pending[i]), i) && !HasEvent(m.events, pending[i].update.event.id)
    ensures ShowsCommit(UpdateApplied(m, pending[i].update), history, ledger, room, First(Removed(pending, i), room, |history|))
  {
    assert ShowsCommit(m, history, ledger, room, First(pending, room, |history|));
    assert InHistory(history, pending[i]) && Continues(history, ledger, pending[i]);
    hide First, SliceOf, UpdateApplied, Steady, Continues, HasEvent, AllShow, AllContinue, AllWait, LedgerAt;
    if RoomOf(pending[i]) != room {
      SliceOfUpdate(m, pending[i], room);
      RemovedFirst(pending, i, room, |history|);
    } else {
      FirstIsNumber(pending, room, |history|, i);
      ApplyShowsOwn(m, pending, ledger, history, i);
    }
  }

  lemma StillWaits(pending: seq<Waiting>, history: seq<Past>, i: nat, n: nat)
    requires Numbered(pending, history) && i < |pending| && IsFirstOf(pending, RoomOf(pending[i]), i)
    requires AllWait(pending, history) && n < |history| && First(Removed(pending, i), history[n].room, |history|) <= n
    ensures IsWaiting(Removed(pending, i), n)
  {
    hide First, Removed;
    var room := history[n].room;
    assert InHistory(history, pending[i]);
    if RoomOf(pending[i]) == room {
      NextBound(pending, history, i);
      FirstIsNumber(pending, room, |history|, i);
    } else {
      RemovedFirst(pending, i, room, |history|);
    }
    WaitingRemoved(pending, i, n);
  }

  lemma ApplyKeepsSteady(pending: seq<Waiting>, ledger: Mirror, history: seq<Past>, i: nat)
    requires Numbered(pending, history) && i < |pending| && Steady(history, ledger, Oldest(pending, |history|))
    ensures Steady(history, ledger, Oldest(Removed(pending, i), |history|))
  {
    hide SteadyAt, Removed;
    RemovedAt(pending, i);
    assert InHistory(history, pending[0]);
  }

  lemma ApplyKeepsContinues(pending: seq<Waiting>, ledger: Mirror, history: seq<Past>, i: nat)
    requires i < |pending| && AllContinue(pending, ledger, history)
    ensures AllContinue(Removed(pending, i), ledger, history)
  {
    hide Continues, Removed;
    RemovedAt(pending, i);
  }

  lemma ApplyKeepsWaits(pending: seq<Waiting>, history: seq<Past>, i: nat)
    requires Numbered(pending, history) && i < |pending| && IsFirstOf(pending, RoomOf(pending[i]), i)
    requires AllWait(pending, history)
    ensures AllWait(Removed(pending, i), history)
  {
    hide First, Removed, Numbered, IsFirstOf, IsWaiting;
    forall n | 0 <= n < |history| && First(Removed(pending, i), history[n].room, |history|) <= n
      ensures IsWaiting(Removed(pending, i), n)
    {
      StillWaits(pending, history, i, n);
    }
  }

  lemma ApplyKeepsRooms(m: Mirror, pending: seq<Waiting>, ledger: Mirror, history: seq<Past>, i: nat)
    requires RoomInv(m, pending, ledger, history) && Numbered(pending, history)
    requires i < |pending| && IsFirstOf(pending, RoomOf(pending[i]), i) && !HasEvent(m.events, pending[i].update.event.id)
    ensures RoomInv(UpdateApplied(m, pending[i].update), Removed(pending, i), ledger, history)
  {
    hide UpdateApplied, HasEvent, First, ShowsCommit, Steady, AllContinue, AllWait, Removed, Numbered, IsFirstOf;
    ApplyKeepsSteady(pending, ledger, history, i);
    ApplyKeepsContinues(pending, ledger, history, i);
    ApplyKeepsWaits(pending, history, i);
    forall room
      ensures ShowsCommit(UpdateApplied(m, pending[i].update), history, ledger, room, First(Removed(pending, i), room, |history|))
    {
      ApplyShows(m, pending, ledger, history, i, room);
    }
  }

  // Writing in one go, in a room with nothing pending.

  lemma WriteShows(
    m: Mirror, m': Mirror, pending: seq<Waiting>, ledger: Mirror, ledger': Mirror, history: seq<Past>, past: Past, room: Id)
    requires ShowsCommit(m, history, ledger, room, First(pending, room, |history|)) && Numbered(pending, history)
    requires past.ledger == ledger && NoneOf(pending, past.room)
    requires room != past.room ==> SliceOf(m', room) == SliceOf(m, room) && SliceOf(ledger', room) == SliceOf(ledger, room)
    requires room == past.room && SliceOf(m, room) == SliceOf(ledger, room) ==> SliceOf(m', room) == SliceOf(ledger', room)
    ensures ShowsCommit(m', history + [past], ledger', room, First(pending, room, |history| + 1))
  {
    hide SliceOf, First;
    var end := |history|;
    FirstBound(pending, history, room);
    var i := FirstIs(pending, room, end);
    var k := FirstIs(pending, room, end + 1);
    hide Numbered, NoneBefore;
    if NoneOf(pending, room) {
      LedgerAtLater(history, ledger, past, ledger', end + 1);
    } else {
      FirstStays(pending, room, end, end + 1);
      LedgerAtLater(history, ledger, past, ledger', First(pending, room, end));
    }
  }

  lemma WriteKeepsWaits(pending: seq<Waiting>, history: seq<Past>, past: Past)
    requires AllWait(pending, history) && NoneOf(pending, past.room)
    ensures AllWait(pending, history + [past])
  {
    hide First;
    var history', end := history + [past], |history|;
    forall n | 0 <= n < |history'| && First(pending, history'[n].room, |history'|) <= n
      ensures IsWaiting(pending, n)
    {
      var room := history'[n].room;
      var i := FirstIs(pending, room, end);
      var k := FirstIs(pending, room, end + 1);
      hide NoneBefore;
      if !NoneOf(pending, room) {
        FirstStays(pending, room, end, end + 1);
      }
    }
  }

  lemma WriteKeepsContinues(pending: seq<Waiting>, ledger: Mirror, ledger': Mirror, history: seq<Past>, past: Past)
    requires AllContinue(pending, ledger, history) && Numbered(pending, history) && past.ledger == ledger
    ensures AllContinue(pending, ledger', history + [past])
  {
    hide Continues;
    forall i | 0 <= i < |pending|
      ensures Continues(history + [past], ledger', pending[i])
    {
      assert InHistory(history, pending[i]);
      ContinuesLater(history, ledger, past, ledger', pending[i]);
    }
  }

  lemma OldestStays(pending: seq<Waiting>, history: seq<Past>, past: Past, ledger: Mirror)
    requires Steady(history + [past], ledger, Oldest(pending, |history|))
    ensures Steady(history + [past], ledger, Oldest(pending, |history| + 1))
  {
    hide SteadyAt;
  }

  lemma WriteKeepsRooms(
    m: Mirror, m': Mirror, pending: seq<Waiting>, ledger: Mirror, ledger': Mirror, history: seq<Past>, past: Past)
    requires RoomInv(m, pending, ledger, history) && Numbered(pending, history)
    requires past.ledger == ledger && NoneOf(pending, past.room)
    requires forall room :: room != past.room ==>
               SliceOf(m', room) == SliceOf(m, room) && SliceOf(ledger', room) == SliceOf(ledger, room)
    requires SliceOf(m, past.room) == SliceOf(ledger, past.room) ==> SliceOf(m', past.room) == SliceOf(ledger', past.room)
    ensures RoomInv(m', pending, ledger', history + [past])
  {
    hide SliceOf, First, ShowsCommit, Steady, AllContinue, AllWait, Numbered, NoneOf, Oldest;
    forall room
      ensures ShowsCommit(m', history + [past], ledger', room, First(pending, room, |history + [past]|))
    {
      assert ShowsCommit(m, history, ledger, room, First(pending, room, |history|));
      WriteShows(m, m', pending, ledger, ledger', history, past, room);
    }
    SteadyLater(history, ledger, past, ledger', Oldest(pending, |history|));
    OldestStays(pending, history, past, ledger');
    WriteKeepsContinues(pending, ledger, ledger', history, past);
    WriteKeepsWaits(pending, history, past);
  }

  // ---- Every step in room order keeps it -----------------------------------------------

  lemma NumberedIs(w: World)
    requires Inv(w)
    ensures Numbered(w.pending, w.history)
  {
  }

  lemma WriteEventKeepsRooms(w: World, e: Event, online: bool)
    requires Inv(w) && RoomInv(w.mirror, w.pending, w.ledger, w.history) && InRoomOrder(w, WriteEvent(e, online))
    ensures var w' := DoWriteEvent(w, e, online); RoomInv(w'.mirror, w'.pending, w'.ledger, w'.history)
  {
    hide Inv, RoomInv, NoneOf, SliceOf, ExecAll, EventStatements, HasEvent, AddEvent;
    if StoreEvent(w.mirror, w.tables, e, online).2 {
      var past := Past(w.ledger, w.tables, e.room, None);
      NumberedIs(w);
      forall room
        ensures room != e.room ==> SliceOf(AddEvent(w.mirror, e), room) == SliceOf(w.mirror, room) &&
                                   SliceOf(AddEvent(w.ledger, e), room) == SliceOf(w.ledger, room)
      {
        SliceOfEvent(w.mirror, e, room);
        SliceOfEvent(w.ledger, e, room);
      }
      SliceOfEvent(w.mirror, e, e.room);
      SliceOfEvent(w.ledger, e, e.room);
      WriteKeepsRooms(w.mirror, AddEvent(w.mirror, e), w.pending, w.ledger, AddEvent(w.ledger, e), w.history, past);
    }
  }

  lemma WriteStateKeepsRooms(w: World, entry: StateEntry, online: bool)
    requires Inv(w) && RoomInv(w.mirror, w.pending, w.ledger, w.history) && InRoomOrder(w, WriteState(entry, online))
    ensures var w' := DoWriteState(w, entry, online); RoomInv(w'.mirror, w'.pending, w'.ledger, w'.history)
  {
    hide Inv, RoomInv, NoneOf, SliceOf, StoreState, SetCurrent, Lists, HasTransition, MakeCurrent;
    if Changes(w, entry, online) {
      var existing := Current(w.mirror.state, entry.tuple);
      var previous, room0 := if existing.Some? then existing.value else "", entry.tuple.room;
      var past := Past(w.ledger, w.tables, room0, Some(entry));
      var m', ledger' := MakeCurrent(w.mirror, entry, previous), MakeCurrent(w.ledger, entry, previous);
      NumberedIs(w);
      WriteStateExtendsLedger(w, entry, online);
      forall room
        ensures room != room0 ==> SliceOf(m', room) == SliceOf(w.mirror, room) && SliceOf(ledger', room) == SliceOf(w.ledger, room)
      {
        SliceOfCurrent(w.mirror, entry, previous, room);
        SliceOfCurrent(w.ledger, entry, previous, room);
      }
      SliceOfCurrent(w.mirror, entry, previous, room0);
      SliceOfCurrent(w.ledger, entry, previous, room0);
      WriteKeepsRooms(w.mirror, m', w.pending, w.ledger, ledger', w.history, past);
    }
  }

  lemma NothingPendingShowsAll(m: Mirror, history: seq<Past>)
    ensures RoomInv(m, [], m, history)
  {
  }

  lemma DoKeepsRooms(w: World, a: Action)
    requires Inv(w) && RoomInv(w.mirror, w.pending, w.ledger, w.history) && InRoomOrder(w, a)
    ensures var w' := Do(w, a); RoomInv(w'.mirror, w'.pending, w'.ledger, w'.history)
  {
    hide Inv, RoomInv, Lists, UpdateApplied, UpdateStatements, ExecAll, StoreEvent, StoreState, HasEvent;
    hide Refused, Prepared, Loaded, Newest, Current, Removed, EntryOf, DoWriteEvent, DoWriteState;
    match a
    case CommitUpdate(writer, online) =>
      if writer in w.prepared && Commit(w.tables, UpdateStatements(w.prepared[writer]), online).Some? {
        var u := w.prepared[writer];
        NumberedIs(w);
        CommitFacts(w, writer, online);
        CommitKeepsRooms(w.mirror, w.pending, w.ledger, w.history, Past(w.ledger, w.tables, u.event.room, EntryOf(u)),
                         Waiting(u, |w.history|));
      }
    case Apply(i) =>
      if i < |w.pending| {
        NumberedIs(w);
        NotShown(w, i);
        ApplyKeepsRooms(w.mirror, w.pending, w.ledger, w.history, i);
      }
    case WriteEvent(e, online) => WriteEventKeepsRooms(w, e, online);
    case WriteState(entry, online) => WriteStateKeepsRooms(w, entry, online);
    case Restart(raw) =>
      if Lists(raw, w.tables) {
        NothingPendingShowsAll(Loaded(raw), w.history);
      }
    case _ =>
  }

  lemma {:induction false} RunKeepsRooms(w: World, actions: seq<Action>)
    requires Inv(w) && RoomInv(w.mirror, w.pending, w.ledger, w.history) && RoomOrderedRun(w, actions)
    ensures var w' := Run(w, actions); RoomInv(w'.mirror, w'.pending, w'.ledger, w'.history)
    decreases actions
  {
    hide Inv, RoomInv, InRoomOrder, Do;
    if actions != [] {
      DoKeepsInv(w, actions[0]);
      DoKeepsRooms(w, actions[0]);
      RunKeepsRooms(Do(w, actions[0]), actions[1..]);
    }
  }

  // ---- What holds over every run in room order -------------------------------------------

  lemma FilteredEvent(events: seq<Event>, room: Id, id: Id)
    ensures HasEvent(Filter(events, EventIn(room)), id) <==> exists e :: e in events && e.room == room && e.id == id
  {
    var own := Filter(events, EventIn(room));
    if i :| 0 <= i < |own| && own[i].id == id {
      assert own[i] in own;
    }
    if e :| e in events && e.room == room && e.id == id {
      assert e in own;
      var j :| 0 <= j < |own| && own[j] == e;
    }
  }

  lemma InRoomIds(m: Mirror, t: Tables, room: Id, id: Id)
    requires ListsTable(m.events, EventKey, Bare, t.events)
    ensures HasEvent(Filter(m.events, EventIn(room)), id) <==> id in t.events && t.events[id].room == room
  {
    ListedEvent(m, t, id);
    FilteredEvent(m.events, room, id);
    hide Filter, ListsTable;
    if id in t.events {
      var i :| 0 <= i < |m.events| && m.events[i].id == id;
      assert m.events[i] in m.events;
    }
  }

  /** The events of the room. */
  function RoomIds(t: Tables, room: Id): set<Id> {
    set id | id in t.events && t.events[id].room == room
  }

  /** The room's part of the mirror, relation rows included, lists the room's part of the tables. */
  ghost predicate ListsRoom(m: Mirror, t: Tables, room: Id) {
    var ids := RoomIds(t, room);
    ListsTable(Filter(m.events, EventIn(room)), EventKey, Bare, Part(t.events, EventIn(room))) &&
    ListsTable(Filter(m.state, StateIn(room)), StateKey, Same, Part(t.state, StateIn(room))) &&
    ListsTable(Filter(m.transitions, TransitionIn(room)), TransitionKey, Same, Part(t.transitions, TransitionIn(room))) &&
    ListsTable(Filter(m.edges, RowFor(ids)), RowKey, Same, Part(t.edges, RowFor(ids))) &&
    ListsTable(Filter(m.auths, RowFor(ids)), RowKey, Same, Part(t.auths, RowFor(ids))) &&
    ListsTable(Filter(m.sigs, RowFor(ids)), SigKey, Same, Part(t.sigs, RowFor(ids)))
  }

  lemma ListingListsRoom(m: Mirror, t: Tables, room: Id)
    requires Lists(m, t)
    ensures ListsRoom(m, t, room)
  {
    hide ListsTable, Part, Filter, RoomIds;
    var ids := RoomIds(t, room);
    FilterLists(m.events, EventKey, Bare, t.events, EventIn(room), EventIn(room));
    FilterLists(m.state, StateKey, Same, t.state, StateIn(room), StateIn(room));
    FilterLists(m.transitions, TransitionKey, Same, t.transitions, TransitionIn(room), TransitionIn(room));
    FilterLists(m.edges, RowKey, Same, t.edges, RowFor(ids), RowFor(ids));
    FilterLists(m.auths, RowKey, Same, t.auths, RowFor(ids), RowFor(ids));
    FilterLists(m.sigs, SigKey, Same, t.sigs, RowFor(ids), RowFor(ids));
  }

  lemma SliceEmbeds(m: Mirror, room: Id)
    requires RelationsOk(m)
    ensures var events := Filter(m.events, EventIn(room));
            UniqueIds(events) && forall i :: 0 <= i < |events| ==> Embeds(m, events[i])
  {
    var events := Filter(m.events, EventIn(room));
    FilterKeepsUnique(m.events, EventIn(room));
    forall i | 0 <= i < |events|
      ensures Embeds(m, events[i])
    {
      assert events[i] in m.events;
    }
  }

  /** Two relation tables that hold the same lists for the same events have the same rows for them. */
  lemma SameRowsFor<T(!new), K(!new)>(
    events: seq<Event>, get: Event -> seq<T>, rows: seq<Row<T>>, other: seq<Row<T>>, ids: set<Id>,
    key: Row<T> -> K, table: map<K, Row<T>>)
    requires UniqueIds(events) && ids == EventIds(events)
    requires forall i :: 0 <= i < |events| ==> get(events[i]) == Values(rows, events[i].id) == Values(other, events[i].id)
    requires ListsTable(Filter(other, RowFor(ids)), key, Same, table)
    ensures ListsTable(Filter(rows, RowFor(ids)), key, Same, table)
  {
    RowsRegrouped(events, get, rows);
    RowsRegrouped(events, get, other);
    hide Filter, EventRows, ListsTable;
    ListsPermuted(Filter(other, RowFor(ids)), Filter(rows, RowFor(ids)), key, Same, table);
  }

  lemma SliceIds(m: Mirror, t: Tables, room: Id)
    requires Lists(m, t)
    ensures EventIds(Filter(m.events, EventIn(room))) == RoomIds(t, room)
  {
    forall id
      ensures id in EventIds(Filter(m.events, EventIn(room))) <==> id in RoomIds(t, room)
    {
      InRoomIds(m, t, room, id);
    }
  }

  /** Relation rows of events that two mirrors both embed. */
  lemma SameRelations(m: Mirror, n: Mirror, t: Tables, events: seq<Event>, ids: set<Id>)
    requires UniqueIds(events) && ids == EventIds(events)
    requires forall i :: 0 <= i < |events| ==> Embeds(m, events[i]) && Embeds(n, events[i])
    requires ListsTable(Filter(n.edges, RowFor(ids)), RowKey, Same, Part(t.edges, RowFor(ids)))
    requires ListsTable(Filter(n.auths, RowFor(ids)), RowKey, Same, Part(t.auths, RowFor(ids)))
    requires ListsTable(Filter(n.sigs, RowFor(ids)), SigKey, Same, Part(t.sigs, RowFor(ids)))
    ensures ListsTable(Filter(m.edges, RowFor(ids)), RowKey, Same, Part(t.edges, RowFor(ids)))
    ensures ListsTable(Filter(m.auths, RowFor(ids)), RowKey, Same, Part(t.auths, RowFor(ids)))
    ensures ListsTable(Filter(m.sigs, RowFor(ids)), SigKey, Same, Part(t.sigs, RowFor(ids)))
  {
    hide ListsTable, Filter, Values, UniqueIds, Part, EventIds;
    SameRowsFor(events, PrevOf, m.edges, n.edges, ids, RowKey, Part(t.edges, RowFor(ids)));
    SameRowsFor(events, AuthOf, m.auths, n.auths, ids, RowKey, Part(t.auths, RowFor(ids)));
    SameRowsFor(events, SigsOf, m.sigs, n.sigs, ids, SigKey, Part(t.sigs, RowFor(ids)));
  }

  /** A mirror with the same slice as a listing lists the same part of the tables. */
  lemma SameSliceListsRoom(m: Mirror, n: Mirror, t: Tables, room: Id)
    requires RelationsOk(m) && RelationsOk(n) && Lists(n, t) && SliceOf(m, room) == SliceOf(n, room)
    ensures ListsRoom(m, t, room)
  {
    hide ListsTable, Filter, RoomIds, RelationsOk, Lists, UniqueIds, Part, EventIds, Embeds;
    ListingListsRoom(n, t, room);
    SliceIds(n, t, room);
    SliceEmbeds(m, room);
    SliceEmbeds(n, room);
    SameRelations(m, n, t, Filter(m.events, EventIn(room)), RoomIds(t, room));
  }

  lemma RoomShows(w: World, room: Id)
    requires Inv(w) && RoomInv(w.mirror, w.pending, w.ledger, w.history)
    ensures var n := First(w.pending, room, |w.history|);
            SliceOf(w.mirror, room) == SliceOf(LedgerAt(w.history, w.ledger, n), room) && ListsRoom(w.mirror, TablesAt(w, n), room)
  {
    var n := First(w.pending, room, |w.history|);
    assert ShowsCommit(w.mirror, w.history, w.ledger, room, n);
    hide Inv, First, LedgerAt, Lists, RoomInv, ListsRoom, SliceOf, RelationsOk, TablesAt;
    LedgerListed(w, n);
    MirrorIsOk(w);
    SameSliceListsRoom(w.mirror, LedgerAt(w.history, w.ledger, n), TablesAt(w, n), room);
  }

  /**
   * If each room's updates are applied in the order of their commits, every room
   * of the mirror is that room as the tables had it before the first of its
   * commits still pending, and as they have it now if there is none.
   */
  lemma RoomIsAnEarlierCommit(actions: seq<Action>, room: Id)
    requires RoomOrderedRun(START, actions)
    ensures var w := Run(START, actions);
            var n := First(w.pending, room, |w.history|);
            n <= |w.history| && (n == |w.history| <==> NoneOf(w.pending, room)) && ListsRoom(w.mirror, TablesAt(w, n), room) &&
            SliceOf(w.mirror, room) == SliceOf(LedgerAt(w.history, w.ledger, n), room)
  {
    StartInv();
    RunKeepsInv(START, actions);
    NothingPendingShowsAll(EMPTY_MIRROR, []);
    hide Inv, RoomInv, First, SliceOf, ListsRoom, NoneOf;
    RunKeepsRooms(START, actions);
    var w := Run(START, actions);
    RoomShows(w, room);
    NumberedIs(w);
    FirstBound(w.pending, w.history, room);
    var i := FirstIs(w.pending, room, |w.history|);
  }

  /** And the whole mirror is the tables as they are exactly when nothing is pending. */
  lemma RoomOrderIsCurrentIffApplied(actions: seq<Action>)
    requires RoomOrderedRun(START, actions)
    ensures var w := Run(START, actions); Lists(w.mirror, w.tables) <==> w.pending == []
  {
    StartInv();
    RoomOrderedIsOrdered(START, actions);
    MirrorIsCurrentIffApplied(actions);
  }
}
