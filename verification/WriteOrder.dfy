/**
 * The order in which committed updates reach the mirror, and what it decides.
 * Ingestion of events from other servers holds a lock of the room from prepare
 * to apply (include/merovingian/homeserver/runtime.hpp,
 * src/homeserver/local_http_router.cpp); other writers hold only the lock of
 * the mirror, which ingestion gives up while it commits.
 */
module WriteOrder {
  import opened Basics
  import opened EventMirror
  import opened Backend
  import opened WriteProtocol

  // ---- The record of commits ---------------------------------------------------------

  /** The ledger, and the tables, as they were before the commit of a number, or as they are now. */
  function LedgerAt(history: seq<Past>, ledger: Mirror, n: nat): Mirror {
    if n < |history| then history[n].ledger else ledger
  }

  function TablesAt(w: World, n: nat): Tables {
    if n < |w.history| then w.history[n].tables else w.tables
  }

  lemma LedgerListed(w: World, n: nat)
    requires Inv(w)
    ensures Lists(LedgerAt(w.history, w.ledger, n), TablesAt(w, n)) && MirrorOk(LedgerAt(w.history, w.ledger, n))
  {
    hide Lists, MirrorOk;
  }

  lemma LedgerAtLater(history: seq<Past>, ledger: Mirror, past: Past, ledger': Mirror, n: nat)
    requires past.ledger == ledger && n <= |history| + 1
    ensures LedgerAt(history + [past], ledger', n) == if n <= |history| then LedgerAt(history, ledger, n) else ledger'
  {
  }

  /** The ledger after the commit is the ledger before it with the update applied. */
  ghost predicate Continues(history: seq<Past>, ledger: Mirror, p: Waiting) {
    var before := LedgerAt(history, ledger, p.number);
    !HasEvent(before.events, p.update.event.id) &&
    LedgerAt(history, ledger, p.number + 1) == UpdateApplied(before, p.update)
  }

  lemma ContinuesLater(history: seq<Past>, ledger: Mirror, past: Past, ledger': Mirror, p: Waiting)
    requires Continues(history, ledger, p) && past.ledger == ledger && p.number < |history|
    ensures Continues(history + [past], ledger', p)
  {
    LedgerAtLater(history, ledger, past, ledger', p.number);
    LedgerAtLater(history, ledger, past, ledger', p.number + 1);
  }

  lemma CommitFacts(w: World, writer: Writer, online: bool)
    requires Inv(w) && writer in w.prepared && Commit(w.tables, UpdateStatements(w.prepared[writer]), online).Some?
    ensures !HasEvent(w.ledger.events, w.prepared[writer].event.id) && OwnRoom(w.prepared[writer])
  {
    hide ExecAll, UpdateStatements, Lists, MirrorOk, HasEvent;
    UpdateAddsEvent(w.tables, w.prepared[writer]);
    NotInLedger(w.ledger, w.tables, w.prepared[writer].event.id);
  }

  lemma NotShown(w: World, i: nat)
    requires Inv(w) && i < |w.pending|
    ensures !HasEvent(w.mirror.events, w.pending[i].update.event.id)
  {
    hide HasEvent;
    NotShownYet(w.mirror.events, w.pending, w.ledger.events, i);
  }

  // ---- The exact line, for every run -----------------------------------------------

  lemma ListsByCurrent(state: seq<StateEntry>, table: map<Tuple, StateEntry>)
    requires UniqueTuples(state) && (forall tuple :: tuple in table ==> table[tuple].tuple == tuple)
    requires forall tuple :: Current(state, tuple) == if tuple in table then Some(table[tuple].event) else None
    ensures ListsTable(state, StateKey, Same, table)
  {
    forall i | 0 <= i < |state|
      ensures StateKey(state[i]) in table && table[StateKey(state[i])] == Same(state[i])
    {
      SetAt(state, state[i].tuple, "", i);
    }
    forall tuple | tuple in table
      ensures exists i :: 0 <= i < |state| && StateKey(state[i]) == tuple
    {
      var i := SetCurrentPosition(state, tuple);
      if i == |state| {
        SetAtEnd(state, tuple, "");
      }
    }
  }

  lemma KeyedByTuple(state: seq<StateEntry>, table: map<Tuple, StateEntry>)
    requires ListsTable(state, StateKey, Same, table)
    ensures forall tuple :: tuple in table ==> table[tuple].tuple == tuple
  {
    forall tuple | tuple in table
      ensures table[tuple].tuple == tuple
    {
      var i :| 0 <= i < |state| && StateKey(state[i]) == tuple;
    }
  }

  /** For every tuple, the commit applied last is its newest. */
  ghost predicate NewestAppliedLast(w: World) {
    forall tuple :: LastApplied(w.applied, tuple) == Newest(w.history, tuple)
  }

  lemma StateIsCurrentIff(w: World)
    requires Inv(w)
    ensures ListsTable(w.mirror.state, StateKey, Same, w.tables.state) <==> NewestAppliedLast(w)
  {
    var state, table := w.mirror.state, w.tables.state;
    if ListsTable(state, StateKey, Same, table) {
      forall tuple
        ensures LastApplied(w.applied, tuple) == Newest(w.history, tuple)
      {
        CurrentOfListing(state, table, tuple);
        CurrentIsStoredIff(w, tuple);
      }
    }
    if NewestAppliedLast(w) {
      forall tuple
        ensures Current(state, tuple) == if tuple in table then Some(table[tuple].event) else None
      {
        CurrentIsStoredIff(w, tuple);
      }
      KeyedByTuple(w.ledger.state, table);
      hide ListsTable, Newest, Current;
      ListsByCurrent(state, table);
    }
  }

  lemma ListsIff(w: World)
    requires Inv(w)
    ensures Lists(w.mirror, w.tables) <==> w.pending == [] && NewestAppliedLast(w)
  {
    StateIsCurrentIff(w);
    hide ListsTable, NewestAppliedLast;
    if w.pending == [] {
      AppliedListsRows(w.mirror, w.ledger, w.tables);
    } else {
      PendingIsMissing(w.mirror.events, w.pending, w.ledger.events, w.tables.events);
    }
  }

  /**
   * Over every run, whatever the order, the mirror shows the database as it is
   * exactly when nothing is pending and each tuple's newest commit was the last
   * one applied for it.
   */
  lemma MirrorIsCurrentIff(actions: seq<Action>)
    ensures var w := Run(START, actions); Lists(w.mirror, w.tables) <==> w.pending == [] && NewestAppliedLast(w)
  {
    StartInv();
    RunKeepsInv(START, actions);
    ListsIff(Run(START, actions));
  }

  // ---- The wrong order --------------------------------------------------------------

  predicate SameTuple(u: Update, v: Update) {
    u.state.Some? && u.state == v.state
  }

  lemma RunOfTwo(w: World, a: Action, b: Action)
    ensures Run(w, [a, b]) == Do(Do(w, a), b)
  {
    hide Do;
    assert [a, b][1..] == [b] && [b][1..] == [];
    assert Run(Do(w, a), [b]) == Do(Do(w, a), b);
  }

  lemma PendingRecorded(w: World, i: nat, j: nat)
    requires Inv(w) && i < j < |w.pending|
    ensures InHistory(w.history, w.pending[i]) && InHistory(w.history, w.pending[j])
    ensures w.pending[i].number < w.pending[j].number
  {
  }

  /** What the mirror shows for a tuple is what the commit applied last made current. */
  lemma AppliedIsShown(w: World, tuple: Tuple)
    requires Inv(w) && tuple in w.applied
    ensures w.applied[tuple] < |w.history| && Current(w.mirror.state, tuple).Some?
    ensures w.history[w.applied[tuple]].entry == Some(StateEntry(tuple, Current(w.mirror.state, tuple).value))
  {
    assert ComesFrom(w.mirror.state, tuple, w.history, AppliedCommit(w.applied)(tuple));
  }

  lemma AppliedNow(w: World, i: nat)
    requires Inv(w) && i < |w.pending| && w.pending[i].update.state.Some?
    ensures var p, w' := w.pending[i], Do(w, Apply(i));
            Inv(w') && w'.tables == w.tables && w'.history == w.history && w'.pending == Removed(w.pending, i) &&
            w'.applied == w.applied[p.update.state.value := p.number]
  {
    hide Inv, UpdateApplied, Removed;
    DoKeepsInv(w, Apply(i));
  }

  /** Whenever two updates of one tuple are pending, applying the newer one first leaves the mirror on the older one. */
  lemma WrongOrderDiverges(w: World, i: nat, j: nat)
    requires Inv(w) && i < j < |w.pending| && SameTuple(w.pending[i].update, w.pending[j].update)
    ensures var w' := Run(w, [Apply(j), Apply(i)]);
            var tuple := w.pending[i].update.state.value;
            w'.tables == w.tables && w'.pending == Removed(Removed(w.pending, j), i) &&
            Current(w'.mirror.state, tuple) == Some(w.pending[i].update.event.id) &&
            Current(w'.mirror.state, tuple) != StoredCurrent(w'.tables, tuple)
  {
    hide Inv, Do, Run, Newest, Current, StoredCurrent;
    var p, q, tuple := w.pending[i], w.pending[j], w.pending[i].update.state.value;
    var w1 := Do(w, Apply(j));
    var w2 := Do(w1, Apply(i));
    RunOfTwo(w, Apply(j), Apply(i));
    PendingRecorded(w, i, j);
    AppliedNow(w, j);
    assert w1.pending[i] == p;
    AppliedNow(w1, i);
    NewestBounds(w.history, tuple, q.number);
    CurrentIsStoredIff(w2, tuple);
    AppliedIsShown(w2, tuple);
  }

  // ---- A run into the wrong order ----------------------------------------------------

  lemma {:induction false} RunAppend(w: World, a: seq<Action>, b: seq<Action>)
    ensures Run(w, a + b) == Run(Run(w, a), b)
    decreases a
  {
    hide Do;
    if a == [] {
      assert a + b == b;
    } else {
      assert (a + b)[0] == a[0] && (a + b)[1..] == a[1..] + b;
      RunAppend(Do(w, a[0]), a[1..], b);
    }
  }

  /** A state event of the tuple that refers to no other event. */
  function PlainEvent(id: Id, tuple: Tuple): Event {
    Event(id, tuple.room, "", Json("", Some(tuple.kind), Some(tuple.key)), 0, 0, [], [], [])
  }

  function PlainUpdate(id: Id, tuple: Tuple, existed: bool): Update {
    Update(PlainEvent(id, tuple), Some(tuple), existed, "")
  }

  function WithPlain(t: Tables, id: Id, tuple: Tuple): Tables {
    t.(events := t.events[id := PlainEvent(id, tuple)], state := t.state[tuple := StateEntry(tuple, id)],
       transitions := t.transitions[(tuple, id) := Transition(tuple, id, "")])
  }

  lemma PlainCommits(t: Tables, id: Id, tuple: Tuple, existed: bool)
    requires id !in t.events && (tuple, id) !in t.transitions && (existed <==> tuple in t.state)
    ensures ExecAll(t, UpdateStatements(PlainUpdate(id, tuple, existed))) == Some(WithPlain(t, id, tuple))
  {
    var u, e, entry := PlainUpdate(id, tuple, existed), PlainEvent(id, tuple), StateEntry(tuple, id);
    EventStatementsRun(t, e);
    assert RowStatements(EdgeInsert, RowsOf(id, [])) == [] && RowStatements(AuthInsert, RowsOf(id, [])) == [];
    assert RowStatements(SignatureInsert, RowsOf(id, [])) == [];
    var t1 := t.(events := t.events[id := e]);
    assert ExecAll(t, EventStatements(e)) == Some(t1);
    ExecAllAppend(t, EventStatements(e), StateStatements(entry, existed, ""));
    StateWriteRuns(t1, entry, existed, "");
    hide ExecAll;
    StateStatementsRun(t1, entry, existed, "");
  }

  function StoreActions(writer: Writer, id: Id, tuple: Tuple): seq<Action> {
    [Prepare(writer, PlainEvent(id, tuple), Some(StateEntry(tuple, id)), ""), CommitUpdate(writer, true)]
  }

  lemma PlainIsPending(w: World, writer: Writer, id: Id, tuple: Tuple)
    requires !HasEvent(w.mirror.events, id) && id !in w.tables.events && (tuple, id) !in w.tables.transitions
    requires Current(w.mirror.state, tuple).Some? <==> tuple in w.tables.state
    ensures var w' := Run(w, StoreActions(writer, id, tuple));
            w'.mirror == w.mirror && w'.tables == WithPlain(w.tables, id, tuple) &&
            w'.pending == w.pending + [Waiting(PlainUpdate(id, tuple, tuple in w.tables.state), |w.history|)]
  {
    var actions := StoreActions(writer, id, tuple);
    RunOfTwo(w, actions[0], actions[1]);
    PlainCommits(w.tables, id, tuple, tuple in w.tables.state);
    hide Current, HasEvent, ExecAll, UpdateStatements, UpdateApplied;
  }

  lemma PlainIsApplied(w: World, id: Id, tuple: Tuple, existed: bool, number: nat)
    requires w.mirror == EMPTY_MIRROR && w.pending == [Waiting(PlainUpdate(id, tuple, existed), number)]
    ensures var w' := Do(w, Apply(0));
            w'.pending == [] && w'.tables == w.tables && w'.mirror.events == [PlainEvent(id, tuple)] &&
            w'.mirror.state == [StateEntry(tuple, id)]
  {
    assert Removed(w.pending, 0) == [];
    assert !HasEvent([], id);
    AppliedRows(EMPTY_MIRROR, w.pending[0]);
    assert [] + [PlainEvent(id, tuple)] == [PlainEvent(id, tuple)];
  }

  /** Three updates of one tuple, two of them pending at once: committed in one order, applied in the other. */
  function WrongOrder(tuple: Tuple, a: Id, b: Id, c: Id): seq<Action> {
    StoreActions(0, a, tuple) + [Apply(0)] + StoreActions(1, b, tuple) + StoreActions(2, c, tuple) + [Apply(1), Apply(0)]
  }

  lemma RunOfWrongOrder(tuple: Tuple, a: Id, b: Id, c: Id)
    ensures var w1 := Do(Run(START, StoreActions(0, a, tuple)), Apply(0));
            var w2 := Run(Run(w1, StoreActions(1, b, tuple)), StoreActions(2, c, tuple));
            Run(START, WrongOrder(tuple, a, b, c)) == Run(w2, [Apply(1), Apply(0)])
  {
    var first, second, third := StoreActions(0, a, tuple), StoreActions(1, b, tuple), StoreActions(2, c, tuple);
    RunAppend(START, first + [Apply(0)] + second + third, [Apply(1), Apply(0)]);
    RunAppend(START, first + [Apply(0)] + second, third);
    RunAppend(START, first + [Apply(0)], second);
    RunAppend(START, first, [Apply(0)]);
    hide Do, StoreActions;
    assert [Apply(0)][1..] == [];
    assert Run(Run(START, first), [Apply(0)]) == Do(Run(START, first), Apply(0));
  }

  /**
   * So with nothing pending any more the mirror can show another current event
   * than the database: here, for any tuple, the last but one.
   */
  lemma WrongOrderIsReached(tuple: Tuple, a: Id, b: Id, c: Id)
    requires a != b && b != c && a != c
    ensures var w := Run(START, WrongOrder(tuple, a, b, c));
            w.pending == [] && Current(w.mirror.state, tuple) == Some(b) && StoredCurrent(w.tables, tuple) == Some(c)
  {
    hide Do, Run, StoreActions, Inv;
    var w0 := Run(START, StoreActions(0, a, tuple));
    var w1 := Do(w0, Apply(0));
    var w2 := Run(w1, StoreActions(1, b, tuple));
    var w3 := Run(w2, StoreActions(2, c, tuple));
    RunOfWrongOrder(tuple, a, b, c);
    PlainIsPending(START, 0, a, tuple);
    assert START.pending + [Waiting(PlainUpdate(a, tuple, false), 0)] == [Waiting(PlainUpdate(a, tuple, false), 0)];
    PlainIsApplied(w0, a, tuple, false, 0);
    assert !HasEvent(w1.mirror.events, b) && !HasEvent(w1.mirror.events, c);
    PlainIsPending(w1, 1, b, tuple);
    PlainIsPending(w2, 2, c, tuple);
    StartInv();
    RunKeepsInv(START, StoreActions(0, a, tuple));
    DoKeepsInv(w0, Apply(0));
    RunKeepsInv(w1, StoreActions(1, b, tuple));
    RunKeepsInv(w2, StoreActions(2, c, tuple));
    WrongOrderDiverges(w3, 0, 1);
  }

  // ---- Order by tuple ---------------------------------------------------------------

  /** A state write that changes something. */
  predicate Changes(w: World, entry: StateEntry, online: bool) {
    StoreState(w.mirror, w.tables, entry, online).2 && Current(w.mirror.state, entry.tuple) != Some(entry.event)
  }

  /** The action leaves no older commit for its tuple to be applied later. */
  ghost predicate InTupleOrder(w: World, a: Action) {
    match a
    case Apply(i) =>
      i < |w.pending| ==> forall j :: 0 <= j < i ==> !SameTuple(w.pending[j].update, w.pending[i].update)
    case WriteState(entry, online) =>
      Changes(w, entry, online) ==> forall j :: 0 <= j < |w.pending| ==> w.pending[j].update.state != Some(entry.tuple)
    case _ => true
  }

  ghost predicate OrderedRun(w: World, actions: seq<Action>)
    decreases actions
  {
    actions == [] || (InTupleOrder(w, actions[0]) && OrderedRun(Do(w, actions[0]), actions[1..]))
  }

  /** Of each tuple's commits, those up to the one applied last were applied and the later ones are pending. */
  ghost predicate TupleOrder(pending: seq<Waiting>, history: seq<Past>, applied: map<Tuple, nat>) {
    (forall i :: 0 <= i < |pending| && pending[i].update.state.Some? && pending[i].update.state.value in applied ==>
       applied[pending[i].update.state.value] < pending[i].number) &&
    forall n :: 0 <= n < |history| && history[n].entry.Some? ==>
      IsWaiting(pending, n) ||
      (history[n].entry.value.tuple in applied && n <= applied[history[n].entry.value.tuple])
  }

  lemma CommitKeepsOrder(pending: seq<Waiting>, history: seq<Past>, applied: map<Tuple, nat>, past: Past, p: Waiting)
    requires TupleOrder(pending, history, applied) && p.number == |history|
    requires forall tuple :: tuple in applied ==> applied[tuple] < |history|
    ensures TupleOrder(pending + [p], history + [past], applied)
  {
    var history' := history + [past];
    forall n | 0 <= n < |history'| && history'[n].entry.Some?
      ensures IsWaiting(pending + [p], n) ||
              (history'[n].entry.value.tuple in applied && n <= applied[history'[n].entry.value.tuple])
    {
      WaitingAppend(pending, p, n);
    }
  }

  lemma ApplyKeepsOrder(pending: seq<Waiting>, history: seq<Past>, applied: map<Tuple, nat>, i: nat)
    requires TupleOrder(pending, history, applied) && PendingOk(pending, history, applied) && i < |pending|
    requires forall j :: 0 <= j < i ==> !SameTuple(pending[j].update, pending[i].update)
    ensures var u := pending[i].update;
            TupleOrder(Removed(pending, i), history,
                       if u.state.None? then applied else applied[u.state.value := pending[i].number])
  {
    assert InHistory(history, pending[i]);
    var rest := Removed(pending, i);
    forall k | 0 <= k < |rest|
      ensures rest[k] == if k < i then pending[k] else pending[k + 1]
    {
    }
    forall n | 0 <= n < |history| && history[n].entry.Some?
      ensures IsWaiting(rest, n) || n == pending[i].number ||
              (history[n].entry.value.tuple in applied && n <= applied[history[n].entry.value.tuple])
    {
      WaitingRemoved(pending, i, n);
    }
    hide IsWaiting, Removed;
  }

  lemma WriteKeepsOrder(pending: seq<Waiting>, history: seq<Past>, applied: map<Tuple, nat>, past: Past)
    requires TupleOrder(pending, history, applied)
    requires forall tuple :: tuple in applied ==> applied[tuple] < |history|
    requires past.entry.Some? ==> forall j :: 0 <= j < |pending| ==> pending[j].update.state != Some(past.entry.value.tuple)
    ensures TupleOrder(pending, history + [past],
                       if past.entry.None? then applied else applied[past.entry.value.tuple := |history|])
  {
  }

  lemma AllAppliedBefore(w: World)
    requires Inv(w)
    ensures forall tuple :: tuple in w.applied ==> w.applied[tuple] < |w.history|
  {
    forall tuple | tuple in w.applied
      ensures w.applied[tuple] < |w.history|
    {
      AppliedIsShown(w, tuple);
    }
  }

  lemma RestartKeepsOrder(w: World, raw: Mirror)
    requires Inv(w) && Lists(raw, w.tables)
    ensures TupleOrder([], w.history, DoRestart(w, raw).applied)
  {
    hide Inv, DoRestart, Lists, Newest;
    RestartAppliesNewest(w, raw);
    var applied := DoRestart(w, raw).applied;
    forall n | 0 <= n < |w.history| && w.history[n].entry.Some?
      ensures w.history[n].entry.value.tuple in applied && n <= applied[w.history[n].entry.value.tuple]
    {
      NewestBounds(w.history, w.history[n].entry.value.tuple, n);
      assert LastApplied(applied, w.history[n].entry.value.tuple).Some?;
    }
  }

  lemma PendingIsOk(w: World)
    requires Inv(w)
    ensures PendingOk(w.pending, w.history, w.applied)
  {
  }

  lemma DoKeepsOrder(w: World, a: Action)
    requires Inv(w) && TupleOrder(w.pending, w.history, w.applied) && InTupleOrder(w, a)
    ensures var w' := Do(w, a); TupleOrder(w'.pending, w'.history, w'.applied)
  {
    hide Inv, TupleOrder, PendingOk, Lists, UpdateApplied, UpdateStatements, ExecAll, EventStatements, StoreEvent, StoreState;
    hide Refused, Prepared, Loaded, Newest, Current, SetCurrent, Removed, EntryOf, MakeCurrent, AddEvent;
    AllAppliedBefore(w);
    PendingIsOk(w);
    match a
    case CommitUpdate(writer, online) =>
      if writer in w.prepared {
        var u := w.prepared[writer];
        CommitKeepsOrder(w.pending, w.history, w.applied, Past(w.ledger, w.tables, u.event.room, EntryOf(u)),
                         Waiting(u, |w.history|));
      }
    case Apply(i) =>
      if i < |w.pending| {
        ApplyKeepsOrder(w.pending, w.history, w.applied, i);
      }
    case WriteEvent(e, online) =>
      WriteKeepsOrder(w.pending, w.history, w.applied, Past(w.ledger, w.tables, e.room, None));
    case WriteState(entry, online) =>
      if Changes(w, entry, online) {
        WriteKeepsOrder(w.pending, w.history, w.applied, Past(w.ledger, w.tables, entry.tuple.room, Some(entry)));
      }
    case Restart(raw) =>
      if Lists(raw, w.tables) {
        RestartKeepsOrder(w, raw);
      }
    case _ =>
  }

  lemma {:induction false} RunKeepsOrder(w: World, actions: seq<Action>)
    requires Inv(w) && TupleOrder(w.pending, w.history, w.applied) && OrderedRun(w, actions)
    ensures var w' := Run(w, actions); TupleOrder(w'.pending, w'.history, w'.applied)
    decreases actions
  {
    hide Inv, TupleOrder, InTupleOrder, Do;
    if actions != [] {
      DoKeepsInv(w, actions[0]);
      DoKeepsOrder(w, actions[0]);
      RunKeepsOrder(Do(w, actions[0]), actions[1..]);
    }
  }

  lemma NewestWasApplied(history: seq<Past>, applied: map<Tuple, nat>, tuple: Tuple)
    requires TupleOrder([], history, applied) && Newest(history, tuple).Some?
    ensures tuple in applied && Newest(history, tuple).value <= applied[tuple]
  {
    var n := Newest(history, tuple).value;
    hide Newest;
    assert history[n].entry.Some? && history[n].entry.value.tuple == tuple;
  }

  lemma NothingPendingIsNewest(w: World)
    requires Inv(w) && TupleOrder(w.pending, w.history, w.applied) && w.pending == []
    ensures NewestAppliedLast(w)
  {
    hide Inv, Newest, TupleOrder, Current;
    forall tuple
      ensures LastApplied(w.applied, tuple) == Newest(w.history, tuple)
    {
      if tuple in w.applied {
        AppliedIsShown(w, tuple);
        NewestBounds(w.history, tuple, w.applied[tuple]);
      }
      if Newest(w.history, tuple).Some? {
        NewestWasApplied(w.history, w.applied, tuple);
      }
    }
  }

  /** If each tuple's commits are applied in order, the mirror shows the database exactly when nothing is pending. */
  lemma MirrorIsCurrentIffApplied(actions: seq<Action>)
    requires OrderedRun(START, actions)
    ensures var w := Run(START, actions); Lists(w.mirror, w.tables) <==> w.pending == []
  {
    StartInv();
    RunKeepsInv(START, actions);
    RunKeepsOrder(START, actions);
    var w := Run(START, actions);
    hide Run, Inv, Lists, NewestAppliedLast;
    ListsIff(w);
    if w.pending == [] {
      NothingPendingIsNewest(w);
    }
  }

  // ---- Catching up --------------------------------------------------------------------

  /** The oldest pending update applied, so many times. */
  function Applies(n: nat): seq<Action> {
    if n == 0 then [] else [Apply(0)] + Applies(n - 1)
  }

  lemma ApplyOldest(w: World)
    requires Inv(w) && TupleOrder(w.pending, w.history, w.applied) && w.pending != []
    ensures var w' := Do(w, Apply(0));
            Inv(w') && TupleOrder(w'.pending, w'.history, w'.applied) && w'.tables == w.tables && |w'.pending| == |w.pending| - 1
  {
    hide Inv, TupleOrder, UpdateApplied;
    DoKeepsInv(w, Apply(0));
    DoKeepsOrder(w, Apply(0));
  }

  lemma {:induction false} AppliesFinish(w: World, n: nat)
    requires Inv(w) && TupleOrder(w.pending, w.history, w.applied) && n == |w.pending|
    ensures var w' := Run(w, Applies(n));
            Inv(w') && TupleOrder(w'.pending, w'.history, w'.applied) && w'.tables == w.tables && w'.pending == []
    decreases n
  {
    hide Inv, TupleOrder, Do;
    if n > 0 {
      ApplyOldest(w);
      assert Applies(n)[0] == Apply(0) && Applies(n)[1..] == Applies(n - 1);
      AppliesFinish(Do(w, Apply(0)), n - 1);
    }
  }

  /** Applying what is pending, oldest first, always brings the mirror to the database as it is. */
  lemma ApplyingCatchesUp(actions: seq<Action>)
    requires OrderedRun(START, actions)
    ensures var w := Run(START, actions);
            var w' := Run(w, Applies(|w.pending|));
            w'.pending == [] && w'.tables == w.tables && Lists(w'.mirror, w.tables) && MirrorOk(w'.mirror)
  {
    hide Run, Inv, TupleOrder, Lists, MirrorOk, OrderedRun, NewestAppliedLast;
    StartInv();
    RunKeepsInv(START, actions);
    assert TupleOrder(START.pending, START.history, START.applied) by {
      NothingRecorded();
    }
    RunKeepsOrder(START, actions);
    var w := Run(START, actions);
    AppliesFinish(w, |w.pending|);
    var w' := Run(w, Applies(|w.pending|));
    NothingPendingIsNewest(w');
    ListsIff(w');
    MirrorIsOk(w');
  }

  lemma NothingRecorded()
    ensures TupleOrder([], [], map[])
  {
  }

  lemma MirrorIsOk(w: World)
    requires Inv(w)
    ensures MirrorOk(w.mirror)
  {
  }
}
