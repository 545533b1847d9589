/**
 * Runs in which updates reach the mirror in the order of their commits: the
 * mirror is then the database as of one earlier commit, in every table
 * (src/database/persistent_store.cpp). An update that overtakes another ends that.
 */
module CommitOrder {
  import opened Basics
  import opened EventMirror
  import opened Backend
  import opened WriteProtocol
  import opened WriteOrder

  /** The oldest pending update is applied first, and nothing is written past a pending one. */
  ghost predicate InCommitOrder(w: World, a: Action) {
    match a
    case Apply(i) => i < |w.pending| ==> i == 0
    case WriteEvent(e, online) => StoreEvent(w.mirror, w.tables, e, online).2 ==> w.pending == []
    case WriteState(entry, online) => Changes(w, entry, online) ==> w.pending == []
    case _ => true
  }

  ghost predicate CommitOrderedRun(w: World, actions: seq<Action>)
    decreases actions
  {
    actions == [] || (InCommitOrder(w, actions[0]) && CommitOrderedRun(Do(w, actions[0]), actions[1..]))
  }

  /** The pending updates are the last commits, one after another, and the mirror is the ledger before them. */
  ghost predicate CommitInv(m: Mirror, pending: seq<Waiting>, ledger: Mirror, history: seq<Past>) {
    |pending| <= |history| &&
    (forall k :: 0 <= k < |pending| ==> pending[k].number == |history| - |pending| + k) &&
    (forall k :: 0 <= k < |pending| ==> Continues(history, ledger, pending[k])) &&
    m == LedgerAt(history, ledger, |history| - |pending|)
  }

  lemma CommitKeepsCommitInv(m: Mirror, pending: seq<Waiting>, ledger: Mirror, history: seq<Past>, past: Past, p: Waiting)
    requires CommitInv(m, pending, ledger, history) && past.ledger == ledger && p.number == |history|
    requires !HasEvent(ledger.events, p.update.event.id)
    ensures CommitInv(m, pending + [p], UpdateApplied(ledger, p.update), history + [past])
  {
    hide HasEvent, UpdateApplied;
    var ledger', history', pending' := UpdateApplied(ledger, p.update), history + [past], pending + [p];
    LedgerAtLater(history, ledger, past, ledger', |history| - |pending|);
    LedgerAtLater(history, ledger, past, ledger', |history|);
    LedgerAtLater(history, ledger, past, ledger', |history| + 1);
    forall k | 0 <= k < |pending'|
      ensures Continues(history', ledger', pending'[k])
    {
      if k < |pending| {
        ContinuesLater(history, ledger, past, ledger', pending[k]);
      }
    }
  }

  lemma ApplyKeepsCommitInv(m: Mirror, pending: seq<Waiting>, ledger: Mirror, history: seq<Past>)
    requires CommitInv(m, pending, ledger, history) && pending != []
    ensures CommitInv(UpdateApplied(m, pending[0].update), Removed(pending, 0), ledger, history)
  {
    assert Continues(history, ledger, pending[0]);
    var rest := Removed(pending, 0);
    assert forall k :: 0 <= k < |rest| ==> rest[k] == pending[k + 1];
    hide HasEvent, UpdateApplied;
  }

  lemma DoKeepsCommitInv(w: World, a: Action)
    requires Inv(w) && CommitInv(w.mirror, w.pending, w.ledger, w.history) && InCommitOrder(w, a)
    ensures var w' := Do(w, a); CommitInv(w'.mirror, w'.pending, w'.ledger, w'.history)
  {
    hide Inv, Continues, Lists, UpdateApplied, UpdateStatements, ExecAll, EventStatements, StateStatements, HasEvent;
    hide StateIsPersisted, Refused, Prepared, Loaded, Newest, Current, Removed, EntryOf, MakeCurrent, AddEvent;
    match a
    case CommitUpdate(writer, online) =>
      if writer in w.prepared && Commit(w.tables, UpdateStatements(w.prepared[writer]), online).Some? {
        var u := w.prepared[writer];
        CommitFacts(w, writer, online);
        CommitKeepsCommitInv(w.mirror, w.pending, w.ledger, w.history, Past(w.ledger, w.tables, u.event.room, EntryOf(u)),
                             Waiting(u, |w.history|));
      }
    case Apply(i) =>
      if i < |w.pending| {
        ApplyKeepsCommitInv(w.mirror, w.pending, w.ledger, w.history);
      }
    case _ =>
  }

  lemma {:induction false} RunKeepsCommitInv(w: World, actions: seq<Action>)
    requires Inv(w) && CommitInv(w.mirror, w.pending, w.ledger, w.history) && CommitOrderedRun(w, actions)
    ensures var w' := Run(w, actions); CommitInv(w'.mirror, w'.pending, w'.ledger, w'.history)
    decreases actions
  {
    hide Inv, CommitInv, InCommitOrder, Do;
    if actions != [] {
      DoKeepsInv(w, actions[0]);
      DoKeepsCommitInv(w, actions[0]);
      RunKeepsCommitInv(Do(w, actions[0]), actions[1..]);
    }
  }

  /** In commit order the mirror always shows the whole database exactly as it was so many commits ago as are pending. */
  lemma MirrorIsAnEarlierCommit(actions: seq<Action>)
    requires CommitOrderedRun(START, actions)
    ensures var w := Run(START, actions);
            |w.pending| <= |w.history| && Lists(w.mirror, TablesAt(w, |w.history| - |w.pending|))
  {
    hide Inv, Lists, MirrorOk, Continues, Run;
    StartInv();
    RunKeepsInv(START, actions);
    RunKeepsCommitInv(START, actions);
    var w := Run(START, actions);
    LedgerListed(w, |w.history| - |w.pending|);
  }

  // ---- Overtaking -----------------------------------------------------------------------

  /** No commit takes an event away. */
  ghost predicate EventsGrow(w: World) {
    forall n :: 0 <= n < |w.history| ==> TablesAt(w, n).events.Keys <= TablesAt(w, n + 1).events.Keys
  }

  /** The update's event came with its commit. */
  ghost predicate CameWith(w: World, p: Waiting) {
    p.number < |w.history| && p.update.event.id !in TablesAt(w, p.number).events &&
    p.update.event.id in TablesAt(w, p.number + 1).events
  }

  ghost predicate GrowInv(w: World) {
    EventsGrow(w) && forall i :: 0 <= i < |w.pending| ==> CameWith(w, w.pending[i])
  }

  /** A commit at the end of the record. */
  lemma RecordGrows(w: World, w': World, past: Past)
    requires GrowInv(w) && w'.history == w.history + [past] && past.tables == w.tables
    requires w.tables.events.Keys <= w'.tables.events.Keys
    ensures EventsGrow(w') && forall i :: 0 <= i < |w.pending| ==> CameWith(w', w.pending[i])
  {
    assert forall n :: 0 <= n <= |w.history| ==> TablesAt(w', n) == TablesAt(w, n);
    forall n | 0 <= n < |w'.history|
      ensures TablesAt(w', n).events.Keys <= TablesAt(w', n + 1).events.Keys
    {
    }
    forall i | 0 <= i < |w.pending|
      ensures CameWith(w', w.pending[i])
    {
      assert CameWith(w, w.pending[i]);
    }
  }

  lemma CommitKeepsGrow(w: World, writer: Writer, online: bool)
    requires GrowInv(w) && writer in w.prepared && Commit(w.tables, UpdateStatements(w.prepared[writer]), online).Some?
    ensures GrowInv(DoCommit(w, writer, online))
  {
    hide ExecAll, UpdateStatements, UpdateApplied, EntryOf;
    var u, w' := w.prepared[writer], DoCommit(w, writer, online);
    UpdateAddsEvent(w.tables, u);
    RecordGrows(w, w', Past(w.ledger, w.tables, u.event.room, EntryOf(u)));
    hide EventsGrow;
  }

  lemma SameRecord(w: World, w': World)
    requires GrowInv(w) && w'.history == w.history && w'.tables == w.tables
    requires forall i :: 0 <= i < |w'.pending| ==> w'.pending[i] in w.pending
    ensures GrowInv(w')
  {
    assert forall n :: 0 <= n <= |w.history| ==> TablesAt(w', n) == TablesAt(w, n);
    forall i | 0 <= i < |w'.pending|
      ensures CameWith(w', w'.pending[i])
    {
      var j :| 0 <= j < |w.pending| && w.pending[j] == w'.pending[i];
      assert CameWith(w, w.pending[j]);
    }
  }

  lemma DoKeepsGrow(w: World, a: Action)
    requires Inv(w) && GrowInv(w)
    ensures GrowInv(Do(w, a))
  {
    hide Inv, GrowInv, Lists, UpdateApplied, UpdateStatements, ExecAll, EventStatements, StateStatements, HasEvent;
    hide StateIsPersisted, Refused, Prepared, Loaded, Newest, EntryOf, MakeCurrent, AddEvent;
    match a
    case CommitUpdate(writer, online) =>
      if writer in w.prepared && Commit(w.tables, UpdateStatements(w.prepared[writer]), online).Some? {
        CommitKeepsGrow(w, writer, online);
      } else {
        SameRecord(w, Do(w, a));
      }
    case WriteEvent(e, online) =>
      if StoreEvent(w.mirror, w.tables, e, online).2 {
        EventAdded(w, e, online);
        DirectWriteKeepsGrow(w, Do(w, a), Past(w.ledger, w.tables, e.room, None));
      }
    case WriteState(entry, online) =>
      if Changes(w, entry, online) {
        WriteStateExtendsLedger(w, entry, online);
        DirectWriteKeepsGrow(w, Do(w, a), Past(w.ledger, w.tables, entry.tuple.room, Some(entry)));
      }
    case _ => SameRecord(w, Do(w, a));
  }

  lemma EventAdded(w: World, e: Event, online: bool)
    requires Inv(w) && StoreEvent(w.mirror, w.tables, e, online).2
    ensures w.tables.events.Keys <= DoWriteEvent(w, e, online).tables.events.Keys
  {
    hide ExecAll, EventStatements, HasEvent, AddEvent;
    AddEventLists(w.ledger, w.tables, e);
  }

  lemma DirectWriteKeepsGrow(w: World, w': World, past: Past)
    requires GrowInv(w) && w'.history == w.history + [past] && past.tables == w.tables && w'.pending == w.pending
    requires w.tables.events.Keys <= w'.tables.events.Keys
    ensures GrowInv(w')
  {
    RecordGrows(w, w', past);
  }

  lemma {:induction false} RunKeepsGrow(w: World, actions: seq<Action>)
    requires Inv(w) && GrowInv(w)
    ensures GrowInv(Run(w, actions))
    decreases actions
  {
    hide Inv, GrowInv, Do;
    if actions != [] {
      DoKeepsInv(w, actions[0]);
      DoKeepsGrow(w, actions[0]);
      RunKeepsGrow(Do(w, actions[0]), actions[1..]);
    }
  }

  lemma {:induction false} GrowsAlong(w: World, a: nat, b: nat)
    requires EventsGrow(w) && a <= b <= |w.history|
    ensures TablesAt(w, a).events.Keys <= TablesAt(w, b).events.Keys
    decreases b
  {
    if a < b {
      GrowsAlong(w, a, b - 1);
    }
  }

  /** After an update has overtaken another, the newer event is shown and the older is not. */
  lemma OvertakenIsMissing(w: World, i: nat, j: nat)
    requires Inv(w) && GrowInv(w) && i < j < |w.pending|
    ensures w.pending[i].number < w.pending[j].number
    ensures var m := Do(w, Apply(j)).mirror;
            HasEvent(m.events, w.pending[j].update.event.id) && !HasEvent(m.events, w.pending[i].update.event.id)
  {
    hide Inv, GrowInv, HasEvent, UpdateApplied;
    var older, newer := w.pending[i].update.event, w.pending[j].update.event;
    PendingRecorded(w, i, j);
    NotShown(w, i);
    NotShown(w, j);
    DistinctPending(w, i, j);
    AppliedRows(w.mirror, w.pending[j]);
    HasEventAppend(w.mirror.events, newer, older.id);
    HasEventAppend(w.mirror.events, newer, newer.id);
  }

  lemma NoCommitHasOne(w: World, m: Mirror, older: Waiting, newer: Waiting, n: nat)
    requires EventsGrow(w) && CameWith(w, older) && CameWith(w, newer) && older.number < newer.number && n <= |w.history|
    requires HasEvent(m.events, newer.update.event.id) && !HasEvent(m.events, older.update.event.id)
    ensures !ListsTable(m.events, EventKey, Bare, TablesAt(w, n).events)
  {
    hide HasEvent, EventsGrow, ListsTable;
    if n <= newer.number {
      GrowsAlong(w, n, newer.number);
    } else {
      GrowsAlong(w, older.number + 1, n);
    }
    if ListsTable(m.events, EventKey, Bare, TablesAt(w, n).events) {
      ListedEvent(m, TablesAt(w, n), older.update.event.id);
      ListedEvent(m, TablesAt(w, n), newer.update.event.id);
    }
  }

  /** Once an update has overtaken an older one, in any run, the mirror shows the events of no commit there ever was. */
  lemma OvertakingShowsNoCommit(actions: seq<Action>, i: nat, j: nat, n: nat)
    requires i < j < |Run(START, actions).pending| && n <= |Run(START, actions).history|
    ensures var w := Run(START, actions);
            !ListsTable(Do(w, Apply(j)).mirror.events, EventKey, Bare, TablesAt(w, n).events)
  {
    hide Inv, Run, HasEvent, ListsTable, EventsGrow, CameWith, Do;
    StartInv();
    RunKeepsInv(START, actions);
    StartGrows();
    RunKeepsGrow(START, actions);
    var w := Run(START, actions);
    OvertakenIsMissing(w, i, j);
    NoCommitHasOne(w, Do(w, Apply(j)).mirror, w.pending[i], w.pending[j], n);
  }

  lemma StartGrows()
    ensures GrowInv(START)
  {
  }

  lemma DistinctPending(w: World, i: nat, j: nat)
    requires GrowInv(w) && i < j < |w.pending| && w.pending[i].number < w.pending[j].number
    ensures w.pending[i].update.event.id != w.pending[j].update.event.id
  {
    assert CameWith(w, w.pending[i]) && CameWith(w, w.pending[j]);
    GrowsAlong(w, w.pending[i].number + 1, w.pending[j].number);
  }
}
