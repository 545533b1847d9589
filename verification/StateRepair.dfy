/**
 * The repair of state entries that older versions failed to register
 * (src/database/persistent_store.cpp).
 */
module StateRepair {
  import opened Basics
  import opened EventMirror
  import opened Backend
  import opened EventStore
  import WriteOrder
  import WriteProtocol

  /** The tuple a stored event is state for, if it has a state key and a non-empty type. */
  function Named(e: Event): Option<Tuple> {
    if e.json.stateKeyField.None? || e.json.typeField.None? || e.json.typeField.value == "" then None
    else Some(Tuple(e.room, e.json.typeField.value, e.json.stateKeyField.value))
  }

  /** Every tuple named by a stored event has a state entry. */
  ghost predicate Complete(events: seq<Event>, state: seq<StateEntry>) {
    forall e :: e in events && Named(e).Some? ==> Current(state, Named(e).value).Some?
  }

  /** A stored event for the tuple that no other stored event for it comes after. */
  ghost predicate IsLatest(events: seq<Event>, tuple: Tuple, e: Event) {
    e in events && Named(e) == Some(tuple) &&
    forall f :: f in events && Named(f) == Some(tuple) ==> f.ordering <= e.ordering
  }

  /** Whether the event names a tuple that has no state entry. */
  predicate IsMissing(state: seq<StateEntry>, e: Event) {
    Named(e).Some? && Current(state, Named(e).value).None?
  }

  type Candidate = (Tuple, Event)

  /** Exactly one candidate, a latest event, for each named tuple without a state entry. */
  ghost predicate AreCandidates(events: seq<Event>, state: seq<StateEntry>, candidates: seq<Candidate>) {
    (forall i, j :: 0 <= i < j < |candidates| ==> candidates[i].0 != candidates[j].0) &&
    (forall i :: 0 <= i < |candidates| ==>
       Current(state, candidates[i].0).None? && IsLatest(events, candidates[i].0, candidates[i].1)) &&
    (forall e :: e in events && IsMissing(state, e) ==> HasCandidate(candidates, Named(e).value))
  }

  ghost predicate HasCandidate(candidates: seq<Candidate>, tuple: Tuple) {
    exists i :: 0 <= i < |candidates| && candidates[i].0 == tuple
  }

  /** The position of the tuple's candidate, or the length. */
  function Position(candidates: seq<Candidate>, tuple: Tuple): (i: nat)
    ensures i <= |candidates| && (i < |candidates| ==> candidates[i].0 == tuple)
    ensures forall j :: 0 <= j < i ==> candidates[j].0 != tuple
  {
    if candidates == [] || candidates[0].0 == tuple then 0 else 1 + Position(candidates[1..], tuple)
  }

  method FindCandidate(candidates: seq<Candidate>, tuple: Tuple) returns (i: nat)
    ensures i == Position(candidates, tuple)
  {
    i := 0;
    while i < |candidates| && candidates[i].0 != tuple
      invariant i <= |candidates| && forall j :: 0 <= j < i ==> candidates[j].0 != tuple
    {
      i := i + 1;
    }
  }

  /** What looking at one more event does to the candidates. */
  function Considered(state: seq<StateEntry>, candidates: seq<Candidate>, e: Event): seq<Candidate> {
    if !IsMissing(state, e) then candidates
    else
      var i := Position(candidates, Named(e).value);
      if i == |candidates| then candidates + [(Named(e).value, e)]
      else if e.ordering > candidates[i].1.ordering then candidates[i := (Named(e).value, e)]
      else candidates
  }

  /** The candidates of a list of events, in the order their tuples first come up. */
  function CandidatesOf(events: seq<Event>, state: seq<StateEntry>): seq<Candidate> {
    if events == [] then []
    else Considered(state, CandidatesOf(events[..|events| - 1], state), events[|events| - 1])
  }

  lemma LatestWithOneMore(events: seq<Event>, e: Event, tuple: Tuple, f: Event)
    requires IsLatest(events, tuple, f)
    ensures Named(e) != Some(tuple) || e.ordering <= f.ordering ==> IsLatest(events + [e], tuple, f)
    ensures Named(e) == Some(tuple) && e.ordering > f.ordering ==> IsLatest(events + [e], tuple, e)
  {
  }

  lemma LatestWhenFirst(events: seq<Event>, e: Event, state: seq<StateEntry>, candidates: seq<Candidate>)
    requires AreCandidates(events, state, candidates) && IsMissing(state, e)
    requires !HasCandidate(candidates, Named(e).value)
    ensures IsLatest(events + [e], Named(e).value, e)
  {
  }

  lemma ConsideredKeeps(events: seq<Event>, state: seq<StateEntry>, candidates: seq<Candidate>, e: Event)
    requires AreCandidates(events, state, candidates)
    ensures AreCandidates(events + [e], state, Considered(state, candidates, e))
  {
    var after := Considered(state, candidates, e);
    forall j | 0 <= j < |after|
      ensures Current(state, after[j].0).None? && IsLatest(events + [e], after[j].0, after[j].1)
    {
      hide IsLatest;
      if j < |candidates| {
        LatestWithOneMore(events, e, candidates[j].0, candidates[j].1);
      } else {
        LatestWhenFirst(events, e, state, candidates);
      }
    }
    forall f | f in events + [e] && IsMissing(state, f)
      ensures HasCandidate(after, Named(f).value)
    {
      hide IsLatest, Current;
      if f in events {
        var k :| 0 <= k < |candidates| && candidates[k].0 == Named(f).value;
        assert after[k].0 == Named(f).value;
      } else {
        assert after[Position(candidates, Named(e).value)].0 == Named(f).value;
      }
    }
  }

  lemma {:induction false} CandidatesAre(events: seq<Event>, state: seq<StateEntry>)
    ensures AreCandidates(events, state, CandidatesOf(events, state))
  {
    if events != [] {
      var front, e := events[..|events| - 1], events[|events| - 1];
      CandidatesAre(front, state);
      ConsideredKeeps(front, state, CandidatesOf(front, state), e);
      assert events == front + [e];
    }
  }

  method CollectCandidates(events: seq<Event>, state: seq<StateEntry>) returns (candidates: seq<Candidate>)
    ensures candidates == CandidatesOf(events, state) && AreCandidates(events, state, candidates)
  {
    candidates := [];
    for k := 0 to |events|
      invariant candidates == CandidatesOf(events[..k], state)
    {
      var e := events[k];
      assert events[..k + 1][..k] == events[..k];
      if IsMissing(state, e) {
        var i := FindCandidate(candidates, Named(e).value);
        if i == |candidates| {
          candidates := candidates + [(Named(e).value, e)];
        } else if e.ordering > candidates[i].1.ordering {
          candidates := candidates[i := (Named(e).value, e)];
        }
      }
    }
    assert events[..|events|] == events;
    CandidatesAre(events, state);
  }

  // ---- The entries a repair adds ---------------------------------------------------

  /** Each added entry is for a missing tuple, points to a latest event for it, and comes once. */
  ghost predicate AreRepairs(events: seq<Event>, state: seq<StateEntry>, added: seq<StateEntry>) {
    (forall i, j :: 0 <= i < j < |added| ==> added[i].tuple != added[j].tuple) &&
    forall i :: 0 <= i < |added| ==> Current(state, added[i].tuple).None? && RepairsWithLatest(events, added[i])
  }

  ghost predicate RepairsWithLatest(events: seq<Event>, entry: StateEntry) {
    exists e :: IsLatest(events, entry.tuple, e) && e.id == entry.event
  }

  /** Whether the database takes a candidate: it is reached, and neither key is in use. */
  predicate Takes(t: Tables, c: Candidate, online: bool) {
    online && c.0 !in t.state && (c.0, c.1.id) !in t.transitions
  }

  /** The entries of those among the first `k` candidates that the database takes. */
  function TakenEntries(t: Tables, candidates: seq<Candidate>, online: nat -> bool, k: nat): (added: seq<StateEntry>)
    requires k <= |candidates|
    ensures |added| <= k
  {
    if k == 0 then []
    else
      var c := candidates[k - 1];
      TakenEntries(t, candidates, online, k - 1) + if Takes(t, c, online(k - 1)) then [StateEntry(c.0, c.1.id)] else []
  }

  /** Each of the first `k` candidates stored in turn: the mirror, the tables and the number stored. */
  function StoredInTurn(m: Mirror, t: Tables, candidates: seq<Candidate>, online: nat -> bool, k: nat): (Mirror, Tables, nat)
    requires k <= |candidates|
  {
    if k == 0 then (m, t, 0)
    else
      var (m1, t1, n) := StoredInTurn(m, t, candidates, online, k - 1);
      var c := candidates[k - 1];
      var (m2, t2, ok) := WriteProtocol.StoreState(m1, t1, StateEntry(c.0, c.1.id), online(k - 1));
      (m2, t2, if ok then n + 1 else n)
  }

  /** `repair_missing_state_entries`. */
  function Repaired(m: Mirror, t: Tables, online: nat -> bool): (Mirror, Tables, nat) {
    var candidates := CandidatesOf(m.events, m.state);
    StoredInTurn(m, t, candidates, online, |candidates|)
  }

  lemma {:induction false} CurrentOfAppend(state: seq<StateEntry>, added: seq<StateEntry>, tuple: Tuple)
    ensures Current(state + added, tuple) == if Current(state, tuple).Some? then Current(state, tuple) else Current(added, tuple)
  {
    if state == [] {
      assert state + added == added;
    } else {
      assert (state + added)[0] == state[0] && (state + added)[1..] == state[1..] + added;
      CurrentOfAppend(state[1..], added, tuple);
    }
  }

  lemma {:induction false} CurrentIffEntry(state: seq<StateEntry>, tuple: Tuple)
    ensures Current(state, tuple).Some? <==> exists i :: 0 <= i < |state| && state[i].tuple == tuple
  {
    if state != [] && state[0].tuple != tuple {
      CurrentIffEntry(state[1..], tuple);
      forall i | 0 <= i < |state| && state[i].tuple == tuple
        ensures Current(state, tuple).Some?
      {
        assert state[1..][i - 1].tuple == tuple;
      }
    }
  }

  /** Setting a tuple that has no entry adds one at the end. */
  lemma {:induction false} SetMissing(state: seq<StateEntry>, tuple: Tuple, event: Id)
    requires Current(state, tuple).None?
    ensures SetCurrent(state, tuple, event) == state + [StateEntry(tuple, event)]
  {
    if state != [] {
      SetMissing(state[1..], tuple, event);
    }
  }

  lemma InsertStateRuns(t: Tables, entry: StateEntry)
    ensures ExecAll(t, StateStatements(entry, false, "")) ==
            if entry.tuple in t.state || (entry.tuple, entry.event) in t.transitions then None
            else Some(t.(state := t.state[entry.tuple := entry],
                         transitions := t.transitions[(entry.tuple, entry.event) := Transition(entry.tuple, entry.event, "")]))
  {
    var statements := StateStatements(entry, false, "");
    var row := Transition(entry.tuple, entry.event, "");
    assert statements[1..] == [InsertTransition(row)];
    var t1 := Exec(t, statements[0]);
    if t1.Some? {
      assert [InsertTransition(row)][1..] == [];
      assert ExecAll(t1.value, [InsertTransition(row)]) == Exec(t1.value, InsertTransition(row));
    }
  }

  /** Storing a candidate adds its entry and its keys exactly if the database takes it, and else changes nothing. */
  lemma StoreCandidate(m: Mirror, t: Tables, c: Candidate, online: bool)
    requires c.1 in m.events && Named(c.1) == Some(c.0) && Current(m.state, c.0).None?
    ensures var entry := StateEntry(c.0, c.1.id);
            var (m', t', ok) := WriteProtocol.StoreState(m, t, entry, online);
            ok == Takes(t, c, online) && m'.events == m.events &&
            m'.state == (if ok then m.state + [entry] else m.state) && (!ok ==> m' == m && t' == t) &&
            t'.state.Keys == (if ok then t.state.Keys + {c.0} else t.state.Keys) &&
            t'.transitions.Keys == (if ok then t.transitions.Keys + {(c.0, c.1.id)} else t.transitions.Keys)
  {
    var entry := StateEntry(c.0, c.1.id);
    var i :| 0 <= i < |m.events| && m.events[i] == c.1;
    assert StateIsPersisted(m, entry);
    SetMissing(m.state, c.0, c.1.id);
    InsertStateRuns(t, entry);
    hide ExecAll, StateStatements, Current, SetCurrent;
  }

  /** What is left to store is still as it was before the repair began. */
  ghost predicate Untouched(t: Tables, t': Tables, candidates: seq<Candidate>, k: nat) {
    forall j :: k <= j < |candidates| ==>
      (candidates[j].0 in t'.state <==> candidates[j].0 in t.state) &&
      ((candidates[j].0, candidates[j].1.id) in t'.transitions <==> (candidates[j].0, candidates[j].1.id) in t.transitions)
  }

  /** Entries taken so far belong to earlier candidates. */
  lemma {:induction false} TakenTuples(t: Tables, candidates: seq<Candidate>, online: nat -> bool, k: nat, tuple: Tuple)
    requires k <= |candidates|
    ensures Current(TakenEntries(t, candidates, online, k), tuple).Some? <==>
            exists j :: 0 <= j < k && candidates[j].0 == tuple && Takes(t, candidates[j], online(j))
  {
    if k > 0 {
      TakenTuples(t, candidates, online, k - 1, tuple);
      var c := candidates[k - 1];
      var front := TakenEntries(t, candidates, online, k - 1);
      var last: seq<StateEntry> := if Takes(t, c, online(k - 1)) then [StateEntry(c.0, c.1.id)] else [];
      CurrentOfAppend(front, last, tuple);
    }
  }

  lemma NextIsMissing(
    events: seq<Event>, state: seq<StateEntry>, candidates: seq<Candidate>, t: Tables, online: nat -> bool, k: nat)
    requires AreCandidates(events, state, candidates) && k < |candidates|
    ensures var c := candidates[k];
            c.1 in events && Named(c.1) == Some(c.0) &&
            Current(state + TakenEntries(t, candidates, online, k), c.0).None?
  {
    var c := candidates[k];
    assert IsLatest(events, c.0, c.1);
    CurrentOfAppend(state, TakenEntries(t, candidates, online, k), c.0);
    TakenTuples(t, candidates, online, k, c.0);
  }

  /** Storing in turn adds the entries the database takes, judged before the repair began. */
  lemma {:induction false} StoredInTurnIs(m: Mirror, t: Tables, candidates: seq<Candidate>, online: nat -> bool, k: nat)
    requires AreCandidates(m.events, m.state, candidates) && k <= |candidates|
    ensures var (m', t', n) := StoredInTurn(m, t, candidates, online, k);
            m'.events == m.events && m'.state == m.state + TakenEntries(t, candidates, online, k) &&
            n == |TakenEntries(t, candidates, online, k)| && Untouched(t, t', candidates, k)
  {
    hide WriteProtocol.StoreState, AreCandidates, Takes, Untouched, Current, Named;
    if k == 0 {
      assert m.state + [] == m.state;
      NothingTouched(t, candidates);
    } else {
      StoredInTurnIs(m, t, candidates, online, k - 1);
      NextIsMissing(m.events, m.state, candidates, t, online, k - 1);
      var (m1, t1, n) := StoredInTurn(m, t, candidates, online, k - 1);
      var c := candidates[k - 1];
      StoreCandidate(m1, t1, c, online(k - 1));
      StoredOneMore(m, t, candidates, online, k, m1, t1);
      TouchedOne(m.events, m.state, candidates, t, t1,
                 WriteProtocol.StoreState(m1, t1, StateEntry(c.0, c.1.id), online(k - 1)).1, k);
    }
  }

  lemma NothingTouched(t: Tables, candidates: seq<Candidate>)
    ensures Untouched(t, t, candidates, 0)
  {
  }

  /** Storing one candidate touches its own keys only. */
  lemma TouchedOne(
    events: seq<Event>, state: seq<StateEntry>, candidates: seq<Candidate>, t: Tables, t1: Tables, t2: Tables, k: nat)
    requires AreCandidates(events, state, candidates) && 0 < k <= |candidates| && Untouched(t, t1, candidates, k - 1)
    requires t1.state.Keys <= t2.state.Keys <= t1.state.Keys + {candidates[k - 1].0}
    requires t1.transitions.Keys <= t2.transitions.Keys <=
             t1.transitions.Keys + {(candidates[k - 1].0, candidates[k - 1].1.id)}
    ensures Untouched(t, t2, candidates, k)
  {
    hide IsLatest, Current;
    assert forall j :: k <= j < |candidates| ==> candidates[k - 1].0 != candidates[j].0;
  }

  lemma StoredOneMore(m: Mirror, t: Tables, candidates: seq<Candidate>, online: nat -> bool, k: nat, m1: Mirror, t1: Tables)
    requires AreCandidates(m.events, m.state, candidates) && 0 < k <= |candidates| && Untouched(t, t1, candidates, k - 1)
    requires m1.state == m.state + TakenEntries(t, candidates, online, k - 1)
    ensures var c := candidates[k - 1];
            Takes(t1, c, online(k - 1)) == Takes(t, c, online(k - 1)) &&
            m.state + TakenEntries(t, candidates, online, k) ==
            (if Takes(t, c, online(k - 1)) then m1.state + [StateEntry(c.0, c.1.id)] else m1.state)
  {
    hide AreCandidates;
  }

  /** Entries taken from candidates are repairs. */
  lemma {:induction false} TakenAreRepairs(
    events: seq<Event>, state: seq<StateEntry>, candidates: seq<Candidate>, t: Tables, online: nat -> bool, k: nat)
    requires AreCandidates(events, state, candidates) && k <= |candidates|
    ensures AreRepairs(events, state, TakenEntries(t, candidates, online, k))
  {
    if k > 0 {
      var c, front := candidates[k - 1], TakenEntries(t, candidates, online, k - 1);
      TakenAreRepairs(events, state, candidates, t, online, k - 1);
      NextIsMissing(events, state, candidates, t, online, k - 1);
      assert IsLatest(events, c.0, c.1);
      hide AreCandidates, IsLatest, AreRepairs, Current, Takes;
      RepairsAppend(events, state, front, c);
    }
  }

  lemma RepairsAppend(events: seq<Event>, state: seq<StateEntry>, added: seq<StateEntry>, c: Candidate)
    requires AreRepairs(events, state, added) && Current(state + added, c.0).None? && IsLatest(events, c.0, c.1)
    ensures AreRepairs(events, state, added + [StateEntry(c.0, c.1.id)]) && added + [] == added
  {
    CurrentOfAppend(state, added, c.0);
    CurrentIffEntry(added, c.0);
    hide IsLatest, Current;
    assert RepairsWithLatest(events, StateEntry(c.0, c.1.id));
  }

  lemma CompleteIffAllTaken(
    events: seq<Event>, state: seq<StateEntry>, candidates: seq<Candidate>, t: Tables, online: nat -> bool)
    requires AreCandidates(events, state, candidates)
    ensures Complete(events, state + TakenEntries(t, candidates, online, |candidates|)) <==>
            forall k :: 0 <= k < |candidates| ==> Takes(t, candidates[k], online(k))
  {
    var added := TakenEntries(t, candidates, online, |candidates|);
    hide TakenEntries, Current, Takes;
    if forall k :: 0 <= k < |candidates| ==> Takes(t, candidates[k], online(k)) {
      forall e | e in events && Named(e).Some?
        ensures Current(state + added, Named(e).value).Some?
      {
        CurrentOfAppend(state, added, Named(e).value);
        TakenTuples(t, candidates, online, |candidates|, Named(e).value);
        if IsMissing(state, e) {
          assert HasCandidate(candidates, Named(e).value);
        }
      }
    }
    if Complete(events, state + added) {
      forall k | 0 <= k < |candidates|
        ensures Takes(t, candidates[k], online(k))
      {
        var c := candidates[k];
        assert IsLatest(events, c.0, c.1);
        CurrentOfAppend(state, added, c.0);
        TakenTuples(t, candidates, online, |candidates|, c.0);
      }
    }
  }

  lemma CompleteHasNoCandidates(events: seq<Event>, state: seq<StateEntry>)
    ensures Complete(events, state) <==> CandidatesOf(events, state) == []
  {
    var candidates := CandidatesOf(events, state);
    CandidatesAre(events, state);
    if candidates != [] {
      assert IsLatest(events, candidates[0].0, candidates[0].1);
    }
    if !Complete(events, state) {
      var e :| e in events && Named(e).Some? && !Current(state, Named(e).value).Some?;
      assert IsMissing(state, e) && HasCandidate(candidates, Named(e).value);
    }
  }

  // ---- What a repair does ------------------------------------------------------------------

  /**
   * Existing entries stay; one entry, to a latest event, is added for exactly the
   * missing tuples whose write the database takes, and their number is returned;
   * every named tuple has an entry afterwards exactly when all were taken.
   */
  lemma RepairIsExact(m: Mirror, t: Tables, online: nat -> bool)
    ensures var candidates := CandidatesOf(m.events, m.state);
            var added := TakenEntries(t, candidates, online, |candidates|);
            var (m', t', n) := Repaired(m, t, online);
            m'.events == m.events && m'.state == m.state + added && n == |added| &&
            AreRepairs(m.events, m.state, added) &&
            (Complete(m'.events, m'.state) <==> forall k :: 0 <= k < |candidates| ==> Takes(t, candidates[k], online(k)))
  {
    var candidates := CandidatesOf(m.events, m.state);
    CandidatesAre(m.events, m.state);
    hide AreCandidates, CandidatesOf, AreRepairs, Complete;
    StoredInTurnIs(m, t, candidates, online, |candidates|);
    TakenAreRepairs(m.events, m.state, candidates, t, online, |candidates|);
    CompleteIffAllTaken(m.events, m.state, candidates, t, online);
  }

  /** Run again after a repair that left nothing missing, it returns 0 and changes nothing. */
  lemma SecondRepairDoesNothing(m: Mirror, t: Tables, online: nat -> bool, again: nat -> bool)
    requires var candidates := CandidatesOf(m.events, m.state);
             forall k :: 0 <= k < |candidates| ==> Takes(t, candidates[k], online(k))
    ensures var (m', t', n) := Repaired(m, t, online);
            n == |CandidatesOf(m.events, m.state)| && Repaired(m', t', again) == (m', t', 0)
  {
    var candidates := CandidatesOf(m.events, m.state);
    var (m', t', n) := Repaired(m, t, online);
    RepairIsExact(m, t, online);
    AllTaken(t, candidates, online, |candidates|);
    CompleteHasNoCandidates(m'.events, m'.state);
  }

  lemma {:induction false} AllTaken(t: Tables, candidates: seq<Candidate>, online: nat -> bool, k: nat)
    requires k <= |candidates| && forall j :: 0 <= j < k ==> Takes(t, candidates[j], online(j))
    ensures |TakenEntries(t, candidates, online, k)| == k
  {
    if k > 0 {
      AllTaken(t, candidates, online, k - 1);
    }
  }

  /** The mirror lists the tables, with relations and index in step. */
  ghost predicate InStep(m: Mirror, t: Tables) {
    Lists(m, t) && MirrorOk(m)
  }

  /** A repair keeps mirror and tables in step. */
  lemma {:induction false} RepairKeepsInStep(m: Mirror, t: Tables, candidates: seq<Candidate>, online: nat -> bool, k: nat)
    requires InStep(m, t) && k <= |candidates|
    ensures var (m', t', n) := StoredInTurn(m, t, candidates, online, k); InStep(m', t')
  {
    hide InStep, WriteProtocol.StoreState;
    if k > 0 {
      RepairKeepsInStep(m, t, candidates, online, k - 1);
      var (m1, t1, n) := StoredInTurn(m, t, candidates, online, k - 1);
      var entry := StateEntry(candidates[k - 1].0, candidates[k - 1].1.id);
      StoreKeepsInStep(m1, t1, entry, online(k - 1));
    }
  }

  lemma StoreKeepsInStep(m: Mirror, t: Tables, entry: StateEntry, online: bool)
    requires InStep(m, t)
    ensures var (m', t', ok) := WriteProtocol.StoreState(m, t, entry, online); InStep(m', t')
  {
    if WriteProtocol.StoreState(m, t, entry, online).2 {
      WriteProtocol.StoreStateLists(m, t, entry, online);
    }
  }

  /**
   * On a store that has only ever been written through, with nothing pending, the
   * database takes every candidate it is reached for: the repair is complete
   * exactly when every write gets through. If commits were applied in order, it
   * leaves mirror and tables in step.
   */
  lemma RepairCompletesWhenWritesSucceed(actions: seq<WriteProtocol.Action>, online: nat -> bool)
    requires WriteProtocol.Run(WriteProtocol.START, actions).pending == []
    ensures var w := WriteProtocol.Run(WriteProtocol.START, actions);
            var (m, t, n) := Repaired(w.mirror, w.tables, online);
            Complete(m.events, m.state) <==>
            forall k :: 0 <= k < |CandidatesOf(w.mirror.events, w.mirror.state)| ==> online(k)
    ensures WriteOrder.OrderedRun(WriteProtocol.START, actions) ==>
              var w := WriteProtocol.Run(WriteProtocol.START, actions);
              var (m, t, n) := Repaired(w.mirror, w.tables, online);
              InStep(m, t)
  {
    var w := WriteProtocol.Run(WriteProtocol.START, actions);
    var candidates := CandidatesOf(w.mirror.events, w.mirror.state);
    hide WriteProtocol.Run, CandidatesOf, Complete, MirrorOk, TakenEntries, AreRepairs, Lists, StoredInTurn, WriteOrder.OrderedRun;
    WriteProtocol.TransitionsHaveState(actions);
    CandidatesAre(w.mirror.events, w.mirror.state);
    RepairIsExact(w.mirror, w.tables, online);
    forall k | 0 <= k < |candidates|
      ensures Takes(w.tables, candidates[k], online(k)) == online(k)
    {
      assert Current(w.mirror.state, candidates[k].0).None?;
      WriteProtocol.SameTuplesOnceApplied(actions, candidates[k].0);
    }
    if WriteOrder.OrderedRun(WriteProtocol.START, actions) {
      WriteOrder.MirrorIsCurrentIffApplied(actions);
      WriteProtocol.MirrorStaysInStep(actions);
      RepairKeepsInStep(w.mirror, w.tables, candidates, online, |candidates|);
    }
  }

  /** `online(k)` is whether the `k`-th write reaches the database. */
  method RepairMissingStateEntries(store: PersistentStore, online: nat -> bool) returns (repaired: nat)
    modifies store
    ensures (store.View(), store.tables, repaired) == Repaired(old(store.View()), old(store.tables), online)
  {
    var candidates := CollectCandidates(store.events, store.state);
    repaired := StoreCandidates(store, candidates, online);
  }

  method StoreCandidates(store: PersistentStore, candidates: seq<Candidate>, online: nat -> bool) returns (repaired: nat)
    modifies store
    ensures (store.View(), store.tables, repaired) ==
            StoredInTurn(old(store.View()), old(store.tables), candidates, online, |candidates|)
  {
    ghost var m, t := store.View(), store.tables;
    repaired := 0;
    assert StoredInTurn(m, t, candidates, online, 0) == (m, t, 0);
    hide WriteProtocol.StoreState, StoredInTurn;
    for k := 0 to |candidates|
      invariant StoredInTurn(m, t, candidates, online, k) == (store.View(), store.tables, repaired)
    {
      StoredNext(m, t, candidates, online, k);
      var ok := store.StoreState(StateEntry(candidates[k].0, candidates[k].1.id), online(k));
      if ok {
        repaired := repaired + 1;
      }
    }
  }

  lemma StoredNext(m: Mirror, t: Tables, candidates: seq<Candidate>, online: nat -> bool, k: nat)
    requires k < |candidates|
    ensures var (m1, t1, n) := StoredInTurn(m, t, candidates, online, k);
            var r := WriteProtocol.StoreState(m1, t1, StateEntry(candidates[k].0, candidates[k].1.id), online(k));
            StoredInTurn(m, t, candidates, online, k + 1) == (r.0, r.1, if r.2 then n + 1 else n)
  {
  }
}
