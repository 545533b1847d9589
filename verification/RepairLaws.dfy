/**
 * The state repair, said of the fields of the stored events: what counts as
 * state, which event an added entry points to, and what has an entry
 * afterwards (src/database/persistent_store.cpp).
 */
module RepairLaws {
  import opened Basics
  import opened EventMirror
  import opened Backend
  import opened StateRepair
  import WriteProtocol

  /** A state event for the tuple: its room, its non-empty type and its state key. */
  ghost predicate Suits(e: Event, tuple: Tuple) {
    e.room == tuple.room && e.json.typeField == Some(tuple.kind) && e.json.stateKeyField == Some(tuple.key) &&
    tuple.kind != ""
  }

  ghost predicate HasEntry(state: seq<StateEntry>, tuple: Tuple) {
    exists i :: 0 <= i < |state| && state[i].tuple == tuple
  }

  lemma NamedIff(e: Event, tuple: Tuple)
    ensures Named(e) == Some(tuple) <==> Suits(e, tuple)
  {
  }

  // ---- Which event a candidate is ------------------------------------------------------

  /** No event for the tuple has a greater ordering, and no earlier one the same. */
  ghost predicate FirstLatestAt(events: seq<Event>, tuple: Tuple, p: nat) {
    p < |events| && Suits(events[p], tuple) &&
    forall q :: 0 <= q < |events| && Suits(events[q], tuple) ==>
      events[q].ordering < events[p].ordering || (events[q].ordering == events[p].ordering && p <= q)
  }

  ghost predicate IsFirstLatest(events: seq<Event>, tuple: Tuple, e: Event) {
    exists p: nat :: FirstLatestAt(events, tuple, p) && events[p] == e
  }

  lemma FirstLatestStays(front: seq<Event>, e: Event, tuple: Tuple, c: Event)
    requires IsFirstLatest(front, tuple, c) && !(Suits(e, tuple) && e.ordering > c.ordering)
    ensures IsFirstLatest(front + [e], tuple, c)
  {
    var p: nat :| FirstLatestAt(front, tuple, p) && front[p] == c;
    assert FirstLatestAt(front + [e], tuple, p);
  }

  lemma FirstLatestMoves(front: seq<Event>, e: Event, tuple: Tuple)
    requires Suits(e, tuple)
    requires forall q :: 0 <= q < |front| && Suits(front[q], tuple) ==> front[q].ordering < e.ordering
    ensures IsFirstLatest(front + [e], tuple, e)
  {
    assert FirstLatestAt(front + [e], tuple, |front|);
  }

  /** Every candidate is the first of the latest events for its tuple. */
  lemma {:induction false} CandidatesAreFirst(events: seq<Event>, state: seq<StateEntry>)
    ensures forall i :: 0 <= i < |CandidatesOf(events, state)| ==>
              IsFirstLatest(events, CandidatesOf(events, state)[i].0, CandidatesOf(events, state)[i].1)
  {
    if events != [] {
      var front, e := events[..|events| - 1], events[|events| - 1];
      assert events == front + [e];
      var before, after := CandidatesOf(front, state), CandidatesOf(events, state);
      CandidatesAreFirst(front, state);
      CandidatesAre(front, state);
      assert after == Considered(state, before, e);
      hide IsFirstLatest, CandidatesOf;
      forall i | 0 <= i < |after|
        ensures IsFirstLatest(events, after[i].0, after[i].1)
      {
        CandidateStep(front, e, state, before, i);
      }
    }
  }

  lemma CandidateStep(front: seq<Event>, e: Event, state: seq<StateEntry>, before: seq<Candidate>, i: nat)
    requires AreCandidates(front, state, before) && i < |Considered(state, before, e)|
    requires forall k :: 0 <= k < |before| ==> IsFirstLatest(front, before[k].0, before[k].1)
    ensures IsFirstLatest(front + [e], Considered(state, before, e)[i].0, Considered(state, before, e)[i].1)
  {
    var after := Considered(state, before, e);
    if i < |before| && after[i] == before[i] {
      hide IsFirstLatest;
      FirstLatestStays(front, e, before[i].0, before[i].1);
    } else {
      var tuple := Named(e).value;
      NamedIff(e, tuple);
      forall q | 0 <= q < |front| && Suits(front[q], tuple)
        ensures front[q].ordering < e.ordering
      {
        EarlierIsLess(front, e, state, before, q);
      }
      FirstLatestMoves(front, e, tuple);
    }
  }

  /** If the event becomes the candidate, those seen before it for the tuple come before it. */
  lemma EarlierIsLess(front: seq<Event>, e: Event, state: seq<StateEntry>, before: seq<Candidate>, q: nat)
    requires AreCandidates(front, state, before) && IsMissing(state, e) && q < |front| && Suits(front[q], Named(e).value)
    requires var i := Position(before, Named(e).value); i < |before| ==> e.ordering > before[i].1.ordering
    ensures front[q].ordering < e.ordering
  {
    hide Current;
    NamedIff(front[q], Named(e).value);
    assert front[q] in front && IsMissing(state, front[q]);
    assert HasCandidate(before, Named(e).value);
    var i := Position(before, Named(e).value);
    assert IsLatest(front, before[i].0, before[i].1);
  }

  // ---- The repair ------------------------------------------------------------------------

  /** Where a taken entry comes from. */
  lemma {:induction false} TakenFrom(t: Tables, candidates: seq<Candidate>, online: nat -> bool, k: nat, i: nat) returns (j: nat)
    requires k <= |candidates| && i < |TakenEntries(t, candidates, online, k)|
    ensures j < k && Takes(t, candidates[j], online(j))
    ensures TakenEntries(t, candidates, online, k)[i] == StateEntry(candidates[j].0, candidates[j].1.id)
  {
    if i < |TakenEntries(t, candidates, online, k - 1)| {
      j := TakenFrom(t, candidates, online, k - 1, i);
    } else {
      j := k - 1;
    }
  }

  /** The entry points to the first of the latest stored events for its tuple. */
  ghost predicate PointsToLatest(events: seq<Event>, entry: StateEntry) {
    exists p: nat :: FirstLatestAt(events, entry.tuple, p) && events[p].id == entry.event
  }

  /** What an added entry is: one for a tuple without an entry, and free in the database. */
  ghost predicate IsAdded(m: Mirror, t: Tables, entry: StateEntry) {
    !HasEntry(m.state, entry.tuple) && PointsToLatest(m.events, entry) &&
    entry.tuple !in t.state && (entry.tuple, entry.event) !in t.transitions
  }

  /** The repair keeps every entry and event, and adds one entry for each of some tuples that had none. */
  lemma RepairAdds(m: Mirror, t: Tables, online: nat -> bool)
    ensures var (m', _, n) := Repaired(m, t, online);
            m'.events == m.events && m.state <= m'.state && n == |m'.state| - |m.state| &&
            (forall i :: |m.state| <= i < |m'.state| ==> IsAdded(m, t, m'.state[i])) &&
            (forall i, j :: |m.state| <= i < j < |m'.state| ==> m'.state[i].tuple != m'.state[j].tuple)
  {
    hide Repaired, AreRepairs, IsAdded, Complete, Takes, CandidatesOf, TakenEntries;
    RepairIsExact(m, t, online);
    var candidates := CandidatesOf(m.events, m.state);
    var added := TakenEntries(t, candidates, online, |candidates|);
    var m' := Repaired(m, t, online).0;
    forall i | |m.state| <= i < |m'.state|
      ensures IsAdded(m, t, m'.state[i])
    {
      TakenIsAdded(m, t, online, i - |m.state|);
      assert m'.state[i] == added[i - |m.state|];
    }
    RepairsDiffer(m.events, m.state, added);
    forall i, j | |m.state| <= i < j < |m'.state|
      ensures m'.state[i].tuple != m'.state[j].tuple
    {
      assert m'.state[i] == added[i - |m.state|] && m'.state[j] == added[j - |m.state|];
    }
  }

  lemma RepairsDiffer(events: seq<Event>, state: seq<StateEntry>, added: seq<StateEntry>)
    requires AreRepairs(events, state, added)
    ensures forall i, j :: 0 <= i < j < |added| ==> added[i].tuple != added[j].tuple
  {
  }

  lemma TakenIsAdded(m: Mirror, t: Tables, online: nat -> bool, i: nat)
    requires i < |TakenEntries(t, CandidatesOf(m.events, m.state), online, |CandidatesOf(m.events, m.state)|)|
    ensures IsAdded(m, t, TakenEntries(t, CandidatesOf(m.events, m.state), online, |CandidatesOf(m.events, m.state)|)[i])
  {
    hide CandidatesOf, TakenEntries, Current, IsLatest, Suits;
    var candidates := CandidatesOf(m.events, m.state);
    var j := TakenFrom(t, candidates, online, |candidates|, i);
    CandidatesAre(m.events, m.state);
    CandidatesAreFirst(m.events, m.state);
    CurrentIffEntry(m.state, candidates[j].0);
    assert IsFirstLatest(m.events, candidates[j].0, candidates[j].1);
    var p: nat :| FirstLatestAt(m.events, candidates[j].0, p) && m.events[p] == candidates[j].1;
    assert PointsToLatest(m.events, StateEntry(candidates[j].0, candidates[j].1.id));
  }

  /** Every tuple that some stored event is state for has an entry. */
  ghost predicate AllHaveEntries(events: seq<Event>, state: seq<StateEntry>) {
    forall e, tuple :: e in events && Suits(e, tuple) ==> HasEntry(state, tuple)
  }

  lemma CompleteIff(events: seq<Event>, state: seq<StateEntry>)
    ensures Complete(events, state) <==> AllHaveEntries(events, state)
  {
    hide Named, Suits, Current, HasEntry;
    if Complete(events, state) {
      forall e, tuple | e in events && Suits(e, tuple)
        ensures HasEntry(state, tuple)
      {
        NamedIff(e, tuple);
        EntryIff(state, tuple);
      }
    }
    if AllHaveEntries(events, state) {
      forall e | e in events && Named(e).Some?
        ensures Current(state, Named(e).value).Some?
      {
        NamedIff(e, Named(e).value);
        EntryIff(state, Named(e).value);
      }
    }
  }

  lemma EntryIff(state: seq<StateEntry>, tuple: Tuple)
    ensures Current(state, tuple).Some? <==> HasEntry(state, tuple)
  {
    CurrentIffEntry(state, tuple);
  }

  /** Whatever the keys, the database has nothing for the tuples without an entry. */
  ghost predicate MissingAreFree(m: Mirror, t: Tables) {
    forall e, tuple :: e in m.events && Suits(e, tuple) && !HasEntry(m.state, tuple) ==>
      tuple !in t.state && (tuple, e.id) !in t.transitions
  }

  /**
   * If every write reaches a database that has nothing for the missing tuples,
   * every tuple some stored event is state for has an entry afterwards; if none
   * does, nothing changes.
   */
  lemma RepairReachesAll(m: Mirror, t: Tables, online: nat -> bool)
    ensures (forall k :: online(k)) && MissingAreFree(m, t) ==>
              AllHaveEntries(m.events, Repaired(m, t, online).0.state)
    ensures (forall k :: !online(k)) ==>
              Repaired(m, t, online).0.state == m.state && Repaired(m, t, online).2 == 0
  {
    hide Repaired, AreRepairs, Complete, CandidatesOf, TakenEntries, AllHaveEntries, MissingAreFree;
    RepairIsExact(m, t, online);
    var candidates := CandidatesOf(m.events, m.state);
    if (forall k :: online(k)) && MissingAreFree(m, t) {
      forall k | 0 <= k < |candidates|
        ensures Takes(t, candidates[k], online(k))
      {
        CandidateIsFree(m, t, k);
      }
      CompleteIff(m.events, Repaired(m, t, online).0.state);
    }
    if forall k :: !online(k) {
      NoneTaken(t, candidates, online, |candidates|);
    }
  }

  lemma CandidateIsFree(m: Mirror, t: Tables, k: nat)
    requires MissingAreFree(m, t) && k < |CandidatesOf(m.events, m.state)|
    ensures var c := CandidatesOf(m.events, m.state)[k]; c.0 !in t.state && (c.0, c.1.id) !in t.transitions
  {
    hide CandidatesOf, Current;
    var c := CandidatesOf(m.events, m.state)[k];
    CandidatesAre(m.events, m.state);
    assert IsLatest(m.events, c.0, c.1);
    NamedIff(c.1, c.0);
    EntryIff(m.state, c.0);
  }

  lemma {:induction false} NoneTaken(t: Tables, candidates: seq<Candidate>, online: nat -> bool, k: nat)
    requires k <= |candidates| && forall j :: !online(j)
    ensures TakenEntries(t, candidates, online, k) == []
  {
    if k > 0 {
      NoneTaken(t, candidates, online, k - 1);
    }
  }

  /** On a store only ever written through, with nothing pending, reaching the database is enough. */
  lemma RepairReachesAllInRuns(actions: seq<WriteProtocol.Action>, online: nat -> bool)
    requires WriteProtocol.Run(WriteProtocol.START, actions).pending == [] && forall k :: online(k)
    ensures var w := WriteProtocol.Run(WriteProtocol.START, actions);
            var m := Repaired(w.mirror, w.tables, online).0;
            m.events == w.mirror.events && AllHaveEntries(m.events, m.state)
  {
    var w := WriteProtocol.Run(WriteProtocol.START, actions);
    hide WriteProtocol.Run, CandidatesOf, Complete, AllHaveEntries, Repaired, TakenEntries, AreRepairs, Takes;
    RepairCompletesWhenWritesSucceed(actions, online);
    RepairIsExact(w.mirror, w.tables, online);
    var m := Repaired(w.mirror, w.tables, online).0;
    CompleteIff(m.events, m.state);
  }
}
