/**
 * The search for a state event's predecessor: its auth events first, then
 * breadth first through the previous events of the events stored locally
 * (src/database/persistent_store.cpp).
 */
module Predecessor {
  import opened Basics
  import opened EventMirror

  const MAX_DEPTH: nat := 50

  /** Whether an event was applied for the tuple. */
  predicate Applied(m: Mirror, tuple: Tuple, id: Id) {
    IndexKey(tuple, id) in m.index
  }

  /** In an index kept as a rebuild would make it: some transition row has that tuple and event. */
  lemma AppliedIffRow(m: Mirror, tuple: Tuple, id: Id)
    requires IndexOk(m) && TransitionsNulFree(m.transitions) && TupleNulFree(tuple)
    ensures Applied(m, tuple, id) <==>
            exists i :: 0 <= i < |m.transitions| && m.transitions[i].tuple == tuple && m.transitions[i].event == id
  {
    IndexRefinesScan(m.transitions, tuple, id);
    ScanFindsRow(m.transitions, tuple, id);
  }

  lemma {:induction false} ScanFindsRow(ts: seq<Transition>, tuple: Tuple, id: Id)
    ensures FirstTransition(ts, tuple, id).Some? <==>
            exists i :: 0 <= i < |ts| && ts[i].tuple == tuple && ts[i].event == id
  {
    if ts != [] {
      var rest := ts[1..];
      ScanFindsRow(rest, tuple, id);
      if i :| 0 <= i < |ts| && ts[i].tuple == tuple && ts[i].event == id {
        assert i == 0 || rest[i - 1] == ts[i];
      }
      if i :| 0 <= i < |rest| && rest[i].tuple == tuple && rest[i].event == id {
        assert ts[i + 1] == rest[i];
      }
    }
  }

  /** The stored event with an id; the last one, should an id repeat. */
  function Stored(events: seq<Event>, id: Id): Option<Event> {
    if events == [] then None
    else if events[|events| - 1].id == id then Some(events[|events| - 1])
    else Stored(events[..|events| - 1], id)
  }

  /** Where the search goes on from an id: nowhere, if its event is not stored. */
  function Parents(events: seq<Event>, id: Id): seq<Id> {
    var e := Stored(events, id);
    if e.Some? then e.value.prev else []
  }

  /** Where ids are unique, the search goes on to the previous events of the stored event with the id, if there is one. */
  lemma {:induction false} ParentsAre(events: seq<Event>, id: Id)
    requires UniqueIds(events)
    ensures forall e :: e in events && e.id == id ==> Parents(events, id) == e.prev
    ensures (forall e :: e in events ==> e.id != id) ==> Parents(events, id) == []
  {
    if events != [] {
      var front, last := events[..|events| - 1], events[|events| - 1];
      ParentsAre(front, id);
      assert events == front + [last];
      assert forall e :: e in front ==> e.id != last.id;
    }
  }

  ghost function Ids(s: seq<Id>): (ids: set<Id>)
    ensures forall id :: id in ids <==> id in s
  {
    set id | id in s
  }

  lemma IdsAppend(a: seq<Id>, b: seq<Id>)
    ensures Ids(a + b) == Ids(a) + Ids(b)
  {
  }

  lemma NoDupAppend(a: seq<Id>, b: seq<Id>)
    requires NoDup(a) && NoDup(b) && Ids(a) !! Ids(b)
    ensures NoDup(a + b)
  {
    forall i, j | 0 <= i < j < |a + b|
      ensures (a + b)[i] != (a + b)[j]
    {
      if i < |a| <= j {
        assert a[i] in Ids(a) && b[j - |a|] in Ids(b);
      }
    }
  }

  /** The ids one step back. */
  ghost function Step(events: seq<Event>, ids: set<Id>): set<Id> {
    set id, parent | id in ids && parent in Parents(events, id) :: parent
  }

  /** The ids at most `k` steps back from the given ones. */
  ghost function Within(events: seq<Event>, from: seq<Id>, k: nat): set<Id> {
    if k == 0 then Ids(from)
    else Within(events, from, k - 1) + Step(events, Within(events, from, k - 1))
  }

  /** The ids fewer than `k` steps back. */
  ghost function Nearer(events: seq<Event>, from: seq<Id>, k: nat): set<Id> {
    if k == 0 then {} else Within(events, from, k - 1)
  }

  /** A path back through stored events, newest first. */
  ghost predicate IsPath(events: seq<Event>, from: seq<Id>, path: seq<Id>) {
    path != [] && path[0] in from && forall i :: 0 < i < |path| ==> path[i] in Parents(events, path[i - 1])
  }

  lemma {:induction false} PathStaysWithin(events: seq<Event>, from: seq<Id>, path: seq<Id>, k: nat)
    requires IsPath(events, from, path) && |path| <= k + 1
    ensures path[|path| - 1] in Within(events, from, k)
    decreases k
  {
    if k > 0 {
      if |path| == 1 {
        PathStaysWithin(events, from, path, k - 1);
      } else {
        var shorter := path[..|path| - 1];
        PathStaysWithin(events, from, shorter, k - 1);
        assert path[|path| - 1] in Parents(events, path[|path| - 2]);
      }
    }
  }

  lemma {:induction false} PathTo(events: seq<Event>, from: seq<Id>, k: nat, id: Id) returns (path: seq<Id>)
    requires id in Within(events, from, k)
    ensures IsPath(events, from, path) && |path| <= k + 1 && path[|path| - 1] == id
  {
    hide Parents;
    if k == 0 {
      path := [id];
    } else if id in Within(events, from, k - 1) {
      path := PathTo(events, from, k - 1, id);
    } else {
      var child :| child in Within(events, from, k - 1) && id in Parents(events, child);
      var shorter := PathTo(events, from, k - 1, child);
      path := shorter + [id];
      PathExtends(events, from, shorter, id);
    }
  }

  lemma PathExtends(events: seq<Event>, from: seq<Id>, path: seq<Id>, id: Id)
    requires IsPath(events, from, path) && id in Parents(events, path[|path| - 1])
    ensures IsPath(events, from, path + [id])
  {
  }

  /** The levels of the search are the distances in the event graph. */
  lemma WithinIffPath(events: seq<Event>, from: seq<Id>, k: nat, id: Id)
    ensures id in Within(events, from, k) <==>
            exists path :: IsPath(events, from, path) && |path| <= k + 1 && path[|path| - 1] == id
  {
    if id in Within(events, from, k) {
      var path := PathTo(events, from, k, id);
    }
    forall path | IsPath(events, from, path) && |path| <= k + 1 && path[|path| - 1] == id
      ensures id in Within(events, from, k)
    {
      PathStaysWithin(events, from, path, k);
    }
  }

  ghost predicate NoneApplied(m: Mirror, tuple: Tuple, ids: set<Id>) {
    forall id :: id in ids ==> !Applied(m, tuple, id)
  }

  /** An applied event `d` steps back with no applied event any closer. */
  ghost predicate Nearest(m: Mirror, tuple: Tuple, from: seq<Id>, d: nat, id: Id) {
    id in Within(m.events, from, d) && Applied(m, tuple, id) && NoneApplied(m, tuple, Nearer(m.events, from, d))
  }

  lemma {:induction false} WithinGrows(events: seq<Event>, from: seq<Id>, j: nat, k: nat)
    requires j <= k
    ensures Within(events, from, j) <= Within(events, from, k)
    decreases k
  {
    hide Step;
    if j < k {
      WithinGrows(events, from, j, k - 1);
    }
  }

  lemma StepOfEmpty(events: seq<Event>)
    ensures Step(events, {}) == {}
  {
  }

  /** Once a level adds nothing, no later level does. */
  lemma {:induction false} WithinCloses(events: seq<Event>, from: seq<Id>, d: nat, k: nat)
    requires Within(events, from, d) == Nearer(events, from, d) && d <= k
    ensures Within(events, from, k) == Within(events, from, d)
    decreases k
  {
    hide Step, Ids;
    if d < k {
      WithinCloses(events, from, d, k - 1);
      StepOfEmpty(events);
    }
  }

  /** When a level holds no new id, the search has seen all there is. */
  lemma Exhausted(events: seq<Event>, from: seq<Id>, d: nat, max: nat)
    requires d < max && Within(events, from, d) <= Nearer(events, from, d)
    ensures Nearer(events, from, max) == Nearer(events, from, d) == Within(events, from, d)
  {
    hide Step;
    if d > 0 {
      WithinGrows(events, from, d - 1, d);
    }
    WithinCloses(events, from, d, max - 1);
  }

  lemma StepOfUnion(events: seq<Event>, a: set<Id>, b: set<Id>)
    ensures Step(events, a + b) == Step(events, a) + Step(events, b)
  {
  }

  /** Expanding the ids first seen at one level is enough to reach the next. */
  lemma NextLevel(events: seq<Event>, from: seq<Id>, d: nat)
    ensures Within(events, from, d + 1) ==
            Within(events, from, d) + Step(events, Within(events, from, d) - Nearer(events, from, d))
  {
    var all, nearer := Within(events, from, d), Nearer(events, from, d);
    if d == 0 {
      assert all - nearer == all;
    } else {
      hide Step;
      WithinGrows(events, from, d - 1, d);
      StepOfUnion(events, nearer, all - nearer);
      assert nearer + (all - nearer) == all;
    }
  }

  // ---- The order of the queue ----------------------------------------------------------

  /** The ids not seen before, each where it first comes up. */
  ghost function Unseen(visited: set<Id>, ids: seq<Id>): seq<Id> {
    if ids == [] then []
    else
      var front, last := ids[..|ids| - 1], ids[|ids| - 1];
      Unseen(visited, front) + if last in visited || last in front then [] else [last]
  }

  lemma {:induction false} UnseenAre(visited: set<Id>, ids: seq<Id>)
    ensures NoDup(Unseen(visited, ids)) && Ids(Unseen(visited, ids)) == Ids(ids) - visited
  {
    if ids != [] {
      var front, last := ids[..|ids| - 1], ids[|ids| - 1];
      UnseenAre(visited, front);
      assert ids == front + [last];
      IdsAppend(front, [last]);
      if last !in visited && last !in front {
        NoDupAppend(Unseen(visited, front), [last]);
        IdsAppend(Unseen(visited, front), [last]);
      }
    }
  }

  /** Of two unseen ids, the one that comes up first is queued first. */
  lemma {:induction false} UnseenInOrder(visited: set<Id>, ids: seq<Id>, i: nat, j: nat)
    requires i < j < |Unseen(visited, ids)|
    ensures exists k :: 0 <= k < |ids| && ids[k] == Unseen(visited, ids)[i] && Unseen(visited, ids)[j] !in ids[..k]
  {
    var front, last := ids[..|ids| - 1], ids[|ids| - 1];
    var before := Unseen(visited, front);
    if j < |before| {
      UnseenInOrder(visited, front, i, j);
      var k :| 0 <= k < |front| && front[k] == before[i] && before[j] !in front[..k];
      assert ids[k] == front[k] && ids[..k] == front[..k];
    } else {
      UnseenAre(visited, front);
      assert before[i] in Ids(before);
      var k :| 0 <= k < |front| && front[k] == before[i];
      assert ids[k] == front[k];
      assert forall n :: 0 <= n < k ==> ids[..k][n] == front[n];
    }
  }

  lemma {:induction false} UnseenAppend(visited: set<Id>, a: seq<Id>, b: seq<Id>)
    ensures Unseen(visited, a + b) == Unseen(visited, a) + Unseen(visited + Ids(a), b)
  {
    if b == [] {
      assert a + b == a;
    } else {
      var front, last := b[..|b| - 1], b[|b| - 1];
      UnseenAppend(visited, a, front);
      assert (a + b)[..|a + b| - 1] == a + front && (a + b)[|a + b| - 1] == last;
    }
  }

  /** The previous events of a level, one list after the other. */
  function ParentsOf(events: seq<Event>, level: seq<Id>): seq<Id> {
    if level == [] then []
    else ParentsOf(events, level[..|level| - 1]) + Parents(events, level[|level| - 1])
  }

  /** The ids at one distance as they are queued: in the order of the level before and of each event's own list. */
  ghost function LevelOf(events: seq<Event>, from: seq<Id>, d: nat): seq<Id> {
    if d == 0 then Unseen({}, from) else Unseen(Within(events, from, d - 1), ParentsOf(events, LevelOf(events, from, d - 1)))
  }

  lemma {:induction false} ParentsAreStep(events: seq<Event>, level: seq<Id>)
    ensures Ids(ParentsOf(events, level)) == Step(events, Ids(level))
  {
    if level == [] {
      StepOfEmpty(events);
      assert Ids(level) == {};
    } else {
      var front, last := level[..|level| - 1], level[|level| - 1];
      hide Step, Ids;
      ParentsAreStep(events, front);
      assert level == front + [last];
      IdsAppend(front, [last]);
      IdsAppend(ParentsOf(events, front), Parents(events, last));
      StepOfUnion(events, Ids(front), Ids([last]));
      assert Ids([last]) == {last};
      StepOfOne(events, last);
    }
  }

  /** A level holds exactly the ids at its distance, each once. */
  lemma {:induction false} LevelAre(events: seq<Event>, from: seq<Id>, d: nat)
    ensures NoDup(LevelOf(events, from, d))
    ensures Ids(LevelOf(events, from, d)) == Within(events, from, d) - Nearer(events, from, d)
  {
    hide Step, Ids, NoDup, Unseen, ParentsOf;
    if d == 0 {
      UnseenAre({}, from);
    } else {
      LevelAre(events, from, d - 1);
      var level, near := LevelOf(events, from, d - 1), Within(events, from, d - 1);
      UnseenAre(near, ParentsOf(events, level));
      ParentsAreStep(events, level);
      NextLevel(events, from, d - 1);
      hide Within;
      assert Within(events, from, d) == near + Step(events, Ids(level));
      AddedOnly(near, Step(events, Ids(level)));
    }
  }

  lemma AddedOnly(a: set<Id>, b: set<Id>)
    ensures (a + b) - a == b - a
  {
  }

  /** The next level, from the one before. */
  lemma LevelNext(events: seq<Event>, from: seq<Id>, d: nat)
    ensures LevelOf(events, from, d + 1) == Unseen(Within(events, from, d), ParentsOf(events, LevelOf(events, from, d)))
    ensures Within(events, from, d + 1) == Within(events, from, d) + Step(events, Ids(LevelOf(events, from, d)))
  {
    LevelAre(events, from, d);
    NextLevel(events, from, d);
  }

  lemma FirstLevel(events: seq<Event>, from: seq<Id>)
    ensures LevelOf(events, from, 0) == Unseen({}, from) && Within(events, from, 0) == Ids(from)
    ensures NoDup(Unseen({}, from)) && Ids(Unseen({}, from)) == Ids(from)
  {
    UnseenAre({}, from);
  }

  /** An empty level is the end: nothing further back is stored. */
  lemma LastLevel(events: seq<Event>, from: seq<Id>, d: nat, max: nat)
    requires d < max && LevelOf(events, from, d) == []
    ensures Nearer(events, from, max) == Nearer(events, from, d) && Within(events, from, max) == Within(events, from, d)
  {
    hide Step, Within, LevelOf, Nearer;
    LevelAre(events, from, d);
    forall id | id in Within(events, from, d)
      ensures id in Nearer(events, from, d)
    {
      assert id !in Ids(LevelOf(events, from, d));
    }
    Exhausted(events, from, d, max);
    WithinCloses(events, from, d, max);
  }

  /** The push of ids not seen before. */
  method EnqueueUnseen(visited: set<Id>, queue: seq<Id>, ids: seq<Id>)
    returns (visited': set<Id>, queue': seq<Id>)
    ensures visited' == visited + Ids(ids) && queue' == queue + Unseen(visited, ids)
  {
    visited', queue' := visited, queue;
    for i := 0 to |ids|
      invariant visited' == visited + Ids(ids[..i])
      invariant queue' == queue + Unseen(visited, ids[..i])
    {
      assert ids[..i + 1][..i] == ids[..i];
      if ids[i] !in visited' {
        queue' := queue' + [ids[i]];
      }
      visited' := visited' + {ids[i]};
    }
    assert ids[..|ids|] == ids;
  }

  method IndexEvents(events: seq<Event>) returns (index: map<Id, Event>)
    ensures Indexes(index, events)
  {
    index := map[];
    for i := 0 to |events|
      invariant Indexes(index, events[..i])
    {
      assert events[..i + 1][..i] == events[..i];
      index := index[events[i].id := events[i]];
    }
    assert events[..|events|] == events;
  }

  method FirstAppliedOf(m: Mirror, tuple: Tuple, ids: seq<Id>) returns (r: Option<Id>)
    ensures r.None? ==> forall i :: 0 <= i < |ids| ==> !Applied(m, tuple, ids[i])
    ensures r.Some? ==> IsFirstApplied(m, tuple, ids, r.value)
  {
    for i := 0 to |ids|
      invariant forall j :: 0 <= j < i ==> !Applied(m, tuple, ids[j])
    {
      if Applied(m, tuple, ids[i]) {
        return Some(ids[i]);
      }
    }
    return None;
  }

  ghost predicate IsFirstApplied(m: Mirror, tuple: Tuple, ids: seq<Id>, id: Id) {
    exists i :: 0 <= i < |ids| && ids[i] == id && Applied(m, tuple, ids[i]) &&
                forall j :: 0 <= j < i ==> !Applied(m, tuple, ids[j])
  }

  ghost predicate AnyAppliedOf(m: Mirror, tuple: Tuple, ids: seq<Id>) {
    exists i :: 0 <= i < |ids| && Applied(m, tuple, ids[i])
  }

  lemma FirstIsApplied(m: Mirror, tuple: Tuple, ids: seq<Id>, id: Id)
    requires IsFirstApplied(m, tuple, ids, id)
    ensures id in Ids(ids) && Applied(m, tuple, id)
  {
  }

  lemma StepOfFewer(events: seq<Event>, level: seq<Id>, i: nat)
    requires i <= |level|
    ensures Step(events, Ids(level[..i])) <= Step(events, Ids(level))
  {
    assert level == level[..i] + level[i..];
    IdsAppend(level[..i], level[i..]);
    StepOfUnion(events, Ids(level[..i]), Ids(level[i..]));
  }

  lemma StepOfOne(events: seq<Event>, id: Id)
    ensures Step(events, {id}) == Ids(Parents(events, id))
  {
  }

  ghost predicate Indexes(index: map<Id, Event>, events: seq<Event>) {
    (forall id :: id in index <==> Stored(events, id).Some?) &&
    forall id :: id in index ==> Stored(events, id) == Some(index[id])
  }

  lemma QueueNext(events: seq<Event>, visited: set<Id>, level: seq<Id>, i: nat)
    requires i < |level|
    ensures var before, after := ParentsOf(events, level[..i]), ParentsOf(events, level[..i + 1]);
            var parents := Parents(events, level[i]);
            Unseen(visited, after) == Unseen(visited, before) + Unseen(visited + Ids(before), parents) &&
            visited + Ids(after) == visited + Ids(before) + Ids(parents) &&
            (parents == [] ==> after == before)
  {
    assert level[..i + 1][..i] == level[..i];
    UnseenAppend(visited, ParentsOf(events, level[..i]), Parents(events, level[i]));
    IdsAppend(ParentsOf(events, level[..i]), Parents(events, level[i]));
  }

  lemma NothingQueued(m: Mirror, tuple: Tuple, visited: set<Id>, level: seq<Id>)
    ensures NoneApplied(m, tuple, Ids(level[..0]))
    ensures visited == visited + Ids(ParentsOf(m.events, level[..0]))
    ensures Unseen(visited, ParentsOf(m.events, level[..0])) == []
  {
  }

  lemma NoneAppliedNext(m: Mirror, tuple: Tuple, level: seq<Id>, i: nat)
    requires i < |level| && NoneApplied(m, tuple, Ids(level[..i])) && !Applied(m, tuple, level[i])
    ensures NoneApplied(m, tuple, Ids(level[..i + 1]))
  {
    assert level[..i + 1] == level[..i] + [level[i]];
  }

  /** What is queued after part of a level. */
  lemma QueuedSoFar(events: seq<Event>, visited: set<Id>, level: seq<Id>, i: nat)
    requires i <= |level|
    ensures var queue, visited' := Unseen(visited, ParentsOf(events, level[..i])), visited + Ids(ParentsOf(events, level[..i]));
            NoDup(queue) && Ids(queue) == visited' - visited && visited' <= visited + Step(events, Ids(level)) &&
            (i == |level| ==> visited' == visited + Step(events, Ids(level)))
  {
    hide Step, Unseen, NoDup, ParentsOf;
    UnseenAre(visited, ParentsOf(events, level[..i]));
    ParentsAreStep(events, level[..i]);
    StepOfFewer(events, level, i);
    assert i == |level| ==> level[..i] == level;
  }

  lemma FirstOfLevel(m: Mirror, tuple: Tuple, level: seq<Id>, i: nat)
    requires i < |level| && Applied(m, tuple, level[i]) && NoneApplied(m, tuple, Ids(level[..i]))
    ensures IsFirstApplied(m, tuple, level, level[i])
  {
    forall j | 0 <= j < i
      ensures !Applied(m, tuple, level[j])
    {
      assert level[..i][j] in Ids(level[..i]);
    }
  }

  /**
   * One level of the search: stops at an applied id, or else leaves on the queue
   * exactly the ids one step further back that were not seen before.
   */
  method SearchLevel(m: Mirror, tuple: Tuple, eventIndex: map<Id, Event>, visited: set<Id>, level: seq<Id>)
    returns (hit: Option<Id>, visited': set<Id>, queue: seq<Id>)
    requires Indexes(eventIndex, m.events)
    ensures hit.Some? ==> IsFirstApplied(m, tuple, level, hit.value)
    ensures hit.None? ==> NoneApplied(m, tuple, Ids(level)) && visited' == visited + Step(m.events, Ids(level))
    ensures hit.None? ==> queue == Unseen(visited, ParentsOf(m.events, level))
    ensures NoDup(queue) && Ids(queue) == visited' - visited
    ensures visited <= visited' <= visited + Step(m.events, Ids(level))
  {
    visited', queue := visited, [];
    hide Step, NoDup, Ids, Unseen, Stored;
    NothingQueued(m, tuple, visited, level);
    for i := 0 to |level|
      invariant NoneApplied(m, tuple, Ids(level[..i]))
      invariant visited' == visited + Ids(ParentsOf(m.events, level[..i]))
      invariant queue == Unseen(visited, ParentsOf(m.events, level[..i]))
    {
      hide NoneApplied, ParentsOf;
      var id := level[i];
      if Applied(m, tuple, id) {
        FirstOfLevel(m, tuple, level, i);
        QueuedSoFar(m.events, visited, level, i);
        return Some(id), visited', queue;
      }
      NoneAppliedNext(m, tuple, level, i);
      QueueNext(m.events, visited, level, i);
      if id in eventIndex {
        visited', queue := EnqueueUnseen(visited', queue, eventIndex[id].prev);
      }
    }
    assert level[..|level|] == level;
    QueuedSoFar(m.events, visited, level, |level|);
    return None, visited', queue;
  }

  /**
   * What the search promises of the ids it queued, each once: none if an auth
   * event was found; up to the level of the event found, and some of the next;
   * or all within the depth bound.
   */
  ghost predicate IsQueued(m: Mirror, tuple: Tuple, prev: seq<Id>, auth: seq<Id>, maxDepth: nat, r: Id, queued: seq<Id>) {
    NoDup(queued) &&
    if AnyAppliedOf(m, tuple, auth) then queued == []
    else
      (exists d :: 0 <= d < maxDepth && Nearest(m, tuple, prev, d, r) &&
                   Within(m.events, prev, d) <= Ids(queued) <= Within(m.events, prev, d + 1)) ||
      (r == "" && NoneApplied(m, tuple, Nearer(m.events, prev, maxDepth)) && Ids(queued) == Within(m.events, prev, maxDepth))
  }

  /** What the search promises of its answer. */
  ghost predicate IsPredecessor(m: Mirror, tuple: Tuple, prev: seq<Id>, auth: seq<Id>, maxDepth: nat, r: Id) {
    if AnyAppliedOf(m, tuple, auth) then IsFirstApplied(m, tuple, auth, r)
    else
      (exists d :: 0 <= d < maxDepth && Nearest(m, tuple, prev, d, r) &&
                   IsFirstApplied(m, tuple, LevelOf(m.events, prev, d), r)) ||
      (r == "" && NoneApplied(m, tuple, Nearer(m.events, prev, maxDepth)))
  }

  /**
   * The predecessor: the first auth event applied for the tuple, or else, of the
   * nearest applied events fewer than `maxDepth` steps back, the first in the
   * order of the queue, or else empty; no id enters the queue twice.
   */
  method FindPredecessor(m: Mirror, tuple: Tuple, prev: seq<Id>, auth: seq<Id>, maxDepth: nat)
    returns (r: Id, ghost enqueued: seq<Id>)
    ensures IsPredecessor(m, tuple, prev, auth, maxDepth, r)
    ensures IsQueued(m, tuple, prev, auth, maxDepth, r, enqueued)
  {
    var first := FirstAppliedOf(m, tuple, auth);
    if first.Some? {
      return first.value, [];
    }
    hide NoDup, Ids, Within, Nearer;
    r, enqueued := SearchBack(m, tuple, prev, maxDepth);
  }

  /** The breadth-first part of the search. */
  method SearchBack(m: Mirror, tuple: Tuple, prev: seq<Id>, maxDepth: nat) returns (r: Id, ghost enqueued: seq<Id>)
    ensures NoDup(enqueued)
    ensures (exists d :: 0 <= d < maxDepth && FoundAt(m, tuple, prev, d, r, enqueued)) ||
            (r == "" && NoneApplied(m, tuple, Nearer(m.events, prev, maxDepth)) &&
             Ids(enqueued) == Within(m.events, prev, maxDepth))
  {
    hide Within, Step, NoDup, Ids, IsFirstApplied, Unseen, ParentsOf, LevelOf, Indexes, FoundAt;
    var eventIndex := IndexEvents(m.events);
    var visited, queue := EnqueueUnseen({}, [], prev);
    enqueued := queue;
    var depth := 0;
    FirstLevel(m.events, prev);
    while depth < maxDepth && queue != []
      invariant depth <= maxDepth
      invariant visited == Within(m.events, prev, depth) && queue == LevelOf(m.events, prev, depth)
      invariant NoDup(enqueued) && Ids(enqueued) == visited
      invariant NoneApplied(m, tuple, Nearer(m.events, prev, depth))
    {
      var hit, visited', next := SearchLevel(m, tuple, eventIndex, visited, queue);
      LevelNext(m.events, prev, depth);
      NoDupAppend(enqueued, next);
      IdsAppend(enqueued, next);
      if hit.Some? {
        FoundIs(m, tuple, prev, depth, hit.value, enqueued + next);
        return hit.value, enqueued + next;
      }
      NoneAppliedBoth(m, tuple, prev, depth);
      enqueued := enqueued + next;
      visited, queue, depth := visited', next, depth + 1;
    }
    if depth < maxDepth {
      LastLevel(m.events, prev, depth, maxDepth);
    }
    return "", enqueued;
  }

  /** Found at the distance, first of its level in the order of the queue, with nothing further than one more step queued. */
  ghost predicate FoundAt(m: Mirror, tuple: Tuple, prev: seq<Id>, d: nat, r: Id, queued: seq<Id>) {
    Nearest(m, tuple, prev, d, r) && IsFirstApplied(m, tuple, LevelOf(m.events, prev, d), r) &&
    Within(m.events, prev, d) <= Ids(queued) <= Within(m.events, prev, d + 1)
  }

  lemma FoundIs(m: Mirror, tuple: Tuple, prev: seq<Id>, d: nat, r: Id, queued: seq<Id>)
    requires IsFirstApplied(m, tuple, LevelOf(m.events, prev, d), r) && NoneApplied(m, tuple, Nearer(m.events, prev, d))
    requires Within(m.events, prev, d) <= Ids(queued) <= Within(m.events, prev, d + 1)
    ensures FoundAt(m, tuple, prev, d, r, queued)
  {
    hide Within, LevelOf;
    FirstIsApplied(m, tuple, LevelOf(m.events, prev, d), r);
    LevelAre(m.events, prev, d);
  }

  lemma NoneAppliedBoth(m: Mirror, tuple: Tuple, prev: seq<Id>, d: nat)
    requires NoneApplied(m, tuple, Nearer(m.events, prev, d)) && NoneApplied(m, tuple, Ids(LevelOf(m.events, prev, d)))
    ensures NoneApplied(m, tuple, Nearer(m.events, prev, d + 1))
  {
    hide Within, LevelOf;
    LevelAre(m.events, prev, d);
    assert Nearer(m.events, prev, d + 1) == Within(m.events, prev, d);
  }
}
