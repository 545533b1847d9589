/**
 * The per-user notification history and its retention bound
 * (src/database/persistent_store.cpp).
 */
module Notifications {
  import opened Basics

  type Id = string

  datatype Notification = Notification(user: Id, room: Id, event: Id, ordering: nat, ts: nat, actions: string)

  const MAX_PER_USER: nat := 200

  function Least(a: nat, b: nat): nat {
    if a <= b then a else b
  }

  function KeyOf(n: Notification): (Id, Id) { (n.user, n.event) }

  function OfUser(user: Id): Notification -> bool { (n: Notification) => n.user == user }
  function OfOthers(user: Id): Notification -> bool { (n: Notification) => n.user != user }

  /** What is left when some events' notifications of a user are dropped. */
  function Unless(user: Id, dropped: set<Id>): Notification -> bool {
    (n: Notification) => !(n.user == user && n.event in dropped)
  }

  ghost predicate UniqueKeys(list: seq<Notification>) {
    forall i, j :: 0 <= i < j < |list| ==> KeyOf(list[i]) != KeyOf(list[j])
  }

  /** The row with the same user and event replaced, or the row added. */
  function Upsert(list: seq<Notification>, n: Notification): seq<Notification> {
    if list == [] then [n]
    else if KeyOf(list[0]) == KeyOf(n) then [n] + list[1..]
    else [list[0]] + Upsert(list[1..], n)
  }

  function EraseFirst(list: seq<Notification>, key: (Id, Id)): seq<Notification> {
    if list == [] then []
    else if KeyOf(list[0]) == key then list[1..]
    else [list[0]] + EraseFirst(list[1..], key)
  }

  lemma {:induction false} UpsertKeys(list: seq<Notification>, n: Notification)
    requires UniqueKeys(list)
    ensures UniqueKeys(Upsert(list, n))
    ensures forall x :: x in Upsert(list, n) ==> x == n || (x in list && KeyOf(x) != KeyOf(n))
  {
    if list != [] {
      UpsertKeys(list[1..], n);
      if KeyOf(list[0]) != KeyOf(n) {
        UniqueCons(list[0], Upsert(list[1..], n));
      }
    }
  }

  lemma UniqueCons(first: Notification, rest: seq<Notification>)
    requires UniqueKeys(rest) && forall x :: x in rest ==> KeyOf(x) != KeyOf(first)
    ensures UniqueKeys([first] + rest)
  {
  }

  /** An upsert leaves other users' rows alone. */
  lemma {:induction false} UpsertKeepsOthers(list: seq<Notification>, n: Notification)
    ensures Filter(Upsert(list, n), OfOthers(n.user)) == Filter(list, OfOthers(n.user))
  {
    if list != [] {
      var rest := Upsert(list[1..], n);
      UpsertKeepsOthers(list[1..], n);
      assert ([list[0]] + rest)[1..] == rest && ([n] + list[1..])[1..] == list[1..];
    }
  }

  lemma {:induction false} UpsertKeeps(list: seq<Notification>, n: Notification, x: Notification)
    requires x == n || (x in list && KeyOf(x) != KeyOf(n))
    ensures x in Upsert(list, n)
  {
    if list != [] && KeyOf(list[0]) != KeyOf(n) && x != list[0] {
      UpsertKeeps(list[1..], n, x);
    }
  }

  /** The rows after an upsert: the new one, and those with other keys. */
  lemma UpsertMembers(list: seq<Notification>, n: Notification)
    requires UniqueKeys(list)
    ensures forall x :: x in Upsert(list, n) <==> x == n || (x in list && KeyOf(x) != KeyOf(n))
  {
    UpsertKeys(list, n);
    hide Upsert, UniqueKeys;
    forall x | x == n || (x in list && KeyOf(x) != KeyOf(n))
      ensures x in Upsert(list, n)
    {
      UpsertKeeps(list, n, x);
    }
  }

  /** Where keys are unique, erasing the row with a key is filtering the key out. */
  lemma {:induction false} EraseIsFilter(list: seq<Notification>, user: Id, event: Id)
    requires UniqueKeys(list)
    ensures EraseFirst(list, (user, event)) == Filter(list, Unless(user, {event}))
  {
    if list != [] {
      EraseIsFilter(list[1..], user, event);
      if KeyOf(list[0]) == (user, event) {
        assert forall x :: x in list[1..] ==> KeyOf(x) != KeyOf(list[0]);
        FilterAll(list[1..], Unless(user, {event}));
      }
    }
  }

  lemma {:induction false} EraseCounts(list: seq<Notification>, user: Id, event: Id, n: Notification)
    requires n in list && KeyOf(n) == (user, event)
    ensures |Filter(EraseFirst(list, (user, event)), OfUser(user))| == |Filter(list, OfUser(user))| - 1
  {
    if KeyOf(list[0]) != (user, event) {
      EraseCounts(list[1..], user, event, n);
      var rest := EraseFirst(list[1..], (user, event));
      assert ([list[0]] + rest)[1..] == rest;
    }
  }

  lemma {:induction false} FilterUnique(list: seq<Notification>, p: Notification -> bool)
    requires UniqueKeys(list)
    ensures UniqueKeys(Filter(list, p))
  {
    if list != [] {
      FilterUnique(list[1..], p);
      var rest := Filter(list[1..], p);
      assert forall x :: x in rest ==> KeyOf(x) != KeyOf(list[0]);
    }
  }

  // ---- Sorting by stream ordering ------------------------------------------------------

  ghost predicate Ascending(list: seq<Notification>) {
    forall i, j :: 0 <= i < j < |list| ==> list[i].ordering <= list[j].ordering
  }

  function Place(list: seq<Notification>, n: Notification): seq<Notification> {
    if list == [] || n.ordering <= list[0].ordering then [n] + list else [list[0]] + Place(list[1..], n)
  }

  lemma {:induction false} PlaceMembers(list: seq<Notification>, n: Notification)
    ensures multiset(Place(list, n)) == multiset(list) + multiset{n}
    ensures forall x :: x in Place(list, n) ==> x == n || x in list
  {
    if list != [] && n.ordering > list[0].ordering {
      PlaceMembers(list[1..], n);
      assert list == [list[0]] + list[1..];
    }
  }

  lemma {:induction false} PlaceAscends(list: seq<Notification>, n: Notification)
    requires Ascending(list)
    ensures Ascending(Place(list, n))
  {
    if list != [] && n.ordering > list[0].ordering {
      var rest := Place(list[1..], n);
      PlaceAscends(list[1..], n);
      PlaceMembers(list[1..], n);
      forall x | x in rest
        ensures list[0].ordering <= x.ordering
      {
      }
      hide Place;
      AscendingCons(list[0], rest);
    }
  }

  lemma AscendingCons(first: Notification, rest: seq<Notification>)
    requires Ascending(rest) && forall x :: x in rest ==> first.ordering <= x.ordering
    ensures Ascending([first] + rest)
  {
  }

  /** Some sorted arrangement of the rows; which one, for equal orderings, is left open. */
  method SortByOrdering(rows: seq<Notification>) returns (r: seq<Notification>)
    ensures Ascending(r) && multiset(r) == multiset(rows)
  {
    r := [];
    for i := 0 to |rows|
      invariant Ascending(r) && multiset(r) == multiset(rows[..i])
    {
      assert rows[..i + 1] == rows[..i] + [rows[i]];
      PlaceMembers(r, rows[i]);
      PlaceAscends(r, rows[i]);
      r := Place(r, rows[i]);
    }
    assert rows[..|rows|] == rows;
  }

  // ---- Retention -------------------------------------------------------------------------

  /**
   * What retention promises: the user keeps the smaller of the bound and all
   * rows, nothing dropped is newer than anything kept, and the rest, other
   * users' rows included, stays in place.
   */
  ghost predicate Retained(before: seq<Notification>, user: Id, dropped: set<Id>, after: seq<Notification>) {
    var n := |Filter(before, OfUser(user))|;
    after == Filter(before, Unless(user, dropped)) &&
    |Filter(after, OfUser(user))| == Least(MAX_PER_USER, n) &&
    NothingNewerDropped(before, user, dropped)
  }

  ghost predicate NothingNewerDropped(before: seq<Notification>, user: Id, dropped: set<Id>) {
    var kept := Filter(before, Unless(user, dropped));
    forall x, y :: x in before && x.user == user && x.event in dropped && y in kept && y.user == user ==>
      x.ordering <= y.ordering
  }

  lemma RetainedIsFilter(before: seq<Notification>, user: Id, dropped: set<Id>, after: seq<Notification>)
    requires Retained(before, user, dropped, after)
    ensures after == Filter(before, Unless(user, dropped))
  {
  }

  lemma OthersStay(list: seq<Notification>, user: Id, dropped: set<Id>)
    ensures Filter(Filter(list, Unless(user, dropped)), OfOthers(user)) == Filter(list, OfOthers(user))
  {
    FilterTwice(list, Unless(user, dropped), OfOthers(user), OfOthers(user));
  }

  /** The oldest rows of a sorted arrangement are no newer than the ones left. */
  lemma OldestFirst(rows: seq<Notification>, sorted: seq<Notification>, excess: nat, x: Notification, y: Notification)
    requires Ascending(sorted) && multiset(sorted) == multiset(rows) && excess <= |sorted|
    requires x in sorted[..excess] && y in rows && y !in sorted[..excess]
    ensures x.ordering <= y.ordering
  {
    assert y in multiset(rows) && y in multiset(sorted);
    assert sorted == sorted[..excess] + sorted[excess..];
    assert y in sorted[excess..];
    var i :| 0 <= i < excess && sorted[i] == x;
    var j :| 0 <= j < |sorted[excess..]| && sorted[excess..][j] == y;
    assert sorted[excess + j] == y;
  }

  ghost function EventsOf(rows: seq<Notification>): set<Id> {
    set i | 0 <= i < |rows| :: rows[i].event
  }

  // ---- The database ------------------------------------------------------------------------

  type Rows = map<(Id, Id), Notification>

  /** The first `k` prunes sent to the database, some of which may fail unnoticed. */
  function PrunedRows(rows: Rows, oldest: seq<Notification>, prunes: nat -> bool, k: nat): Rows
    requires k <= |oldest|
  {
    if k == 0 then rows else Pruned(PrunedRows(rows, oldest, prunes, k - 1), KeyOf(oldest[k - 1]), prunes(k - 1))
  }

  function Pruned(rows: Rows, key: (Id, Id), ok: bool): Rows {
    if ok then rows - {key} else rows
  }

  /** Exactly the rows of obeyed prunes are gone. */
  lemma {:induction false} PrunedRowsAre(rows: Rows, oldest: seq<Notification>, prunes: nat -> bool, k: nat, key: (Id, Id))
    requires k <= |oldest|
    ensures var after := PrunedRows(rows, oldest, prunes, k);
            (key in after <==> key in rows && !exists i :: 0 <= i < k && prunes(i) && KeyOf(oldest[i]) == key) &&
            (key in after ==> after[key] == rows[key])
  {
    if k > 0 {
      PrunedRowsAre(rows, oldest, prunes, k - 1, key);
    }
  }

  /** Every row of the mirror is the database's. */
  ghost predicate Backed(list: seq<Notification>, rows: Rows) {
    forall n :: n in list ==> KeyOf(n) in rows && rows[KeyOf(n)] == n
  }

  lemma UpsertBacked(list: seq<Notification>, rows: Rows, n: Notification)
    requires UniqueKeys(list) && Backed(list, rows)
    ensures Backed(Upsert(list, n), rows[KeyOf(n) := n])
  {
    UpsertKeys(list, n);
  }

  lemma PruneKeepsBacked(
    list: seq<Notification>, rows: Rows, user: Id, oldest: seq<Notification>, prunes: nat -> bool, after: seq<Notification>)
    requires Backed(list, rows) && Retained(list, user, EventsOf(oldest), after)
    requires forall i :: 0 <= i < |oldest| ==> oldest[i].user == user
    ensures Backed(after, PrunedRows(rows, oldest, prunes, |oldest|))
  {
    forall n | n in after
      ensures var left := PrunedRows(rows, oldest, prunes, |oldest|); KeyOf(n) in left && left[KeyOf(n)] == n
    {
      assert n in list && Unless(user, EventsOf(oldest))(n);
      PrunedRowsAre(rows, oldest, prunes, |oldest|, KeyOf(n));
      if n.user == user {
        forall i | 0 <= i < |oldest|
          ensures KeyOf(oldest[i]) != KeyOf(n)
        {
          assert oldest[i].event in EventsOf(oldest);
        }
      }
    }
  }

  class NotificationStore {
    var notifications: seq<Notification>
    var rows: Rows

    constructor ()
      ensures notifications == [] && rows == map[]
    {
      notifications, rows := [], map[];
    }

    /** `ok` is the database's answer to the upsert; its answers to prunes are not looked at. */
    method StoreNotification(n: Notification, ok: bool, prunes: nat -> bool) returns (r: bool, oldest: seq<Notification>)
      requires UniqueKeys(notifications)
      modifies this
      ensures r <==> n.user != "" && n.room != "" && n.event != "" && ok
      ensures !r ==> notifications == old(notifications) && rows == old(rows)
      ensures r ==> Retained(Upsert(old(notifications), n), n.user, EventsOf(oldest), notifications)
      ensures r ==> OnlyOldGone(Upsert(old(notifications), n), n.user, notifications)
      ensures r ==> KeptUnlessOld(old(notifications), n, notifications)
      ensures r ==> rows == PrunedRows(old(rows)[KeyOf(n) := n], oldest, prunes, |oldest|)
      ensures AreOf(oldest, Upsert(old(notifications), n), n.user)
      ensures Filter(notifications, OfOthers(n.user)) == Filter(old(notifications), OfOthers(n.user))
      ensures UniqueKeys(notifications) && (Backed(old(notifications), old(rows)) ==> Backed(notifications, rows))
    {
      if n.user == "" || n.room == "" || n.event == "" || !ok {
        return false, [];
      }
      UpsertKeys(notifications, n);
      UpsertMembers(notifications, n);
      UpsertKeepsOthers(notifications, n);
      if Backed(notifications, rows) {
        UpsertBacked(notifications, rows, n);
      }
      hide Retained, Upsert, Backed, PrunedRows, EventsOf;
      rows := rows[KeyOf(n) := n];
      notifications := Upsert(notifications, n);
      ghost var before, beforeRows := notifications, rows;
      notifications, rows, oldest := Retain(notifications, rows, n.user, prunes);
      if Backed(before, beforeRows) {
        PruneKeepsBacked(before, beforeRows, n.user, oldest, prunes, notifications);
      }
      RetainedIsFilter(before, n.user, EventsOf(oldest), notifications);
      NewUnlessOld(old(notifications), n, before, EventsOf(oldest), notifications);
      FilterUnique(before, Unless(n.user, EventsOf(oldest)));
      return true, oldest;
    }
  }

  /**
   * Nothing else is shown than the new row and the rows of other users or other
   * events; one of these is missing only if it is the user's and 200 rows
   * of the user are shown that are no older.
   */
  ghost predicate KeptUnlessOld(was: seq<Notification>, n: Notification, now: seq<Notification>) {
    (forall x :: x in now ==> x == n || (x in was && (x.user != n.user || x.event != n.event))) &&
    forall x :: (x == n || (x in was && (x.user != n.user || x.event != n.event))) && x !in now ==>
      x.user == n.user && |Filter(now, OfUser(n.user))| == 200 &&
      forall y :: y in now && y.user == n.user ==> x.ordering <= y.ordering
  }

  lemma {:induction false} FilterShorter(list: seq<Notification>, p: Notification -> bool, q: Notification -> bool, x: Notification)
    ensures |Filter(Filter(list, p), q)| <= |Filter(list, q)|
    ensures x in list && q(x) && !p(x) ==> |Filter(Filter(list, p), q)| < |Filter(list, q)|
  {
    if list != [] {
      FilterShorter(list[1..], p, q, x);
      var rest := Filter(list[1..], p);
      assert ([list[0]] + rest)[1..] == rest;
    }
  }

  lemma NewUnlessOld(was: seq<Notification>, n: Notification, list: seq<Notification>, dropped: set<Id>, now: seq<Notification>)
    requires Retained(list, n.user, dropped, now) && OnlyOldGone(list, n.user, now)
    requires forall x :: x in list <==> x == n || (x in was && KeyOf(x) != KeyOf(n))
    ensures KeptUnlessOld(was, n, now)
  {
    forall x | x in list && x !in now
      ensures |Filter(now, OfUser(n.user))| == 200
    {
      FilterShorter(list, Unless(n.user, dropped), OfUser(n.user), x);
    }
  }

  lemma SameKeySameRow(list: seq<Notification>)
    requires UniqueKeys(list)
    ensures forall x, y :: x in list && y in list && KeyOf(x) == KeyOf(y) ==> x == y
  {
  }

  /** Sorting rows with unique keys leaves the keys unique. */
  lemma SortedUnique(rows: seq<Notification>, sorted: seq<Notification>)
    requires UniqueKeys(rows) && multiset(sorted) == multiset(rows)
    ensures UniqueKeys(sorted) && |sorted| == |rows|
  {
    assert |multiset(sorted)| == |multiset(rows)|;
    SameKeySameRow(rows);
    assert NoDup(rows);
    forall i, j | 0 <= i < j < |sorted|
      ensures KeyOf(sorted[i]) != KeyOf(sorted[j])
    {
      var x, y := sorted[i], sorted[j];
      assert x in multiset(rows) && y in multiset(rows);
      NoDupCount(rows, x);
      assert sorted == sorted[..j] + sorted[j..];
      assert multiset(sorted)[x] == multiset(sorted[..j])[x] + multiset(sorted[j..])[x];
      assert x in sorted[..j] && y in sorted[j..];
    }
  }

  method RowsOfUser(list: seq<Notification>, user: Id) returns (rows: seq<Notification>)
    ensures rows == Filter(list, OfUser(user))
  {
    rows := [];
    for i := 0 to |list|
      invariant rows == Filter(list[..i], OfUser(user))
    {
      FilterNext(list, i, OfUser(user));
      if list[i].user == user {
        rows := rows + [list[i]];
      }
    }
    assert list[..|list|] == list;
  }

  /** All of them are rows of the list, and the user's. */
  ghost predicate AreOf(oldest: seq<Notification>, list: seq<Notification>, user: Id) {
    forall i :: 0 <= i < |oldest| ==> oldest[i] in list && oldest[i].user == user
  }

  /** Each of the oldest rows pruned in the database, if it obeys, and erased from the mirror. */
  method EraseAll(list: seq<Notification>, rows: Rows, user: Id, oldest: seq<Notification>, prunes: nat -> bool)
    returns (r: seq<Notification>, rows': Rows)
    requires UniqueKeys(list) && UniqueKeys(oldest) && AreOf(oldest, list, user)
    ensures r == Filter(list, Unless(user, EventsOf(oldest)))
    ensures |Filter(r, OfUser(user))| == |Filter(list, OfUser(user))| - |oldest|
    ensures rows' == PrunedRows(rows, oldest, prunes, |oldest|)
  {
    r, rows' := list, rows;
    FilterAll(list, Unless(user, EventsOf(oldest[..0])));
    hide Filter, EventsOf, EraseFirst, UniqueKeys, AreOf, Pruned;
    for i := 0 to |oldest|
      invariant r == Filter(list, Unless(user, EventsOf(oldest[..i])))
      invariant |Filter(r, OfUser(user))| == |Filter(list, OfUser(user))| - i
      invariant rows' == PrunedRows(rows, oldest, prunes, i)
    {
      rows' := Pruned(rows', KeyOf(oldest[i]), prunes(i));
      EraseNext(list, user, oldest, i);
      r := EraseFirst(r, (user, oldest[i].event));
    }
    assert oldest[..|oldest|] == oldest;
  }

  lemma EraseNext(list: seq<Notification>, user: Id, oldest: seq<Notification>, i: nat)
    requires UniqueKeys(list) && UniqueKeys(oldest) && AreOf(oldest, list, user) && i < |oldest|
    ensures var r := Filter(list, Unless(user, EventsOf(oldest[..i])));
            var r' := EraseFirst(r, (user, oldest[i].event));
            r' == Filter(list, Unless(user, EventsOf(oldest[..i + 1]))) &&
            |Filter(r', OfUser(user))| == |Filter(r, OfUser(user))| - 1
  {
    var n, erased := oldest[i], EventsOf(oldest[..i]);
    var r := Filter(list, Unless(user, erased));
    assert n.event !in erased by {
      assert forall j :: 0 <= j < i ==> KeyOf(oldest[j]) != KeyOf(oldest[i]);
    }
    assert n in r;
    FilterUnique(list, Unless(user, erased));
    EraseIsFilter(r, user, n.event);
    EraseCounts(r, user, n.event, n);
    EventsOfNext(oldest, i);
    FilterTwice(list, Unless(user, erased), Unless(user, {n.event}), Unless(user, EventsOf(oldest[..i + 1])));
  }

  lemma EventsOfNext(rows: seq<Notification>, i: nat)
    requires i < |rows|
    ensures EventsOf(rows[..i + 1]) == EventsOf(rows[..i]) + {rows[i].event}
  {
    assert rows[..i + 1] == rows[..i] + [rows[i]];
    forall event | event in EventsOf(rows[..i])
      ensures event in EventsOf(rows[..i + 1])
    {
      var j :| 0 <= j < i && rows[..i][j].event == event;
      assert rows[..i + 1][j].event == event;
    }
    assert rows[..i + 1][i].event == rows[i].event;
  }

  /** What is dropped are rows among the oldest, what is kept are not. */
  lemma DroppedAmongOldest(list: seq<Notification>, user: Id, oldest: seq<Notification>, x: Notification)
    requires UniqueKeys(list) && x in list && x.user == user && AreOf(oldest, list, user)
    ensures x.event in EventsOf(oldest) <==> x in oldest
  {
    SameKeySameRow(list);
    if x.event in EventsOf(oldest) {
      var i :| 0 <= i < |oldest| && oldest[i].event == x.event;
      assert KeyOf(oldest[i]) == KeyOf(x);
    }
  }

  /** Only rows of the user are gone, and none that is newer than one the user still has. */
  ghost predicate OnlyOldGone(before: seq<Notification>, user: Id, after: seq<Notification>) {
    (forall x :: x in before && x !in after ==> x.user == user) &&
    (forall x, y :: x in before && x !in after && y in after && y.user == user ==> x.ordering <= y.ordering)
  }

  lemma RetainedDropsOldest(before: seq<Notification>, user: Id, dropped: set<Id>, after: seq<Notification>)
    requires Retained(before, user, dropped, after)
    ensures OnlyOldGone(before, user, after)
    ensures Filter(after, OfOthers(user)) == Filter(before, OfOthers(user))
  {
    OthersStay(before, user, dropped);
    forall x | x in before && x !in after
      ensures x.user == user && x.event in dropped
    {
      assert !Unless(user, dropped)(x);
    }
  }

  method Retain(list: seq<Notification>, rows: Rows, user: Id, prunes: nat -> bool)
    returns (r: seq<Notification>, rows': Rows, oldest: seq<Notification>)
    requires UniqueKeys(list)
    ensures Retained(list, user, EventsOf(oldest), r)
    ensures |Filter(r, OfUser(user))| == Least(200, |Filter(list, OfUser(user))|)
    ensures OnlyOldGone(list, user, r) && Filter(r, OfOthers(user)) == Filter(list, OfOthers(user))
    ensures rows' == PrunedRows(rows, oldest, prunes, |oldest|)
    ensures AreOf(oldest, list, user)
  {
    r, rows', oldest := DropOldest(list, rows, user, prunes);
    RetainedDropsOldest(list, user, EventsOf(oldest), r);
  }

  method DropOldest(list: seq<Notification>, rows: Rows, user: Id, prunes: nat -> bool)
    returns (r: seq<Notification>, rows': Rows, oldest: seq<Notification>)
    requires UniqueKeys(list)
    ensures Retained(list, user, EventsOf(oldest), r)
    ensures rows' == PrunedRows(rows, oldest, prunes, |oldest|)
    ensures AreOf(oldest, list, user)
  {
    var own := RowsOfUser(list, user);
    if |own| <= MAX_PER_USER {
      assert EventsOf([]) == {};
      FilterAll(list, Unless(user, {}));
      return list, rows, [];
    }
    hide EventsOf, NothingNewerDropped, UniqueKeys, Ascending, PrunedRows, Filter;
    var sorted := SortByOrdering(own);
    var excess := |own| - MAX_PER_USER;
    SortedAreOf(list, user, sorted, excess);
    oldest := sorted[..excess];
    RetainedByAge(list, user, sorted, excess);
    r, rows' := EraseAll(list, rows, user, oldest, prunes);
  }

  lemma SortedAreOf(list: seq<Notification>, user: Id, sorted: seq<Notification>, excess: nat)
    requires UniqueKeys(list) && multiset(sorted) == multiset(Filter(list, OfUser(user)))
    requires excess <= |Filter(list, OfUser(user))|
    ensures |sorted| == |Filter(list, OfUser(user))| && UniqueKeys(sorted[..excess]) && AreOf(sorted[..excess], list, user)
  {
    var own := Filter(list, OfUser(user));
    FilterUnique(list, OfUser(user));
    SortedUnique(own, sorted);
    forall i | 0 <= i < excess
      ensures sorted[..excess][i] in list && sorted[..excess][i].user == user
    {
      assert sorted[i] in multiset(own);
    }
  }

  lemma RetainedByAge(list: seq<Notification>, user: Id, sorted: seq<Notification>, excess: nat)
    requires UniqueKeys(list) && Ascending(sorted) && excess <= |sorted|
    requires multiset(sorted) == multiset(Filter(list, OfUser(user))) && AreOf(sorted[..excess], list, user)
    ensures NothingNewerDropped(list, user, EventsOf(sorted[..excess]))
  {
    var oldest := sorted[..excess];
    var dropped := EventsOf(oldest);
    forall x, y | x in list && x.user == user && x.event in dropped && y in Filter(list, Unless(user, dropped)) && y.user == user
      ensures x.ordering <= y.ordering
    {
      DroppedAmongOldest(list, user, oldest, x);
      DroppedAmongOldest(list, user, oldest, y);
      OldestFirst(Filter(list, OfUser(user)), sorted, excess, x, y);
    }
  }
}
