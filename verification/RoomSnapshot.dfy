/**
 * Reading the snapshot of a room from PostgreSQL: five queries by room id, and
 * three for the relations that bind one parameter for each event
 * (src/database/postgresql_store.cpp).
 */
module RoomSnapshot {
  import opened Basics
  import opened EventMirror
  import opened RoomReload
  import opened Statements

  // ---- The queries -----------------------------------------------------------------

  function Select(columns: string, table: string, condition: string): string {
    "SELECT " + columns + " FROM " + table + " WHERE " + condition
  }

  function ByRoom(name: string, columns: string, table: string, room: Id): PreparedStatement {
    PreparedStatement(name, Select(columns, table, "room_id = " + "$" + Decimal(1)), [room])
  }

  function RoomQuery(room: Id): PreparedStatement {
    ByRoom("postgresql_reload_room", "room_id, creator_user_id", "rooms", room)
  }

  function MembershipQuery(room: Id): PreparedStatement {
    ByRoom("postgresql_reload_membership", "room_id, user_id, membership, " + "stream_ordering", "membership", room)
  }

  function InviteQuery(room: Id): PreparedStatement {
    ByRoom("postgresql_reload_invites",
           "room_id, user_id, sender_user_id, " + "event_id, signed_event_json, " + "invite_state_json, stream_ordering",
           "invites", room)
  }

  function EventQuery(room: Id): PreparedStatement {
    ByRoom("postgresql_reload_events", "event_id, room_id, sender_user_id, " + "json, depth, stream_ordering", "events", room)
  }

  function StateQuery(room: Id): PreparedStatement {
    ByRoom("postgresql_reload_current_state", "room_id, event_type, " + "state_key, event_id", "current_state", room)
  }

  /** The placeholders from `k` to `n`, separated by commas. */
  function PlaceholderList(k: nat, n: nat): string
    requires k <= n
    decreases n - k
  {
    if k == n then "$" + Decimal(k) else "$" + Decimal(k) + "," + PlaceholderList(k + 1, n)
  }

  function ByEvents(name: string, columns: string, table: string, ids: seq<Id>): PreparedStatement {
    PreparedStatement(
      name,
      Select(columns, table, "event_id IN (" + (if ids == [] then "" else PlaceholderList(1, |ids|)) + ")"),
      ids)
  }

  function EdgeQuery(ids: seq<Id>): PreparedStatement {
    ByEvents("postgresql_reload_event_edges", "event_id, prev_event_id", "event_edges", ids)
  }

  function AuthQuery(ids: seq<Id>): PreparedStatement {
    ByEvents("postgresql_reload_event_auth", "event_id, auth_event_id", "event_auth", ids)
  }

  function SignatureQuery(ids: seq<Id>): PreparedStatement {
    ByEvents("postgresql_reload_event_signatures", "event_id, server_name, " + "key_id, signature", "event_signatures", ids)
  }

  // ---- Which of them are valid --------------------------------------------------------

  /** Text that neither holds a placeholder nor can be part of a forbidden fragment. */
  predicate Plain(s: string) {
    forall i :: 0 <= i < |s| ==> s[i] != '$' && Harmless(s[i])
  }

  predicate Harmless(c: char) {
    c != ';' && c != '-' && c != '/' && c != '*'
  }

  predicate AllHarmless(s: string) {
    forall i :: 0 <= i < |s| ==> Harmless(s[i])
  }

  lemma HarmlessAppend(a: string, b: string)
    requires AllHarmless(a) && AllHarmless(b)
    ensures AllHarmless(a + b)
  {
  }

  lemma PlainAppend(a: string, b: string)
    requires Plain(a) && Plain(b)
    ensures Plain(a + b)
  {
  }

  /** A query's text up to its placeholders is plain. */
  lemma SelectIsPlain(columns: string, table: string)
    requires Plain(columns) && Plain(table)
    ensures Plain("SELECT " + columns + " FROM " + table + " WHERE ")
  {
    PlainAppend("SELECT ", columns);
    PlainAppend("SELECT " + columns, " FROM ");
    PlainAppend("SELECT " + columns + " FROM ", table);
    PlainAppend("SELECT " + columns + " FROM " + table, " WHERE ");
  }

  /** Plain text around a harmless list of placeholders makes an allowed statement, if it is not too long. */
  lemma SelectIsAllowed(columns: string, table: string, condition: string)
    requires Plain(columns) && Plain(table) && AllHarmless(condition)
    requires |columns| <= 200 && |table| <= 50 && |condition| <= 15000
    ensures ShapeIsAllowed(Select(columns, table, condition))
  {
    var front := "SELECT " + columns + " FROM " + table + " WHERE ";
    SelectIsPlain(columns, table);
    HarmlessAppend(front, condition);
    var sql := Select(columns, table, condition);
    assert sql == front + condition;
    assert sql[..7] == "SELECT ";
    assert "SELECT " <= sql;
  }

  lemma RoomQueryIsValid(room: Id)
    ensures IsValid(RoomQuery(room))
  {
    hide IsValid;
    ByRoomIsValid("postgresql_reload_room", "room_id, creator_user_id", "rooms", room);
  }

  lemma MembershipQueryIsValid(room: Id)
    ensures IsValid(MembershipQuery(room))
  {
    hide IsValid;
    PlainAppend("room_id, user_id, membership, ", "stream_ordering");
    ByRoomIsValid("postgresql_reload_membership", "room_id, user_id, membership, " + "stream_ordering", "membership", room);
  }

  lemma InviteColumnsArePlain()
    ensures Plain("room_id, user_id, sender_user_id, " + "event_id, signed_event_json, " + "invite_state_json, stream_ordering")
  {
    PlainAppend("room_id, user_id, sender_user_id, ", "event_id, signed_event_json, ");
    hide Plain;
    assert Plain("invite_state_json, stream_ordering") by {
      InviteStateIsPlain();
    }
    PlainAppend("room_id, user_id, sender_user_id, " + "event_id, signed_event_json, ", "invite_state_json, stream_ordering");
  }

  lemma InviteStateIsPlain()
    ensures Plain("invite_state_json, stream_ordering")
  {
  }

  lemma InviteQueryIsValid(room: Id)
    ensures IsValid(InviteQuery(room))
  {
    hide IsValid, Plain;
    InviteColumnsArePlain();
    assert Plain("invites") by {
      InvitesIsPlain();
    }
    ByRoomIsValid("postgresql_reload_invites",
                  "room_id, user_id, sender_user_id, " + "event_id, signed_event_json, " + "invite_state_json, stream_ordering",
                  "invites", room);
  }

  lemma InvitesIsPlain()
    ensures Plain("invites")
  {
  }

  lemma EventQueryIsValid(room: Id)
    ensures IsValid(EventQuery(room))
  {
    hide IsValid;
    PlainAppend("event_id, room_id, sender_user_id, ", "json, depth, stream_ordering");
    ByRoomIsValid("postgresql_reload_events", "event_id, room_id, sender_user_id, " + "json, depth, stream_ordering", "events", room);
  }

  lemma StateNameIsValid()
    ensures NameIsValid("postgresql_reload_current_state")
  {
  }

  lemma StateColumnsArePlain()
    ensures Plain("room_id, event_type, " + "state_key, event_id") && Plain("current_state")
  {
    PlainAppend("room_id, event_type, ", "state_key, event_id");
  }

  lemma StateQueryIsValid(room: Id)
    ensures IsValid(StateQuery(room))
  {
    hide IsValid, NameIsValid, Plain;
    StateNameIsValid();
    StateColumnsArePlain();
    ByRoomIsValid("postgresql_reload_current_state", "room_id, event_type, " + "state_key, event_id", "current_state", room);
  }

  /** The five queries by room id always pass. */
  lemma RoomQueriesAreValid(room: Id)
    ensures IsValid(RoomQuery(room)) && IsValid(MembershipQuery(room)) && IsValid(InviteQuery(room)) &&
            IsValid(EventQuery(room)) && IsValid(StateQuery(room))
  {
    hide IsValid, RoomQuery, MembershipQuery, InviteQuery, EventQuery, StateQuery;
    RoomQueryIsValid(room);
    MembershipQueryIsValid(room);
    InviteQueryIsValid(room);
    EventQueryIsValid(room);
    StateQueryIsValid(room);
  }

  lemma ByRoomIsValid(name: string, columns: string, table: string, room: Id)
    requires NameIsValid(name) && Plain(columns) && Plain(table) && |columns| <= 200 && |table| <= 50
    ensures IsValid(ByRoom(name, columns, table, room))
  {
    hide NameIsValid, ShapeIsAllowed, Plain;
    var condition := "room_id = " + "$" + Decimal(1);
    assert Decimal(1) == "1";
    assert AllHarmless(condition);
    SelectIsAllowed(columns, table, condition);
    SelectIsPlain(columns, table);
    var front := "SELECT " + columns + " FROM " + table + " WHERE ";
    OnePlaceholder(front);
    assert Select(columns, table, condition) == front + "room_id = " + ("$" + Decimal(1) + "");
  }

  lemma OnePlaceholder(front: string)
    requires Plain(front)
    ensures Placeholders(front + "room_id = " + ("$" + Decimal(1) + "")) == Some([1])
  {
    PlainAppend(front, "room_id = ");
    NoDollar(front + "room_id = ", "$" + Decimal(1) + "");
    OneDollar(1, "");
    assert [1] + [] == [1];
  }

  // ---- Relation queries ------------------------------------------------------------------

  function Upto(k: nat, n: nat): (s: seq<nat>)
    requires k <= n
    ensures |s| == n - k + 1 && forall i :: 0 <= i < |s| ==> s[i] == k + i
    decreases n - k
  {
    if k == n then [k] else [k] + Upto(k + 1, n)
  }

  /** The list names every number from `k` to `n` once, in order. */
  lemma {:induction false} ListedPlaceholders(k: nat, n: nat)
    requires k <= n < SIZE_T
    ensures Placeholders(PlaceholderList(k, n) + ")") == Some(Upto(k, n))
    decreases n - k
  {
    if k == n {
      ClosingParenthesis();
      hide Placeholders, Decimal;
      OneDollar(k, ")");
      assert [k] + [] == [k];
    } else {
      hide Placeholders, Decimal, Upto;
      var rest := PlaceholderList(k + 1, n) + ")";
      ListedPlaceholders(k + 1, n);
      NoDollar(",", rest);
      OneDollar(k, "," + rest);
      Associate("$" + Decimal(k) + ",", PlaceholderList(k + 1, n), ")");
      Associate("$" + Decimal(k), ",", PlaceholderList(k + 1, n) + ")");
      UptoNext(k, n);
    }
  }

  lemma ClosingParenthesis()
    ensures Placeholders(")") == Some([])
  {
    NoDollar(")", "");
    assert ")" + "" == ")";
  }

  lemma UptoNext(k: nat, n: nat)
    requires k < n
    ensures Upto(k, n) == [k] + Upto(k + 1, n)
  {
  }

  lemma {:induction false} SmallDecimal(n: nat)
    requires n < 1000
    ensures |Decimal(n)| <= 3
  {
    if n >= 10 {
      assert n / 10 < 100;
      if n >= 100 {
        assert n / 100 < 10;
        assert |Decimal(n / 100)| == 1;
      }
    }
  }

  lemma {:induction false} ListIsShort(k: nat, n: nat)
    requires k <= n < 1000
    ensures |PlaceholderList(k, n)| <= 5 * (n - k + 1) && AllHarmless(PlaceholderList(k, n))
    decreases n - k
  {
    SmallDecimal(k);
    DecimalIsHarmless(k);
    if k < n {
      ListIsShort(k + 1, n);
      HarmlessAppend("$" + Decimal(k) + ",", PlaceholderList(k + 1, n));
    }
  }

  lemma DecimalIsHarmless(n: nat)
    ensures AllHarmless("$" + Decimal(n)) && AllHarmless("$" + Decimal(n) + ",")
  {
    var s := "$" + Decimal(n) + ",";
    forall i | 0 <= i < |s|
      ensures Harmless(s[i])
    {
      assert i == 0 || i == |s| - 1 || IsDigit(s[i]);
    }
  }

  /** A relation query is valid exactly when it binds at most 128 parameters. */
  lemma ByEventsIsValidIff(name: string, columns: string, table: string, ids: seq<Id>)
    requires NameIsValid(name) && Plain(columns) && Plain(table) && |columns| <= 200 && |table| <= 50 && ids != []
    ensures IsValid(ByEvents(name, columns, table, ids)) <==> |ids| <= MAX_PARAMETERS
  {
    hide NameIsValid, ShapeIsAllowed, Plain, Placeholders;
    var n := |ids|;
    if n <= MAX_PARAMETERS {
      var list := PlaceholderList(1, n);
      var condition := "event_id IN (" + list + ")";
      ListIsShort(1, n);
      HarmlessAppend("event_id IN (", list);
      HarmlessAppend("event_id IN (" + list, ")");
      SelectIsAllowed(columns, table, condition);
      SelectIsPlain(columns, table);
      var front := "SELECT " + columns + " FROM " + table + " WHERE ";
      ListedAfter(front, n);
      assert Select(columns, table, condition) == front + "event_id IN (" + (list + ")");
      forall k | 1 <= k <= n
        ensures k in Upto(1, n)
      {
        assert Upto(1, n)[k - 1] == k;
      }
    }
  }

  lemma ListedAfter(front: string, n: nat)
    requires Plain(front) && 1 <= n < SIZE_T
    ensures Placeholders(front + "event_id IN (" + (PlaceholderList(1, n) + ")")) == Some(Upto(1, n))
  {
    PlainAppend(front, "event_id IN (");
    NoDollar(front + "event_id IN (", PlaceholderList(1, n) + ")");
    ListedPlaceholders(1, n);
  }

  lemma EdgeQueryIsValidIff(ids: seq<Id>)
    requires ids != []
    ensures IsValid(EdgeQuery(ids)) <==> |ids| <= MAX_PARAMETERS
  {
    hide IsValid;
    ByEventsIsValidIff("postgresql_reload_event_edges", "event_id, prev_event_id", "event_edges", ids);
  }

  lemma AuthQueryIsValidIff(ids: seq<Id>)
    requires ids != []
    ensures IsValid(AuthQuery(ids)) <==> |ids| <= MAX_PARAMETERS
  {
    hide IsValid;
    ByEventsIsValidIff("postgresql_reload_event_auth", "event_id, auth_event_id", "event_auth", ids);
  }

  lemma SignatureNameIsValid()
    ensures NameIsValid("postgresql_reload_event_signatures")
  {
  }

  lemma SignatureColumnsArePlain()
    ensures Plain("event_id, server_name, " + "key_id, signature") && Plain("event_signatures")
  {
    PlainAppend("event_id, server_name, ", "key_id, signature");
  }

  lemma SignatureQueryIsValidIff(ids: seq<Id>)
    requires ids != []
    ensures IsValid(SignatureQuery(ids)) <==> |ids| <= MAX_PARAMETERS
  {
    hide IsValid, NameIsValid, Plain;
    SignatureNameIsValid();
    SignatureColumnsArePlain();
    ByEventsIsValidIff("postgresql_reload_event_signatures", "event_id, server_name, " + "key_id, signature", "event_signatures", ids);
  }

  // ---- The snapshot --------------------------------------------------------------------------

  /** A statement that is not valid is refused before it is sent. */
  predicate Executes(s: PreparedStatement, answered: bool) {
    IsValid(s) && answered
  }

  function IdsOf(events: seq<Event>): (ids: seq<Id>)
    ensures |ids| == |events| && forall i :: 0 <= i < |events| ==> ids[i] == events[i].id
  {
    seq(|events|, i requires 0 <= i < |events| => events[i].id)
  }

  /** The room's rows as the queries return them, and the relation rows of its events. */
  function RoomRows(db: Mirror, room: Id): Mirror {
    var events := Filter(db.events, EventIn(room));
    var ids := EventIds(events);
    db.(events := events, edges := Filter(db.edges, RowFor(ids)), auths := Filter(db.auths, RowFor(ids)),
        sigs := Filter(db.sigs, RowFor(ids)))
  }

  /** `answers` is how the database answers each query it is sent. */
  function RoomQueriesRun(room: Id, answers: nat -> bool): bool {
    Executes(RoomQuery(room), answers(0)) && Executes(MembershipQuery(room), answers(1)) &&
    Executes(InviteQuery(room), answers(2)) && Executes(EventQuery(room), answers(3)) &&
    Executes(StateQuery(room), answers(4))
  }

  function RelationQueriesRun(ids: seq<Id>, answers: nat -> bool): bool {
    Executes(EdgeQuery(ids), answers(5)) && Executes(AuthQuery(ids), answers(6)) && Executes(SignatureQuery(ids), answers(7))
  }

  function SnapshotOf(db: Mirror, room: Id): Snapshot {
    var rooms := Filter(db.rooms, RoomIs(room));
    Snapshot(
      if rooms == [] then None else Some(rooms[0]),
      Filter(db.memberships, MembershipIn(room)),
      Filter(db.invites, InviteIn(room)),
      Filter(db.state, StateIn(room)),
      Reconstructed(RoomRows(db, room)).events)
  }

  /** The relation queries are only sent for a room that has events. */
  function LoadSnapshot(db: Mirror, room: Id, answers: nat -> bool): Option<Snapshot> {
    var events := Filter(db.events, EventIn(room));
    if !RoomQueriesRun(room, answers) then None
    else if events != [] && !RelationQueriesRun(IdsOf(events), answers) then None
    else Some(SnapshotOf(db, room))
  }

  /** `reload_room` on PostgreSQL: the mirror it leaves, and whether it succeeded. */
  function ReloadRoom(m: Mirror, db: Mirror, room: Id, answers: nat -> bool): (Mirror, bool) {
    var s := LoadSnapshot(db, room, answers);
    if s.None? then (m, false) else (Reloaded(m, room, s.value), true)
  }

  // ---- The loops that build the queries -----------------------------------------------------------

  /** What is still to come after `i` placeholders. */
  ghost function Remaining(i: nat, n: nat): string
    requires i <= n
  {
    if i == n then "" else if i == 0 then PlaceholderList(1, n) else "," + PlaceholderList(i + 1, n)
  }

  method InClausePlaceholders(count: nat) returns (result: string)
    ensures result == if count == 0 then "" else PlaceholderList(1, count)
  {
    result := "";
    assert result + Remaining(0, count) == Remaining(0, count);
    hide Decimal, PlaceholderList;
    for i := 0 to count
      invariant result + Remaining(i, count) == Remaining(0, count)
    {
      ghost var before := result;
      if i != 0 {
        result := result + ",";
      }
      result := result + ("$" + Decimal(i + 1));
      RemainingNext(before, result, i, count);
    }
  }

  lemma RemainingNext(before: string, after: string, i: nat, n: nat)
    requires i < n && after == (if i == 0 then before else before + ",") + ("$" + Decimal(i + 1))
    ensures after + Remaining(i + 1, n) == before + Remaining(i, n)
  {
    var item := "$" + Decimal(i + 1);
    hide Decimal;
    ListSplits(i + 1, n);
    var rest := Remaining(i + 1, n);
    Associate(before, ",", item);
    Associate(before, "," + item, rest);
    Associate(",", item, rest);
    Associate(before, item, rest);
  }

  lemma ListSplits(k: nat, n: nat)
    requires 1 <= k <= n
    ensures PlaceholderList(k, n) == "$" + Decimal(k) + Remaining(k, n)
  {
    hide Decimal;
    if k < n {
      Associate("$" + Decimal(k), ",", PlaceholderList(k + 1, n));
    }
  }

  method BindEventIds(events: seq<Event>) returns (ids: seq<Id>)
    ensures ids == IdsOf(events)
  {
    ids := [];
    for i := 0 to |events|
      invariant |ids| == i && forall j :: 0 <= j < i ==> ids[j] == events[j].id
    {
      ids := ids + [events[i].id];
    }
  }

  method RelationStatement(name: string, columns: string, table: string, ids: seq<Id>) returns (s: PreparedStatement)
    ensures s == ByEvents(name, columns, table, ids)
  {
    var placeholders := InClausePlaceholders(|ids|);
    s := PreparedStatement(name, Select(columns, table, "event_id IN (" + placeholders + ")"), ids);
  }

  method Execute(s: PreparedStatement, answered: bool) returns (ok: bool)
    ensures ok == Executes(s, answered)
  {
    var valid := PreparedStatementIsValid(s);
    ok := valid && answered;
  }

  method RunRoomQueries(room: Id, answers: nat -> bool) returns (ok: bool)
    ensures ok == RoomQueriesRun(room, answers)
  {
    hide Executes, RoomQuery, MembershipQuery, InviteQuery, EventQuery, StateQuery;
    ok := Execute(RoomQuery(room), answers(0));
    if !ok {
      return false;
    }
    ok := Execute(MembershipQuery(room), answers(1));
    if !ok {
      return false;
    }
    ok := Execute(InviteQuery(room), answers(2));
    if !ok {
      return false;
    }
    ok := Execute(EventQuery(room), answers(3));
    if !ok {
      return false;
    }
    ok := Execute(StateQuery(room), answers(4));
  }

  method RunRelationQueries(ids: seq<Id>, answers: nat -> bool) returns (ok: bool)
    ensures ok == RelationQueriesRun(ids, answers)
  {
    hide Executes, ByEvents;
    var s := RelationStatement("postgresql_reload_event_edges", "event_id, prev_event_id", "event_edges", ids);
    ok := Execute(s, answers(5));
    if !ok {
      return false;
    }
    s := RelationStatement("postgresql_reload_event_auth", "event_id, auth_event_id", "event_auth", ids);
    ok := Execute(s, answers(6));
    if !ok {
      return false;
    }
    s := RelationStatement("postgresql_reload_event_signatures", "event_id, server_name, " + "key_id, signature",
                           "event_signatures", ids);
    ok := Execute(s, answers(7));
  }

  method LoadRoomSnapshot(db: Mirror, room: Id, answers: nat -> bool) returns (r: Option<Snapshot>)
    ensures r == LoadSnapshot(db, room, answers)
  {
    hide RoomQueriesRun, RelationQueriesRun, SnapshotOf;
    var ok := RunRoomQueries(room, answers);
    if !ok {
      return None;
    }
    var events := Filter(db.events, EventIn(room));
    if events == [] {
      return Some(SnapshotOf(db, room));
    }
    var ids := BindEventIds(events);
    ok := RunRelationQueries(ids, answers);
    if !ok {
      return None;
    }
    return Some(SnapshotOf(db, room));
  }

  // ---- What a reload promises ------------------------------------------------------------------------

  ghost predicate AllAnswered(answers: nat -> bool, events: seq<Event>) {
    answers(0) && answers(1) && answers(2) && answers(3) && answers(4) &&
    (events != [] ==> answers(5) && answers(6) && answers(7))
  }

  lemma RoomQueriesRunIff(room: Id, answers: nat -> bool)
    ensures RoomQueriesRun(room, answers) <==> answers(0) && answers(1) && answers(2) && answers(3) && answers(4)
  {
    hide IsValid, RoomQuery, MembershipQuery, InviteQuery, EventQuery, StateQuery;
    RoomQueriesAreValid(room);
  }

  lemma RelationQueriesRunIff(ids: seq<Id>, answers: nat -> bool)
    requires ids != []
    ensures RelationQueriesRun(ids, answers) <==> answers(5) && answers(6) && answers(7) && |ids| <= MAX_PARAMETERS
  {
    hide IsValid, EdgeQuery, AuthQuery, SignatureQuery;
    EdgeQueryIsValidIff(ids);
    AuthQueryIsValidIff(ids);
    SignatureQueryIsValidIff(ids);
  }

  /**
   * A room is reloaded exactly when the database answers and the room has at
   * most 128 events in it; otherwise the mirror stays as it is.
   */
  lemma ReloadWorksUpTo128Events(m: Mirror, db: Mirror, room: Id, answers: nat -> bool)
    ensures var events := Filter(db.events, EventIn(room));
            ReloadRoom(m, db, room, answers).1 <==> AllAnswered(answers, events) && |events| <= 128
    ensures !ReloadRoom(m, db, room, answers).1 ==> ReloadRoom(m, db, room, answers).0 == m
  {
    hide RoomQueriesRun, RelationQueriesRun, SnapshotOf, Reloaded, Filter;
    var events := Filter(db.events, EventIn(room));
    RoomQueriesRunIff(room, answers);
    if events != [] {
      RelationQueriesRunIff(IdsOf(events), answers);
    }
  }

  /** For every room and size there is a database in step, and it reloads into any mirror exactly up to 128 events. */
  lemma RoomOfSize(m: Mirror, room: Id, n: nat) returns (db: Mirror)
    ensures RelationsOk(db) && |Filter(db.events, EventIn(room))| == n
    ensures n <= 128 ==> ReloadRoom(m, db, room, Always).1
    ensures n > 128 ==> forall answers :: ReloadRoom(m, db, room, answers) == (m, false)
  {
    db := RoomWith(room, n);
    RoomWithIsInStep(room, n);
    hide RoomWith, RelationsOk, ReloadRoom, Filter;
    ReloadWorksUpTo128Events(m, db, room, Always);
    forall answers
      ensures n > MAX_PARAMETERS ==> ReloadRoom(m, db, room, answers) == (m, false)
    {
      ReloadWorksUpTo128Events(m, db, room, answers);
    }
  }

  /** A database with so many events in one room. */
  function RoomWith(room: Id, n: nat): Mirror {
    Mirror(seq(n, i requires 0 <= i < n => Event(Unary(i), room, "", Json("", None, None), 0, i, [], [], [])),
           [], [], [], [], [], map[], [], [], [])
  }

  lemma RoomWithIsInStep(room: Id, n: nat)
    ensures RelationsOk(RoomWith(room, n)) && |Filter(RoomWith(room, n).events, EventIn(room))| == n
  {
    FilterAll(RoomWith(room, n).events, EventIn(room));
  }

  function Always(i: nat): bool {
    true
  }

  function Unary(n: nat): (s: Id)
    ensures |s| == n
  {
    seq(n, i => 'e')
  }

  /** A room with 129 events in the database cannot be reloaded, whatever the database answers. */
  lemma RoomOf129Events(m: Mirror, room: Id) returns (db: Mirror)
    ensures RelationsOk(db) && |Filter(db.events, EventIn(room))| == 129
    ensures forall answers :: ReloadRoom(m, db, room, answers) == (m, false)
  {
    db := RoomOfSize(m, room, 129);
  }

  /** A snapshot holds only the room's rows, and its events carry the relation rows of the database. */
  lemma SnapshotIsFaithful(db: Mirror, room: Id)
    requires RelationsOk(db)
    ensures var s := SnapshotOf(db, room);
            ForRoom(room, s) && UniqueIds(s.events) && s.events == Filter(db.events, EventIn(room))
  {
    var rows := RoomRows(db, room);
    var s := SnapshotOf(db, room);
    var rooms := Filter(db.rooms, RoomIs(room));
    assert rooms != [] ==> rooms[0] in rooms;
    FilterKeepsUnique(db.events, EventIn(room));
    forall i | 0 <= i < |rows.events|
      ensures Rederived(rows, i) == rows.events[i]
    {
      var e := rows.events[i];
      var ids := EventIds(rows.events);
      assert e in db.events && Embeds(db, e);
      assert HasEvent(rows.events, e.id);
      ValuesFilter(db.edges, RowFor(ids), e.id);
      ValuesFilter(db.auths, RowFor(ids), e.id);
      ValuesFilter(db.sigs, RowFor(ids), e.id);
      assert IsFirst(rows.events, i);
    }
    assert s.events == rows.events;
  }

  /** So a successful reload makes the mirror agree with the database on the room. */
  lemma ReloadMatchesDatabase(m: Mirror, db: Mirror, room: Id, answers: nat -> bool)
    requires RelationsOk(db) && ReloadRoom(m, db, room, answers).1
    ensures var n := ReloadRoom(m, db, room, answers).0;
            Filter(n.events, EventIn(room)) == Filter(db.events, EventIn(room)) &&
            Filter(n.state, StateIn(room)) == Filter(db.state, StateIn(room)) &&
            Filter(n.memberships, MembershipIn(room)) == Filter(db.memberships, MembershipIn(room)) &&
            Filter(n.invites, InviteIn(room)) == Filter(db.invites, InviteIn(room)) &&
            Filter(n.rooms, RoomIs(room)) == FirstOf(Filter(db.rooms, RoomIs(room))) &&
            SameRows(n.edges, db.edges, Filter(db.events, EventIn(room)), PrevOf) &&
            SameRows(n.auths, db.auths, Filter(db.events, EventIn(room)), AuthOf) &&
            SameRows(n.sigs, db.sigs, Filter(db.events, EventIn(room)), SigsOf)
  {
    SnapshotIsFaithful(db, room);
    var s := SnapshotOf(db, room);
    assert (if s.room.Some? then [s.room.value] else []) == FirstOf(Filter(db.rooms, RoomIs(room)));
    ReloadBringsRows(m, db, room, s);
    hide Reloaded, SnapshotOf, SameRows;
    ReloadReplacesOneRoom(m, room, s);
  }

  lemma ReloadedRows(m: Mirror, room: Id, s: Snapshot)
    ensures var n := Reloaded(m, room, s);
            (forall x :: x in n.memberships <==> (x in m.memberships && x.room != room) || x in s.memberships) &&
            (forall x :: x in n.invites <==> (x in m.invites && x.room != room) || x in s.invites) &&
            (forall x :: x in n.state <==> (x in m.state && x.tuple.room != room) || x in s.state) &&
            (forall x :: x in n.events <==> (x in m.events && x.room != room) || x in s.events) &&
            (forall x :: x in n.rooms <==> (x in m.rooms && x.id != room) || s.room == Some(x))
  {
    hide EventRows, RowsOf, StaleIds;
  }

  /** Row by row: afterwards the mirror has the database's rows of the room and its own rows of the others. */
  lemma ReloadOnFields(m: Mirror, db: Mirror, room: Id, answers: nat -> bool)
    requires RelationsOk(db) && ReloadRoom(m, db, room, answers).1
    ensures var n := ReloadRoom(m, db, room, answers).0;
            (forall x :: x in n.memberships <==> x in (if x.room == room then db.memberships else m.memberships)) &&
            (forall x :: x in n.invites <==> x in (if x.room == room then db.invites else m.invites)) &&
            (forall x :: x in n.state <==> x in (if x.tuple.room == room then db.state else m.state)) &&
            (forall x :: x in n.events <==> x in (if x.room == room then db.events else m.events)) &&
            (forall x :: x in n.rooms && x.id != room <==> x in m.rooms && x.id != room) &&
            (forall x :: x in n.rooms && x.id == room ==> x in db.rooms)
  {
    hide SnapshotOf, Reloaded, RelationsOk, UniqueIds, ForRoom, ReloadRoom;
    ReloadIs(m, db, room, answers);
    SnapshotIsFaithful(db, room);
    SnapshotRows(db, room);
    ReloadedRows(m, room, SnapshotOf(db, room));
  }

  lemma ReloadIs(m: Mirror, db: Mirror, room: Id, answers: nat -> bool)
    requires ReloadRoom(m, db, room, answers).1
    ensures ReloadRoom(m, db, room, answers).0 == Reloaded(m, room, SnapshotOf(db, room))
  {
  }

  lemma SnapshotRows(db: Mirror, room: Id)
    ensures var s := SnapshotOf(db, room);
            (forall x :: x in s.memberships <==> x in db.memberships && x.room == room) &&
            (forall x :: x in s.invites <==> x in db.invites && x.room == room) &&
            (forall x :: x in s.state <==> x in db.state && x.tuple.room == room) &&
            (s.room.Some? ==> s.room.value in db.rooms && s.room.value.id == room) &&
            (s.room.None? ==> forall x :: x in db.rooms ==> x.id != room)
  {
    hide Reconstructed;
    var rooms := Filter(db.rooms, RoomIs(room));
    assert rooms != [] ==> rooms[0] in rooms;
  }

  function FirstOf<T>(s: seq<T>): seq<T> {
    if s == [] then [] else [s[0]]
  }

  /**
   * The rows of the events are the lists the events carry, event by event, and
   * for each event the values the database has, in the same order.
   */
  ghost predicate SameRows<T(!new)>(rows: seq<Row<T>>, dbRows: seq<Row<T>>, events: seq<Event>, get: Event -> seq<T>) {
    Filter(rows, RowFor(EventIds(events))) == EventRows(events, get) &&
    forall i :: 0 <= i < |events| ==> Values(rows, events[i].id) == Values(dbRows, events[i].id)
  }

  lemma OneTableBrought<T(!new)>(
    rows: seq<Row<T>>, stale: set<Id>, dbRows: seq<Row<T>>, events: seq<Event>, get: Event -> seq<T>)
    requires UniqueIds(events) && EventIds(events) <= stale
    requires forall i :: 0 <= i < |events| ==> get(events[i]) == Values(dbRows, events[i].id)
    ensures SameRows(Filter(rows, RowNotFor(stale)) + EventRows(events, get), dbRows, events, get)
  {
    var ids, added, kept := EventIds(events), EventRows(events, get), Filter(rows, RowNotFor(stale));
    RowsBelong(events, get);
    FilterAppend(kept, added, RowFor(ids));
    FilterNone(kept, RowFor(ids));
    FilterAll(added, RowFor(ids));
    forall i | 0 <= i < |events|
      ensures Values(kept + added, events[i].id) == Values(dbRows, events[i].id)
    {
      assert HasEvent(events, events[i].id);
      ReloadedValues(rows, stale, added, events[i].id);
      RowsCarryLists(events, get, i);
    }
  }

  lemma ReloadBringsRows(m: Mirror, db: Mirror, room: Id, s: Snapshot)
    requires RelationsOk(db) && UniqueIds(s.events) && s.events == Filter(db.events, EventIn(room))
    ensures var n := Reloaded(m, room, s);
            SameRows(n.edges, db.edges, s.events, PrevOf) && SameRows(n.auths, db.auths, s.events, AuthOf) &&
            SameRows(n.sigs, db.sigs, s.events, SigsOf)
  {
    var stale := StaleIds(m, room, s);
    forall i | 0 <= i < |s.events|
      ensures Embeds(db, s.events[i])
    {
      assert s.events[i] in db.events;
    }
    OneTableBrought(m.edges, stale, db.edges, s.events, PrevOf);
    OneTableBrought(m.auths, stale, db.auths, s.events, AuthOf);
    OneTableBrought(m.sigs, stale, db.sigs, s.events, SigsOf);
  }
}
