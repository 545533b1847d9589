/**
 * Access and refresh tokens: stores that write through, revocations by hash, by
 * user, by device and by all devices but one, and whole runs of them with
 * failed writes and restarts (src/database/persistent_store.cpp).
 */
module Revocation {
  import opened Basics
  import opened Backend
  import LoginTokens

  type Id = string

  datatype Token = Token(user: Id, device: Id, hash: Id, revoked: bool, expires: Option<nat>)

  datatype Device = Device(user: Id, device: Id, name: string)

  /** Which tokens a revocation is for. */
  datatype Selector = ByHash(hash: Id) | ByUser(user: Id) | ByDevice(user: Id, device: Id) | ExceptDevice(user: Id, keep: Id)

  predicate Matches(sel: Selector, t: Token) {
    match sel
    case ByHash(hash) => t.hash == hash
    case ByUser(user) => t.user == user
    case ByDevice(user, device) => t.user == user && t.device == device
    case ExceptDevice(user, keep) => t.user == user && t.device != keep
  }

  // ---- One token table -------------------------------------------------------------

  /** The mirror of a token table and its rows by hash. */
  datatype Table = Table(mirror: seq<Token>, rows: map<Id, Token>)

  function HashOf(t: Token): Id { t.hash }

  /** The row: the expiry is kept in milliseconds. */
  function RowOf(t: Token): Token {
    if t.expires.None? then t else t.(expires := Some(LoginTokens.Truncated(t.expires.value)))
  }

  predicate HashExists(mirror: seq<Token>, hash: Id) {
    exists i :: 0 <= i < |mirror| && mirror[i].hash == hash
  }

  predicate Refuses(table: Table, token: Token) {
    !LoginTokens.IsHash(token.hash) || HashExists(table.mirror, token.hash)
  }

  function Insert(table: Table, token: Token): Table {
    Table(table.mirror + [token], table.rows[token.hash := RowOf(token)])
  }

  function StoreToken(table: Table, token: Token, ok: bool): (Table, bool) {
    if Refuses(table, token) || !ok || token.hash in table.rows then (table, false) else (Insert(table, token), true)
  }

  function Revoke(sel: Selector): Token -> Token {
    (t: Token) => if Matches(sel, t) then t.(revoked := true) else t
  }

  function IsLive(sel: Selector): Token -> bool {
    (t: Token) => Matches(sel, t) && !t.revoked
  }

  function RevokeRows(rows: map<Id, Token>, sel: Selector): map<Id, Token> {
    map hash | hash in rows :: Revoke(sel)(rows[hash])
  }

  function LiveCount(mirror: seq<Token>, sel: Selector): nat {
    |Filter(mirror, IsLive(sel))|
  }

  /** Revoked rows and mirror, and how many live tokens that was. */
  function RevokeTokens(table: Table, sel: Selector, ok: bool): (Table, nat) {
    if !ok then (table, 0)
    else (Table(Map(Revoke(sel), table.mirror), RevokeRows(table.rows, sel)), LiveCount(table.mirror, sel))
  }

  // ---- The mirror lists the rows ------------------------------------------------------

  ghost predicate InStep(table: Table) {
    ListsTable(table.mirror, HashOf, RowOf, table.rows)
  }

  lemma StoreKeepsInStep(table: Table, token: Token, ok: bool)
    requires InStep(table)
    ensures InStep(StoreToken(table, token, ok).0)
  {
    if StoreToken(table, token, ok).1 {
      ListsAppend(table.mirror, HashOf, RowOf, table.rows, token);
    }
  }

  lemma RevokeCommutes(sel: Selector, t: Token)
    ensures HashOf(Revoke(sel)(t)) == HashOf(t) && RowOf(Revoke(sel)(t)) == Revoke(sel)(RowOf(t))
  {
  }

  /** Rows and mirror changed alike, hashes kept, are still in step. */
  lemma ChangedAlike(mirror: seq<Token>, rows: map<Id, Token>, mirror': seq<Token>, rows': map<Id, Token>)
    requires ListsTable(mirror, HashOf, RowOf, rows) && |mirror'| == |mirror| && rows'.Keys == rows.Keys
    requires forall i :: 0 <= i < |mirror| ==> HashOf(mirror'[i]) == HashOf(mirror[i])
    requires forall i :: 0 <= i < |mirror| ==> HashOf(mirror[i]) in rows' && rows'[HashOf(mirror[i])] == RowOf(mirror'[i])
    ensures ListsTable(mirror', HashOf, RowOf, rows')
  {
    hide RowOf;
    forall hash | hash in rows'
      ensures exists i :: 0 <= i < |mirror'| && HashOf(mirror'[i]) == hash
    {
      assert hash in rows;
      var i :| 0 <= i < |mirror| && HashOf(mirror[i]) == hash;
      assert HashOf(mirror'[i]) == hash;
    }
  }

  lemma RevokeKeepsInStep(table: Table, sel: Selector, ok: bool)
    requires InStep(table)
    ensures InStep(RevokeTokens(table, sel, ok).0)
  {
    if ok {
      hide Matches, RowOf;
      var mirror, rows := Map(Revoke(sel), table.mirror), RevokeRows(table.rows, sel);
      forall i | 0 <= i < |mirror|
        ensures HashOf(mirror[i]) == HashOf(table.mirror[i])
        ensures HashOf(table.mirror[i]) in rows && rows[HashOf(table.mirror[i])] == RowOf(mirror[i])
      {
        RevokeCommutes(sel, table.mirror[i]);
      }
      ChangedAlike(table.mirror, table.rows, mirror, rows);
    }
  }

  /** A restart loads the rows in whatever order they come. */
  ghost predicate IsListing(listing: seq<Token>, rows: map<Id, Token>) {
    ListsTable(listing, HashOf, RowOf, rows) && forall i :: 0 <= i < |listing| ==> RowOf(listing[i]) == listing[i]
  }

  // ---- Revocation is one-way ------------------------------------------------------------

  /** The hash is revoked in the database, and known and revoked in the mirror. */
  ghost predicate IsRevoked(table: Table, hash: Id) {
    hash in table.rows && table.rows[hash].revoked && HashExists(table.mirror, hash) &&
    forall i :: 0 <= i < |table.mirror| && table.mirror[i].hash == hash ==> table.mirror[i].revoked
  }

  lemma StoreKeepsRevoked(table: Table, token: Token, ok: bool, hash: Id)
    requires IsRevoked(table, hash)
    ensures IsRevoked(StoreToken(table, token, ok).0, hash)
    ensures token.hash == hash ==> StoreToken(table, token, ok) == (table, false)
  {
    if StoreToken(table, token, ok).1 {
      var i :| 0 <= i < |table.mirror| && table.mirror[i].hash == hash;
      assert (table.mirror + [token])[i].hash == hash;
    }
  }

  lemma RevokeKeepsRevoked(table: Table, sel: Selector, ok: bool, hash: Id)
    requires IsRevoked(table, hash)
    ensures IsRevoked(RevokeTokens(table, sel, ok).0, hash)
  {
    if ok {
      var after := RevokeTokens(table, sel, ok).0;
      var i :| 0 <= i < |table.mirror| && table.mirror[i].hash == hash;
      assert after.mirror[i].hash == hash;
    }
  }

  lemma RestartKeepsRevoked(table: Table, listing: seq<Token>, hash: Id)
    requires IsRevoked(table, hash) && IsListing(listing, table.rows)
    ensures IsRevoked(Table(listing, table.rows), hash)
  {
    var i :| 0 <= i < |listing| && HashOf(listing[i]) == hash;
    assert listing[i].hash == hash;
    forall j | 0 <= j < |listing| && listing[j].hash == hash
      ensures listing[j].revoked
    {
      assert table.rows[HashOf(listing[j])] == RowOf(listing[j]);
    }
  }

  // ---- What one revocation does -----------------------------------------------------------

  /** An accepted revocation leaves every matching token revoked for good, and touches nothing else. */
  lemma RevokeIsExact(table: Table, sel: Selector, i: nat)
    requires InStep(table) && i < |table.mirror|
    ensures var t, after := table.mirror[i], RevokeTokens(table, sel, true).0;
            |after.mirror| == |table.mirror| &&
            (Matches(sel, t) ==> IsRevoked(after, t.hash) && after.mirror[i] == t.(revoked := true)) &&
            (!Matches(sel, t) ==> after.mirror[i] == t && t.hash in after.rows && after.rows[t.hash] == table.rows[t.hash])
  {
    var t, after := table.mirror[i], RevokeTokens(table, sel, true).0;
    assert HashOf(t) in table.rows && table.rows[HashOf(t)] == RowOf(t);
    if Matches(sel, t) {
      assert after.mirror[i].hash == t.hash;
      forall j | 0 <= j < |after.mirror| && after.mirror[j].hash == t.hash
        ensures after.mirror[j].revoked
      {
        assert HashOf(table.mirror[j]) == HashOf(t);
      }
    }
  }

  /** The number returned is the number of rows that changed. */
  lemma {:induction false} CountsChanges(mirror: seq<Token>, sel: Selector)
    ensures LiveCount(mirror, sel) == Changes(mirror, Map(Revoke(sel), mirror))
  {
    if mirror != [] {
      CountsChanges(mirror[1..], sel);
      assert Map(Revoke(sel), mirror)[1..] == Map(Revoke(sel), mirror[1..]);
    }
  }

  /** How many positions differ. */
  function Changes(a: seq<Token>, b: seq<Token>): nat
    requires |a| == |b|
  {
    if a == [] then 0 else (if a[0] == b[0] then 0 else 1) + Changes(a[1..], b[1..])
  }

  // ---- The store -----------------------------------------------------------------------------

  datatype Store = Store(access: Table, refresh: Table, devices: seq<Device>, deviceRows: map<(Id, Id), Device>)

  const EMPTY_STORE := Store(Table([], map[]), Table([], map[]), [], map[])

  predicate DeviceExists(devices: seq<Device>, d: Device) {
    exists i :: 0 <= i < |devices| && devices[i].user == d.user && devices[i].device == d.device
  }

  /** A device and its first token go in together or not at all. */
  function StoreDeviceAndToken(s: Store, device: Option<Device>, token: Token, ok: bool): (Store, bool) {
    if Refuses(s.access, token) || (device.Some? && DeviceExists(s.devices, device.value)) then (s, false)
    else if !ok || token.hash in s.access.rows ||
            (device.Some? && (device.value.user, device.value.device) in s.deviceRows) then (s, false)
    else
      var s' := s.(access := Insert(s.access, token));
      if device.None? then (s', true)
      else
        var d := device.value;
        (s'.(devices := s.devices + [d], deviceRows := s.deviceRows[(d.user, d.device) := d]), true)
  }

  /** Both tables, each written on its own; the count is of both. */
  function RevokeExceptDevice(s: Store, user: Id, keep: Id, accessOk: bool, refreshOk: bool): (Store, nat) {
    var (access, n) := RevokeTokens(s.access, ExceptDevice(user, keep), accessOk);
    var (refresh, k) := RevokeTokens(s.refresh, ExceptDevice(user, keep), refreshOk);
    (s.(access := access, refresh := refresh), n + k)
  }

  datatype Action =
    | StoreAccess(token: Token, ok: bool)
    | StoreRefresh(token: Token, ok: bool)
    | StoreDevice(device: Option<Device>, token: Token, ok: bool)
    | RevokeAccess(sel: Selector, ok: bool)
    | RevokeRefresh(sel: Selector, ok: bool)
    | RevokeOthers(user: Id, keep: Id, accessOk: bool, refreshOk: bool)
    | Restart(access: seq<Token>, refresh: seq<Token>, devices: seq<Device>)

  ghost function DoRestart(s: Store, access: seq<Token>, refresh: seq<Token>, devices: seq<Device>): Store {
    if IsListing(access, s.access.rows) && IsListing(refresh, s.refresh.rows)
    then s.(access := s.access.(mirror := access), refresh := s.refresh.(mirror := refresh), devices := devices)
    else s
  }

  ghost function Do(s: Store, a: Action): Store {
    match a
    case StoreAccess(token, ok) => s.(access := StoreToken(s.access, token, ok).0)
    case StoreRefresh(token, ok) => s.(refresh := StoreToken(s.refresh, token, ok).0)
    case StoreDevice(device, token, ok) => StoreDeviceAndToken(s, device, token, ok).0
    case RevokeAccess(sel, ok) => s.(access := RevokeTokens(s.access, sel, ok).0)
    case RevokeRefresh(sel, ok) => s.(refresh := RevokeTokens(s.refresh, sel, ok).0)
    case RevokeOthers(user, keep, accessOk, refreshOk) => RevokeExceptDevice(s, user, keep, accessOk, refreshOk).0
    case Restart(access, refresh, devices) => DoRestart(s, access, refresh, devices)
  }

  ghost function Run(s: Store, actions: seq<Action>): Store
    decreases actions
  {
    if actions == [] then s else Run(Do(s, actions[0]), actions[1..])
  }

  /** Storing a device's token is storing the token, if the device lets it through. */
  lemma DeviceStoreIsTokenStore(s: Store, device: Option<Device>, token: Token, ok: bool)
    ensures var (s', accepted) := StoreDeviceAndToken(s, device, token, ok);
            s'.access == StoreToken(s.access, token, accepted).0 && s'.refresh == s.refresh
  {
  }

  lemma DoKeepsRevoked(s: Store, a: Action, hash: Id)
    ensures IsRevoked(s.access, hash) ==> IsRevoked(Do(s, a).access, hash)
    ensures IsRevoked(s.refresh, hash) ==> IsRevoked(Do(s, a).refresh, hash)
  {
    hide IsRevoked, StoreToken, RevokeTokens, StoreDeviceAndToken;
    if a.StoreDevice? {
      DeviceStoreIsTokenStore(s, a.device, a.token, a.ok);
    }
    if IsRevoked(s.access, hash) {
      match a
      case StoreAccess(token, ok) => StoreKeepsRevoked(s.access, token, ok, hash);
      case StoreDevice(device, token, ok) => StoreKeepsRevoked(s.access, token, StoreDeviceAndToken(s, device, token, ok).1, hash);
      case RevokeAccess(sel, ok) => RevokeKeepsRevoked(s.access, sel, ok, hash);
      case RevokeOthers(user, keep, ok, _) => RevokeKeepsRevoked(s.access, ExceptDevice(user, keep), ok, hash);
      case Restart(access, _, _) =>
        if IsListing(access, s.access.rows) { RestartKeepsRevoked(s.access, access, hash); }
      case _ =>
    }
    if IsRevoked(s.refresh, hash) {
      match a
      case StoreRefresh(token, ok) => StoreKeepsRevoked(s.refresh, token, ok, hash);
      case RevokeRefresh(sel, ok) => RevokeKeepsRevoked(s.refresh, sel, ok, hash);
      case RevokeOthers(user, keep, _, ok) => RevokeKeepsRevoked(s.refresh, ExceptDevice(user, keep), ok, hash);
      case Restart(_, refresh, _) =>
        if IsListing(refresh, s.refresh.rows) { RestartKeepsRevoked(s.refresh, refresh, hash); }
      case _ =>
    }
  }

  /** A revoked token stays revoked, in mirror and database, through every run. */
  lemma {:induction false} RevocationIsOneWay(s: Store, actions: seq<Action>, hash: Id)
    ensures IsRevoked(s.access, hash) ==> IsRevoked(Run(s, actions).access, hash)
    ensures IsRevoked(s.refresh, hash) ==> IsRevoked(Run(s, actions).refresh, hash)
    decreases actions
  {
    if actions != [] {
      DoKeepsRevoked(s, actions[0], hash);
      RevocationIsOneWay(Do(s, actions[0]), actions[1..], hash);
    }
  }

  lemma DoKeepsInStep(s: Store, a: Action)
    requires InStep(s.access) && InStep(s.refresh)
    ensures InStep(Do(s, a).access) && InStep(Do(s, a).refresh)
  {
    hide InStep, StoreToken, RevokeTokens, StoreDeviceAndToken;
    match a
    case StoreAccess(token, ok) => StoreKeepsInStep(s.access, token, ok);
    case StoreRefresh(token, ok) => StoreKeepsInStep(s.refresh, token, ok);
    case StoreDevice(device, token, ok) =>
      DeviceStoreIsTokenStore(s, device, token, ok);
      StoreKeepsInStep(s.access, token, StoreDeviceAndToken(s, device, token, ok).1);
    case RevokeAccess(sel, ok) => RevokeKeepsInStep(s.access, sel, ok);
    case RevokeRefresh(sel, ok) => RevokeKeepsInStep(s.refresh, sel, ok);
    case RevokeOthers(user, keep, accessOk, refreshOk) =>
      RevokeKeepsInStep(s.access, ExceptDevice(user, keep), accessOk);
      RevokeKeepsInStep(s.refresh, ExceptDevice(user, keep), refreshOk);
    case Restart(access, refresh, _) =>
      ListingIsInStep(s.access, access);
      ListingIsInStep(s.refresh, refresh);
  }

  lemma ListingIsInStep(table: Table, listing: seq<Token>)
    ensures IsListing(listing, table.rows) ==> InStep(table.(mirror := listing))
  {
  }

  lemma {:induction false} RunKeepsInStep(s: Store, actions: seq<Action>)
    requires InStep(s.access) && InStep(s.refresh)
    ensures InStep(Run(s, actions).access) && InStep(Run(s, actions).refresh)
    decreases actions
  {
    if actions != [] {
      DoKeepsInStep(s, actions[0]);
      RunKeepsInStep(Do(s, actions[0]), actions[1..]);
    }
  }

  /** Which access tokens an action revokes, if the database takes it; */
  function AccessSelector(a: Action): Option<Selector> {
    match a
    case RevokeAccess(sel, ok) => if ok then Some(sel) else None
    case RevokeOthers(user, keep, ok, _) => if ok then Some(ExceptDevice(user, keep)) else None
    case _ => None
  }

  /** and which refresh tokens. */
  function RefreshSelector(a: Action): Option<Selector> {
    match a
    case RevokeRefresh(sel, ok) => if ok then Some(sel) else None
    case RevokeOthers(user, keep, _, ok) => if ok then Some(ExceptDevice(user, keep)) else None
    case _ => None
  }

  lemma DoRevokesMatching(s: Store, a: Action, i: nat)
    requires InStep(s.access) && InStep(s.refresh)
    ensures AccessSelector(a).Some? && i < |s.access.mirror| && Matches(AccessSelector(a).value, s.access.mirror[i]) ==>
              IsRevoked(Do(s, a).access, s.access.mirror[i].hash)
    ensures RefreshSelector(a).Some? && i < |s.refresh.mirror| && Matches(RefreshSelector(a).value, s.refresh.mirror[i]) ==>
              IsRevoked(Do(s, a).refresh, s.refresh.mirror[i].hash)
  {
    hide InStep, IsRevoked, RevokeTokens, Matches;
    if AccessSelector(a).Some? && i < |s.access.mirror| {
      RevokeIsExact(s.access, AccessSelector(a).value, i);
    }
    if RefreshSelector(a).Some? && i < |s.refresh.mirror| {
      RevokeIsExact(s.refresh, RefreshSelector(a).value, i);
    }
  }

  lemma RunFromEmptyIsInStep(actions: seq<Action>)
    ensures InStep(Run(EMPTY_STORE, actions).access) && InStep(Run(EMPTY_STORE, actions).refresh)
  {
    RunKeepsInStep(EMPTY_STORE, actions);
  }

  /**
   * Over every run, an access token matched by a revocation the database took is
   * revoked from then on, and its hash cannot be stored again, alone or with a device.
   */
  lemma RevokedForever(before: seq<Action>, a: Action, i: nat, after: seq<Action>, again: Token, device: Option<Device>, ok: bool)
    requires var s := Run(EMPTY_STORE, before);
             AccessSelector(a).Some? && i < |s.access.mirror| && Matches(AccessSelector(a).value, s.access.mirror[i]) &&
             again.hash == s.access.mirror[i].hash
    ensures var s := Run(Do(Run(EMPTY_STORE, before), a), after);
            IsRevoked(s.access, again.hash) && StoreToken(s.access, again, ok) == (s.access, false) &&
            StoreDeviceAndToken(s, device, again, ok) == (s, false)
  {
    hide Run, Do, IsRevoked, InStep, StoreToken, AccessSelector, Matches;
    RunFromEmptyIsInStep(before);
    var s := Run(EMPTY_STORE, before);
    DoRevokesMatching(s, a, i);
    RevocationIsOneWay(Do(s, a), after, again.hash);
    var t := Run(Do(s, a), after);
    StoreKeepsRevoked(t.access, again, ok, again.hash);
    RevokedIsRefused(t.access, again);
  }

  lemma RevokedIsRefused(table: Table, token: Token)
    requires IsRevoked(table, token.hash)
    ensures Refuses(table, token)
  {
  }

  /** The same for refresh tokens. */
  lemma RefreshRevokedForever(before: seq<Action>, a: Action, i: nat, after: seq<Action>, again: Token, ok: bool)
    requires var s := Run(EMPTY_STORE, before);
             RefreshSelector(a).Some? && i < |s.refresh.mirror| && Matches(RefreshSelector(a).value, s.refresh.mirror[i]) &&
             again.hash == s.refresh.mirror[i].hash
    ensures var s := Run(Do(Run(EMPTY_STORE, before), a), after);
            IsRevoked(s.refresh, again.hash) && StoreToken(s.refresh, again, ok) == (s.refresh, false)
  {
    hide Run, Do, IsRevoked, InStep, StoreToken, RefreshSelector, Matches;
    RunFromEmptyIsInStep(before);
    var s := Run(EMPTY_STORE, before);
    DoRevokesMatching(s, a, i);
    RevocationIsOneWay(Do(s, a), after, again.hash);
    StoreKeepsRevoked(Run(Do(s, a), after).refresh, again, ok, again.hash);
  }

  /** In either table, revoking all devices but one spares exactly that device's tokens and other users'. */
  lemma ExceptDeviceSpares(table: Table, user: Id, keep: Id, i: nat)
    requires InStep(table) && i < |table.mirror|
    ensures var t, after := table.mirror[i], RevokeTokens(table, ExceptDevice(user, keep), true).0;
            i < |after.mirror| &&
            (after.mirror[i] == t <==> t.user != user || t.device == keep || t.revoked) &&
            (t.user == user && t.device != keep ==> IsRevoked(after, t.hash))
  {
    RevokeIsExact(table, ExceptDevice(user, keep), i);
  }

  // ---- The operations as the code runs them ------------------------------------------------

  class TokenStore {
    var access: seq<Token>
    var accessRows: map<Id, Token>
    var refresh: seq<Token>
    var refreshRows: map<Id, Token>
    var devices: seq<Device>
    var deviceRows: map<(Id, Id), Device>

    function View(): Store
      reads this
    {
      Store(Table(access, accessRows), Table(refresh, refreshRows), devices, deviceRows)
    }

    constructor ()
      ensures View() == EMPTY_STORE
    {
      access, accessRows, refresh, refreshRows, devices, deviceRows := [], map[], [], map[], [], map[];
    }

    method StoreAccessToken(token: Token, ok: bool) returns (r: bool)
      modifies this
      ensures r == StoreToken(old(View()).access, token, ok).1
      ensures View() == old(View()).(access := StoreToken(old(View()).access, token, ok).0)
    {
      if !LoginTokens.IsHash(token.hash) {
        return false;
      }
      if HashExists(access, token.hash) {
        return false;
      }
      if !ok || token.hash in accessRows {
        return false;
      }
      accessRows := accessRows[token.hash := RowOf(token)];
      access := access + [token];
      return true;
    }

    method StoreRefreshToken(token: Token, ok: bool) returns (r: bool)
      modifies this
      ensures r == StoreToken(old(View()).refresh, token, ok).1
      ensures View() == old(View()).(refresh := StoreToken(old(View()).refresh, token, ok).0)
    {
      if !LoginTokens.IsHash(token.hash) || HashExists(refresh, token.hash) {
        return false;
      }
      if !ok || token.hash in refreshRows {
        return false;
      }
      refreshRows := refreshRows[token.hash := RowOf(token)];
      refresh := refresh + [token];
      return true;
    }

    method StoreDeviceAndAccessToken(device: Option<Device>, token: Token, ok: bool) returns (r: bool)
      modifies this
      ensures (View(), r) == StoreDeviceAndToken(old(View()), device, token, ok)
    {
      if !LoginTokens.IsHash(token.hash) || HashExists(access, token.hash) {
        return false;
      }
      if device.Some? && DeviceExists(devices, device.value) {
        return false;
      }
      if !ok || token.hash in accessRows || (device.Some? && (device.value.user, device.value.device) in deviceRows) {
        return false;
      }
      accessRows := accessRows[token.hash := RowOf(token)];
      if device.Some? {
        deviceRows := deviceRows[(device.value.user, device.value.device) := device.value];
        devices := devices + [device.value];
      }
      access := access + [token];
      return true;
    }

    method RevokeAccessTokens(sel: Selector, ok: bool) returns (revoked: nat)
      modifies this`access, this`accessRows
      ensures revoked == RevokeTokens(old(View()).access, sel, ok).1
      ensures View() == old(View()).(access := RevokeTokens(old(View()).access, sel, ok).0)
    {
      if !ok {
        return 0;
      }
      accessRows := RevokeRows(accessRows, sel);
      access, revoked := FlipMatching(access, sel);
    }

    method RevokeRefreshTokens(sel: Selector, ok: bool) returns (revoked: nat)
      modifies this`refresh, this`refreshRows
      ensures revoked == RevokeTokens(old(View()).refresh, sel, ok).1
      ensures View() == old(View()).(refresh := RevokeTokens(old(View()).refresh, sel, ok).0)
    {
      if !ok {
        return 0;
      }
      refreshRows := RevokeRows(refreshRows, sel);
      refresh, revoked := FlipMatching(refresh, sel);
    }

    method RevokeTokensForUserExceptDevice(user: Id, keep: Id, accessOk: bool, refreshOk: bool) returns (revoked: nat)
      modifies this
      ensures (View(), revoked) == RevokeExceptDevice(old(View()), user, keep, accessOk, refreshOk)
    {
      revoked := RevokeAccessTokens(ExceptDevice(user, keep), accessOk);
      var more := RevokeRefreshTokens(ExceptDevice(user, keep), refreshOk);
      revoked := revoked + more;
    }
  }

  lemma LiveCountNext(tokens: seq<Token>, i: nat, sel: Selector)
    requires i < |tokens|
    ensures LiveCount(tokens[..i + 1], sel) == LiveCount(tokens[..i], sel) + if IsLive(sel)(tokens[i]) then 1 else 0
  {
    FilterNext(tokens, i, IsLive(sel));
  }

  /** The loop every revocation runs over the mirror. */
  method FlipMatching(tokens: seq<Token>, sel: Selector) returns (r: seq<Token>, revoked: nat)
    ensures r == Map(Revoke(sel), tokens) && revoked == LiveCount(tokens, sel)
  {
    r, revoked := tokens, 0;
    assert LiveCount(tokens[..0], sel) == 0;
    hide LiveCount, Matches;
    for i := 0 to |tokens|
      invariant |r| == |tokens| && revoked == LiveCount(tokens[..i], sel)
      invariant forall j :: 0 <= j < |tokens| ==> r[j] == if j < i then Revoke(sel)(tokens[j]) else tokens[j]
    {
      LiveCountNext(tokens, i, sel);
      if Matches(sel, r[i]) && !r[i].revoked {
        r := r[i := r[i].(revoked := true)];
        revoked := revoked + 1;
      }
    }
    assert tokens[..|tokens|] == tokens;
  }
}
