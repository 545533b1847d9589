/**
 * When a token is stored, redeemed, swept or revoked, said of the fields of
 * the tokens (src/database/persistent_store.cpp).
 */
module TokenLaws {
  import opened Basics
  import L = LoginTokens
  import S = TokenSweep
  import R = Revocation

  /** The first fourteen characters name one of the three hash versions. */
  predicate HasHashPrefix(hash: string) {
    |hash| >= 14 && (hash[..14] == "token-hash:v2:" || hash[..14] == "token-hash:v3:" || hash[..14] == "token-hash:v4:")
  }

  lemma IsHashIff(hash: string)
    ensures L.IsHash(hash) <==> HasHashPrefix(hash)
  {
    assert forall p: string :: |p| == 14 ==> (p <= hash <==> |hash| >= 14 && hash[..14] == p);
  }

  // ---- Login tokens ------------------------------------------------------------------

  /** A login token is issued exactly for a named user and a hash that the database, if there is one, takes. */
  lemma IssueSucceedsIff(s: L.Tokens, token: L.Token, now: L.Time, ok: bool, prunes: seq<bool>)
    ensures var (s', accepted) := L.Stored(s, token, now, ok, prunes);
            (accepted <==> token.user != "" && HasHashPrefix(token.hash) && (s.memory || (ok && token.hash !in s.rows))) &&
            (!accepted ==> s' == s)
  {
    IsHashIff(token.hash);
    hide L.IsHash, HasHashPrefix, L.Swept, L.StaleHashes;
  }

  /** The mirror after an issue on a database: the rows before and the new one, without what is used or expired. */
  lemma IssueLeavesLive(actions: seq<L.Action>, token: L.Token, now: L.Time, ok: bool, prunes: seq<bool>, t: L.Token)
    requires L.Stored(L.Run(L.Start(false), actions).s, token, now, ok, prunes).1
    ensures var s := L.Run(L.Start(false), actions).s;
            var mirror := L.Stored(s, token, now, ok, prunes).0.mirror;
            t in mirror <==> (t in s.mirror || t == token) && !t.used && now < t.expires
  {
    hide L.Run, L.Stored;
    S.DatabaseSweepIsExact(actions, token, now, ok, prunes);
  }

  /** The token can be redeemed now by one of the candidate hashes. */
  ghost predicate IsOpen(t: L.Token, candidates: seq<L.Id>, now: L.Time) {
    !t.used && now < t.expires && t.hash in candidates
  }

  /**
   * A redemption returns the first token that is unused, unexpired and named by
   * a candidate, if the database takes the mark; it marks that token and its
   * row and nothing else, and fails otherwise.
   */
  lemma RedeemOnFields(s: L.Tokens, candidates: seq<L.Id>, now: L.Time, ok: bool)
    ensures var (s', token) := L.Consumed(s, candidates, now, ok);
            (token.Some? <==> (s.memory || ok) && exists i :: 0 <= i < |s.mirror| && IsOpen(s.mirror[i], candidates, now)) &&
            (token.None? ==> s' == s) &&
            (token.Some? ==> exists i :: RedeemedAt(s, s', token.value, candidates, now, i))
  {
    var i := L.Match(s.mirror, candidates, now);
    var (s', token) := L.Consumed(s, candidates, now, ok);
    assert forall j :: 0 <= j < |s.mirror| ==>
      (IsOpen(s.mirror[j], candidates, now) <==> L.IsRedeemable(s.mirror[j], candidates, now));
    hide L.IsRedeemable, IsOpen;
    if token.Some? {
      assert RedeemedAt(s, s', token.value, candidates, now, i);
    }
  }

  ghost predicate RedeemedAt(s: L.Tokens, s': L.Tokens, token: L.Token, candidates: seq<L.Id>, now: L.Time, i: int) {
    0 <= i < |s.mirror| && s.mirror[i] == token && IsOpen(token, candidates, now) &&
    (forall j :: 0 <= j < i ==> !IsOpen(s.mirror[j], candidates, now)) &&
    s'.mirror == s.mirror[i := L.Token(token.user, token.hash, token.expires, true)] && s'.memory == s.memory &&
    s'.rows.Keys == s.rows.Keys &&
    forall hash :: hash in s.rows ==> s'.rows[hash] == if hash == token.hash then s.rows[hash].(used := true) else s.rows[hash]
  }

  // ---- Access and refresh tokens ---------------------------------------------------------

  /** On a table in step, a token is stored exactly if its hash has the prefix and no row yet; then it is last. */
  lemma StoreSucceedsIff(table: R.Table, token: R.Token, ok: bool)
    requires R.InStep(table)
    ensures var (after, r) := R.StoreToken(table, token, ok);
            (r <==> ok && HasHashPrefix(token.hash) && token.hash !in table.rows) &&
            (if r then after.mirror == table.mirror + [token] && token.hash in after.rows &&
                       after.rows == table.rows[token.hash := after.rows[token.hash]] &&
                       SameInMilliseconds(after.rows[token.hash], token)
             else after == table)
  {
    IsHashIff(token.hash);
    hide L.IsHash, HasHashPrefix;
    if i :| 0 <= i < |table.mirror| && table.mirror[i].hash == token.hash {
      assert R.HashOf(table.mirror[i]) in table.rows;
    }
  }

  /** The row keeps everything but the part of the expiry below a millisecond. */
  ghost predicate SameInMilliseconds(row: R.Token, token: R.Token) {
    row.user == token.user && row.device == token.device && row.hash == token.hash && row.revoked == token.revoked &&
    (row.expires.None? <==> token.expires.None?) &&
    (row.expires.Some? ==> row.expires.value <= token.expires.value < row.expires.value + 1_000_000 &&
                           row.expires.value % 1_000_000 == 0)
  }

  /** With a new device, the device's row must be free too, and both go in together. */
  lemma StoreDeviceSucceedsIff(s: R.Store, d: R.Device, token: R.Token, ok: bool)
    requires R.InStep(s.access)
    ensures var (after, r) := R.StoreDeviceAndToken(s, Some(d), token, ok);
            (r <==> ok && HasHashPrefix(token.hash) && token.hash !in s.access.rows && (d.user, d.device) !in s.deviceRows &&
                    forall i :: 0 <= i < |s.devices| ==> s.devices[i].user != d.user || s.devices[i].device != d.device) &&
            (if r then after.access == R.StoreToken(s.access, token, true).0 && after.refresh == s.refresh &&
                       after.devices == s.devices + [d] && after.deviceRows == s.deviceRows[(d.user, d.device) := d]
             else after == s)
  {
    StoreSucceedsIff(s.access, token, true);
    hide R.InStep, HasHashPrefix, SameInMilliseconds;
  }

  /** Token and row before and after a revocation: revoked if it is for them, and otherwise as they were. */
  ghost predicate Became(table: R.Table, after: R.Table, i: nat, matched: bool) {
    i < |table.mirror| && |after.mirror| == |table.mirror| &&
    var t := table.mirror[i];
    after.mirror[i] == R.Token(t.user, t.device, t.hash, t.revoked || matched, t.expires) &&
    t.hash in table.rows && t.hash in after.rows &&
    after.rows[t.hash] == if matched then table.rows[t.hash].(revoked := true) else table.rows[t.hash]
  }

  lemma RevokedOrNot(table: R.Table, sel: R.Selector, i: nat)
    requires R.InStep(table) && i < |table.mirror|
    ensures Became(table, R.RevokeTokens(table, sel, true).0, i, R.Matches(sel, table.mirror[i]))
  {
    var t := table.mirror[i];
    assert R.HashOf(t) in table.rows && table.rows[R.HashOf(t)] == R.RowOf(t);
  }

  /** Exactly which tokens each revocation is for: by hash, by user, by device, and by all devices but one. */
  lemma RevokesExactly(table: R.Table, hash: R.Id, user: R.Id, device: R.Id, i: nat)
    requires R.InStep(table) && i < |table.mirror|
    ensures var t := table.mirror[i];
            Became(table, R.RevokeTokens(table, R.ByHash(hash), true).0, i, t.hash == hash) &&
            Became(table, R.RevokeTokens(table, R.ByUser(user), true).0, i, t.user == user) &&
            Became(table, R.RevokeTokens(table, R.ByDevice(user, device), true).0, i, t.user == user && t.device == device) &&
            Became(table, R.RevokeTokens(table, R.ExceptDevice(user, device), true).0, i, t.user == user && t.device != device)
  {
    hide R.InStep, Became, R.RevokeTokens;
    RevokedOrNot(table, R.ByHash(hash), i);
    RevokedOrNot(table, R.ByUser(user), i);
    RevokedOrNot(table, R.ByDevice(user, device), i);
    RevokedOrNot(table, R.ExceptDevice(user, device), i);
  }

  /** A revocation the database does not take changes nothing. */
  lemma RefusedRevocation(table: R.Table, sel: R.Selector)
    ensures R.RevokeTokens(table, sel, false) == (table, 0)
  {
  }
}
