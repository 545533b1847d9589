/**
 * Single-use login tokens: issue with a retention sweep, redemption, and whole
 * runs with failed writes, ignored prune results and restarts
 * (src/database/persistent_store.cpp).
 */
module LoginTokens {
  import opened Basics

  type Id = string

  /** Times are nanoseconds since the epoch; the database keeps milliseconds. */
  type Time = nat

  datatype Token = Token(user: Id, hash: Id, expires: Time, used: bool)

  const MILLISECOND: nat := 1_000_000

  function Truncated(t: Time): (r: Time)
    ensures r <= t < r + MILLISECOND
  {
    t / MILLISECOND * MILLISECOND
  }

  /** The mirror, and the rows by their key; a memory store accepts every write and keeps no rows. */
  datatype Tokens = Tokens(mirror: seq<Token>, rows: map<Id, Token>, memory: bool)

  predicate IsHash(hash: Id) {
    "token-hash:v2:" <= hash || "token-hash:v3:" <= hash || "token-hash:v4:" <= hash
  }

  predicate IsStale(token: Token, now: Time) {
    token.expires <= now || token.used
  }

  // ---- Issue and sweep -----------------------------------------------------------

  function StaleHashes(mirror: seq<Token>, now: Time): seq<Id> {
    if mirror == [] then []
    else (if IsStale(mirror[0], now) then [mirror[0].hash] else []) + StaleHashes(mirror[1..], now)
  }

  function EraseFirst(mirror: seq<Token>, hash: Id): seq<Token> {
    if mirror == [] then []
    else if mirror[0].hash == hash then mirror[1..]
    else [mirror[0]] + EraseFirst(mirror[1..], hash)
  }

  /** One prune: the database obeys or not, the mirror's first row with the hash goes. */
  function Pruned(s: Tokens, hash: Id, ok: bool): Tokens {
    s.(mirror := EraseFirst(s.mirror, hash), rows := if ok then s.rows - {hash} else s.rows)
  }

  /** Whether the database obeyed the `i`-th prune. */
  function Answer(prunes: seq<bool>, i: nat): bool {
    i < |prunes| && prunes[i]
  }

  function Swept(s: Tokens, hashes: seq<Id>, prunes: seq<bool>): Tokens
    decreases hashes
  {
    if hashes == [] then s
    else Swept(Pruned(s, hashes[0], Answer(prunes, 0)), hashes[1..], if prunes == [] then [] else prunes[1..])
  }

  function Inserted(s: Tokens, token: Token, ok: bool): Option<Tokens> {
    if s.memory then Some(s.(mirror := s.mirror + [token]))
    else if !ok || token.hash in s.rows then None
    else Some(s.(mirror := s.mirror + [token], rows := s.rows[token.hash := token.(expires := Truncated(token.expires))]))
  }

  function Stored(s: Tokens, token: Token, now: Time, ok: bool, prunes: seq<bool>): (Tokens, bool) {
    if token.user == "" || !IsHash(token.hash) then (s, false)
    else
      var inserted := Inserted(s, token, ok);
      if inserted.None? then (s, false)
      else (Swept(inserted.value, StaleHashes(inserted.value.mirror, now), prunes), true)
  }

  // ---- Redemption ------------------------------------------------------------------

  predicate IsRedeemable(token: Token, candidates: seq<Id>, now: Time) {
    !IsStale(token, now) && token.hash in candidates
  }

  /** The position of the first redeemable row, or the length. */
  function Match(mirror: seq<Token>, candidates: seq<Id>, now: Time): (i: nat)
    ensures i <= |mirror| && (i < |mirror| ==> IsRedeemable(mirror[i], candidates, now))
    ensures forall j :: 0 <= j < i ==> !IsRedeemable(mirror[j], candidates, now)
  {
    if mirror == [] || IsRedeemable(mirror[0], candidates, now) then 0
    else 1 + Match(mirror[1..], candidates, now)
  }

  function MarkUsed(rows: map<Id, Token>, hash: Id): map<Id, Token> {
    if hash in rows then rows[hash := rows[hash].(used := true)] else rows
  }

  /** The row is marked in the database first, and only then in the mirror. */
  function Consumed(s: Tokens, candidates: seq<Id>, now: Time, ok: bool): (Tokens, Option<Token>) {
    var i := Match(s.mirror, candidates, now);
    if i == |s.mirror| || (!s.memory && !ok) then (s, None)
    else
      var token := s.mirror[i];
      (s.(mirror := s.mirror[i := token.(used := true)], rows := MarkUsed(s.rows, token.hash)), Some(token))
  }

  // ---- Runs --------------------------------------------------------------------------

  datatype Redemption = Redemption(hash: Id, user: Id, at: Time)

  datatype World = World(s: Tokens, issued: seq<Token>, redeemed: seq<Redemption>, clock: Time)

  datatype Action =
    | Issue(token: Token, now: Time, ok: bool, prunes: seq<bool>)
    | Redeem(candidates: seq<Id>, now: Time, ok: bool)
    | Restart(listing: seq<Token>)

  function Start(memory: bool): World {
    World(Tokens([], map[], memory), [], [], 0)
  }

  function DoIssue(w: World, token: Token, now: Time, ok: bool, prunes: seq<bool>): World {
    var (s, accepted) := Stored(w.s, token, now, ok, prunes);
    w.(s := s, issued := if accepted then w.issued + [token] else w.issued, clock := now)
  }

  function DoRedeem(w: World, candidates: seq<Id>, now: Time, ok: bool): World {
    var (s, token) := Consumed(w.s, candidates, now, ok);
    w.(s := s, clock := now,
       redeemed := if token.Some? then w.redeemed + [Redemption(token.value.hash, token.value.user, now)] else w.redeemed)
  }

  /** The rows as a query returns them, in any order, each once. */
  ghost predicate IsListing(listing: seq<Token>, rows: map<Id, Token>) {
    (forall i :: 0 <= i < |listing| ==> listing[i].hash in rows && rows[listing[i].hash] == listing[i]) &&
    (forall i, j :: 0 <= i < j < |listing| ==> listing[i].hash != listing[j].hash) &&
    (forall hash :: hash in rows ==> exists i :: 0 <= i < |listing| && listing[i].hash == hash)
  }

  ghost function Do(w: World, a: Action): World {
    match a
    case Issue(token, now, ok, prunes) => DoIssue(w, token, now, ok, prunes)
    case Redeem(candidates, now, ok) => DoRedeem(w, candidates, now, ok)
    case Restart(listing) => if IsListing(listing, w.s.rows) then w.(s := w.s.(mirror := listing)) else w
  }

  ghost function Run(w: World, actions: seq<Action>): World
    decreases actions
  {
    if actions == [] then w else Run(Do(w, actions[0]), actions[1..])
  }

  // ---- Conservation --------------------------------------------------------------------

  function IssuedCount(issued: seq<Token>, hash: Id): nat {
    if issued == [] then 0
    else (if issued[|issued| - 1].hash == hash then 1 else 0) + IssuedCount(issued[..|issued| - 1], hash)
  }

  function RedeemedCount(redeemed: seq<Redemption>, hash: Id): nat {
    if redeemed == [] then 0
    else (if redeemed[|redeemed| - 1].hash == hash then 1 else 0) + RedeemedCount(redeemed[..|redeemed| - 1], hash)
  }

  function UnusedCount(mirror: seq<Token>, hash: Id): nat {
    if mirror == [] then 0
    else (if mirror[0].hash == hash && !mirror[0].used then 1 else 0) + UnusedCount(mirror[1..], hash)
  }

  function UnusedRow(rows: map<Id, Token>, hash: Id): nat {
    if hash in rows && !rows[hash].used then 1 else 0
  }

  lemma {:induction false} UnusedAppend(mirror: seq<Token>, token: Token, hash: Id)
    ensures UnusedCount(mirror + [token], hash) ==
            UnusedCount(mirror, hash) + if token.hash == hash && !token.used then 1 else 0
  {
    if mirror == [] {
      assert mirror + [token] == [token];
    } else {
      assert (mirror + [token])[0] == mirror[0] && (mirror + [token])[1..] == mirror[1..] + [token];
      UnusedAppend(mirror[1..], token, hash);
    }
  }

  lemma {:induction false} UnusedErase(mirror: seq<Token>, erased: Id, hash: Id)
    ensures UnusedCount(EraseFirst(mirror, erased), hash) <= UnusedCount(mirror, hash)
  {
    if mirror != [] && mirror[0].hash != erased {
      UnusedErase(mirror[1..], erased, hash);
      assert EraseFirst(mirror, erased)[1..] == EraseFirst(mirror[1..], erased);
    }
  }

  lemma {:induction false} UnusedSwept(s: Tokens, hashes: seq<Id>, prunes: seq<bool>, hash: Id)
    ensures var s' := Swept(s, hashes, prunes);
            UnusedCount(s'.mirror, hash) <= UnusedCount(s.mirror, hash) &&
            UnusedRow(s'.rows, hash) <= UnusedRow(s.rows, hash) && s'.memory == s.memory
    decreases hashes
  {
    if hashes != [] {
      UnusedErase(s.mirror, hashes[0], hash);
      UnusedSwept(Pruned(s, hashes[0], Answer(prunes, 0)), hashes[1..], if prunes == [] then [] else prunes[1..], hash);
    }
  }

  lemma {:induction false} UnusedMark(mirror: seq<Token>, i: nat, hash: Id)
    requires i < |mirror| && !mirror[i].used
    ensures UnusedCount(mirror[i := mirror[i].(used := true)], hash) ==
            UnusedCount(mirror, hash) - if mirror[i].hash == hash then 1 else 0
  {
    if i > 0 {
      assert mirror[i := mirror[i].(used := true)][1..] == mirror[1..][i - 1 := mirror[i].(used := true)];
      UnusedMark(mirror[1..], i - 1, hash);
    } else {
      assert mirror[i := mirror[i].(used := true)][1..] == mirror[1..];
    }
  }

  lemma {:induction false} UnusedListing(listing: seq<Token>, hash: Id)
    requires forall i, j :: 0 <= i < j < |listing| ==> listing[i].hash != listing[j].hash
    ensures UnusedCount(listing, hash) <= 1
    ensures UnusedCount(listing, hash) == 1 ==> exists i :: 0 <= i < |listing| && listing[i].hash == hash && !listing[i].used
  {
    if listing != [] {
      UnusedListing(listing[1..], hash);
      if UnusedCount(listing[1..], hash) == 1 {
        var i :| 0 <= i < |listing[1..]| && listing[1..][i].hash == hash && !listing[1..][i].used;
        assert listing[i + 1] == listing[1..][i] && listing[0].hash != listing[i + 1].hash;
      }
    }
  }

  ghost predicate Conserved(w: World, hash: Id) {
    RedeemedCount(w.redeemed, hash) + UnusedCount(w.s.mirror, hash) <= IssuedCount(w.issued, hash) &&
    RedeemedCount(w.redeemed, hash) + UnusedRow(w.s.rows, hash) <= IssuedCount(w.issued, hash)
  }

  lemma IssueConserves(w: World, token: Token, now: Time, ok: bool, prunes: seq<bool>, hash: Id)
    requires Conserved(w, hash)
    ensures Conserved(DoIssue(w, token, now, ok, prunes), hash)
  {
    hide UnusedCount, RedeemedCount, IssuedCount, Swept, StaleHashes, IsHash;
    if Stored(w.s, token, now, ok, prunes).1 {
      var inserted := Inserted(w.s, token, ok).value;
      UnusedAppend(w.s.mirror, token, hash);
      UnusedSwept(inserted, StaleHashes(inserted.mirror, now), prunes, hash);
      IssuedOneMore(w.issued, token, hash);
    }
  }

  lemma RedeemedOneMore(redeemed: seq<Redemption>, r: Redemption, hash: Id)
    ensures RedeemedCount(redeemed + [r], hash) == RedeemedCount(redeemed, hash) + if r.hash == hash then 1 else 0
  {
    assert (redeemed + [r])[..|redeemed|] == redeemed;
  }

  lemma IssuedOneMore(issued: seq<Token>, token: Token, hash: Id)
    ensures IssuedCount(issued + [token], hash) == IssuedCount(issued, hash) + if token.hash == hash then 1 else 0
  {
    assert (issued + [token])[..|issued|] == issued;
  }

  lemma UnusedRowMarked(rows: map<Id, Token>, marked: Id, hash: Id)
    ensures UnusedRow(MarkUsed(rows, marked), hash) == if marked == hash then 0 else UnusedRow(rows, hash)
  {
  }

  lemma RedeemConserves(w: World, candidates: seq<Id>, now: Time, ok: bool, hash: Id)
    requires Conserved(w, hash)
    ensures Conserved(DoRedeem(w, candidates, now, ok), hash)
  {
    hide Match, UnusedCount, UnusedRow, RedeemedCount, IssuedCount, MarkUsed;
    var i := Match(w.s.mirror, candidates, now);
    if i < |w.s.mirror| && (w.s.memory || ok) {
      var token := w.s.mirror[i];
      UnusedMark(w.s.mirror, i, hash);
      UnusedRowMarked(w.s.rows, token.hash, hash);
      RedeemedOneMore(w.redeemed, Redemption(token.hash, token.user, now), hash);
    }
  }

  lemma DoConserves(w: World, a: Action, hash: Id)
    requires Conserved(w, hash)
    ensures Conserved(Do(w, a), hash)
  {
    match a
    case Issue(token, now, ok, prunes) => IssueConserves(w, token, now, ok, prunes, hash);
    case Redeem(candidates, now, ok) => RedeemConserves(w, candidates, now, ok, hash);
    case Restart(listing) =>
      if IsListing(listing, w.s.rows) {
        UnusedListing(listing, hash);
      }
  }

  lemma {:induction false} RunConserves(w: World, actions: seq<Action>, hash: Id)
    requires Conserved(w, hash)
    ensures Conserved(Run(w, actions), hash)
    decreases actions
  {
    if actions != [] {
      DoConserves(w, actions[0], hash);
      RunConserves(Do(w, actions[0]), actions[1..], hash);
    }
  }

  /** A hash is never redeemed more often than it was issued, on any store, over any run. */
  lemma RedeemedAtMostIssued(memory: bool, actions: seq<Action>, hash: Id)
    ensures var w := Run(Start(memory), actions); RedeemedCount(w.redeemed, hash) <= IssuedCount(w.issued, hash)
  {
    RunConserves(Start(memory), actions, hash);
  }

  // ---- Expiry ----------------------------------------------------------------------------

  ghost predicate FromIssue(issued: seq<Token>, token: Token) {
    exists i :: 0 <= i < |issued| && issued[i].hash == token.hash && issued[i].user == token.user && token.expires <= issued[i].expires
  }

  ghost predicate InTime(issued: seq<Token>, r: Redemption) {
    exists i :: 0 <= i < |issued| && issued[i].hash == r.hash && issued[i].user == r.user && r.at < issued[i].expires
  }

  /** Every row, in mirror and database, goes back to an issue that expires no earlier. */
  ghost predicate Traced(w: World) {
    (forall t :: t in w.s.mirror ==> FromIssue(w.issued, t)) &&
    (forall hash :: hash in w.s.rows ==> w.s.rows[hash].hash == hash && FromIssue(w.issued, w.s.rows[hash])) &&
    (forall r :: r in w.redeemed ==> InTime(w.issued, r))
  }

  lemma {:induction false} EraseKeeps(mirror: seq<Token>, hash: Id)
    ensures forall t :: t in EraseFirst(mirror, hash) ==> t in mirror
    ensures forall t :: t in mirror && t.hash != hash ==> t in EraseFirst(mirror, hash)
  {
    if mirror != [] && mirror[0].hash != hash {
      EraseKeeps(mirror[1..], hash);
    }
  }

  /** A sweep only takes rows away. */
  lemma {:induction false} SweepOnlyRemoves(s: Tokens, hashes: seq<Id>, prunes: seq<bool>)
    ensures var s' := Swept(s, hashes, prunes);
            (forall t :: t in s'.mirror ==> t in s.mirror) && s'.memory == s.memory &&
            (forall hash :: hash in s'.rows ==> hash in s.rows && s'.rows[hash] == s.rows[hash])
    decreases hashes
  {
    if hashes != [] {
      EraseKeeps(s.mirror, hashes[0]);
      SweepOnlyRemoves(Pruned(s, hashes[0], Answer(prunes, 0)), hashes[1..], if prunes == [] then [] else prunes[1..]);
    }
  }

  lemma TracedLater(issued: seq<Token>, token: Token)
    ensures forall t :: FromIssue(issued, t) ==> FromIssue(issued + [token], t)
    ensures forall r :: InTime(issued, r) ==> InTime(issued + [token], r)
    ensures FromIssue(issued + [token], token) && FromIssue(issued + [token], token.(expires := Truncated(token.expires)))
  {
    var all := issued + [token];
    assert all[|issued|] == token;
    forall t | FromIssue(issued, t)
      ensures FromIssue(all, t)
    {
      var i :| 0 <= i < |issued| && issued[i].hash == t.hash && issued[i].user == t.user && t.expires <= issued[i].expires;
      assert all[i] == issued[i];
    }
    forall r | InTime(issued, r)
      ensures InTime(all, r)
    {
      var i :| 0 <= i < |issued| && issued[i].hash == r.hash && issued[i].user == r.user && r.at < issued[i].expires;
      assert all[i] == issued[i];
    }
  }

  lemma IssueKeepsTraced(w: World, token: Token, now: Time, ok: bool, prunes: seq<bool>)
    requires Traced(w)
    ensures Traced(DoIssue(w, token, now, ok, prunes))
  {
    if Stored(w.s, token, now, ok, prunes).1 {
      var inserted := Inserted(w.s, token, ok).value;
      TracedLater(w.issued, token);
      SweepOnlyRemoves(inserted, StaleHashes(inserted.mirror, now), prunes);
      hide FromIssue, InTime, Swept;
    }
  }

  lemma RedeemKeepsTraced(w: World, candidates: seq<Id>, now: Time, ok: bool)
    requires Traced(w)
    ensures Traced(DoRedeem(w, candidates, now, ok))
  {
    var i := Match(w.s.mirror, candidates, now);
    if i < |w.s.mirror| && (w.s.memory || ok) {
      var token := w.s.mirror[i];
      assert token in w.s.mirror && FromIssue(w.issued, token);
      assert FromIssue(w.issued, token.(used := true));
      assert InTime(w.issued, Redemption(token.hash, token.user, now));
      if token.hash in w.s.rows {
        assert FromIssue(w.issued, w.s.rows[token.hash].(used := true));
      }
      hide FromIssue, InTime, Match;
    }
  }

  lemma DoKeepsTraced(w: World, a: Action)
    requires Traced(w)
    ensures Traced(Do(w, a))
  {
    hide FromIssue, InTime;
    match a
    case Issue(token, now, ok, prunes) => IssueKeepsTraced(w, token, now, ok, prunes);
    case Redeem(candidates, now, ok) => RedeemKeepsTraced(w, candidates, now, ok);
    case Restart(listing) =>
  }

  lemma {:induction false} RunKeepsTraced(w: World, actions: seq<Action>)
    requires Traced(w)
    ensures Traced(Run(w, actions))
    decreases actions
  {
    if actions != [] {
      DoKeepsTraced(w, actions[0]);
      RunKeepsTraced(Do(w, actions[0]), actions[1..]);
    }
  }

  /** Every redemption is of a token issued to that user and not yet expired. */
  lemma RedeemedBeforeExpiry(memory: bool, actions: seq<Action>, r: Redemption)
    requires r in Run(Start(memory), actions).redeemed
    ensures InTime(Run(Start(memory), actions).issued, r)
  {
    RunKeepsTraced(Start(memory), actions);
  }

  // ---- Swept tokens ----------------------------------------------------------------------------

  /** Mirror rows have distinct hashes and a database row that is used, and expired, no later. */
  ghost predicate Linked(s: Tokens) {
    DistinctHashes(s.mirror) &&
    (forall t :: t in s.mirror ==> t.hash in s.rows && Follows(s.rows[t.hash], t)) &&
    (forall hash :: hash in s.rows ==> s.rows[hash].hash == hash)
  }

  ghost predicate DistinctHashes(mirror: seq<Token>) {
    forall i, j :: 0 <= i < j < |mirror| ==> mirror[i].hash != mirror[j].hash
  }

  ghost predicate Follows(row: Token, t: Token) {
    row.expires <= t.expires && (t.used ==> row.used)
  }

  lemma {:induction false} EraseKeepsDistinct(mirror: seq<Token>, hash: Id)
    requires DistinctHashes(mirror)
    ensures DistinctHashes(EraseFirst(mirror, hash)) && forall t :: t in EraseFirst(mirror, hash) ==> t.hash != hash
  {
    if mirror != [] && mirror[0].hash != hash {
      var rest := EraseFirst(mirror[1..], hash);
      EraseKeeps(mirror[1..], hash);
      EraseKeepsDistinct(mirror[1..], hash);
      forall j | 0 <= j < |rest|
        ensures rest[j].hash != mirror[0].hash
      {
        assert rest[j] in mirror[1..];
      }
    }
  }

  lemma PruneKeepsLinked(s: Tokens, hash: Id, ok: bool)
    requires Linked(s)
    ensures Linked(Pruned(s, hash, ok))
  {
    EraseKeeps(s.mirror, hash);
    EraseKeepsDistinct(s.mirror, hash);
    hide DistinctHashes, EraseFirst;
  }

  lemma {:induction false} SweepKeepsLinked(s: Tokens, hashes: seq<Id>, prunes: seq<bool>)
    requires Linked(s)
    ensures Linked(Swept(s, hashes, prunes))
    decreases hashes
  {
    hide Linked;
    if hashes != [] {
      PruneKeepsLinked(s, hashes[0], Answer(prunes, 0));
      SweepKeepsLinked(Pruned(s, hashes[0], Answer(prunes, 0)), hashes[1..], if prunes == [] then [] else prunes[1..]);
    }
  }

  lemma InsertKeepsLinked(s: Tokens, token: Token, ok: bool)
    requires Linked(s) && !s.memory && Inserted(s, token, ok).Some?
    ensures Linked(Inserted(s, token, ok).value)
  {
  }

  lemma DoKeepsLinked(w: World, a: Action)
    requires Linked(w.s) && !w.s.memory
    ensures Linked(Do(w, a).s) && !Do(w, a).s.memory
  {
    match a
    case Issue(token, now, ok, prunes) =>
      if Stored(w.s, token, now, ok, prunes).1 {
        var inserted := Inserted(w.s, token, ok).value;
        InsertKeepsLinked(w.s, token, ok);
        SweepKeepsLinked(inserted, StaleHashes(inserted.mirror, now), prunes);
        SweepOnlyRemoves(inserted, StaleHashes(inserted.mirror, now), prunes);
      }
    case Redeem(candidates, now, ok) =>
    case Restart(listing) =>
  }

  lemma {:induction false} RunKeepsLinked(w: World, actions: seq<Action>)
    requires Linked(w.s) && !w.s.memory
    ensures Linked(Run(w, actions).s) && !Run(w, actions).s.memory
    decreases actions
  {
    if actions != [] {
      DoKeepsLinked(w, actions[0]);
      RunKeepsLinked(Do(w, actions[0]), actions[1..]);
    }
  }

  // ---- The operations as the code runs them ------------------------------------------------------

  class LoginTokenStore {
    var mirror: seq<Token>
    var rows: map<Id, Token>
    const memory: bool

    function View(): Tokens
      reads this
    {
      Tokens(mirror, rows, memory)
    }

    constructor (memory: bool)
      ensures View() == Start(memory).s
    {
      mirror, rows := [], map[];
      this.memory := memory;
    }

    method StoreLoginToken(token: Token, now: Time, ok: bool, prunes: seq<bool>) returns (r: bool)
      modifies this
      ensures (View(), r) == Stored(old(View()), token, now, ok, prunes)
    {
      if token.user == "" || !IsHash(token.hash) {
        return false;
      }
      if !memory {
        if !ok || token.hash in rows {
          return false;
        }
        rows := rows[token.hash := token.(expires := Truncated(token.expires))];
      }
      mirror := mirror + [token];
      ghost var inserted := View();
      var stale := CollectStale(mirror, now);
      assert prunes[0..] == prunes && stale[0..] == stale;
      for i := 0 to |stale|
        invariant Swept(View(), stale[i..], Rest(prunes, i)) == Swept(inserted, stale, prunes)
      {
        assert stale[i..][1..] == stale[i + 1..];
        RestNext(prunes, i);
        if Answer(prunes, i) {
          rows := rows - {stale[i]};
        }
        mirror := EraseFirst(mirror, stale[i]);
      }
      return true;
    }

    method ConsumeLoginToken(candidates: seq<Id>, now: Time, ok: bool) returns (user: Option<Id>, ghost token: Option<Token>)
      modifies this
      ensures (View(), token) == Consumed(old(View()), candidates, now, ok)
      ensures user == if token.Some? then Some(token.value.user) else None
    {
      var i := FindRedeemable(mirror, candidates, now);
      if i == |mirror| || (!memory && !ok) {
        return None, None;
      }
      var matched := mirror[i];
      rows := MarkUsed(rows, matched.hash);
      mirror := mirror[i := matched.(used := true)];
      return Some(matched.user), Some(matched);
    }
  }

  /** The answers from the `i`-th on. */
  ghost function Rest(prunes: seq<bool>, i: nat): seq<bool> {
    if i <= |prunes| then prunes[i..] else []
  }

  lemma RestNext(prunes: seq<bool>, i: nat)
    ensures Answer(Rest(prunes, i), 0) == Answer(prunes, i)
    ensures Rest(prunes, i + 1) == if Rest(prunes, i) == [] then [] else Rest(prunes, i)[1..]
  {
  }

  method CollectStale(mirror: seq<Token>, now: Time) returns (stale: seq<Id>)
    ensures stale == StaleHashes(mirror, now)
  {
    stale := [];
    for i := 0 to |mirror|
      invariant stale + StaleHashes(mirror[i..], now) == StaleHashes(mirror, now)
    {
      assert mirror[i..][1..] == mirror[i + 1..];
      if IsStale(mirror[i], now) {
        stale := stale + [mirror[i].hash];
      }
    }
  }

  method FindRedeemable(mirror: seq<Token>, candidates: seq<Id>, now: Time) returns (i: nat)
    ensures i == Match(mirror, candidates, now)
  {
    i := 0;
    while i < |mirror| && !IsRedeemable(mirror[i], candidates, now)
      invariant i <= |mirror| && forall j :: 0 <= j < i ==> !IsRedeemable(mirror[j], candidates, now)
    {
      i := i + 1;
    }
  }
}
