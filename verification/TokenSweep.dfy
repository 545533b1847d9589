/** Exactly what the retention sweep of login tokens removes (src/database/persistent_store.cpp). */
module TokenSweep {
  import opened Basics
  import opened LoginTokens

  function IsFresh(now: Time): Token -> bool {
    (t: Token) => !IsStale(t, now)
  }

  /** Of rows with one hash, the stale ones come first. */
  ghost predicate StaleFirst(mirror: seq<Token>, now: Time) {
    forall i, j :: 0 <= i < j < |mirror| && mirror[i].hash == mirror[j].hash && IsStale(mirror[j], now) ==>
      IsStale(mirror[i], now)
  }

  /** The rows without the first of each hash, as often as the hash is listed. */
  ghost function Drop(mirror: seq<Token>, hashes: multiset<Id>): seq<Token> {
    if mirror == [] then []
    else if mirror[0].hash in hashes then Drop(mirror[1..], hashes - multiset{mirror[0].hash})
    else [mirror[0]] + Drop(mirror[1..], hashes)
  }

  lemma {:induction false} DropNothing(mirror: seq<Token>)
    ensures Drop(mirror, multiset{}) == mirror
  {
    if mirror != [] {
      DropNothing(mirror[1..]);
    }
  }

  lemma {:induction false} EraseThenDrop(mirror: seq<Token>, hash: Id, hashes: multiset<Id>)
    ensures Drop(EraseFirst(mirror, hash), hashes) == Drop(mirror, hashes + multiset{hash})
  {
    if mirror != [] {
      var g := mirror[0].hash;
      if g == hash {
        assert hashes + multiset{hash} - multiset{g} == hashes;
      } else {
        var rest := EraseFirst(mirror[1..], hash);
        assert ([mirror[0]] + rest)[1..] == rest;
        if g in hashes {
          assert hashes + multiset{hash} - multiset{g} == hashes - multiset{g} + multiset{hash};
          EraseThenDrop(mirror[1..], hash, hashes - multiset{g});
        } else {
          EraseThenDrop(mirror[1..], hash, hashes);
        }
      }
    }
  }

  /** The order in which the hashes are erased does not matter, only how often each is. */
  lemma {:induction false} SweepIsDrop(s: Tokens, hashes: seq<Id>, prunes: seq<bool>)
    ensures Swept(s, hashes, prunes).mirror == Drop(s.mirror, multiset(hashes))
    decreases hashes
  {
    if hashes == [] {
      DropNothing(s.mirror);
    } else {
      SweepIsDrop(Pruned(s, hashes[0], Answer(prunes, 0)), hashes[1..], if prunes == [] then [] else prunes[1..]);
      EraseThenDrop(s.mirror, hashes[0], multiset(hashes[1..]));
      assert hashes == [hashes[0]] + hashes[1..];
      assert multiset(hashes) == multiset(hashes[1..]) + multiset{hashes[0]};
    }
  }

  lemma {:induction false} StaleHashesAre(mirror: seq<Token>, now: Time, hash: Id)
    ensures hash in multiset(StaleHashes(mirror, now)) <==>
            exists j :: 0 <= j < |mirror| && mirror[j].hash == hash && IsStale(mirror[j], now)
  {
    if mirror != [] {
      var rest := mirror[1..];
      StaleHashesAre(rest, now, hash);
      forall j | 0 <= j < |mirror|
        ensures j > 0 ==> mirror[j] == rest[j - 1]
      {
      }
      if hash in multiset(StaleHashes(rest, now)) {
        var j :| 0 <= j < |rest| && rest[j].hash == hash && IsStale(rest[j], now);
        assert mirror[j + 1] == rest[j];
      }
      if IsStale(mirror[0], now) {
        assert StaleHashes(mirror, now) == [mirror[0].hash] + StaleHashes(rest, now);
      }
    }
  }

  lemma StaleFirstRest(mirror: seq<Token>, now: Time)
    requires mirror != []
    ensures StaleFirst(mirror, now) <==>
            StaleFirst(mirror[1..], now) &&
            (IsStale(mirror[0], now) || mirror[0].hash !in multiset(StaleHashes(mirror[1..], now)))
  {
    var rest := mirror[1..];
    assert forall i :: 0 < i < |mirror| ==> mirror[i] == rest[i - 1];
    StaleHashesAre(rest, now, mirror[0].hash);
    if StaleFirst(mirror, now) {
      forall i, j | 0 <= i < j < |rest| && rest[i].hash == rest[j].hash && IsStale(rest[j], now)
        ensures IsStale(rest[i], now)
      {
        assert mirror[i + 1] == rest[i] && mirror[j + 1] == rest[j];
      }
      forall j | 0 <= j < |rest| && rest[j].hash == mirror[0].hash && IsStale(rest[j], now)
        ensures IsStale(mirror[0], now)
      {
        assert mirror[j + 1] == rest[j];
      }
    }
  }

  /** Dropping adds no fresh row. */
  lemma {:induction false} DropKeepsFewer(mirror: seq<Token>, hashes: multiset<Id>, now: Time)
    ensures |Filter(Drop(mirror, hashes), IsFresh(now))| <= |Filter(mirror, IsFresh(now))|
  {
    if mirror != [] {
      if mirror[0].hash in hashes {
        DropKeepsFewer(mirror[1..], hashes - multiset{mirror[0].hash}, now);
      } else {
        DropKeepsFewer(mirror[1..], hashes, now);
        var rest := Drop(mirror[1..], hashes);
        assert ([mirror[0]] + rest)[1..] == rest;
      }
    }
  }

  /** A fresh row dropped in place of a stale one is missed: what is left has too few fresh rows. */
  lemma DroppedFreshIsMissed(mirror: seq<Token>, hashes: multiset<Id>, now: Time, t: Token)
    requires !IsStale(t, now)
    ensures Drop(mirror, hashes) != [t] + Filter(mirror, IsFresh(now))
  {
    var kept := Filter(mirror, IsFresh(now));
    DropKeepsFewer(mirror, hashes, now);
    FilterAll([t] + kept, IsFresh(now));
  }

  lemma DropStep(mirror: seq<Token>, now: Time)
    requires mirror != []
    ensures var t, rest := mirror[0], mirror[1..];
            var hashes := multiset(StaleHashes(rest, now));
            Drop(mirror, multiset(StaleHashes(mirror, now))) ==
            if IsStale(t, now) then Drop(rest, hashes)
            else if t.hash in hashes then Drop(rest, hashes - multiset{t.hash})
            else [t] + Drop(rest, hashes)
  {
    var t, hashes := mirror[0], multiset(StaleHashes(mirror[1..], now));
    if IsStale(t, now) {
      assert multiset(StaleHashes(mirror, now)) == hashes + multiset{t.hash};
      assert hashes + multiset{t.hash} - multiset{t.hash} == hashes;
    } else {
      assert StaleHashes(mirror, now) == StaleHashes(mirror[1..], now);
    }
  }

  lemma {:induction false} DropIsExactIff(mirror: seq<Token>, now: Time)
    ensures Drop(mirror, multiset(StaleHashes(mirror, now))) == Filter(mirror, IsFresh(now)) <==> StaleFirst(mirror, now)
  {
    if mirror != [] {
      var t, rest := mirror[0], mirror[1..];
      var hashes, kept := multiset(StaleHashes(rest, now)), Filter(rest, IsFresh(now));
      assert Filter(mirror, IsFresh(now)) == if IsStale(t, now) then kept else [t] + kept;
      StaleFirstRest(mirror, now);
      DropStep(mirror, now);
      hide Drop, StaleHashes, StaleFirst, Filter;
      DropIsExactIff(rest, now);
      if !IsStale(t, now) && t.hash in hashes {
        DroppedFreshIsMissed(rest, hashes - multiset{t.hash}, now, t);
      }
      SameTail(t, Drop(rest, hashes), kept);
    }
  }

  lemma SameTail(t: Token, a: seq<Token>, b: seq<Token>)
    ensures [t] + a == [t] + b <==> a == b
  {
    assert ([t] + a)[1..] == a && ([t] + b)[1..] == b;
  }

  /**
   * The sweep leaves exactly the rows neither expired nor used, in order, if and
   * only if of rows with one hash the stale ones come first.
   */
  lemma SweepIsExactIff(s: Tokens, now: Time, prunes: seq<bool>)
    ensures Swept(s, StaleHashes(s.mirror, now), prunes).mirror == Filter(s.mirror, IsFresh(now)) <==>
            StaleFirst(s.mirror, now)
  {
    SweepIsDrop(s, StaleHashes(s.mirror, now), prunes);
    DropIsExactIff(s.mirror, now);
  }

  /** On a database every sweep of every run is exact: the key of the table keeps hashes apart. */
  lemma DatabaseSweepIsExact(actions: seq<Action>, token: Token, now: Time, ok: bool, prunes: seq<bool>)
    requires Stored(Run(Start(false), actions).s, token, now, ok, prunes).1
    ensures var s := Run(Start(false), actions).s;
            Stored(s, token, now, ok, prunes).0.mirror == Filter(s.mirror + [token], IsFresh(now))
  {
    var s := Run(Start(false), actions).s;
    RunKeepsLinked(Start(false), actions);
    InsertKeepsLinked(s, token, ok);
    SweepIsExactIff(Inserted(s, token, ok).value, now, prunes);
  }

  /**
   * On a memory store, which takes a hash twice, the other order can be reached:
   * a live token issued before an expired one of the same hash is swept, never
   * redeemed, and the expired one stays.
   */
  lemma SweepCanDropLive(user: Id, hash: Id, other: Id) returns (actions: seq<Action>, live: Token)
    requires user != "" && IsHash(hash) && IsHash(other) && hash != other
    ensures var w := Run(Start(true), actions);
            live in w.issued && live.hash == hash && live.expires > w.clock && w.redeemed == [] &&
            w.s.mirror == [Token(user, hash, 1, false), Token(user, other, 10, false)] &&
            Consumed(w.s, [hash], w.clock, true).1.None?
  {
    live := Token(user, hash, 10, false);
    var expired, third := Token(user, hash, 1, false), Token(user, other, 10, false);
    var a1, a2, a3 := Issue(live, 0, true, []), Issue(expired, 0, true, []), Issue(third, 5, true, []);
    actions := [a1, a2, a3];
    var w1 := World(Tokens([live], map[], true), [live], [], 0);
    var w2 := World(Tokens([live, expired], map[], true), [live, expired], [], 0);
    FirstTwoIssues(live, expired);
    var w3 := Do(w2, a3);
    ThirdSweep(live, expired, third);
    assert w3.s == Tokens([expired, third], map[], true) && w3.issued[0] == live;
    RunsThree(Start(true), a1, a2, a3);
    NoMatch(expired, third, [hash]);
  }

  lemma NoMatch(expired: Token, third: Token, candidates: seq<Id>)
    requires expired.expires == 1 && third.hash !in candidates
    ensures Match([expired, third], candidates, 5) == 2
  {
    assert [expired, third][1..] == [third];
    assert Match([third], candidates, 5) == 1;
  }

  lemma FirstTwoIssues(live: Token, expired: Token)
    requires live == Token(live.user, live.hash, 10, false) && expired == Token(live.user, live.hash, 1, false)
    requires live.user != "" && IsHash(live.hash)
    ensures var w1 := World(Tokens([live], map[], true), [live], [], 0);
            var w2 := World(Tokens([live, expired], map[], true), [live, expired], [], 0);
            Do(Start(true), Issue(live, 0, true, [])) == w1 && Do(w1, Issue(expired, 0, true, [])) == w2
  {
    hide IsHash;
    assert [] + [live] == [live] && [live] + [expired] == [live, expired] && [live, expired][1..] == [expired];
    assert [live][1..] == [] && [expired][1..] == [];
    assert StaleHashes([live], 0) == [] && StaleHashes([expired], 0) == [];
    assert StaleHashes([live, expired], 0) == [];
  }

  lemma RunsThree(w: World, a1: Action, a2: Action, a3: Action)
    ensures Run(w, [a1, a2, a3]) == Do(Do(Do(w, a1), a2), a3)
  {
    hide Do;
    assert [a1, a2, a3][1..] == [a2, a3] && [a2, a3][1..] == [a3] && [a3][1..] == [];
    assert Run(Do(Do(w, a1), a2), [a3]) == Do(Do(Do(w, a1), a2), a3);
  }

  lemma ThirdSweep(live: Token, expired: Token, third: Token)
    requires live == Token(live.user, live.hash, 10, false) && expired == Token(live.user, live.hash, 1, false)
    requires third == Token(live.user, third.hash, 10, false) && third.hash != live.hash
    ensures var s := Tokens([live, expired] + [third], map[], true);
            Swept(s, StaleHashes(s.mirror, 5), []) == Tokens([expired, third], map[], true)
  {
    var mirror := [live, expired] + [third];
    var s := Tokens(mirror, map[], true);
    assert mirror == [live, expired, third];
    assert mirror[1..] == [expired, third] && [expired, third][1..] == [third];
    assert [third][1..] == [] && StaleHashes([third], 5) == [];
    assert StaleHashes([expired, third], 5) == [live.hash];
    assert StaleHashes(mirror, 5) == [live.hash];
    assert EraseFirst(mirror, live.hash) == [expired, third];
    assert Swept(s, [live.hash], []) == Swept(Pruned(s, live.hash, false), [], []);
  }

  // ---- A swept token stays out of use ----------------------------------------------------

  predicate IssuesNot(a: Action, hash: Id) {
    a.Issue? ==> a.token.hash != hash
  }

  /** A redemption reads a time at which the row the database still has, if any, is used or expired. */
  predicate IsLate(rows: map<Id, Token>, hash: Id, a: Action) {
    a.Redeem? && hash in rows ==> IsStale(rows[hash], a.now)
  }

  /** The row is no fresher than the one the database had for the hash. */
  predicate NoFresher(x: Token, rows: map<Id, Token>, hash: Id) {
    hash in rows && x.expires <= rows[hash].expires && (rows[hash].used ==> x.used)
  }

  /** All rows with the hash, in mirror and database, come from the row the database had. */
  ghost predicate Outdated(s: Tokens, rows: map<Id, Token>, hash: Id) {
    (forall t :: t in s.mirror && t.hash == hash ==> NoFresher(t, rows, hash)) &&
    (hash in s.rows ==> NoFresher(s.rows[hash], rows, hash))
  }

  /** An outdated hash stays so, through restarts and failed prunes, and no late redemption takes it. */
  lemma OutdatedStays(w: World, a: Action, rows: map<Id, Token>, hash: Id)
    requires Outdated(w.s, rows, hash) && IssuesNot(a, hash) && IsLate(rows, hash, a)
    ensures Outdated(Do(w, a).s, rows, hash)
    ensures RedeemedCount(Do(w, a).redeemed, hash) == RedeemedCount(w.redeemed, hash)
  {
    match a
    case Issue(token, now, ok, prunes) =>
      if Stored(w.s, token, now, ok, prunes).1 {
        var inserted := Inserted(w.s, token, ok).value;
        SweepOnlyRemoves(inserted, StaleHashes(inserted.mirror, now), prunes);
      }
    case Redeem(candidates, now, ok) => OutdatedIsNotRedeemed(w, candidates, now, ok, rows, hash);
    case Restart(listing) =>
  }

  lemma OutdatedIsNotRedeemed(w: World, candidates: seq<Id>, now: Time, ok: bool, rows: map<Id, Token>, hash: Id)
    requires Outdated(w.s, rows, hash) && IsLate(rows, hash, Redeem(candidates, now, ok))
    ensures Outdated(DoRedeem(w, candidates, now, ok).s, rows, hash)
    ensures RedeemedCount(DoRedeem(w, candidates, now, ok).redeemed, hash) == RedeemedCount(w.redeemed, hash)
  {
    hide Match, RedeemedCount;
    var i := Match(w.s.mirror, candidates, now);
    if i < |w.s.mirror| && (w.s.memory || ok) {
      assert w.s.mirror[i] in w.s.mirror && w.s.mirror[i].hash != hash;
      RedeemedOneMore(w.redeemed, Redemption(w.s.mirror[i].hash, w.s.mirror[i].user, now), hash);
    }
  }

  lemma {:induction false} OutdatedForever(w: World, actions: seq<Action>, rows: map<Id, Token>, hash: Id)
    requires Outdated(w.s, rows, hash)
    requires forall i :: 0 <= i < |actions| ==> IssuesNot(actions[i], hash) && IsLate(rows, hash, actions[i])
    ensures RedeemedCount(Run(w, actions).redeemed, hash) == RedeemedCount(w.redeemed, hash)
    decreases actions
  {
    if actions != [] {
      OutdatedStays(w, actions[0], rows, hash);
      OutdatedForever(Do(w, actions[0]), actions[1..], rows, hash);
    }
  }

  /**
   * What a sweep takes for stale is gone from the mirror, and a row the database
   * keeps, because the prune failed, expired no later than the token and is used
   * if the token was.
   */
  lemma SweptIsGone(actions: seq<Action>, token: Token, now: Time, ok: bool, prunes: seq<bool>, t: Token)
    requires var s := Run(Start(false), actions).s;
             Stored(s, token, now, ok, prunes).1 && t in s.mirror + [token] && IsStale(t, now)
    ensures var s' := Stored(Run(Start(false), actions).s, token, now, ok, prunes).0;
            (forall x :: x in s'.mirror ==> x.hash != t.hash) && (t.hash in s'.rows ==> Follows(s'.rows[t.hash], t))
  {
    var s := Run(Start(false), actions).s;
    RunKeepsLinked(Start(false), actions);
    InsertKeepsLinked(s, token, ok);
    var inserted := Inserted(s, token, ok).value;
    SweepOnlyRemoves(inserted, StaleHashes(inserted.mirror, now), prunes);
    DatabaseSweepIsExact(actions, token, now, ok, prunes);
  }

  /**
   * A swept token is not redeemed again, after failed prunes and restarts, while
   * it is not issued again and every redemption reads a late enough time.
   */
  lemma SweptIsNeverRedeemed(before: seq<Action>, token: Token, now: Time, ok: bool, prunes: seq<bool>, t: Token, after: seq<Action>)
    requires var w := Run(Start(false), before);
             Stored(w.s, token, now, ok, prunes).1 && t in w.s.mirror + [token] && IsStale(t, now)
    requires var rows := Stored(Run(Start(false), before).s, token, now, ok, prunes).0.rows;
             forall i :: 0 <= i < |after| ==> IssuesNot(after[i], t.hash) && IsLate(rows, t.hash, after[i])
    ensures var w := Run(Start(false), before);
            RedeemedCount(Run(DoIssue(w, token, now, ok, prunes), after).redeemed, t.hash) ==
            RedeemedCount(w.redeemed, t.hash)
  {
    var w := DoIssue(Run(Start(false), before), token, now, ok, prunes);
    SweptIsGone(before, token, now, ok, prunes, t);
    OutdatedForever(w, after, w.s.rows, t.hash);
  }

  /** The first redeemable row is the only one with the candidate hash. */
  lemma OnlyCandidate(listing: seq<Token>, rows: map<Id, Token>, hash: Id, now: Time)
    requires IsListing(listing, rows) && hash in rows && !IsStale(rows[hash], now)
    ensures var i := Match(listing, [hash], now); i < |listing| && listing[i].hash == hash
  {
    var j :| 0 <= j < |listing| && listing[j].hash == hash;
    assert IsRedeemable(listing[j], [hash], now);
  }

  /** And not otherwise: a row that a failed prune left unused is redeemed after a restart, if the clock reads early enough. */
  lemma LeftoverIsRedeemed(w: World, hash: Id, listing: seq<Token>, early: Time)
    requires IsListing(listing, w.s.rows) && hash in w.s.rows && !IsStale(w.s.rows[hash], early)
    ensures RedeemedCount(Run(w, [Restart(listing), Redeem([hash], early, true)]).redeemed, hash) ==
            RedeemedCount(w.redeemed, hash) + 1
  {
    var w1 := Do(w, Restart(listing));
    var actions := [Restart(listing), Redeem([hash], early, true)];
    assert actions[1..] == [Redeem([hash], early, true)] && [Redeem([hash], early, true)][1..] == [];
    assert Run(w, actions) == Run(w1, [Redeem([hash], early, true)]) == DoRedeem(w1, [hash], early, true);
    OnlyCandidate(listing, w.s.rows, hash, early);
    hide Match, IsListing, RedeemedCount;
    var i := Match(listing, [hash], early);
    RedeemedOneMore(w.redeemed, Redemption(hash, listing[i].user, early), hash);
  }

  /**
   * From the start: a token expires and is swept, the prune fails, the server
   * restarts, and a clock that reads an earlier time redeems the token.
   */
  lemma ClockBackRedeemsSwept(user: Id, hash: Id, other: Id, expires: Time, late: Time, early: Time) returns (actions: seq<Action>)
    requires user != "" && IsHash(hash) && IsHash(other) && hash != other
    requires early < Truncated(expires) && expires <= late
    ensures |actions| == 4 && actions[..2] == [Issue(Token(user, hash, expires, false), early, true, []),
                                               Issue(Token(user, other, late + 1, false), late, true, [])]
    ensures Run(Start(false), actions[..2]).s.mirror == [Token(user, other, late + 1, false)]
    ensures RedeemedCount(Run(Start(false), actions).redeemed, hash) == 1
  {
    hide IsHash, Truncated, Do, Run, RedeemedCount, IsListing;
    var t, o := Token(user, hash, expires, false), Token(user, other, late + 1, false);
    var rt, ro := t.(expires := Truncated(expires)), o.(expires := Truncated(late + 1));
    var last := [Restart([rt, ro]), Redeem([hash], early, true)];
    actions := [Issue(t, early, true, []), Issue(o, late, true, [])] + last;
    assert actions[..2] == [Issue(t, early, true, []), Issue(o, late, true, [])];
    var w := SweptAndLeft(t, o, early, late, last);
    TwoRowsListed(rt, ro);
    LeftoverIsRedeemed(w, hash, [rt, ro], early);
    NoneRedeemed(hash);
  }

  lemma SweptAndLeft(t: Token, o: Token, early: Time, late: Time, rest: seq<Action>) returns (w: World)
    requires t.user != "" && IsHash(t.hash) && !IsStale(t, early) && IsStale(t, late)
    requires o.user != "" && IsHash(o.hash) && o.hash != t.hash && !IsStale(o, late)
    ensures var rt, ro := t.(expires := Truncated(t.expires)), o.(expires := Truncated(o.expires));
            var issues := [Issue(t, early, true, []), Issue(o, late, true, [])];
            w == World(Tokens([o], map[t.hash := rt, o.hash := ro], false), [t, o], [], late) &&
            Run(Start(false), issues) == w && Run(Start(false), issues + rest) == Run(w, rest)
  {
    hide IsHash, Truncated, Do, Run;
    FirstIssued(t, early);
    SecondSweeps(t, o, early, late);
    RunsTwo(Start(false), Issue(t, early, true, []), Issue(o, late, true, []), rest);
    w := Run(Start(false), [Issue(t, early, true, []), Issue(o, late, true, [])]);
  }

  lemma NoneRedeemed(hash: Id)
    ensures RedeemedCount([], hash) == 0
  {
  }

  lemma TwoRowsListed(a: Token, b: Token)
    requires a.hash != b.hash
    ensures IsListing([a, b], map[a.hash := a, b.hash := b])
  {
    assert [a, b][0].hash == a.hash && [a, b][1].hash == b.hash;
  }

  lemma FirstIssued(t: Token, early: Time)
    requires t.user != "" && IsHash(t.hash) && !IsStale(t, early)
    ensures Do(Start(false), Issue(t, early, true, [])) ==
            World(Tokens([t], map[t.hash := t.(expires := Truncated(t.expires))], false), [t], [], early)
  {
    hide IsHash, Truncated;
    assert [] + [t] == [t] && [t][1..] == [];
    assert StaleHashes([t], early) == [];
  }

  lemma SecondSweeps(t: Token, o: Token, early: Time, late: Time)
    requires o.user != "" && IsHash(o.hash) && o.hash != t.hash && IsStale(t, late) && !IsStale(o, late)
    ensures var rt, ro := t.(expires := Truncated(t.expires)), o.(expires := Truncated(o.expires));
            Do(World(Tokens([t], map[t.hash := rt], false), [t], [], early), Issue(o, late, true, [])) ==
            World(Tokens([o], map[t.hash := rt, o.hash := ro], false), [t, o], [], late)
  {
    hide IsHash, Truncated;
    var rt, ro := t.(expires := Truncated(t.expires)), o.(expires := Truncated(o.expires));
    var mirror := [t] + [o];
    var s := Tokens(mirror, map[t.hash := rt][o.hash := ro], false);
    assert mirror == [t, o] && mirror[1..] == [o] && [o][1..] == [];
    assert mirror[0] == t && StaleHashes([o], late) == [] && [t.hash] + [] == [t.hash];
    assert StaleHashes(mirror, late) == [t.hash];
    assert EraseFirst(mirror, t.hash) == [o];
    assert Swept(s, [t.hash], []) == Swept(Pruned(s, t.hash, false), [], []);
  }

  lemma RunsTwo(w: World, a1: Action, a2: Action, rest: seq<Action>)
    ensures Run(w, [a1, a2]) == Do(Do(w, a1), a2) && Run(w, [a1, a2] + rest) == Run(Do(Do(w, a1), a2), rest)
  {
    hide Do;
    assert [a1, a2][1..] == [a2] && [a2][1..] == [];
    var all := [a1, a2] + rest;
    assert all[1..] == [a2] + rest && all[1..][1..] == rest;
    assert Run(w, [a1, a2]) == Run(Do(w, a1), [a2]) == Run(Do(Do(w, a1), a2), []);
    assert Run(w, all) == Run(Do(w, a1), [a2] + rest) == Run(Do(Do(w, a1), a2), rest);
  }
}
