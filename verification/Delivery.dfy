/**
 * To-device messages over whole runs: delivered at least once as long as no
 * restart takes the counter back below a bound a device was given, and not
 * otherwise (src/database/persistent_store.cpp).
 */
module Delivery {
  import opened Basics
  import opened SyncStream
  import opened SyncRuns

  ghost predicate Delivered(responses: seq<Response>, m: Message, user: Id, device: Id) {
    exists i :: 0 <= i < |responses| && responses[i].user == user && responses[i].device == device && m in responses[i].returned
  }

  /** The token is zero or the upper bound of an earlier response to the same device. */
  ghost predicate FromResponse(responses: seq<Response>, user: Id, device: Id, since: nat) {
    since == 0 ||
    exists i :: 0 <= i < |responses| && responses[i].user == user && responses[i].device == device && responses[i].upper == since
  }

  /** How clients and server behave: tokens come from responses, bounds stay below the counter, the counter has room. */
  ghost predicate Behaves(w: World, a: Action) {
    match a
    case Allocate(_) => w.q.counter < MAX_STREAM
    case StoreOther(_, _, _) => w.q.counter < MAX_STREAM
    case CatchUp(_, _) => true
    case Enqueue(_, _, _) => w.q.counter < MAX_STREAM
    case Drain(user, device, since, upper, _) => upper <= w.q.counter && FromResponse(w.responses, user, device, since)
    case Restart(_, _, _) => true
  }

  ghost predicate BehavesAlong(w: World, actions: seq<Action>)
    decreases actions
  {
    actions == [] || (Behaves(w, actions[0]) && BehavesAlong(Do(w, actions[0]), actions[1..]))
  }

  /** A user and a device that messages can be addressed to. */
  predicate IsReal(user: Id, device: Id) {
    user != "" && device != "" && device != "*"
  }

  /** Every bound given to a real device is at or below the counter. */
  ghost predicate BoundsBelow(responses: seq<Response>, counter: nat) {
    forall i :: 0 <= i < |responses| && IsReal(responses[i].user, responses[i].device) ==> responses[i].upper <= counter
  }

  /** A restart does not take the counter back below a bound that was given. */
  ghost predicate NoRollback(w: World, a: Action) {
    a.Restart? && Restorable(w.q, a.listing, a.counter) ==> BoundsBelow(w.responses, a.counter)
  }

  ghost predicate NoRollbackAlong(w: World, actions: seq<Action>)
    decreases actions
  {
    actions == [] || (NoRollback(w, actions[0]) && NoRollbackAlong(Do(w, actions[0]), actions[1..]))
  }

  /** Nothing accepted for one device is gone before that device got it, and no broadcast is gone at all. */
  ghost predicate NothingLost(w: World) {
    forall m :: m in w.accepted ==>
      (m in w.q.messages && m in w.q.rows) || (!IsBroadcast(m) && Delivered(w.responses, m, m.user, m.device))
  }

  /** Every id in use is at or below the counter. */
  ghost predicate BoundsInv(w: World) {
    w.q.counter <= MAX_STREAM && BoundsBelow(w.responses, w.q.counter) &&
    Floor(w.q) <= MAX_STREAM && (forall id :: id in w.q.others ==> id <= MAX_STREAM) &&
    (forall m :: m in w.q.rows ==> 0 < m.stream <= w.q.counter && m.user != "")
  }

  /** Whatever a response to a real device bounded has been delivered to that device. */
  ghost predicate Covered(rows: set<Message>, responses: seq<Response>) {
    forall i, m :: 0 <= i < |responses| && m in rows && IsReal(responses[i].user, responses[i].device) &&
                   IsFor(m, responses[i].user, responses[i].device) && m.stream <= responses[i].upper ==>
      Delivered(responses, m, responses[i].user, responses[i].device)
  }

  /** The mirror holds every row but those delivered to the one device they are for. */
  ghost predicate Mirrored(w: World) {
    (forall m :: m in w.q.messages ==> m in w.q.rows) &&
    (forall m :: m in w.q.rows && m !in w.q.messages ==>
       !IsBroadcast(m) && Delivered(w.responses, m, m.user, m.device))
  }

  ghost predicate DeliveryInv(w: World) {
    BoundsInv(w) && Covered(w.q.rows, w.responses) && Mirrored(w) && NothingLost(w)
  }

  lemma DeliveredStays(responses: seq<Response>, r: Response, m: Message, user: Id, device: Id)
    requires Delivered(responses, m, user, device)
    ensures Delivered(responses + [r], m, user, device)
  {
    var i :| 0 <= i < |responses| && responses[i].user == user && responses[i].device == device && m in responses[i].returned;
    assert (responses + [r])[i] == responses[i];
  }

  /** What a token acknowledges was delivered to the real device that presents it. */
  lemma AcknowledgedWasDelivered(w: World, user: Id, device: Id, since: nat, m: Message)
    requires DeliveryInv(w) && FromResponse(w.responses, user, device, since) && IsReal(user, device)
    requires m in w.q.rows && IsFor(m, user, device) && m.stream <= since
    ensures Delivered(w.responses, m, user, device)
  {
    assert since != 0;
    var i :| 0 <= i < |w.responses| && w.responses[i].user == user && w.responses[i].device == device && w.responses[i].upper == since;
  }

  /** After a drain, everything for the real device up to the bound has been delivered to it. */
  lemma BoundIsDelivered(w: World, user: Id, device: Id, since: nat, upper: nat, deletes: seq<bool>, m: Message)
    requires DeliveryInv(w) && FromResponse(w.responses, user, device, since) && IsReal(user, device)
    requires |deletes| == |Filter(w.q.messages, Acknowledged(user, device, since, upper))|
    requires m in w.q.rows && IsFor(m, user, device) && m.stream <= upper
    ensures Delivered(DoDrain(w, user, device, since, upper, deletes).responses, m, user, device)
  {
    var returned := Filter(w.q.messages, Returned(user, device, since, upper));
    var r := Response(user, device, upper, returned);
    if m in w.q.messages && m.stream > since {
      assert m in returned && (w.responses + [r])[|w.responses|] == r;
    } else {
      if m in w.q.messages {
        AcknowledgedWasDelivered(w, user, device, since, m);
      }
      DeliveredStays(w.responses, r, m, user, device);
    }
  }

  lemma DrainKeepsCovered(w: World, user: Id, device: Id, since: nat, upper: nat, deletes: seq<bool>)
    requires DeliveryInv(w) && FromResponse(w.responses, user, device, since)
    requires |deletes| == |Filter(w.q.messages, Acknowledged(user, device, since, upper))|
    ensures var w' := DoDrain(w, user, device, since, upper, deletes); Covered(w'.q.rows, w'.responses)
  {
    var w' := DoDrain(w, user, device, since, upper, deletes);
    DrainShrinks(w.q, user, device, since, upper, deletes);
    forall i, m | 0 <= i < |w'.responses| && m in w'.q.rows && IsReal(w'.responses[i].user, w'.responses[i].device) &&
                  IsFor(m, w'.responses[i].user, w'.responses[i].device) && m.stream <= w'.responses[i].upper
      ensures Delivered(w'.responses, m, w'.responses[i].user, w'.responses[i].device)
    {
      if i < |w.responses| {
        assert w'.responses[i] == w.responses[i];
        DeliveredStays(w.responses, w'.responses[|w.responses|], m, w.responses[i].user, w.responses[i].device);
      } else {
        BoundIsDelivered(w, user, device, since, upper, deletes, m);
      }
    }
  }

  /** What a drain removes, from the mirror or the database, has been delivered to its one device. */
  lemma RemovedWasDelivered(w: World, user: Id, device: Id, since: nat, upper: nat, deletes: seq<bool>, m: Message)
    requires DeliveryInv(w) && FromResponse(w.responses, user, device, since)
    requires |deletes| == |Filter(w.q.messages, Acknowledged(user, device, since, upper))|
    requires m in w.q.rows
    ensures var w' := DoDrain(w, user, device, since, upper, deletes);
            (m !in w'.q.rows || (m in w.q.messages && m !in w'.q.messages)) ==>
              !IsBroadcast(m) && Delivered(w'.responses, m, m.user, m.device)
  {
    var w' := DoDrain(w, user, device, since, upper, deletes);
    DrainDeletesOnlyAcknowledged(w.q, user, device, since, upper, deletes, m);
    if IsPurged(m, user, device, since, upper) {
      AcknowledgedWasDelivered(w, user, device, since, m);
      DeliveredStays(w.responses, w'.responses[|w.responses|], m, user, device);
    }
  }

  lemma DrainKeepsMirrored(w: World, user: Id, device: Id, since: nat, upper: nat, deletes: seq<bool>)
    requires DeliveryInv(w) && FromResponse(w.responses, user, device, since)
    requires |deletes| == |Filter(w.q.messages, Acknowledged(user, device, since, upper))|
    ensures Mirrored(DoDrain(w, user, device, since, upper, deletes))
  {
    var w' := DoDrain(w, user, device, since, upper, deletes);
    DrainShrinks(w.q, user, device, since, upper, deletes);
    forall m | m in w'.q.messages
      ensures m in w'.q.rows
    {
      DrainDeletesOnlyAcknowledged(w.q, user, device, since, upper, deletes, m);
    }
    forall m | m in w'.q.rows && m !in w'.q.messages
      ensures !IsBroadcast(m) && Delivered(w'.responses, m, m.user, m.device)
    {
      RemovedWasDelivered(w, user, device, since, upper, deletes, m);
      if m !in w.q.messages {
        DeliveredStays(w.responses, w'.responses[|w.responses|], m, m.user, m.device);
      }
    }
  }

  lemma DrainLosesNothing(w: World, user: Id, device: Id, since: nat, upper: nat, deletes: seq<bool>)
    requires DeliveryInv(w) && FromResponse(w.responses, user, device, since)
    requires |deletes| == |Filter(w.q.messages, Acknowledged(user, device, since, upper))|
    ensures NothingLost(DoDrain(w, user, device, since, upper, deletes))
  {
    var w' := DoDrain(w, user, device, since, upper, deletes);
    forall m | m in w'.accepted
      ensures (m in w'.q.messages && m in w'.q.rows) || (!IsBroadcast(m) && Delivered(w'.responses, m, m.user, m.device))
    {
      if m in w.q.messages && m in w.q.rows {
        RemovedWasDelivered(w, user, device, since, upper, deletes, m);
      } else {
        DeliveredStays(w.responses, w'.responses[|w.responses|], m, m.user, m.device);
      }
    }
  }

  lemma DrainKeepsDelivery(w: World, user: Id, device: Id, since: nat, upper: nat, deletes: seq<bool>)
    requires DeliveryInv(w) && upper <= w.q.counter && FromResponse(w.responses, user, device, since)
    ensures DeliveryInv(DoDrain(w, user, device, since, upper, deletes))
  {
    if |deletes| == |Filter(w.q.messages, Acknowledged(user, device, since, upper))| {
      DrainShrinks(w.q, user, device, since, upper, deletes);
      DrainKeepsCovered(w, user, device, since, upper, deletes);
      DrainKeepsMirrored(w, user, device, since, upper, deletes);
      DrainLosesNothing(w, user, device, since, upper, deletes);
      hide Covered, Mirrored, NothingLost, Delivered;
    }
  }

  lemma EnqueueKeepsDelivery(w: World, m: Message, markOk: bool, rowOk: bool)
    requires DeliveryInv(w) && w.q.counter < MAX_STREAM
    ensures DeliveryInv(DoEnqueue(w, m, markOk, rowOk))
  {
  }

  lemma RestartKeepsDelivery(w: World, listing: seq<Message>, counter: nat, ok: bool)
    requires DeliveryInv(w) && NoRollback(w, Restart(listing, counter, ok))
    ensures DeliveryInv(DoRestart(w, listing, counter, ok))
  {
  }

  lemma DoKeepsDelivery(w: World, a: Action)
    requires DeliveryInv(w) && Behaves(w, a) && NoRollback(w, a)
    ensures DeliveryInv(Do(w, a))
  {
    hide Delivered;
    match a
    case Allocate(_) =>
    case StoreOther(_, _, _) =>
    case CatchUp(_, _) =>
    case Enqueue(m, markOk, rowOk) => EnqueueKeepsDelivery(w, m, markOk, rowOk);
    case Drain(user, device, since, upper, deletes) => DrainKeepsDelivery(w, user, device, since, upper, deletes);
    case Restart(listing, counter, ok) => RestartKeepsDelivery(w, listing, counter, ok);
  }

  lemma {:induction false} RunKeepsDelivery(w: World, actions: seq<Action>)
    requires DeliveryInv(w) && BehavesAlong(w, actions) && NoRollbackAlong(w, actions)
    ensures DeliveryInv(Run(w, actions))
    decreases actions
  {
    hide DeliveryInv, Do, Behaves, NoRollback;
    if actions != [] {
      DoKeepsDelivery(w, actions[0]);
      RunKeepsDelivery(Do(w, actions[0]), actions[1..]);
    }
  }

  /** If no restart of a well-behaved run takes the counter back below a bound that was given, nothing is lost. */
  lemma DeliveredUnlessRolledBack(actions: seq<Action>)
    requires BehavesAlong(START, actions) && NoRollbackAlong(START, actions)
    ensures NothingLost(Run(START, actions))
  {
    RunKeepsDelivery(START, actions);
  }

  // ---- Written watermarks rule a rollback out ------------------------------------------------

  predicate MarkWritten(a: Action) {
    !a.Drain? ==> a.markOk
  }

  /** Every watermark was written, so a restart finds the counter where it was. */
  ghost predicate MarkedInv(w: World) {
    Floor(w.q) == w.q.counter && BoundsBelow(w.responses, w.q.counter) &&
    (forall m :: m in w.q.rows ==> m.stream <= w.q.counter) && (forall id :: id in w.q.others ==> id <= w.q.counter)
  }

  lemma DoKeepsMarked(w: World, a: Action)
    requires MarkedInv(w) && Behaves(w, a) && MarkWritten(a)
    ensures MarkedInv(Do(w, a)) && NoRollback(w, a)
  {
    if a.Drain? && |a.deletes| == |Filter(w.q.messages, Acknowledged(a.user, a.device, a.since, a.upper))| {
      DrainShrinks(w.q, a.user, a.device, a.since, a.upper, a.deletes);
    }
  }

  lemma {:induction false} MarksPreventRollback(w: World, actions: seq<Action>)
    requires MarkedInv(w) && BehavesAlong(w, actions) && forall i :: 0 <= i < |actions| ==> MarkWritten(actions[i])
    ensures NoRollbackAlong(w, actions)
    decreases actions
  {
    hide MarkedInv, Do, Behaves, NoRollback, MarkWritten;
    if actions != [] {
      DoKeepsMarked(w, actions[0]);
      MarksPreventRollback(Do(w, actions[0]), actions[1..]);
    }
  }

  /** To-device messages are delivered at least once over every run in which watermark writes succeed. */
  lemma DeliveredAtLeastOnce(actions: seq<Action>)
    requires BehavesAlong(START, actions) && forall i :: 0 <= i < |actions| ==> MarkWritten(actions[i])
    ensures NothingLost(Run(START, actions))
  {
    MarksPreventRollback(START, actions);
    DeliveredUnlessRolledBack(actions);
  }

  /** Some write of the action fails: of a watermark, a row, or a delete. */
  predicate HasFailure(a: Action) {
    !MarkWritten(a) || ((a.StoreOther? || a.Enqueue?) && !a.rowOk) || (a.Drain? && false in a.deletes)
  }

  // ---- A rollback loses a message ---------------------------------------------------------------

  /** A text longer than every text in the responses. */
  function LongText(responses: seq<Response>): (s: string)
    ensures s != "" && forall i, m :: 0 <= i < |responses| && m in responses[i].returned ==> |m.content| < |s|
  {
    if responses == [] then "x"
    else
      var rest := LongText(responses[..|responses| - 1]);
      rest + LongerThan(responses[|responses| - 1].returned)
  }

  function LongerThan(messages: seq<Message>): (s: string)
    ensures s != "" && forall m :: m in messages ==> |m.content| < |s|
  {
    if messages == [] then "x" else messages[0].content + LongerThan(messages[1..])
  }

  /** A message no response has held. */
  function NewMessage(w: World, user: Id, device: Id, stream: nat): (m: Message)
    ensures !Delivered(w.responses, m, user, device)
  {
    Message(stream, "s", user, device, "k", LongText(w.responses))
  }

  /** The message is accepted under the next id, below the bound, */
  lemma SendAfterRollback(w: World, user: Id, device: Id)
    requires IsReal(user, device) && w.q.counter < MAX_STREAM && forall x :: x in w.q.rows ==> x.stream <= w.q.counter
    ensures var m := NewMessage(w, user, device, w.q.counter + 1);
            var w' := DoEnqueue(w, m, true, true);
            m in w'.accepted && m in w'.q.messages && w'.q.counter == m.stream && w'.responses == w.responses
  {
    var m := NewMessage(w, user, device, w.q.counter + 1);
    assert !HasKey(w.q.rows, m);
  }

  /** and the device's old token takes it away without ever showing it. */
  lemma AcknowledgeUnseen(w: World, m: Message, since: nat) returns (deletes: seq<bool>)
    requires m in w.accepted && !IsBroadcast(m) && !Delivered(w.responses, m, m.user, m.device)
    requires m.stream <= since
    ensures !NothingLost(DoDrain(w, m.user, m.device, since, m.stream, deletes)) && false !in deletes
  {
    var n := |Filter(w.q.messages, Acknowledged(m.user, m.device, since, m.stream))|;
    deletes := seq(n, i => true);
    var w' := DoDrain(w, m.user, m.device, since, m.stream, deletes);
    assert m !in w'.q.messages;
    var r := w'.responses[|w.responses|];
    assert m !in r.returned;
    assert !Delivered(w'.responses, m, m.user, m.device) by {
      forall i | 0 <= i < |w'.responses| && w'.responses[i].user == m.user && w'.responses[i].device == m.device
        ensures m !in w'.responses[i].returned
      {
        assert i < |w.responses| ==> w'.responses[i] == w.responses[i];
      }
    }
  }

  /**
   * If a restart, at any time, takes the counter back below a bound given to a
   * real device, then some well-behaved continuation loses a message to it.
   */
  lemma LostAfterRollback(w: World, listing: seq<Message>, counter: nat, ok: bool, i: nat) returns (more: seq<Action>)
    requires Restorable(w.q, listing, counter) && i < |w.responses| && w.responses[i].upper <= MAX_STREAM
    requires IsReal(w.responses[i].user, w.responses[i].device) && counter < w.responses[i].upper
    ensures BehavesAlong(Do(w, Restart(listing, counter, ok)), more)
    ensures !NothingLost(Run(Do(w, Restart(listing, counter, ok)), more))
    ensures forall a :: a in more ==> !HasFailure(a)
  {
    var w1 := Do(w, Restart(listing, counter, ok));
    var r := w.responses[i];
    var m := NewMessage(w1, r.user, r.device, counter + 1);
    SendAfterRollback(w1, r.user, r.device);
    var send := Enqueue(m, true, true);
    var w2 := Do(w1, send);
    var deletes := AcknowledgeUnseen(w2, m, r.upper);
    var acknowledge := Drain(m.user, m.device, r.upper, m.stream, deletes);
    assert Behaves(w1, send);
    assert w2.responses[i] == r;
    assert FromResponse(w2.responses, m.user, m.device, r.upper);
    assert Behaves(w2, acknowledge);
    more := [send, acknowledge];
    hide Do, Behaves, NothingLost;
    RunStep(w1, send, [acknowledge]);
    RunStep(w2, acknowledge, []);
  }

  lemma RunStep(w: World, a: Action, rest: seq<Action>)
    ensures Run(w, [a] + rest) == Run(Do(w, a), rest)
    ensures BehavesAlong(w, [a] + rest) <==> Behaves(w, a) && BehavesAlong(Do(w, a), rest)
  {
    assert ([a] + rest)[1..] == rest;
  }

  /** An id was used for something not stored, its watermark was not written, and a device synced past it. */
  const SYNCED := World(EMPTY_QUEUE.(counter := 1), [], {}, [Response("u", "d", 1, [])])

  lemma UnmarkedSync()
    ensures Do(Do(START, Allocate(false)), Drain("u", "d", 0, 1, [])) == SYNCED
    ensures Behaves(START, Allocate(false)) && Behaves(Do(START, Allocate(false)), Drain("u", "d", 0, 1, []))
    ensures Restorable(SYNCED.q, [], 0)
  {
    assert EMPTY_QUEUE.messages == [];
  }

  /** One failed watermark write, and no other failure, is enough to get there. */
  lemma LostWhenWatermarkFails() returns (actions: seq<Action>)
    ensures BehavesAlong(START, actions) && !NothingLost(Run(START, actions))
    ensures Filter(actions, HasFailure) == [Allocate(false)]
  {
    var a0, a1, a2 := Allocate(false), Drain("u", "d", 0, 1, []), Restart([], 0, true);
    UnmarkedSync();
    var more := LostAfterRollback(SYNCED, [], 0, true, 0);
    actions := [a0] + ([a1] + ([a2] + more));
    hide Do, NothingLost;
    RunStep(START, a0, [a1] + ([a2] + more));
    RunStep(Do(START, a0), a1, [a2] + more);
    RunStep(SYNCED, a2, more);
    FilterAppend([a0], [a1] + ([a2] + more), HasFailure);
    FilterNone([a1] + ([a2] + more), HasFailure);
    assert [a0][1..] == [] && Filter([a0], HasFailure) == [a0];
  }

  // ---- Accepted messages are told apart by their ids ---------------------------------------------

  /** No two accepted messages share an id, and none is past the counter. */
  ghost predicate IdsInv(w: World) {
    (forall m :: m in w.accepted ==> m.stream <= w.q.counter && m.user != "") &&
    (forall m, n :: m in w.accepted && n in w.accepted && m.stream == n.stream ==> m == n) &&
    (forall i, m :: 0 <= i < |w.responses| && m in w.responses[i].returned ==> m.stream <= w.responses[i].upper)
  }

  lemma RestartKeepsIds(w: World, listing: seq<Message>, counter: nat, ok: bool)
    requires IdsInv(w) && DeliveryInv(w) && NoRollback(w, Restart(listing, counter, ok))
    ensures IdsInv(DoRestart(w, listing, counter, ok))
  {
    if Restorable(w.q, listing, counter) {
      forall m | m in w.accepted
        ensures m.stream <= counter
      {
        if m !in w.q.rows {
          var i :| 0 <= i < |w.responses| && w.responses[i].user == m.user && w.responses[i].device == m.device &&
                   m in w.responses[i].returned;
          assert IsReal(w.responses[i].user, w.responses[i].device);
        }
      }
    }
  }

  lemma EnqueueKeepsIds(w: World, m: Message, markOk: bool, rowOk: bool)
    requires IdsInv(w) && w.q.counter < MAX_STREAM
    ensures IdsInv(DoEnqueue(w, m, markOk, rowOk))
  {
    hide HasKey;
    var w' := DoEnqueue(w, m, markOk, rowOk);
    var row := m.(stream := w.q.counter + 1);
    assert w'.accepted == w.accepted || (w'.accepted == w.accepted + {row} && w'.q.counter == row.stream && m.user != "");
    assert w'.responses == w.responses && w.q.counter <= w'.q.counter;
  }

  lemma DrainKeepsIds(w: World, user: Id, device: Id, since: nat, upper: nat, deletes: seq<bool>)
    requires IdsInv(w)
    ensures IdsInv(DoDrain(w, user, device, since, upper, deletes))
  {
  }

  lemma DoKeepsIds(w: World, a: Action)
    requires IdsInv(w) && DeliveryInv(w) && Behaves(w, a) && NoRollback(w, a)
    ensures IdsInv(Do(w, a))
  {
    hide DeliveryInv, NoRollback;
    match a
    case Enqueue(m, markOk, rowOk) => EnqueueKeepsIds(w, m, markOk, rowOk);
    case Drain(user, device, since, upper, deletes) => DrainKeepsIds(w, user, device, since, upper, deletes);
    case Restart(listing, counter, ok) => RestartKeepsIds(w, listing, counter, ok);
    case _ =>
  }

  lemma {:induction false} RunKeepsIds(w: World, actions: seq<Action>)
    requires IdsInv(w) && DeliveryInv(w) && BehavesAlong(w, actions) && NoRollbackAlong(w, actions)
    ensures IdsInv(Run(w, actions))
    decreases actions
  {
    hide IdsInv, DeliveryInv, Do, Behaves, NoRollback;
    if actions != [] {
      DoKeepsIds(w, actions[0]);
      DoKeepsDelivery(w, actions[0]);
      RunKeepsIds(Do(w, actions[0]), actions[1..]);
    }
  }

  /** So in such a run a delivered message is never mistaken for another one. */
  lemma AcceptedIdsAreDistinct(actions: seq<Action>, m: Message, n: Message)
    requires BehavesAlong(START, actions) && NoRollbackAlong(START, actions)
    requires m in Run(START, actions).accepted && n in Run(START, actions).accepted && m.stream == n.stream
    ensures m == n
  {
    RunKeepsIds(START, actions);
  }
}
