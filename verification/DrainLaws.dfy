/**
 * What enqueue, drain and the stream counter do, said of the fields of the
 * messages, and that a broadcast reaches every device of its user
 * (src/database/persistent_store.cpp).
 */
module DrainLaws {
  import opened Basics
  import opened SyncStream
  import opened SyncRuns
  import opened Delivery

  // ---- One drain ---------------------------------------------------------------------

  /** A drain returns exactly the user's messages for this device or for all, past the token and up to the bound. */
  lemma DrainReturnsExactly(
    q: Queue, user: Id, device: Id, since: nat, upper: nat, deletes: seq<bool>, m: Message)
    requires |deletes| == |Filter(q.messages, Acknowledged(user, device, since, upper))|
    ensures var returned := Drained(q, user, device, since, upper, deletes).1;
            m in returned <==>
            m in q.messages && m.user == user && (m.device == "" || m.device == "*" || m.device == device) &&
            since < m.stream <= upper
  {
  }

  /** It removes from the mirror exactly the messages for this one device that the token acknowledges. */
  lemma DrainPurgesExactly(
    q: Queue, user: Id, device: Id, since: nat, upper: nat, deletes: seq<bool>, m: Message)
    requires |deletes| == |Filter(q.messages, Acknowledged(user, device, since, upper))|
    ensures var q' := Drained(q, user, device, since, upper, deletes).0;
            (m in q'.messages <==>
             m in q.messages &&
             !(m.user == user && m.device == device && device != "" && device != "*" && m.stream <= since && m.stream <= upper)) &&
            q'.counter == q.counter && q'.watermark == q.watermark && q'.others == q.others
  {
  }

  /** One of the answered deletes was for the row's stream id, user and device. */
  ghost predicate WasDeleted(acknowledged: seq<Message>, deletes: seq<bool>, m: Message)
    requires |deletes| == |acknowledged|
  {
    exists i :: 0 <= i < |acknowledged| && deletes[i] && acknowledged[i].stream == m.stream &&
                acknowledged[i].user == m.user && acknowledged[i].device == m.device
  }

  lemma {:induction false} DeleteAllExactly(rows: set<Message>, acknowledged: seq<Message>, deletes: seq<bool>, m: Message)
    requires |deletes| == |acknowledged|
    ensures m in DeleteAll(rows, acknowledged, deletes) <==>
            m in rows && (m.device == "" || m.device == "*" || !WasDeleted(acknowledged, deletes, m))
    decreases acknowledged
  {
    if acknowledged != [] {
      var a, left, answers := acknowledged[0], acknowledged[1..], deletes[1..];
      var rows' := if deletes[0] && !IsBroadcast(a) then Delete(rows, a) else rows;
      DeleteAllExactly(rows', left, answers, m);
      assert forall i :: 0 <= i < |left| ==> left[i] == acknowledged[i + 1] && answers[i] == deletes[i + 1];
      if WasDeleted(left, answers, m) {
        var i :| 0 <= i < |left| && answers[i] && left[i].stream == m.stream && left[i].user == m.user && left[i].device == m.device;
        assert deletes[i + 1] && acknowledged[i + 1] == left[i];
      }
      if WasDeleted(acknowledged, deletes, m) && !(deletes[0] && Key(a) == Key(m)) {
        var i :| 0 <= i < |acknowledged| && deletes[i] && acknowledged[i].stream == m.stream &&
                 acknowledged[i].user == m.user && acknowledged[i].device == m.device;
        assert answers[i - 1] && left[i - 1] == acknowledged[i];
      }
    }
  }

  /** The message is one the token acknowledges for this one device. */
  ghost predicate IsDone(m: Message, user: Id, device: Id, since: nat, upper: nat) {
    m.user == user && m.device == device && device != "" && device != "*" && m.stream <= since && m.stream <= upper
  }

  /** Of the rows it deletes only such ones, and all of those in the mirror when the database obeys. */
  lemma DrainDeletesExactly(
    q: Queue, user: Id, device: Id, since: nat, upper: nat, deletes: seq<bool>, m: Message)
    requires |deletes| == |Filter(q.messages, Acknowledged(user, device, since, upper))|
    ensures var q' := Drained(q, user, device, since, upper, deletes).0;
            (m in q'.rows ==> m in q.rows) &&
            (m in q.rows && !IsDone(m, user, device, since, upper) ==> m in q'.rows) &&
            (m in q.messages && IsDone(m, user, device, since, upper) && false !in deletes ==> m !in q'.rows)
  {
    var acknowledged := Filter(q.messages, Acknowledged(user, device, since, upper));
    DeleteAllExactly(q.rows, acknowledged, deletes, m);
    if m in q.rows && WasDeleted(acknowledged, deletes, m) && m.device != "" && m.device != "*" {
      var i :| 0 <= i < |acknowledged| && deletes[i] && acknowledged[i].stream == m.stream &&
               acknowledged[i].user == m.user && acknowledged[i].device == m.device;
      assert acknowledged[i] in acknowledged;
    }
    if m in q.messages && IsDone(m, user, device, since, upper) && false !in deletes {
      assert m in acknowledged;
      var i :| 0 <= i < |acknowledged| && acknowledged[i] == m;
      assert deletes[i];
    }
  }

  // ---- Ids and enqueue -----------------------------------------------------------------

  /** An allocated id follows the counter, and after the largest comes zero; a written watermark is the id. */
  lemma AllocateOnFields(w: World, ok: bool)
    requires w.q.counter <= 18446744073709551615
    ensures var q := Do(w, Allocate(ok)).q;
            q.counter == (if w.q.counter == 18446744073709551615 then 0 else w.q.counter + 1) &&
            q.watermark == (if ok then Some(q.counter) else w.q.watermark) &&
            q.messages == w.q.messages && q.rows == w.q.rows && q.others == w.q.others
  {
  }

  /** Catching up takes the counter to the larger of the two, and is persisted only if it moves. */
  lemma CatchUpOnFields(q: Queue, since: nat, ok: bool)
    ensures var (q', r) := CaughtUp(q, since, ok);
            q'.counter == (if since > q.counter then since else q.counter) && (r <==> ok || since <= q.counter) &&
            q'.watermark == (if since > q.counter && ok then Some(since) else q.watermark) &&
            q'.messages == q.messages && q'.rows == q.rows && q'.others == q.others
  {
  }

  /** The message names a sender, a user, a type and content. */
  ghost predicate IsWhole(m: Message) {
    m.sender != "" && m.user != "" && m.kind != "" && m.content != ""
  }

  /**
   * In every well-behaved run a message is accepted exactly when it is whole
   * and its row is written; it is then last in the queue, under the next id.
   */
  lemma EnqueueSucceedsIff(actions: seq<Action>, m: Message, markOk: bool, rowOk: bool)
    requires BehavesAlong(START, actions) && NoRollbackAlong(START, actions)
    requires Run(START, actions).q.counter < 18446744073709551615
    ensures var w := Run(START, actions);
            var w' := Do(w, Enqueue(m, markOk, rowOk));
            var row := m.(stream := w.q.counter + 1);
            if IsWhole(m) && rowOk
            then w'.q.messages == w.q.messages + [row] && w'.q.rows == w.q.rows + {row} &&
                 w'.accepted == w.accepted + {row} && w'.q.counter == w.q.counter + 1
            else w'.q.messages == w.q.messages && w'.q.rows == w.q.rows && w'.accepted == w.accepted &&
                 w'.q.counter == if IsWhole(m) then w.q.counter + 1 else w.q.counter
  {
    hide Run;
    RunKeepsDelivery(START, actions);
    EnqueueStep(Run(START, actions), m, markOk, rowOk);
  }

  lemma EnqueueStep(w: World, m: Message, markOk: bool, rowOk: bool)
    requires DeliveryInv(w) && w.q.counter < 18446744073709551615
    ensures var w' := Do(w, Enqueue(m, markOk, rowOk));
            var row := m.(stream := w.q.counter + 1);
            if IsWhole(m) && rowOk
            then w'.q.messages == w.q.messages + [row] && w'.q.rows == w.q.rows + {row} &&
                 w'.accepted == w.accepted + {row} && w'.q.counter == w.q.counter + 1
            else w'.q.messages == w.q.messages && w'.q.rows == w.q.rows && w'.accepted == w.accepted &&
                 w'.q.counter == if IsWhole(m) then w.q.counter + 1 else w.q.counter
  {
    assert BoundsInv(w);
    hide DeliveryInv;
    assert !HasKey(w.q.rows, m.(stream := w.q.counter + 1));
  }

  // ---- Over whole runs -------------------------------------------------------------------

  /** Some response to the device held the message. */
  ghost predicate WasReturned(responses: seq<Response>, m: Message, user: Id, device: Id) {
    exists j :: 0 <= j < |responses| && responses[j].user == user && responses[j].device == device && m in responses[j].returned
  }

  /**
   * In every well-behaved run without a rollback, whenever a device was given a
   * bound at or past the id of a message accepted for it or for all devices of
   * its user, it has been returned that message.
   */
  lemma BoundedWasReturned(actions: seq<Action>, m: Message, i: nat)
    requires BehavesAlong(START, actions) && NoRollbackAlong(START, actions)
    requires m in Run(START, actions).accepted && i < |Run(START, actions).responses|
    ensures var r := Run(START, actions).responses[i];
            r.user == m.user && r.device != "" && r.device != "*" &&
            (m.device == "" || m.device == "*" || m.device == r.device) && m.stream <= r.upper ==>
              WasReturned(Run(START, actions).responses, m, r.user, r.device)
  {
    hide Run, BehavesAlong, NoRollbackAlong;
    RunKeepsDelivery(START, actions);
    RunKeepsIds(START, actions);
    BoundedIsDelivered(Run(START, actions), m, i);
  }

  lemma BoundedIsDelivered(w: World, m: Message, i: nat)
    requires DeliveryInv(w) && IdsInv(w) && m in w.accepted && i < |w.responses|
    ensures var r := w.responses[i];
            r.user == m.user && r.device != "" && r.device != "*" &&
            (m.device == "" || m.device == "*" || m.device == r.device) && m.stream <= r.upper ==>
              WasReturned(w.responses, m, r.user, r.device)
  {
    assert m.user != "";
    assert m in w.q.rows || (!IsBroadcast(m) && Delivered(w.responses, m, m.user, m.device));
  }

  /** A broadcast stays in the queue and in the database, for the devices that have yet to ask. */
  lemma BroadcastsStay(actions: seq<Action>, m: Message)
    requires BehavesAlong(START, actions) && NoRollbackAlong(START, actions)
    requires m in Run(START, actions).accepted && (m.device == "" || m.device == "*")
    ensures m in Run(START, actions).q.messages && m in Run(START, actions).q.rows
  {
    hide Run, BehavesAlong, NoRollbackAlong;
    RunKeepsDelivery(START, actions);
    assert NothingLost(Run(START, actions));
  }
}
