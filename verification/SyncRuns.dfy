/**
 * Whole runs of the sync stream and the to-device queue, with failed writes,
 * client catch-ups and restarts, and why stream ids stay new.
 */
module SyncRuns {
  import opened Basics
  import opened SyncStream

  datatype Response = Response(user: Id, device: Id, upper: nat, returned: seq<Message>)

  /** The queue, and a record of the past: watermarks persisted, messages accepted, responses given. */
  datatype World = World(q: Queue, persisted: seq<nat>, accepted: set<Message>, responses: seq<Response>)

  const START := World(EMPTY_QUEUE, [], {}, [])

  datatype Action =
    | Allocate(markOk: bool)
    | StoreOther(replaced: set<nat>, markOk: bool, rowOk: bool)
    | CatchUp(since: nat, markOk: bool)
    | Enqueue(message: Message, markOk: bool, rowOk: bool)
    | Drain(user: Id, device: Id, since: nat, upper: nat, deletes: seq<bool>)
    | Restart(listing: seq<Message>, counter: nat, markOk: bool)

  function Marked(w: World, q: Queue, ok: bool): World {
    w.(q := q, persisted := if ok then w.persisted + [q.counter] else w.persisted)
  }

  function DoAllocate(w: World, ok: bool): World {
    Marked(w, Allocated(w.q, ok), ok)
  }

  /** A row of another sync table, which may replace older ones. */
  function DoStoreOther(w: World, replaced: set<nat>, markOk: bool, rowOk: bool): World {
    var w' := DoAllocate(w, markOk);
    if rowOk then w'.(q := w'.q.(others := w'.q.others - replaced + {w'.q.counter})) else w'
  }

  function DoCatchUp(w: World, since: nat, ok: bool): World {
    if since <= w.q.counter || since > MAX_STREAM then w else Marked(w, CaughtUp(w.q, since, ok).0, ok)
  }

  ghost function DoEnqueue(w: World, m: Message, markOk: bool, rowOk: bool): World {
    if !IsComplete(m) then w
    else
      var (q, ok) := Enqueued(w.q, m, markOk, rowOk);
      var w' := DoAllocate(w, markOk);
      w'.(q := q, accepted := if ok then w.accepted + {m.(stream := q.counter)} else w.accepted)
  }

  ghost function DoDrain(w: World, user: Id, device: Id, since: nat, upper: nat, deletes: seq<bool>): World {
    if |deletes| != |Filter(w.q.messages, Acknowledged(user, device, since, upper))| then w
    else
      var (q, returned) := Drained(w.q, user, device, since, upper, deletes);
      w.(q := q, responses := w.responses + [Response(user, device, upper, returned)])
  }

  ghost predicate Restorable(q: Queue, listing: seq<Message>, counter: nat) {
    (forall m :: m in listing <==> m in q.rows) && IsRestored(q, Floor(q), counter)
  }

  ghost function DoRestart(w: World, listing: seq<Message>, counter: nat, ok: bool): World {
    if !Restorable(w.q, listing, counter) then w
    else Marked(w, Persisted(w.q.(messages := listing, counter := counter), counter, ok), ok)
  }

  ghost function Do(w: World, a: Action): World {
    match a
    case Allocate(ok) => DoAllocate(w, ok)
    case StoreOther(replaced, markOk, rowOk) => DoStoreOther(w, replaced, markOk, rowOk)
    case CatchUp(since, ok) => DoCatchUp(w, since, ok)
    case Enqueue(m, markOk, rowOk) => DoEnqueue(w, m, markOk, rowOk)
    case Drain(user, device, since, upper, deletes) => DoDrain(w, user, device, since, upper, deletes)
    case Restart(listing, counter, ok) => DoRestart(w, listing, counter, ok)
  }

  ghost function Run(w: World, actions: seq<Action>): World
    decreases actions
  {
    if actions == [] then w else Run(Do(w, actions[0]), actions[1..])
  }

  // ---- Stream ids ------------------------------------------------------------------------

  ghost predicate Nondecreasing(s: seq<nat>) {
    forall i, j :: 0 <= i < j < |s| ==> s[i] <= s[j]
  }

  /** The counter is at or past every durable id and watermark, and the watermark is the last one written. */
  ghost predicate CounterInv(w: World) {
    w.q.counter <= MAX_STREAM &&
    (forall m :: m in w.q.rows ==> m.stream <= w.q.counter) && (forall id :: id in w.q.others ==> id <= w.q.counter) &&
    Nondecreasing(w.persisted) && w.q.watermark == (if w.persisted == [] then None else Some(w.persisted[|w.persisted| - 1])) &&
    (w.persisted != [] ==> w.persisted[|w.persisted| - 1] <= w.q.counter)
  }

  lemma DrainShrinks(q: Queue, user: Id, device: Id, since: nat, upper: nat, deletes: seq<bool>)
    requires |deletes| == |Filter(q.messages, Acknowledged(user, device, since, upper))|
    ensures Drained(q, user, device, since, upper, deletes).0.rows <= q.rows
  {
    DeleteAllShrinks(q.rows, Filter(q.messages, Acknowledged(user, device, since, upper)), deletes);
  }

  /** Moving the counter forward, and persisting it or not, keeps the invariant. */
  lemma MarkedKeepsCounterInv(w: World, q: Queue, ok: bool)
    requires CounterInv(w) && q == Persisted(w.q.(messages := q.messages, counter := q.counter), q.counter, ok)
    requires q.counter <= MAX_STREAM && Floor(w.q) <= q.counter
    requires (forall m :: m in w.q.rows ==> m.stream <= q.counter) && (forall id :: id in w.q.others ==> id <= q.counter)
    ensures CounterInv(Marked(w, q, ok))
  {
    if ok && w.persisted != [] {
      forall i | 0 <= i < |w.persisted|
        ensures w.persisted[i] <= q.counter
      {
        assert i == |w.persisted| - 1 || w.persisted[i] <= w.persisted[|w.persisted| - 1];
      }
    }
  }

  lemma AllocateKeepsCounterInv(w: World, ok: bool)
    requires CounterInv(w) && w.q.counter < MAX_STREAM
    ensures CounterInv(DoAllocate(w, ok)) && DoAllocate(w, ok).q.counter == w.q.counter + 1
  {
    MarkedKeepsCounterInv(w, Allocated(w.q, ok), ok);
  }

  lemma EnqueueKeepsCounterInv(w: World, m: Message, markOk: bool, rowOk: bool)
    requires CounterInv(w) && w.q.counter < MAX_STREAM
    ensures CounterInv(DoEnqueue(w, m, markOk, rowOk))
  {
    AllocateKeepsCounterInv(w, markOk);
    var before := DoAllocate(w, markOk);
    var after := DoEnqueue(w, m, markOk, rowOk);
    hide Nondecreasing;
    assert after.persisted == before.persisted || after == w;
  }

  lemma DrainKeepsCounterInv(w: World, user: Id, device: Id, since: nat, upper: nat, deletes: seq<bool>)
    requires CounterInv(w)
    ensures CounterInv(DoDrain(w, user, device, since, upper, deletes))
  {
    hide Nondecreasing;
    if |deletes| == |Filter(w.q.messages, Acknowledged(user, device, since, upper))| {
      DrainShrinks(w.q, user, device, since, upper, deletes);
    }
  }

  lemma RestartKeepsCounterInv(w: World, listing: seq<Message>, counter: nat, ok: bool)
    requires CounterInv(w)
    ensures CounterInv(DoRestart(w, listing, counter, ok))
  {
    if Restorable(w.q, listing, counter) {
      MarkedKeepsCounterInv(w, Persisted(w.q.(messages := listing, counter := counter), counter, ok), ok);
    }
  }

  /** The action takes an id from the stream. */
  predicate Allocates(a: Action) {
    a.Allocate? || a.StoreOther? || (a.Enqueue? && IsComplete(a.message))
  }

  lemma DoKeepsCounterInv(w: World, a: Action)
    requires CounterInv(w) && (Allocates(a) ==> w.q.counter < MAX_STREAM)
    ensures CounterInv(Do(w, a))
  {
    hide Nondecreasing;
    match a
    case Allocate(ok) => AllocateKeepsCounterInv(w, ok);
    case StoreOther(_, ok, _) => AllocateKeepsCounterInv(w, ok);
    case CatchUp(since, ok) =>
      if w.q.counter < since <= MAX_STREAM { MarkedKeepsCounterInv(w, CaughtUp(w.q, since, ok).0, ok); }
    case Enqueue(m, markOk, rowOk) =>
      if IsComplete(m) { EnqueueKeepsCounterInv(w, m, markOk, rowOk); }
    case Drain(user, device, since, upper, deletes) => DrainKeepsCounterInv(w, user, device, since, upper, deletes);
    case Restart(listing, counter, ok) => RestartKeepsCounterInv(w, listing, counter, ok);
  }

  /** The next id is past the counter, every id on a durable row and every watermark ever persisted. */
  ghost predicate NextIsNew(w: World) {
    var next := NextId(w.q.counter);
    w.q.counter < next &&
    (forall m :: m in w.q.rows ==> m.stream < next) && (forall id :: id in w.q.others ==> id < next) &&
    forall i :: 0 <= i < |w.persisted| ==> w.persisted[i] < next
  }

  /** Every id the run takes is new when it is taken. */
  ghost predicate AllIdsNew(w: World, actions: seq<Action>)
    decreases actions
  {
    actions == [] || ((Allocates(actions[0]) ==> NextIsNew(w)) && AllIdsNew(Do(w, actions[0]), actions[1..]))
  }

  /** The run takes no id while the counter stands at its maximum. */
  ghost predicate NeverAtMax(w: World, actions: seq<Action>)
    decreases actions
  {
    actions == [] ||
    ((Allocates(actions[0]) ==> w.q.counter < MAX_STREAM) && NeverAtMax(Do(w, actions[0]), actions[1..]))
  }

  lemma NextIsNewIff(w: World)
    requires CounterInv(w)
    ensures NextIsNew(w) <==> w.q.counter < MAX_STREAM
  {
    forall i | 0 <= i < |w.persisted|
      ensures w.persisted[i] <= w.q.counter
    {
      assert i == |w.persisted| - 1 || w.persisted[i] <= w.persisted[|w.persisted| - 1];
    }
  }

  lemma {:induction false} NewIdsFrom(w: World, actions: seq<Action>)
    requires CounterInv(w)
    ensures AllIdsNew(w, actions) <==> NeverAtMax(w, actions)
    ensures NeverAtMax(w, actions) ==> CounterInv(Run(w, actions))
    decreases actions
  {
    if actions != [] {
      NextIsNewIff(w);
      hide CounterInv, NextIsNew, Do;
      if Allocates(actions[0]) ==> w.q.counter < MAX_STREAM {
        DoKeepsCounterInv(w, actions[0]);
        NewIdsFrom(Do(w, actions[0]), actions[1..]);
      }
    }
  }

  /**
   * Over every run, each id taken is past every id on a durable row and every
   * watermark persisted, exactly when none is taken while the 64-bit counter
   * stands at its maximum; and then watermarks never decreased.
   */
  lemma NewIdsAreNew(actions: seq<Action>)
    ensures AllIdsNew(START, actions) <==> NeverAtMax(START, actions)
    ensures NeverAtMax(START, actions) ==> Nondecreasing(Run(START, actions).persisted)
  {
    NewIdsFrom(START, actions);
  }

  /** One client token brings the counter to its maximum from anywhere, and the next id is 0. */
  lemma TokenEndsStream(w: World, tokenOk: bool, ok: bool)
    requires w.q.counter < MAX_STREAM
    ensures var w' := Run(w, [CatchUp(MAX_STREAM, tokenOk), Allocate(ok)]);
            w'.q.counter == 0 && (ok ==> w'.q.watermark == Some(0))
  {
    var actions := [CatchUp(MAX_STREAM, tokenOk), Allocate(ok)];
    var reached := Do(w, actions[0]);
    assert actions[1..] == [Allocate(ok)] && [Allocate(ok)][1..] == [];
    assert reached.q.counter == MAX_STREAM;
    assert Run(w, actions) == Run(reached, [Allocate(ok)]) == Do(reached, Allocate(ok));
  }

  /** From the start: ids begin again and the watermark goes back. */
  lemma TokenEndsStreamAtOnce()
    ensures var actions := [CatchUp(MAX_STREAM, true), Allocate(true)];
            var w := Run(START, actions);
            w.q.counter == 0 && w.persisted == [MAX_STREAM, 0] && w.q.watermark == Some(0) &&
            !NeverAtMax(START, actions) && !AllIdsNew(START, actions) && !Nondecreasing(w.persisted)
  {
    var actions := [CatchUp(MAX_STREAM, true), Allocate(true)];
    var reached := Do(START, actions[0]);
    assert actions[1..] == [Allocate(true)] && [Allocate(true)][1..] == [];
    assert reached.q.counter == MAX_STREAM && reached.persisted == [MAX_STREAM];
    var w := Do(reached, Allocate(true));
    assert w.persisted == [MAX_STREAM, 0] && w.persisted[0] > w.persisted[1];
    assert Run(START, actions) == Run(reached, [Allocate(true)]) == Run(w, []);
    assert !NeverAtMax(reached, [Allocate(true)]);
    NewIdsAreNew(actions);
  }
}
