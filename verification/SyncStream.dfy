/**
 * Sync stream ids and the to-device message queue: allocation with a persisted
 * watermark, enqueue, delete-on-acknowledgement drain, recovery after a restart
 * (src/database/persistent_store.cpp), one operation at a time.
 */
module SyncStream {
  import opened Basics

  type Id = string

  datatype Message = Message(stream: nat, sender: Id, user: Id, device: Id, kind: string, content: string)

  /** Stream ids are 64-bit and wrap. */
  const MAX_STREAM: nat := 0xFFFF_FFFF_FFFF_FFFF

  /**
   * The mirror (`messages`, `counter`) and the database: the message rows, the
   * persisted watermark and the stream ids on rows of the other sync tables.
   */
  datatype Queue = Queue(messages: seq<Message>, counter: nat, rows: set<Message>, watermark: Option<nat>, others: set<nat>)

  const EMPTY_QUEUE := Queue([], 0, {}, None, {})

  // ---- Who a message is for ------------------------------------------------------

  predicate IsBroadcast(m: Message) {
    m.device == "" || m.device == "*"
  }

  predicate IsFor(m: Message, user: Id, device: Id) {
    m.user == user && (IsBroadcast(m) || m.device == device)
  }

  function Key(m: Message): (nat, Id, Id) {
    (m.stream, m.user, m.device)
  }

  // ---- Stream ids --------------------------------------------------------------------

  function Persisted(q: Queue, value: nat, ok: bool): Queue {
    if ok then q.(watermark := Some(value)) else q
  }

  function NextId(counter: nat): nat {
    (counter + 1) % (MAX_STREAM + 1)
  }

  function Allocated(q: Queue, ok: bool): Queue {
    var id := NextId(q.counter);
    Persisted(q.(counter := id), id, ok)
  }

  /** The counter moves up to a client's token; the answer is whether that was persisted. */
  function CaughtUp(q: Queue, since: nat, ok: bool): (Queue, bool) {
    if since <= q.counter then (q, true) else (Persisted(q.(counter := since), since, ok), ok)
  }

  /** The largest of a floor and the stream ids on durable rows. */
  ghost predicate IsRestored(q: Queue, floor: nat, r: nat) {
    floor <= r && (forall m :: m in q.rows ==> m.stream <= r) && (forall id :: id in q.others ==> id <= r) &&
    (r == floor || (exists m :: m in q.rows && m.stream == r) || r in q.others)
  }

  lemma RestoredIsUnique(q: Queue, floor: nat, a: nat, b: nat)
    requires IsRestored(q, floor, a) && IsRestored(q, floor, b)
    ensures a == b
  {
  }

  /** The counter a new process starts from before it looks at the rows. */
  function Floor(q: Queue): nat {
    if q.watermark.Some? then q.watermark.value else 0
  }

  // ---- The queue ---------------------------------------------------------------------

  predicate IsComplete(m: Message) {
    m.sender != "" && m.user != "" && m.kind != "" && m.content != ""
  }

  ghost predicate HasKey(rows: set<Message>, m: Message) {
    exists r :: r in rows && Key(r) == Key(m)
  }

  /** Enqueue: an id is used up even when the row is refused. */
  ghost function Enqueued(q: Queue, m: Message, markOk: bool, rowOk: bool): (Queue, bool) {
    if !IsComplete(m) then (q, false)
    else
      var q' := Allocated(q, markOk);
      var row := m.(stream := q'.counter);
      if !rowOk || HasKey(q.rows, row) then (q', false)
      else (q'.(messages := q.messages + [row], rows := q.rows + {row}), true)
  }

  /** What a drain returns. */
  function Returned(user: Id, device: Id, since: nat, upper: nat): Message -> bool {
    (m: Message) => IsFor(m, user, device) && m.stream <= upper && m.stream > since
  }

  /** What it deletes: messages for this one device that the token acknowledges. */
  predicate IsPurged(m: Message, user: Id, device: Id, since: nat, upper: nat) {
    IsFor(m, user, device) && m.stream <= upper && m.stream <= since && !IsBroadcast(m)
  }

  /** What the token acknowledges. */
  function Acknowledged(user: Id, device: Id, since: nat, upper: nat): Message -> bool {
    (m: Message) => IsFor(m, user, device) && m.stream <= upper && m.stream <= since
  }

  function Unpurged(user: Id, device: Id, since: nat, upper: nat): Message -> bool {
    (m: Message) => !IsPurged(m, user, device, since, upper)
  }

  function Delete(rows: set<Message>, m: Message): set<Message> {
    set r | r in rows && Key(r) != Key(m)
  }

  /** The deletes sent to the database, some of which may fail unnoticed; broadcasts are skipped. */
  function DeleteAll(rows: set<Message>, acknowledged: seq<Message>, deletes: seq<bool>): set<Message>
    requires |deletes| == |acknowledged|
    decreases acknowledged
  {
    if acknowledged == [] then rows
    else
      var m := acknowledged[0];
      DeleteAll(if deletes[0] && !IsBroadcast(m) then Delete(rows, m) else rows, acknowledged[1..], deletes[1..])
  }

  ghost function Drained(q: Queue, user: Id, device: Id, since: nat, upper: nat, deletes: seq<bool>): (Queue, seq<Message>)
    requires |deletes| == |Filter(q.messages, Acknowledged(user, device, since, upper))|
  {
    (q.(messages := Filter(q.messages, Unpurged(user, device, since, upper)),
        rows := DeleteAll(q.rows, Filter(q.messages, Acknowledged(user, device, since, upper)), deletes)),
     Filter(q.messages, Returned(user, device, since, upper)))
  }

  lemma {:induction false} DeleteAllOnlyDeletes(rows: set<Message>, acknowledged: seq<Message>, deletes: seq<bool>, m: Message)
    requires |deletes| == |acknowledged| && m in rows && m !in DeleteAll(rows, acknowledged, deletes)
    ensures exists a :: a in acknowledged && !IsBroadcast(a) && Key(a) == Key(m)
    decreases acknowledged
  {
    var a := acknowledged[0];
    if !(deletes[0] && !IsBroadcast(a) && Key(a) == Key(m)) {
      DeleteAllOnlyDeletes(if deletes[0] && !IsBroadcast(a) then Delete(rows, a) else rows, acknowledged[1..], deletes[1..], m);
    }
  }

  lemma {:induction false} DeleteAllShrinks(rows: set<Message>, acknowledged: seq<Message>, deletes: seq<bool>)
    requires |deletes| == |acknowledged|
    ensures DeleteAll(rows, acknowledged, deletes) <= rows
    decreases acknowledged
  {
    if acknowledged != [] {
      var m := acknowledged[0];
      DeleteAllShrinks(if deletes[0] && !IsBroadcast(m) then Delete(rows, m) else rows, acknowledged[1..], deletes[1..]);
    }
  }

  // ---- What one drain promises ----------------------------------------------------------

  /** A message is gone, from the mirror or the database, only if it was for this device alone and acknowledged. */
  lemma DrainDeletesOnlyAcknowledged(
    q: Queue, user: Id, device: Id, since: nat, upper: nat, deletes: seq<bool>, m: Message)
    requires |deletes| == |Filter(q.messages, Acknowledged(user, device, since, upper))|
    ensures var q' := Drained(q, user, device, since, upper, deletes).0;
            ((m in q.messages && m !in q'.messages) || (m in q.rows && m !in q'.rows)) ==>
              IsPurged(m, user, device, since, upper)
  {
    var acknowledged := Filter(q.messages, Acknowledged(user, device, since, upper));
    if m in q.rows && m !in DeleteAll(q.rows, acknowledged, deletes) {
      DeleteAllOnlyDeletes(q.rows, acknowledged, deletes, m);
    }
  }

  /** A token at or past a message never returns it again; another device's drain never removes it. */
  lemma DrainRespectsTokenAndDevice(
    q: Queue, user: Id, device: Id, since: nat, upper: nat, deletes: seq<bool>, m: Message)
    requires |deletes| == |Filter(q.messages, Acknowledged(user, device, since, upper))|
    ensures var (q', returned) := Drained(q, user, device, since, upper, deletes);
            (since >= m.stream ==> m !in returned) &&
            (m in q.messages && (m.user != user || m.device != device) ==> m in q'.messages) &&
            (m in q.rows && (m.user != user || m.device != device) ==> m in q'.rows)
  {
    DrainDeletesOnlyAcknowledged(q, user, device, since, upper, deletes, m);
  }

  // ---- The operations as the code runs them -----------------------------------------------

  class SyncQueue {
    var messages: seq<Message>
    var counter: nat
    var rows: set<Message>
    var watermark: Option<nat>
    var others: set<nat>

    function View(): Queue
      reads this
    {
      Queue(messages, counter, rows, watermark, others)
    }

    constructor ()
      ensures View() == EMPTY_QUEUE
    {
      messages, counter, rows, watermark, others := [], 0, {}, None, {};
    }

    method PersistWatermark(value: nat, ok: bool) returns (r: bool)
      modifies this`watermark
      ensures r == ok && View() == Persisted(old(View()), value, ok)
    {
      if ok {
        watermark := Some(value);
      }
      r := ok;
    }

    method Allocate(ok: bool) returns (id: nat)
      modifies this`counter, this`watermark
      ensures View() == Allocated(old(View()), ok) && id == counter
    {
      counter := (counter + 1) % (MAX_STREAM + 1);
      id := counter;
      var ignored := PersistWatermark(id, ok);
    }

    method EnsureAheadOf(since: nat, ok: bool) returns (r: bool)
      modifies this`counter, this`watermark
      ensures (View(), r) == CaughtUp(old(View()), since, ok)
    {
      if since <= counter {
        return true;
      }
      counter := since;
      r := PersistWatermark(counter, ok);
    }

    /** The new process: rows loaded in some order, the counter from watermark and rows. */
    method Restore(listing: seq<Message>, otherRows: seq<nat>, ok: bool)
      requires (set m | m in listing) == rows && (set id | id in otherRows) == others
      modifies this`messages, this`counter, this`watermark
      ensures messages == listing && IsRestored(old(View()), Floor(old(View())), counter)
      ensures watermark == if ok then Some(counter) else old(watermark)
    {
      assert forall m :: m in rows <==> m in listing;
      assert forall id :: id in others <==> id in otherRows;
      messages := listing;
      counter := if watermark.Some? then watermark.value else 0;
      var observed := counter;
      for i := 0 to |otherRows|
        invariant counter <= observed && (observed == counter || observed in otherRows)
        invariant forall j :: 0 <= j < i ==> otherRows[j] <= observed
      {
        if otherRows[i] > observed {
          observed := otherRows[i];
        }
      }
      for i := 0 to |listing|
        invariant counter <= observed
        invariant observed == counter || observed in otherRows || exists m :: m in listing && m.stream == observed
        invariant forall j :: 0 <= j < |otherRows| ==> otherRows[j] <= observed
        invariant forall j :: 0 <= j < i ==> listing[j].stream <= observed
      {
        if listing[i].stream > observed {
          observed := listing[i].stream;
          assert listing[i] in listing;
        }
      }
      counter := observed;
      var ignored := PersistWatermark(observed, ok);
    }

    method RowExists(m: Message) returns (r: bool)
      ensures r <==> HasKey(rows, m)
    {
      r := exists x :: x in rows && Key(x) == Key(m);
    }

    method Enqueue(m: Message, markOk: bool, rowOk: bool) returns (ok: bool)
      modifies this`messages, this`counter, this`watermark, this`rows
      ensures (View(), ok) == Enqueued(old(View()), m, markOk, rowOk)
    {
      if m.sender == "" || m.user == "" || m.kind == "" || m.content == "" {
        return false;
      }
      var id := Allocate(markOk);
      var row := m.(stream := id);
      var taken := RowExists(row);
      if !rowOk || taken {
        return false;
      }
      rows := rows + {row};
      messages := messages + [row];
      return true;
    }

    /** `deletes` is how the database answers each delete; the answers are not looked at. */
    method Drain(user: Id, device: Id, since: nat, upper: nat, deletes: nat -> bool)
      returns (drained: seq<Message>, ghost answers: seq<bool>)
      modifies this`messages, this`rows
      ensures |answers| == |Filter(old(messages), Acknowledged(user, device, since, upper))|
      ensures forall i :: 0 <= i < |answers| ==> answers[i] == deletes(i)
      ensures (View(), drained) == Drained(old(View()), user, device, since, upper, answers)
      ensures forall m :: m in drained <==>
                m in old(messages) && m.user == user && (m.device == "" || m.device == "*" || m.device == device) &&
                since < m.stream <= upper
      ensures forall m :: m in messages <==>
                m in old(messages) && !(m.user == user && m.device == device && device != "" && device != "*" &&
                                        m.stream <= since && m.stream <= upper)
    {
      var acknowledged;
      drained, acknowledged := Partition(messages, user, device, since, upper);
      ghost var was := messages;
      messages, rows, answers := PurgeAll(messages, rows, acknowledged, deletes);
      UnpurgedSurvive(was, user, device, since, upper);
    }
  }

  /** Each acknowledged message for one device deleted from the database, if it obeys, and from the mirror. */
  method PurgeAll(messages: seq<Message>, rows: set<Message>, acknowledged: seq<Message>, deletes: nat -> bool)
    returns (messages': seq<Message>, rows': set<Message>, ghost answers: seq<bool>)
    ensures messages' == Filter(messages, Surviving(acknowledged))
    ensures |answers| == |acknowledged| && forall i :: 0 <= i < |answers| ==> answers[i] == deletes(i)
    ensures rows' == DeleteAll(rows, acknowledged, answers)
  {
    messages', rows' := messages, rows;
    answers := seq(|acknowledged|, i requires 0 <= i < |acknowledged| => deletes(i));
    FilterAll(messages, Surviving(acknowledged[..0]));
    for i := 0 to |acknowledged|
      invariant messages' == Filter(messages, Surviving(acknowledged[..i]))
      invariant DeleteAll(rows', acknowledged[i..], answers[i..]) == DeleteAll(rows, acknowledged, answers)
    {
      hide Filter, Surviving, DeleteAll, Delete;
      var m := acknowledged[i];
      SurvivingNext(messages, acknowledged, i);
      DeleteNext(rows', acknowledged, answers, i);
      if m.device != "" && m.device != "*" {
        if deletes(i) {
          rows' := Delete(rows', m);
        }
        messages' := Filter(messages', KeyIsNot(m));
      }
    }
    assert acknowledged[..|acknowledged|] == acknowledged;
  }

  lemma DeleteNext(rows: set<Message>, acknowledged: seq<Message>, deletes: seq<bool>, i: nat)
    requires i < |acknowledged| == |deletes|
    ensures DeleteAll(rows, acknowledged[i..], deletes[i..]) ==
            DeleteAll(if deletes[i] && !IsBroadcast(acknowledged[i]) then Delete(rows, acknowledged[i]) else rows,
                      acknowledged[i + 1..], deletes[i + 1..])
  {
    assert acknowledged[i..][1..] == acknowledged[i + 1..] && deletes[i..][1..] == deletes[i + 1..];
  }

  function KeyIsNot(m: Message): Message -> bool {
    (x: Message) => Key(x) != Key(m)
  }

  /** What is left after the given acknowledged messages were removed. */
  ghost function Surviving(acknowledged: seq<Message>): Message -> bool {
    (x: Message) => forall a :: a in acknowledged ==> IsBroadcast(a) || Key(a) != Key(x)
  }

  lemma SurvivingNext(messages: seq<Message>, acknowledged: seq<Message>, i: nat)
    requires i < |acknowledged|
    ensures var m := acknowledged[i];
            Filter(messages, Surviving(acknowledged[..i + 1])) ==
            if IsBroadcast(m) then Filter(messages, Surviving(acknowledged[..i]))
            else Filter(Filter(messages, Surviving(acknowledged[..i])), KeyIsNot(m))
  {
    assert acknowledged[..i + 1] == acknowledged[..i] + [acknowledged[i]];
    if IsBroadcast(acknowledged[i]) {
      FilterSame(messages, Surviving(acknowledged[..i + 1]), Surviving(acknowledged[..i]));
    } else {
      FilterTwice(messages, Surviving(acknowledged[..i]), KeyIsNot(acknowledged[i]), Surviving(acknowledged[..i + 1]));
    }
  }

  /** Removing by key removes exactly the purged: the same key means the same answer. */
  lemma UnpurgedSurvive(messages: seq<Message>, user: Id, device: Id, since: nat, upper: nat)
    ensures Filter(messages, Surviving(Filter(messages, Acknowledged(user, device, since, upper)))) ==
            Filter(messages, Unpurged(user, device, since, upper))
  {
    var acknowledged := Filter(messages, Acknowledged(user, device, since, upper));
    forall x | x in messages
      ensures Surviving(acknowledged)(x) == Unpurged(user, device, since, upper)(x)
    {
      if IsPurged(x, user, device, since, upper) {
        assert x in acknowledged;
      }
    }
    FilterSame(messages, Surviving(acknowledged), Unpurged(user, device, since, upper));
  }

  method Partition(messages: seq<Message>, user: Id, device: Id, since: nat, upper: nat)
    returns (drained: seq<Message>, acknowledged: seq<Message>)
    ensures drained == Filter(messages, Returned(user, device, since, upper))
    ensures acknowledged == Filter(messages, Acknowledged(user, device, since, upper))
  {
    drained, acknowledged := [], [];
    for i := 0 to |messages|
      invariant drained == Filter(messages[..i], Returned(user, device, since, upper))
      invariant acknowledged == Filter(messages[..i], Acknowledged(user, device, since, upper))
    {
      var m := messages[i];
      FilterNext(messages, i, Returned(user, device, since, upper));
      FilterNext(messages, i, Acknowledged(user, device, since, upper));
      if !IsFor(m, user, device) || m.stream > upper {
        continue;
      }
      if m.stream > since {
        drained := drained + [m];
      } else {
        acknowledged := acknowledged + [m];
      }
    }
    assert messages[..|messages|] == messages;
  }
}
