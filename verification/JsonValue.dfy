/**
 * JSON trees as the server holds them (include/merovingian/canonicaljson/value.hpp):
 * an object is a sequence of members in arrival order, so keys may repeat
 * until something rejects that.
 */
module JsonValue {
  import opened Basics
  import opened MemberOrder
  import Utf8

  type Int64 = i: int | -0x8000_0000_0000_0000 <= i < 0x8000_0000_0000_0000

  /**
   * `NoValue` stands for a member whose owned pointer is null and for a
   * variant without a value; both fail serialization the same way.
   * `Float` keeps the bit pattern of a double.
   */
  datatype Value =
    | NoValue
    | Null
    | Bool(b: bool)
    | Int(i: Int64)
    | Float(bits: nat)
    | Str(s: Bytes)
    | Array(items: seq<Value>)
    | Object(members: seq<Member<Value>>)

  predicate StringOk(s: Bytes) {
    Utf8.Accepted(s, 0)
  }

  /** Trees strict serialization accepts: valid strings, no floats, no repeated keys, any 64-bit integers. */
  ghost predicate Clean(v: Value) {
    match v
    case NoValue => false
    case Float(_) => false
    case Str(s) => StringOk(s)
    case Array(items) => forall i :: 0 <= i < |items| ==> Clean(items[i])
    case Object(members) =>
      DistinctKeys(members) &&
      forall i :: 0 <= i < |members| ==> StringOk(members[i].key) && Clean(members[i].value)
    case _ => true
  }

  /** The same JSON value when the order of members does not count, at every level. */
  ghost predicate SameUpToOrder(a: Value, b: Value) {
    match a
    case Array(items) =>
      b.Array? && |items| == |b.items| &&
      forall i :: 0 <= i < |items| ==> SameUpToOrder(items[i], b.items[i])
    case Object(members) =>
      b.Object? && |members| == |b.members| &&
      forall i :: 0 <= i < |members| ==> SameMember(members[i], b.members)
    case _ => a == b
  }

  /** Some member of `ns` has the key of `m` and the same value up to order. */
  ghost predicate SameMember(m: Member<Value>, ns: seq<Member<Value>>) {
    exists j :: 0 <= j < |ns| && m.key == ns[j].key && SameUpToOrder(m.value, ns[j].value)
  }

  /** The value with the members of every object in key order. */
  function Normal(v: Value): Value {
    match v
    case Array(items) => Array(NormalItems(items))
    case Object(members) => Object(Sort(NormalMembers(members)))
    case _ => v
  }

  function NormalItems(items: seq<Value>): (r: seq<Value>)
    ensures |r| == |items|
    ensures forall i :: 0 <= i < |items| ==> r[i] == Normal(items[i])
  {
    if items == [] then [] else [Normal(items[0])] + NormalItems(items[1..])
  }

  function NormalMembers(members: seq<Member<Value>>): (r: seq<Member<Value>>)
    ensures |r| == |members|
    ensures forall i :: 0 <= i < |members| ==> r[i] == Member(members[i].key, Normal(members[i].value))
  {
    if members == [] then []
    else [Member(members[0].key, Normal(members[0].value))] + NormalMembers(members[1..])
  }

  /** Every object, at every level, lists its members in strictly ascending key order. */
  ghost predicate InOrder(v: Value) {
    match v
    case Array(items) => forall i :: 0 <= i < |items| ==> InOrder(items[i])
    case Object(members) =>
      Ascending(members) && forall i :: 0 <= i < |members| ==> InOrder(members[i].value)
    case _ => true
  }

  lemma NormalMembersDistinct(members: seq<Member<Value>>)
    requires DistinctKeys(members)
    ensures DistinctKeys(NormalMembers(members)) && Ascending(Sort(NormalMembers(members)))
  {
    SortAscends(NormalMembers(members));
  }

  lemma AscendingIsDistinct<T>(s: seq<Member<T>>)
    requires Ascending(s)
    ensures DistinctKeys(s)
  {
    forall i, j | 0 <= i < j < |s|
      ensures s[i].key != s[j].key
    {
      LessTotal(s[i].key, s[j].key);
    }
  }

  /** Normalizing keeps a tree clean and puts it in order. */
  lemma {:induction false} NormalIsClean(v: Value)
    requires Clean(v)
    ensures Clean(Normal(v)) && InOrder(Normal(v))
  {
    match v
    case Array(items) =>
      forall i | 0 <= i < |items|
        ensures Clean(NormalItems(items)[i]) && InOrder(NormalItems(items)[i])
      {
        NormalIsClean(items[i]);
      }
    case Object(members) =>
      NormalMembersDistinct(members);
      var sorted := Sort(NormalMembers(members));
      AscendingIsDistinct(sorted);
      SortHasSameMembers(NormalMembers(members));
      forall i | 0 <= i < |sorted|
        ensures StringOk(sorted[i].key) && Clean(sorted[i].value) && InOrder(sorted[i].value)
      {
        assert sorted[i] in NormalMembers(members);
        var k :| 0 <= k < |members| && NormalMembers(members)[k] == sorted[i];
        NormalIsClean(members[k].value);
      }
    case _ =>
  }

  /** A value already in order is its own normal form. */
  lemma {:induction false} NormalOfInOrder(v: Value)
    requires InOrder(v)
    ensures Normal(v) == v
  {
    match v
    case Array(items) =>
      forall i | 0 <= i < |items|
        ensures NormalItems(items)[i] == items[i]
      {
        NormalOfInOrder(items[i]);
      }
    case Object(members) =>
      forall i | 0 <= i < |members|
        ensures NormalMembers(members)[i] == members[i]
      {
        NormalOfInOrder(members[i].value);
      }
      assert NormalMembers(members) == members;
      AscendingIsDistinct(members);
      AnySortIsSort(members, members);
    case _ =>
  }

  lemma NormalObjectMembers(members: seq<Member<Value>>)
    ensures forall m :: m in Sort(NormalMembers(members)) <==>
                        exists k :: 0 <= k < |members| && m == Member(members[k].key, Normal(members[k].value))
  {
    SortHasSameMembers(NormalMembers(members));
    forall m
      ensures m in NormalMembers(members) <==>
              exists k :: 0 <= k < |members| && m == Member(members[k].key, Normal(members[k].value))
    {
      if m in NormalMembers(members) {
        var k :| 0 <= k < |members| && NormalMembers(members)[k] == m;
      }
      if k :| 0 <= k < |members| && m == Member(members[k].key, Normal(members[k].value)) {
        assert NormalMembers(members)[k] == m;
      }
    }
  }

  /** Some member of `ns` has the key of `m` and a value of the same normal form. */
  ghost predicate HasTwin(m: Member<Value>, ns: seq<Member<Value>>) {
    exists j :: 0 <= j < |ns| && m.key == ns[j].key && Normal(m.value) == Normal(ns[j].value)
  }

  lemma TwinsOfEqualNormals(ms: seq<Member<Value>>, ns: seq<Member<Value>>, i: nat)
    requires Sort(NormalMembers(ms)) == Sort(NormalMembers(ns)) && i < |ms|
    ensures HasTwin(ms[i], ns)
  {
    NormalObjectMembers(ms);
    NormalObjectMembers(ns);
    assert Member(ms[i].key, Normal(ms[i].value)) in Sort(NormalMembers(ms));
  }

  lemma {:induction false} NormalFormsAgree(a: Value, b: Value)
    requires Normal(a) == Normal(b)
    ensures SameUpToOrder(a, b)
    decreases a, 1
  {
    match a
    case Array(items) =>
      forall i | 0 <= i < |items|
        ensures SameUpToOrder(items[i], b.items[i])
      {
        assert NormalItems(items)[i] == NormalItems(b.items)[i];
        NormalFormsAgree(items[i], b.items[i]);
      }
    case Object(members) =>
      NormalObjectsAgree(members, b.members);
    case _ =>
  }

  lemma {:induction false} NormalObjectsAgree(ms: seq<Member<Value>>, ns: seq<Member<Value>>)
    requires Sort(NormalMembers(ms)) == Sort(NormalMembers(ns))
    ensures SameUpToOrder(Object(ms), Object(ns))
    decreases Object(ms), 0
  {
    assert |ms| == |Sort(NormalMembers(ms))| == |ns|;
    forall i | 0 <= i < |ms|
      ensures SameMember(ms[i], ns)
    {
      TwinsOfEqualNormals(ms, ns, i);
      var j :| 0 <= j < |ns| && ms[i].key == ns[j].key && Normal(ms[i].value) == Normal(ns[j].value);
      NormalFormsAgree(ms[i].value, ns[j].value);
    }
  }

  /** The keys of distinct members, as many as the members. */
  function Keys<T>(s: seq<Member<T>>): set<Bytes> {
    set i | 0 <= i < |s| :: s[i].key
  }

  lemma {:induction false} KeyCount<T>(s: seq<Member<T>>)
    requires DistinctKeys(s)
    ensures |Keys(s)| == |s|
  {
    if s != [] {
      var last := |s| - 1;
      KeyCount(s[..last]);
      assert Keys(s) == Keys(s[..last]) + {s[last].key};
      assert s[last].key !in Keys(s[..last]);
    }
  }

  /** As many distinct keys on both sides, and one side inside the other: the same keys. */
  lemma SameKeys<A, B>(a: seq<Member<A>>, b: seq<Member<B>>)
    requires DistinctKeys(a) && DistinctKeys(b) && |a| == |b| && Keys(a) <= Keys(b)
    ensures Keys(a) == Keys(b)
  {
    KeyCount(a);
    KeyCount(b);
    SubsetOfSameSize(Keys(a), Keys(b));
  }

  lemma SubsetOfSameSize<T>(a: set<T>, b: set<T>)
    requires a <= b && |a| == |b|
    ensures a == b
  {
    assert |b - a| == |b| - |a|;
  }

  lemma {:induction false} NormalFormsMeet(a: Value, b: Value)
    requires Clean(a) && Clean(b) && SameUpToOrder(a, b)
    ensures Normal(a) == Normal(b)
  {
    match a
    case Array(items) =>
      forall i | 0 <= i < |items|
        ensures NormalItems(items)[i] == NormalItems(b.items)[i]
      {
        NormalFormsMeet(items[i], b.items[i]);
      }
    case Object(members) =>
      var ns := b.members;
      forall i | 0 <= i < |members|
        ensures HasTwin(members[i], ns)
      {
        assert SameMember(members[i], ns);
        var j :| 0 <= j < |ns| && members[i].key == ns[j].key && SameUpToOrder(members[i].value, ns[j].value);
        NormalFormsMeet(members[i].value, ns[j].value);
      }
      TwinKeys(members, ns);
      SameKeys(members, ns);
      SameNormalMembers(members, ns);
      NormalMembersDistinct(members);
      NormalMembersDistinct(ns);
      AscendingIsUnique(Sort(NormalMembers(members)), Sort(NormalMembers(ns)));
    case _ =>
  }

  lemma TwinKeys(ms: seq<Member<Value>>, ns: seq<Member<Value>>)
    requires forall i :: 0 <= i < |ms| ==> HasTwin(ms[i], ns)
    ensures Keys(ms) <= Keys(ns)
  {
  }

  lemma SameNormalMembers(ms: seq<Member<Value>>, ns: seq<Member<Value>>)
    requires DistinctKeys(ms) && DistinctKeys(ns) && Keys(ms) == Keys(ns)
    requires forall i :: 0 <= i < |ms| ==> HasTwin(ms[i], ns)
    ensures forall m :: m in Sort(NormalMembers(ms)) <==> m in Sort(NormalMembers(ns))
  {
    NormalObjectMembers(ms);
    NormalObjectMembers(ns);
    forall m
      ensures m in Sort(NormalMembers(ns)) <==> m in Sort(NormalMembers(ms))
    {
      if m in Sort(NormalMembers(ns)) {
        var j :| 0 <= j < |ns| && m == Member(ns[j].key, Normal(ns[j].value));
        assert ns[j].key in Keys(ms);
        var i :| 0 <= i < |ms| && ms[i].key == ns[j].key;
        assert HasTwin(ms[i], ns);
      }
      if m in Sort(NormalMembers(ms)) {
        var i :| 0 <= i < |ms| && m == Member(ms[i].key, Normal(ms[i].value));
        assert HasTwin(ms[i], ns);
      }
    }
  }

  /** On clean trees, the normal form decides equality up to member order. */
  lemma NormalIffSame(a: Value, b: Value)
    requires Clean(a) && Clean(b)
    ensures Normal(a) == Normal(b) <==> SameUpToOrder(a, b)
  {
    if Normal(a) == Normal(b) {
      NormalFormsAgree(a, b);
    }
    if SameUpToOrder(a, b) {
      NormalFormsMeet(a, b);
    }
  }
}
