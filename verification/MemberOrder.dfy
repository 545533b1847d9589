/**
 * Object members and their canonical order: by key, bytes compared as
 * unsigned characters, the order `std::string::operator<` gives
 * (src/canonicaljson/serializer.cpp).
 */
module MemberOrder {
  import opened Basics

  /** A key with a payload: a value, or the text a value was serialized to. */
  datatype Member<+T> = Member(key: Bytes, value: T)

  predicate Less(a: Bytes, b: Bytes) {
    b != [] && (a == [] || a[0] < b[0] || (a[0] == b[0] && Less(a[1..], b[1..])))
  }

  /** At the first position where they differ, `a` has the smaller byte, or `a` ends there and `b` does not. */
  ghost predicate BytewiseBefore(a: Bytes, b: Bytes) {
    exists k :: 0 <= k <= |a| && k < |b| && a[..k] == b[..k] && (k == |a| || a[k] < b[k])
  }

  /** The order of `std::string`: by the first differing byte as a number, a proper prefix first. */
  lemma {:induction false} LessIsBytewise(a: Bytes, b: Bytes)
    ensures Less(a, b) <==> BytewiseBefore(a, b)
  {
    if a != [] && b != [] && a[0] == b[0] {
      LessIsBytewise(a[1..], b[1..]);
      if k :| 0 <= k <= |a| && k < |b| && a[..k] == b[..k] && (k == |a| || a[k] < b[k]) {
        assert a[1..][..k - 1] == a[..k][1..] && b[1..][..k - 1] == b[..k][1..];
        assert BytewiseBefore(a[1..], b[1..]);
      }
      if k :| 0 <= k <= |a[1..]| && k < |b[1..]| && a[1..][..k] == b[1..][..k] && (k == |a[1..]| || a[1..][k] < b[1..][k]) {
        assert a[..k + 1] == [a[0]] + a[1..][..k] && b[..k + 1] == [b[0]] + b[1..][..k];
      }
    } else if Less(a, b) {
      assert a[..0] == b[..0];
    } else {
      assert forall k :: 0 < k <= |a| && k < |b| ==> a[..k][0] == a[0] && b[..k][0] == b[0];
    }
  }

  lemma {:induction false} LessTotal(a: Bytes, b: Bytes)
    ensures Less(a, b) || a == b || Less(b, a)
    ensures !(Less(a, b) && Less(b, a)) && (a == b ==> !Less(a, b))
  {
    if a != [] && b != [] {
      LessTotal(a[1..], b[1..]);
      assert a == [a[0]] + a[1..] && b == [b[0]] + b[1..];
    }
  }

  lemma {:induction false} LessTransitive(a: Bytes, b: Bytes, c: Bytes)
    requires Less(a, b) && Less(b, c)
    ensures Less(a, c)
  {
    if a != [] && a[0] == b[0] == c[0] {
      LessTransitive(a[1..], b[1..], c[1..]);
    }
  }

  ghost predicate DistinctKeys<T>(s: seq<Member<T>>) {
    forall i, j :: 0 <= i < j < |s| ==> s[i].key != s[j].key
  }

  ghost predicate Ascending<T>(s: seq<Member<T>>) {
    forall i, j :: 0 <= i < j < |s| ==> Less(s[i].key, s[j].key)
  }

  function Insert<T>(m: Member<T>, s: seq<Member<T>>): (r: seq<Member<T>>)
    ensures multiset(r) == multiset{m} + multiset(s)
    ensures |r| == |s| + 1
  {
    if s != [] && Less(s[0].key, m.key) then
      assert s == [s[0]] + s[1..];
      [s[0]] + Insert(m, s[1..])
    else
      [m] + s
  }

  /** The members in key order. */
  function Sort<T>(s: seq<Member<T>>): (r: seq<Member<T>>)
    ensures multiset(r) == multiset(s)
    ensures |r| == |s|
  {
    if s == [] then [] else assert s == [s[0]] + s[1..]; Insert(s[0], Sort(s[1..]))
  }

  lemma SortHasSameMembers<T(!new)>(s: seq<Member<T>>)
    ensures forall m :: m in Sort(s) <==> m in s
  {
    assert forall m :: m in Sort(s) <==> m in multiset(Sort(s));
    assert forall m :: m in s <==> m in multiset(s);
  }

  lemma InsertHasSameMembers<T(!new)>(m: Member<T>, s: seq<Member<T>>)
    ensures forall x :: x in Insert(m, s) <==> x == m || x in s
  {
    assert forall x :: x in Insert(m, s) <==> x in multiset(Insert(m, s));
  }

  lemma {:induction false} InsertAscends<T(!new)>(m: Member<T>, s: seq<Member<T>>)
    requires Ascending(s) && forall x :: x in s ==> x.key != m.key
    ensures Ascending(Insert(m, s))
  {
    if s == [] {
    } else if Less(s[0].key, m.key) {
      InsertAscends(m, s[1..]);
      InsertHasSameMembers(m, s[1..]);
      var t := Insert(m, s[1..]);
      forall j | 0 <= j < |t|
        ensures Less(s[0].key, t[j].key)
      {
        assert t[j] in t;
        if t[j] != m {
          var k :| 0 <= k < |s[1..]| && s[1..][k] == t[j];
          assert s[k + 1] == t[j];
        }
      }
    } else {
      LessTotal(s[0].key, m.key);
      assert s[0] in s;
      forall j | 0 <= j < |s|
        ensures Less(m.key, s[j].key)
      {
        if j > 0 {
          LessTransitive(m.key, s[0].key, s[j].key);
        }
      }
    }
  }

  lemma {:induction false} SortAscends<T(!new)>(s: seq<Member<T>>)
    requires DistinctKeys(s)
    ensures Ascending(Sort(s))
  {
    if s != [] {
      SortAscends(s[1..]);
      SortHasSameMembers(s[1..]);
      forall x | x in Sort(s[1..])
        ensures x.key != s[0].key
      {
        var k :| 0 <= k < |s[1..]| && s[1..][k] == x;
        assert s[k + 1] == x;
      }
      InsertAscends(s[0], Sort(s[1..]));
    }
  }

  /** Two ascending sequences of the same members are the same sequence. */
  lemma {:induction false} AscendingIsUnique<T(!new)>(a: seq<Member<T>>, b: seq<Member<T>>)
    requires Ascending(a) && Ascending(b) && |a| == |b|
    requires forall m :: m in a <==> m in b
    ensures a == b
  {
    if a == [] {
    } else {
      assert a[0] in b && b[0] in a;
      var i :| 0 <= i < |b| && b[i] == a[0];
      var j :| 0 <= j < |a| && a[j] == b[0];
      LessTotal(a[0].key, b[0].key);
      assert i == 0 && j == 0;
      assert a == [a[0]] + a[1..] && b == [b[0]] + b[1..];
      forall m
        ensures m in a[1..] <==> m in b[1..]
      {
        HeadIsSmaller(a, m);
        HeadIsSmaller(b, m);
      }
      AscendingIsUnique(a[1..], b[1..]);
    }
  }

  lemma HeadIsSmaller<T(!new)>(a: seq<Member<T>>, m: Member<T>)
    requires a != [] && Ascending(a)
    ensures m in a[1..] <==> m in a && m != a[0]
  {
    if m in a[1..] {
      var k :| 0 <= k < |a[1..]| && a[1..][k] == m;
      assert a[k + 1] == m;
      LessTotal(a[0].key, m.key);
    }
    if m in a && m != a[0] {
      var k :| 0 <= k < |a| && a[k] == m;
      assert a[1..][k - 1] == m;
    }
  }

  /**
   * Whatever algorithm `std::sort` uses, members with distinct keys have one
   * ascending arrangement, and it is `Sort`.
   */
  lemma AnySortIsSort<T(!new)>(s: seq<Member<T>>, arranged: seq<Member<T>>)
    requires DistinctKeys(s) && Ascending(arranged) && multiset(arranged) == multiset(s)
    ensures arranged == Sort(s)
  {
    SortAscends(s);
    assert |arranged| == |multiset(arranged)|;
    assert forall m :: m in arranged <==> m in multiset(arranged);
    assert forall m :: m in Sort(s) <==> m in multiset(Sort(s));
    AscendingIsUnique(arranged, Sort(s));
  }

  /** The same keys, payloads mapped by `f`. */
  function MapValues<A, B>(f: A -> B, s: seq<Member<A>>): (r: seq<Member<B>>)
    ensures |r| == |s|
    ensures forall i :: 0 <= i < |s| ==> r[i] == Member(s[i].key, f(s[i].value))
  {
    if s == [] then [] else [Member(s[0].key, f(s[0].value))] + MapValues(f, s[1..])
  }

  lemma {:induction false} InsertMaps<A, B>(f: A -> B, m: Member<A>, s: seq<Member<A>>)
    ensures Insert(Member(m.key, f(m.value)), MapValues(f, s)) == MapValues(f, Insert(m, s))
  {
    if s != [] && Less(s[0].key, m.key) {
      InsertMaps(f, m, s[1..]);
      assert MapValues(f, s)[1..] == MapValues(f, s[1..]);
    }
  }

  /** Sorting looks at keys only, so it commutes with mapping the payloads. */
  lemma {:induction false} SortMaps<A, B>(f: A -> B, s: seq<Member<A>>)
    ensures Sort(MapValues(f, s)) == MapValues(f, Sort(s))
  {
    if s != [] {
      assert MapValues(f, s)[1..] == MapValues(f, s[1..]);
      SortMaps(f, s[1..]);
      InsertMaps(f, s[0], Sort(s[1..]));
    }
  }
}
