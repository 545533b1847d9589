/** What attaching signatures keeps, adds and leaves independent of order. */
module SigningLaws {
  import opened Basics
  import opened MemberOrder
  import opened JsonValue
  import opened Serializer
  import opened CanonicalDecoder
  import opened Signing
  import Utf8

  // ---- Dictionary laws of members -------------------------------------------

  lemma {:induction false} LookupPut(o: Members, key: Bytes, v: Value, other: Bytes)
    ensures Lookup(Put(o, key, v), other) == if other == key then Some(v) else Lookup(o, other)
  {
    if o != [] && o[0].key != key {
      LookupPut(o[1..], key, v, other);
      assert Put(o, key, v)[1..] == Put(o[1..], key, v);
    } else if o != [] {
      assert Put(o, key, v)[1..] == o[1..];
    }
  }

  lemma {:induction false} LookupAppend(o: Members, m: Member<Value>, key: Bytes)
    ensures Lookup(o + [m], key) == if Lookup(o, key).Some? then Lookup(o, key)
                                    else if m.key == key then Some(m.value) else None
  {
    if o == [] {
      assert o + [m] == [m];
    } else {
      assert (o + [m])[0] == o[0] && (o + [m])[1..] == o[1..] + [m];
      LookupAppend(o[1..], m, key);
    }
  }

  lemma {:induction false} LookupIsMember(o: Members, key: Bytes)
    ensures Lookup(o, key).Some? ==> Member(key, Lookup(o, key).value) in o
    ensures Lookup(o, key).None? <==> forall m :: m in o ==> m.key != key
  {
    if o != [] {
      LookupIsMember(o[1..], key);
      assert forall m :: m in o <==> m == o[0] || m in o[1..];
    }
  }

  lemma LookupUnique(o: Members, m: Member<Value>)
    requires DistinctKeys(o) && m in o
    ensures Lookup(o, m.key) == Some(m.value)
  {
    LookupIsMember(o, m.key);
    var i :| 0 <= i < |o| && o[i] == m;
    var j :| 0 <= j < |o| && o[j] == Member(m.key, Lookup(o, m.key).value);
    assert i == j;
  }

  lemma {:induction false} LookupWithout(o: Members, fields: set<Bytes>, key: Bytes)
    ensures Lookup(Without(o, fields), key) == if key in fields then None else Lookup(o, key)
  {
    if o != [] {
      LookupWithout(o[1..], fields, key);
      var keep := KeyNotIn(fields);
      var rest := Filter(o[1..], keep);
      if keep(o[0]) {
        assert ([o[0]] + rest)[1..] == rest;
      }
    }
  }

  /** The keys of `Put`: the keys there were, and the new one if it was missing. */
  lemma {:induction false} PutMembers(o: Members, key: Bytes, v: Value)
    ensures forall m :: m in Put(o, key, v) ==> m in o || m == Member(key, v)
    ensures DistinctKeys(Put(o, key, v)) <==> DistinctKeys(o)
    ensures Keys(Put(o, key, v)) == Keys(o) + {key}
  {
    if o == [] {
      KeysCons(Member(key, v), []);
      assert [Member(key, v)] + [] == Put(o, key, v);
    } else if o[0].key == key {
      KeysCons(o[0], o[1..]);
      KeysCons(Member(key, v), o[1..]);
      assert o == [o[0]] + o[1..];
    } else {
      PutMembers(o[1..], key, v);
      KeysCons(o[0], o[1..]);
      KeysCons(o[0], Put(o[1..], key, v));
      assert o == [o[0]] + o[1..];
    }
  }

  lemma KeysCons(m: Member<Value>, o: Members)
    ensures Keys([m] + o) == {m.key} + Keys(o)
    ensures DistinctKeys([m] + o) <==> DistinctKeys(o) && m.key !in Keys(o)
  {
    var all := [m] + o;
    assert all[0] == m;
    assert forall i :: 0 <= i < |o| ==> all[i + 1] == o[i];
    if DistinctKeys(all) {
      forall i, j | 0 <= i < j < |o|
        ensures o[i].key != o[j].key
      {
        assert all[i + 1].key != all[j + 1].key;
      }
    }
  }

  lemma KeysAreLookups(o: Members, key: Bytes)
    ensures key in Keys(o) <==> Lookup(o, key).Some?
  {
    LookupIsMember(o, key);
    if key in Keys(o) {
      var i :| 0 <= i < |o| && o[i].key == key;
      assert o[i] in o;
    }
    if Lookup(o, key).Some? {
      var i :| 0 <= i < |o| && o[i] == Member(key, Lookup(o, key).value);
    }
  }

  // ---- Lookups decide objects up to member order ----------------------------

  function Entry(o: Members, key: Bytes): Option<Value> {
    match Lookup(o, key)
    case None => None
    case Some(v) => Some(Normal(v))
  }

  /** Two objects with the same entries have the same normal form. */
  lemma SameEntries(a: Members, b: Members)
    requires DistinctKeys(a) && DistinctKeys(b)
    requires forall key :: Entry(a, key) == Entry(b, key)
    ensures Normal(Object(a)) == Normal(Object(b))
  {
    forall key
      ensures key in Keys(a) <==> key in Keys(b)
    {
      KeysAreLookups(a, key);
      KeysAreLookups(b, key);
      assert Entry(a, key) == Entry(b, key);
    }
    KeyCount(a);
    KeyCount(b);
    forall i | 0 <= i < |a|
      ensures HasTwin(a[i], b)
    {
      LookupUnique(a, a[i]);
      assert Entry(a, a[i].key) == Entry(b, a[i].key);
      LookupIsMember(b, a[i].key);
      var j :| 0 <= j < |b| && b[j] == Member(a[i].key, Lookup(b, a[i].key).value);
    }
    SameNormalMembers(a, b);
    NormalMembersDistinct(a);
    NormalMembersDistinct(b);
    AscendingIsUnique(Sort(NormalMembers(a)), Sort(NormalMembers(b)));
  }

  /** Looking up a key in the normal form gives the normal form of what was there. */
  lemma LookupNormal(o: Members, key: Bytes)
    requires DistinctKeys(o)
    ensures Lookup(Sort(NormalMembers(o)), key) == Entry(o, key)
  {
    var n := Sort(NormalMembers(o));
    NormalMembersDistinct(o);
    AscendingIsDistinct(n);
    NormalObjectMembers(o);
    LookupIsMember(o, key);
    LookupIsMember(n, key);
    if Lookup(o, key).Some? {
      var m := Member(key, Normal(Lookup(o, key).value));
      var i :| 0 <= i < |o| && o[i] == Member(key, Lookup(o, key).value);
      assert m in n;
      LookupUnique(n, m);
    } else {
      forall m | m in n
        ensures m.key != key
      {
        var k :| 0 <= k < |o| && m == Member(o[k].key, Normal(o[k].value));
        assert o[k] in o;
      }
    }
  }

  // ---- Clean objects, member by member --------------------------------------

  ghost predicate MemberClean(m: Member<Value>) {
    StringOk(m.key) && Clean(m.value)
  }

  lemma CleanObject(o: Members)
    ensures Clean(Object(o)) <==> DistinctKeys(o) && forall m :: m in o ==> MemberClean(m)
  {
    if Clean(Object(o)) {
      forall m | m in o
        ensures MemberClean(m)
      {
        var i :| 0 <= i < |o| && o[i] == m;
      }
    }
    if forall m :: m in o ==> MemberClean(m) {
      forall i | 0 <= i < |o|
        ensures StringOk(o[i].key) && Clean(o[i].value)
      {
        assert MemberClean(o[i]);
      }
    }
  }

  lemma CleanPut(o: Members, key: Bytes, v: Value)
    requires Clean(Object(o)) && StringOk(key) && Clean(v)
    ensures Clean(Object(Put(o, key, v)))
  {
    CleanObject(o);
    PutMembers(o, key, v);
    CleanObject(Put(o, key, v));
  }

  lemma CleanLookup(o: Members, key: Bytes)
    requires Clean(Object(o))
    ensures Lookup(o, key).Some? ==> Clean(Lookup(o, key).value) && StringOk(key)
    ensures Clean(Object(MembersOf(Lookup(o, key))))
  {
    CleanObject(o);
    LookupIsMember(o, key);
    if Lookup(o, key).Some? {
      assert MemberClean(Member(key, Lookup(o, key).value));
    }
  }

  lemma {:induction false} WithoutKeepsDistinct(o: Members, fields: set<Bytes>)
    requires DistinctKeys(o)
    ensures DistinctKeys(Without(o, fields)) && Keys(Without(o, fields)) <= Keys(o)
  {
    if o != [] {
      assert o == [o[0]] + o[1..];
      KeysCons(o[0], o[1..]);
      WithoutKeepsDistinct(o[1..], fields);
      KeysCons(o[0], Without(o[1..], fields));
    }
  }

  lemma CleanWithout(o: Members, fields: set<Bytes>)
    requires Clean(Object(o))
    ensures Clean(Object(Without(o, fields)))
  {
    CleanObject(o);
    WithoutKeepsDistinct(o, fields);
    CleanObject(Without(o, fields));
  }

  // ---- The tree after attaching ----------------------------------------------

  lemma SignedLookup(o: Members, k: KeyId, signature: Bytes, key: Bytes)
    ensures Lookup(Signed(o, k, signature), key) ==
            if key == SIGNATURES then Some(Object(PutSignature(MembersOf(Lookup(o, SIGNATURES)), k, signature)))
            else Lookup(o, key)
  {
    LookupWithout(o, {SIGNATURES}, key);
    LookupAppend(Without(o, {SIGNATURES}),
                 Member(SIGNATURES, Object(PutSignature(MembersOf(Lookup(o, SIGNATURES)), k, signature))), key);
  }

  lemma {:induction false} WithoutTwice(o: Members, few: set<Bytes>, many: set<Bytes>)
    requires few <= many
    ensures Without(Without(o, few), many) == Without(o, many)
  {
    if o != [] {
      WithoutTwice(o[1..], few, many);
      var rest := Without(o[1..], few);
      if KeyNotIn(few)(o[0]) {
        assert ([o[0]] + rest)[1..] == rest;
      }
    }
  }

  /** Whatever fields are stripped besides the signatures, attaching does not show. */
  lemma SignedWithout(o: Members, k: KeyId, signature: Bytes, fields: set<Bytes>)
    requires SIGNATURES in fields
    ensures Without(Signed(o, k, signature), fields) == Without(o, fields)
  {
    var added := Member(SIGNATURES, Object(PutSignature(MembersOf(Lookup(o, SIGNATURES)), k, signature)));
    FilterAppend(Without(o, {SIGNATURES}), [added], KeyNotIn(fields));
    assert Filter([added], KeyNotIn(fields)) == [];
    WithoutTwice(o, {SIGNATURES}, fields);
  }

  /** Attaching sets the signature of its key and no other. */
  lemma SignedSignatures(o: Members, k: KeyId, signature: Bytes, other: KeyId)
    ensures SignatureOf(Object(Signed(o, k, signature)), other) ==
            if other == k then Some(signature) else SignatureOf(Object(o), other)
  {
    var signatures := MembersOf(Lookup(o, SIGNATURES));
    var server := MembersOf(Lookup(signatures, k.server));
    SignedLookup(o, k, signature, SIGNATURES);
    LookupPut(signatures, k.server, Object(Put(server, k.key, Str(signature))), other.server);
    LookupPut(server, k.key, Str(signature), other.key);
  }

  lemma LookupNormalMembers(o: Members, key: Bytes)
    requires Clean(Object(o))
    ensures var found := Lookup(o, key);
            Lookup(Sort(NormalMembers(o)), key) == (if found.Some? then Some(Normal(found.value)) else None) &&
            MembersOf(Lookup(Sort(NormalMembers(o)), key)) == Sort(NormalMembers(MembersOf(found)))
  {
    LookupNormal(o, key);
  }

  /** A clean event and its normal form carry the same signatures. */
  lemma NormalSignatures(event: Value, k: KeyId)
    requires Clean(event)
    ensures SignatureOf(Normal(event), k) == SignatureOf(event, k)
  {
    if event.Object? {
      var o := event.members;
      var signatures := MembersOf(Lookup(o, SIGNATURES));
      LookupNormalMembers(o, SIGNATURES);
      CleanLookup(o, SIGNATURES);
      LookupNormalMembers(signatures, k.server);
      CleanLookup(signatures, k.server);
      LookupNormalMembers(MembersOf(Lookup(signatures, k.server)), k.key);
    }
  }

  lemma {:induction false} NormalWithout(o: Members, fields: set<Bytes>)
    requires Clean(Object(o))
    ensures Normal(Object(Without(Sort(NormalMembers(o)), fields))) == Normal(Object(Without(o, fields)))
  {
    var n := Sort(NormalMembers(o));
    NormalIsClean(Object(o));
    CleanWithout(n, fields);
    CleanWithout(o, fields);
    CleanObject(Without(n, fields));
    CleanObject(Without(o, fields));
    forall key
      ensures Entry(Without(n, fields), key) == Entry(Without(o, fields), key)
    {
      LookupWithout(n, fields, key);
      LookupWithout(o, fields, key);
      EntryNormal(o, key);
    }
    SameEntries(Without(n, fields), Without(o, fields));
  }

  lemma EntryNormal(o: Members, key: Bytes)
    requires Clean(Object(o))
    ensures Entry(Sort(NormalMembers(o)), key) == Entry(o, key)
  {
    LookupNormal(o, key);
    CleanLookup(o, key);
    if Lookup(o, key).Some? {
      NormalIsClean(Lookup(o, key).value);
      NormalOfInOrder(Normal(Lookup(o, key).value));
    }
  }

  /** Serializing the stripped object sees only the value up to member order. */
  lemma SerializedWithoutNormal(o: Members, fields: set<Bytes>)
    requires Clean(Object(o))
    ensures Serialized(Object(Without(Sort(NormalMembers(o)), fields))) == Serialized(Object(Without(o, fields)))
  {
    var n := Sort(NormalMembers(o));
    NormalIsClean(Object(o));
    CleanWithout(n, fields);
    CleanWithout(o, fields);
    NoErrorIffClean(Object(Without(n, fields)));
    NoErrorIffClean(Object(Without(o, fields)));
    NormalWithout(o, fields);
    CanonOfNormal(Object(Without(n, fields)));
    CanonOfNormal(Object(Without(o, fields)));
  }

  // ---- The laws of attaching -------------------------------------------------

  lemma AttachedIsClean(c: Crypto, event: Value, k: KeyId, signature: Bytes)
    requires Attached(c, event, k, signature).Output?
    ensures event.Object? && KeyIdValid(c, k) && SignatureValid(c, signature)
    ensures Clean(Object(Signed(event.members, k, signature)))
    ensures Decode(Attached(c, event, k, signature).text) == Some(Normal(Object(Signed(event.members, k, signature))))
  {
    var signed := Object(Signed(event.members, k, signature));
    NoErrorIffClean(signed);
    DecodeOfCanon(signed);
  }

  /**
   * The signed text, read back, passes the presence check for the new key,
   * carries exactly that signature for it, and carries for every other key
   * what the event carried.
   */
  lemma AttachKeepsOtherSignatures(c: Crypto, event: Value, k: KeyId, signature: Bytes, other: KeyId)
    requires Attached(c, event, k, signature).Output?
    ensures var back := Decode(Attached(c, event, k, signature).text);
            back.Some? && Present(c, back.value, k) && SignatureOf(back.value, k) == Some(signature) &&
            (other != k ==>
               SignatureOf(back.value, other) == SignatureOf(event, other) &&
               (Present(c, back.value, other) <==> Present(c, event, other)))
  {
    AttachedIsClean(c, event, k, signature);
    var signed := Object(Signed(event.members, k, signature));
    NormalSignatures(signed, k);
    NormalSignatures(signed, other);
    SignedSignatures(event.members, k, signature, k);
    SignedSignatures(event.members, k, signature, other);
  }

  /** Attaching changes neither what is signed nor the content hash. */
  lemma AttachKeepsPayload(c: Crypto, event: Value, k: KeyId, signature: Bytes)
    requires Attached(c, event, k, signature).Output?
    ensures var back := Decode(Attached(c, event, k, signature).text);
            back.Some? && SigningPayload(back.value) == SigningPayload(event) && SigningPayload(event).Output? &&
            ContentHash(c, back.value) == ContentHash(c, event) && ContentHash(c, event).Output?
  {
    AttachedIsClean(c, event, k, signature);
    var o := event.members;
    var signed := Signed(o, k, signature);
    StrippedAfterSigning(o, k, signature, {UNSIGNED, SIGNATURES});
    StrippedAfterSigning(o, k, signature, {UNSIGNED, SIGNATURES, HASHES});
  }

  lemma StrippedAfterSigning(o: Members, k: KeyId, signature: Bytes, fields: set<Bytes>)
    requires Clean(Object(Signed(o, k, signature))) && SIGNATURES in fields
    ensures var back := Sort(NormalMembers(Signed(o, k, signature)));
            Serialized(Object(Without(back, fields))) == Serialized(Object(Without(o, fields))) &&
            Serialized(Object(Without(o, fields))).Output?
  {
    var signed := Signed(o, k, signature);
    SignedWithout(o, k, signature, fields);
    SerializedWithoutNormal(signed, fields);
    CleanWithout(signed, fields);
    NoErrorIffClean(Object(Without(o, fields)));
  }

  // ---- Two keys, either order -------------------------------------------------

  ghost predicate Printable(k: KeyId, signature: Bytes) {
    StringOk(k.server) && StringOk(k.key) && StringOk(signature)
  }

  lemma CleanSigned(o: Members, k: KeyId, signature: Bytes)
    requires Clean(Object(o)) && Printable(k, signature)
    ensures Clean(Object(Signed(o, k, signature)))
  {
    var signatures := MembersOf(Lookup(o, SIGNATURES));
    CleanLookup(o, SIGNATURES);
    CleanPutSignature(signatures, k, signature);
    AddSignatures(o, PutSignature(signatures, k, signature));
  }

  lemma CleanPutSignature(signatures: Members, k: KeyId, signature: Bytes)
    requires Clean(Object(signatures)) && Printable(k, signature)
    ensures Clean(Object(PutSignature(signatures, k, signature)))
  {
    var server := MembersOf(Lookup(signatures, k.server));
    CleanLookup(signatures, k.server);
    CleanPut(server, k.key, Str(signature));
    CleanPut(signatures, k.server, Object(Put(server, k.key, Str(signature))));
  }

  lemma SignaturesIsText()
    ensures StringOk(SIGNATURES)
  {
    var cps: seq<Utf8.Scalar> := SIGNATURES;
    AsciiText(cps);
    Utf8.EncodingsAreAccepted(SIGNATURES, 0, cps);
  }

  lemma AddSignatures(o: Members, signatures: Members)
    requires Clean(Object(o)) && Clean(Object(signatures))
    ensures Clean(Object(Without(o, {SIGNATURES}) + [Member(SIGNATURES, Object(signatures))]))
  {
    var rest := Without(o, {SIGNATURES});
    var all := rest + [Member(SIGNATURES, Object(signatures))];
    CleanWithout(o, {SIGNATURES});
    CleanObject(rest);
    SignaturesIsText();
    forall m | m in all
      ensures MemberClean(m)
    {
      if m in rest {
      } else {
        assert m == Member(SIGNATURES, Object(signatures));
      }
    }
    forall i | 0 <= i < |rest|
      ensures rest[i].key != SIGNATURES
    {
      assert rest[i] in rest;
    }
    CleanObject(all);
  }

  lemma SignedEntryNormal(o: Members, k: KeyId, signature: Bytes, key: Bytes)
    requires Clean(Object(o))
    ensures Entry(Signed(Sort(NormalMembers(o)), k, signature), key) == Entry(Signed(o, k, signature), key)
  {
    var n := Sort(NormalMembers(o));
    SignedLookup(n, k, signature, key);
    SignedLookup(o, k, signature, key);
    if key == SIGNATURES {
      CleanLookup(o, SIGNATURES);
      LookupNormalMembers(o, SIGNATURES);
      PutSignatureNormal(MembersOf(Lookup(o, SIGNATURES)), k, signature);
    } else {
      EntryNormal(o, key);
    }
  }

  /** What the second signature finds in the text of the first is what it finds in the tree itself. */
  lemma SignedNormal(o: Members, k: KeyId, signature: Bytes)
    requires Clean(Object(o)) && Printable(k, signature)
    ensures Clean(Object(Signed(Sort(NormalMembers(o)), k, signature)))
    ensures Normal(Object(Signed(Sort(NormalMembers(o)), k, signature))) == Normal(Object(Signed(o, k, signature)))
  {
    var n := Sort(NormalMembers(o));
    NormalIsClean(Object(o));
    CleanSigned(n, k, signature);
    CleanSigned(o, k, signature);
    CleanObject(Signed(n, k, signature));
    CleanObject(Signed(o, k, signature));
    forall key
      ensures Entry(Signed(n, k, signature), key) == Entry(Signed(o, k, signature), key)
    {
      SignedEntryNormal(o, k, signature, key);
    }
    SameEntries(Signed(n, k, signature), Signed(o, k, signature));
  }

  lemma PutNormal(o: Members, key: Bytes, v: Value, w: Value)
    requires Clean(Object(o)) && Normal(v) == Normal(w)
    ensures Normal(Object(Put(Sort(NormalMembers(o)), key, v))) == Normal(Object(Put(o, key, w)))
  {
    var n := Sort(NormalMembers(o));
    NormalIsClean(Object(o));
    PutMembers(n, key, v);
    PutMembers(o, key, w);
    forall other
      ensures Entry(Put(n, key, v), other) == Entry(Put(o, key, w), other)
    {
      LookupPut(n, key, v, other);
      LookupPut(o, key, w, other);
      EntryNormal(o, other);
    }
    SameEntries(Put(n, key, v), Put(o, key, w));
  }

  lemma PutSignatureNormal(signatures: Members, k: KeyId, signature: Bytes)
    requires Clean(Object(signatures))
    ensures Normal(Object(PutSignature(Sort(NormalMembers(signatures)), k, signature))) ==
            Normal(Object(PutSignature(signatures, k, signature)))
  {
    var server := MembersOf(Lookup(signatures, k.server));
    CleanLookup(signatures, k.server);
    LookupNormalMembers(signatures, k.server);
    PutNormal(server, k.key, Str(signature), Str(signature));
    PutNormal(signatures, k.server, Object(Put(Sort(NormalMembers(server)), k.key, Str(signature))),
              Object(Put(server, k.key, Str(signature))));
  }

  /** Putting two different keys of one server in either order. */
  lemma PutTwo(o: Members, key1: Bytes, v1: Value, key2: Bytes, v2: Value)
    requires DistinctKeys(o) && key1 != key2
    ensures Normal(Object(Put(Put(o, key1, v1), key2, v2))) == Normal(Object(Put(Put(o, key2, v2), key1, v1)))
  {
    PutMembers(o, key1, v1);
    PutMembers(o, key2, v2);
    PutMembers(Put(o, key1, v1), key2, v2);
    PutMembers(Put(o, key2, v2), key1, v1);
    forall other
      ensures Entry(Put(Put(o, key1, v1), key2, v2), other) == Entry(Put(Put(o, key2, v2), key1, v1), other)
    {
      LookupPut(o, key1, v1, other);
      LookupPut(o, key2, v2, other);
      LookupPut(Put(o, key1, v1), key2, v2, other);
      LookupPut(Put(o, key2, v2), key1, v1, other);
    }
    SameEntries(Put(Put(o, key1, v1), key2, v2), Put(Put(o, key2, v2), key1, v1));
  }

  lemma PutSignatureLookup(signatures: Members, k: KeyId, signature: Bytes, server: Bytes)
    ensures Lookup(PutSignature(signatures, k, signature), server) ==
            if server == k.server
            then Some(Object(Put(MembersOf(Lookup(signatures, server)), k.key, Str(signature))))
            else Lookup(signatures, server)
  {
    LookupPut(signatures, k.server, Object(Put(MembersOf(Lookup(signatures, k.server)), k.key, Str(signature))), server);
  }

  lemma PutTwoSignatures(signatures: Members, k1: KeyId, s1: Bytes, k2: KeyId, s2: Bytes)
    requires k1 != k2 && DistinctKeys(signatures)
    requires k1.server == k2.server ==> DistinctKeys(MembersOf(Lookup(signatures, k1.server)))
    ensures Normal(Object(PutSignature(PutSignature(signatures, k1, s1), k2, s2))) ==
            Normal(Object(PutSignature(PutSignature(signatures, k2, s2), k1, s1)))
  {
    var a1, a2 := PutSignature(signatures, k1, s1), PutSignature(signatures, k2, s2);
    var a12, a21 := PutSignature(a1, k2, s2), PutSignature(a2, k1, s1);
    PutDistinct(signatures, k1, s1);
    PutDistinct(signatures, k2, s2);
    PutDistinct(a1, k2, s2);
    PutDistinct(a2, k1, s1);
    if k1.server == k2.server {
      PutTwo(MembersOf(Lookup(signatures, k1.server)), k1.key, Str(s1), k2.key, Str(s2));
    }
    forall server
      ensures Entry(a12, server) == Entry(a21, server)
    {
      PutSignatureLookup(signatures, k1, s1, server);
      PutSignatureLookup(signatures, k2, s2, server);
      PutSignatureLookup(a1, k2, s2, server);
      PutSignatureLookup(a2, k1, s1, server);
    }
    SameEntries(a12, a21);
  }

  lemma PutDistinct(signatures: Members, k: KeyId, signature: Bytes)
    ensures DistinctKeys(PutSignature(signatures, k, signature)) <==> DistinctKeys(signatures)
  {
    PutMembers(signatures, k.server, Object(Put(MembersOf(Lookup(signatures, k.server)), k.key, Str(signature))));
  }

  /** From one clean signed tree: the distinctness the other key needs. */
  lemma SignedParts(o: Members, k: KeyId, signature: Bytes)
    requires Clean(Object(Signed(o, k, signature)))
    ensures var signatures := MembersOf(Lookup(o, SIGNATURES));
            DistinctKeys(signatures) && DistinctKeys(MembersOf(Lookup(signatures, k.server))) &&
            Clean(Object(PutSignature(signatures, k, signature))) && Printable(k, signature)
  {
    var signatures := MembersOf(Lookup(o, SIGNATURES));
    var server := MembersOf(Lookup(signatures, k.server));
    SignedLookup(o, k, signature, SIGNATURES);
    CleanLookup(Signed(o, k, signature), SIGNATURES);
    var put := PutSignature(signatures, k, signature);
    PutDistinct(signatures, k, signature);
    PutSignatureLookup(signatures, k, signature, k.server);
    CleanLookup(put, k.server);
    var keys := Put(server, k.key, Str(signature));
    PutMembers(server, k.key, Str(signature));
    LookupPut(server, k.key, Str(signature), k.key);
    CleanLookup(keys, k.key);
  }

  lemma SignedTwice(o: Members, k1: KeyId, s1: Bytes, k2: KeyId, s2: Bytes)
    requires k1 != k2
    requires Clean(Object(Signed(o, k1, s1))) && Clean(Object(Signed(o, k2, s2)))
    ensures Normal(Object(Signed(Signed(o, k1, s1), k2, s2))) == Normal(Object(Signed(Signed(o, k2, s2), k1, s1)))
  {
    var signatures := MembersOf(Lookup(o, SIGNATURES));
    var o1, o2 := Signed(o, k1, s1), Signed(o, k2, s2);
    SignedParts(o, k1, s1);
    SignedParts(o, k2, s2);
    CleanSigned(o1, k2, s2);
    CleanSigned(o2, k1, s1);
    SignedLookup(o, k1, s1, SIGNATURES);
    SignedLookup(o, k2, s2, SIGNATURES);
    PutTwoSignatures(signatures, k1, s1, k2, s2);
    forall key
      ensures Entry(Signed(o1, k2, s2), key) == Entry(Signed(o2, k1, s1), key)
    {
      SignedLookup(o1, k2, s2, key);
      SignedLookup(o2, k1, s1, key);
      SignedLookup(o, k1, s1, key);
      SignedLookup(o, k2, s2, key);
    }
    SameEntries(Signed(o1, k2, s2), Signed(o2, k1, s1));
  }

  /** Attach one signature, read the text back, attach another. */
  ghost function AttachTwo(c: Crypto, event: Value, k1: KeyId, s1: Bytes, k2: KeyId, s2: Bytes): Option<Bytes> {
    match Attached(c, event, k1, s1)
    case Failed(_) => None
    case Output(text) =>
      if Decode(text).None? then None
      else
        match Attached(c, Decode(text).value, k2, s2)
        case Failed(_) => None
        case Output(both) => Some(both)
  }

  lemma AttachedToNormal(c: Crypto, o: Members, k: KeyId, signature: Bytes)
    requires Clean(Object(o)) && Printable(k, signature) && KeyIdValid(c, k) && SignatureValid(c, signature)
    ensures Clean(Object(Signed(o, k, signature)))
    ensures Attached(c, Normal(Object(o)), k, signature) == Output(Canon(Object(Signed(o, k, signature))))
  {
    var n := Sort(NormalMembers(o));
    hide Signed, Clean, Sort, NormalMembers;
    SignedNormal(o, k, signature);
    CleanSigned(o, k, signature);
    NoErrorIffClean(Object(Signed(n, k, signature)));
    CanonOfNormal(Object(Signed(n, k, signature)));
    CanonOfNormal(Object(Signed(o, k, signature)));
  }

  lemma AttachTwoIs(c: Crypto, event: Value, k1: KeyId, s1: Bytes, k2: KeyId, s2: Bytes)
    requires Attached(c, event, k1, s1).Output? && Printable(k2, s2) && KeyIdValid(c, k2) && SignatureValid(c, s2)
    ensures event.Object? && Clean(Object(Signed(Signed(event.members, k1, s1), k2, s2)))
    ensures AttachTwo(c, event, k1, s1, k2, s2) == Some(Canon(Object(Signed(Signed(event.members, k1, s1), k2, s2))))
  {
    AttachedIsClean(c, event, k1, s1);
    AttachedToNormal(c, Signed(event.members, k1, s1), k2, s2);
  }

  // ---- Exactly which events take a signature ------------------------------------

  /** Clean but for the value at one key, which is about to be replaced. */
  ghost predicate CleanBut(o: Members, key: Bytes) {
    DistinctKeys(o) && forall m :: m in o ==> StringOk(m.key) && (m.key != key ==> Clean(m.value))
  }

  /**
   * The event is clean but for what a signature by `k` replaces: everything
   * beside the signatures, the servers' names, the other servers' entries and,
   * if the server has an object of keys, its names and its other keys' values.
   */
  ghost predicate CleanApartFrom(o: Members, k: KeyId) {
    var signatures := MembersOf(Lookup(o, SIGNATURES));
    Clean(Object(Without(o, {SIGNATURES}))) && CleanBut(signatures, k.server) &&
    CleanBut(MembersOf(Lookup(signatures, k.server)), k.key)
  }

  /** A key and a signature that can go into an event at all. */
  ghost predicate Acceptable(c: Crypto, k: KeyId, signature: Bytes) {
    KeyIdValid(c, k) && SignatureValid(c, signature) && Printable(k, signature)
  }

  lemma {:induction false} PutReplaces(o: Members, key: Bytes, v: Value, m: Member<Value>)
    requires DistinctKeys(o)
    ensures m in Put(o, key, v) <==> m == Member(key, v) || (m in o && m.key != key)
  {
    if o != [] {
      assert o == [o[0]] + o[1..];
      KeysCons(o[0], o[1..]);
      if o[0].key == key {
        forall i | 0 <= i < |o[1..]|
          ensures o[1..][i].key != key
        {
          assert o[i + 1].key != o[0].key;
        }
      } else {
        PutReplaces(o[1..], key, v, m);
      }
    }
  }

  lemma CleanPutIff(o: Members, key: Bytes, v: Value)
    ensures Clean(Object(Put(o, key, v))) <==> CleanBut(o, key) && StringOk(key) && Clean(v)
  {
    var put := Put(o, key, v);
    PutMembers(o, key, v);
    CleanObject(put);
    if DistinctKeys(o) {
      forall m
        ensures m in put <==> m == Member(key, v) || (m in o && m.key != key)
      {
        PutReplaces(o, key, v, m);
      }
      if Clean(Object(put)) {
        assert MemberClean(Member(key, v));
        forall m | m in o
          ensures StringOk(m.key) && (m.key != key ==> Clean(m.value))
        {
          assert m.key != key ==> MemberClean(m);
        }
      }
    }
  }

  lemma CleanPutSignatureIff(signatures: Members, k: KeyId, signature: Bytes)
    ensures Clean(Object(PutSignature(signatures, k, signature))) <==>
            CleanBut(signatures, k.server) && CleanBut(MembersOf(Lookup(signatures, k.server)), k.key) &&
            Printable(k, signature)
  {
    var server := MembersOf(Lookup(signatures, k.server));
    CleanPutIff(server, k.key, Str(signature));
    CleanPutIff(signatures, k.server, Object(Put(server, k.key, Str(signature))));
  }

  lemma CleanSignedIff(o: Members, k: KeyId, signature: Bytes)
    ensures Clean(Object(Signed(o, k, signature))) <==> CleanApartFrom(o, k) && Printable(k, signature)
  {
    var rest := Without(o, {SIGNATURES});
    var put := PutSignature(MembersOf(Lookup(o, SIGNATURES)), k, signature);
    var all := Signed(o, k, signature);
    CleanPutSignatureIff(MembersOf(Lookup(o, SIGNATURES)), k, signature);
    if Clean(Object(all)) {
      CleanWithout(all, {SIGNATURES});
      SignedWithout(o, k, signature, {SIGNATURES});
      SignedLookup(o, k, signature, SIGNATURES);
      CleanLookup(all, SIGNATURES);
    }
    if Clean(Object(rest)) && Clean(Object(put)) {
      AddSignatures(rest, put);
      WithoutTwice(o, {SIGNATURES}, {SIGNATURES});
    }
  }

  /** A signature is attached exactly to objects that are clean apart from what it replaces. */
  lemma AttachedIff(c: Crypto, event: Value, k: KeyId, signature: Bytes)
    ensures Attached(c, event, k, signature).Output? <==>
            Acceptable(c, k, signature) && event.Object? && CleanApartFrom(event.members, k)
  {
    if event.Object? {
      CleanSignedIff(event.members, k, signature);
      NoErrorIffClean(Object(Signed(event.members, k, signature)));
    }
  }

  lemma AttachTwoIff(c: Crypto, event: Value, k1: KeyId, s1: Bytes, k2: KeyId, s2: Bytes)
    ensures AttachTwo(c, event, k1, s1, k2, s2).Some? <==>
            Acceptable(c, k1, s1) && Acceptable(c, k2, s2) && event.Object? && CleanApartFrom(event.members, k1)
  {
    hide CleanApartFrom;
    AttachedIff(c, event, k1, s1);
    if Attached(c, event, k1, s1).Output? {
      AttachedIsClean(c, event, k1, s1);
      AttachedIff(c, Decode(Attached(c, event, k1, s1).text).value, k2, s2);
      if Acceptable(c, k2, s2) {
        AttachTwoIs(c, event, k1, s1, k2, s2);
      }
    }
  }

  /**
   * Two signatures for different keys can be attached in either order with
   * the same outcome exactly when the event is clean apart from what the one
   * replaces whenever it is clean apart from what the other does. (An event
   * that is refused as it stands becomes acceptable when the offending entry
   * is the one that gets replaced.)
   */
  lemma AttachInEitherOrder(c: Crypto, event: Value, k1: KeyId, s1: Bytes, k2: KeyId, s2: Bytes)
    requires k1 != k2
    ensures AttachTwo(c, event, k1, s1, k2, s2) == AttachTwo(c, event, k2, s2, k1, s1) <==>
            (Acceptable(c, k1, s1) && Acceptable(c, k2, s2) && event.Object? ==>
               (CleanApartFrom(event.members, k1) <==> CleanApartFrom(event.members, k2)))
  {
    hide CleanApartFrom, AttachTwo;
    AttachTwoIff(c, event, k1, s1, k2, s2);
    AttachTwoIff(c, event, k2, s2, k1, s1);
    if AttachTwo(c, event, k1, s1, k2, s2).Some? && AttachTwo(c, event, k2, s2, k1, s1).Some? {
      AttachedIff(c, event, k1, s1);
      AttachedIff(c, event, k2, s2);
      AttachTwoIs(c, event, k1, s1, k2, s2);
      AttachTwoIs(c, event, k2, s2, k1, s1);
      AttachedIsClean(c, event, k1, s1);
      AttachedIsClean(c, event, k2, s2);
      SignedTwice(event.members, k1, s1, k2, s2);
      CanonOfNormal(Object(Signed(Signed(event.members, k1, s1), k2, s2)));
      CanonOfNormal(Object(Signed(Signed(event.members, k2, s2), k1, s1)));
    }
  }

  /** An entry that a signature by `k` replaces and one by `other` does not. */
  function Offending(k: KeyId, other: KeyId): Value {
    if k.server == other.server then Object([Member(k.key, Float(0))]) else Float(0)
  }

  lemma OffendingOnlyOther(k: KeyId, other: KeyId)
    requires k != other && StringOk(k.server) && StringOk(k.key)
    ensures var o := [Member(SIGNATURES, Object([Member(k.server, Offending(k, other))]))];
            CleanApartFrom(o, k) && !CleanApartFrom(o, other)
  {
    var signatures := [Member(k.server, Offending(k, other))];
    var o := [Member(SIGNATURES, Object(signatures))];
    assert Without(o, {SIGNATURES}) == [];
    assert Lookup(o, SIGNATURES) == Some(Object(signatures));
    assert signatures[0] in signatures;
    if k.server == other.server {
      var keys := [Member(k.key, Float(0))];
      assert keys[0] in keys && MembersOf(Lookup(signatures, k.server)) == keys;
    }
  }

  /** For any two acceptable keys there is an event where the order matters. */
  lemma OrderCanMatter(c: Crypto, k1: KeyId, s1: Bytes, k2: KeyId, s2: Bytes) returns (event: Value)
    requires k1 != k2 && Acceptable(c, k1, s1) && Acceptable(c, k2, s2)
    ensures AttachTwo(c, event, k1, s1, k2, s2).Some? && AttachTwo(c, event, k2, s2, k1, s1).None?
  {
    event := Object([Member(SIGNATURES, Object([Member(k1.server, Offending(k1, k2))]))]);
    OffendingOnlyOther(k1, k2);
    AttachTwoIff(c, event, k1, s1, k2, s2);
    AttachTwoIff(c, event, k2, s2, k1, s1);
  }

  lemma {:induction false} AsciiText(cps: seq<Utf8.Scalar>)
    requires forall i :: 0 <= i < |cps| ==> cps[i] < 0x80
    ensures Utf8.EncodeAll(cps) == cps
  {
    if cps != [] {
      AsciiText(cps[1..]);
      assert cps == [cps[0]] + cps[1..];
    }
  }

}
