/**
 * What is signed, hashed and written, said of the texts themselves: which
 * members of the event they hold and which they leave out (src/events/event_signer.cpp,
 * src/events/event_id.cpp; Matrix v1.19 Server-Server API, "Signing Events").
 */
module PayloadLaws {
  import opened Basics
  import opened MemberOrder
  import opened JsonValue
  import opened Serializer
  import opened CanonicalDecoder
  import opened Signing
  import opened SigningLaws

  lemma FieldNames()
    ensures SIGNATURES == Ascii("signatures") && UNSIGNED == Ascii("unsigned") && HASHES == Ascii("hashes")
  {
  }

  /** The member is one of the object's, with the value in its normal form, and not left out. */
  ghost predicate IsOneOf(m: Member<Value>, o: Members, left: set<Bytes>) {
    m.key !in left && exists i :: 0 <= i < |o| && m == Member(o[i].key, Normal(o[i].value))
  }

  /** The text is of an object that has, up to the order inside values, exactly the members with other keys. */
  ghost predicate HoldsAllBut(text: Bytes, o: Members, left: set<Bytes>) {
    Decode(text).Some? && Decode(text).value.Object? &&
    forall m :: m in Decode(text).value.members <==> IsOneOf(m, o, left)
  }

  /** Apart from the members left out, the object can be serialized. */
  ghost predicate CleanBesides(o: Members, left: set<Bytes>) {
    (forall i, j :: 0 <= i < j < |o| && o[i].key !in left && o[j].key !in left ==> o[i].key != o[j].key) &&
    forall i :: 0 <= i < |o| && o[i].key !in left ==> StringOk(o[i].key) && Clean(o[i].value)
  }

  /** The other members are the same ones. */
  ghost predicate SameBesides(a: Members, b: Members, left: set<Bytes>) {
    forall m: Member<Value> :: m.key !in left ==> (m in a <==> m in b)
  }

  // ---- Any set of members left out ---------------------------------------------------

  lemma {:induction false} DistinctWithout(o: Members, left: set<Bytes>)
    ensures DistinctKeys(Without(o, left)) <==>
            forall i, j :: 0 <= i < j < |o| && o[i].key !in left && o[j].key !in left ==> o[i].key != o[j].key
  {
    if o != [] {
      var rest := o[1..];
      DistinctWithout(rest, left);
      assert forall i :: 0 <= i < |rest| ==> rest[i] == o[i + 1];
      var kept := Without(rest, left);
      if o[0].key in left {
        assert Without(o, left) == kept;
        if forall i, j :: 0 <= i < j < |rest| && rest[i].key !in left && rest[j].key !in left ==> rest[i].key != rest[j].key {
          forall i, j | 0 <= i < j < |o| && o[i].key !in left && o[j].key !in left
            ensures o[i].key != o[j].key
          {
            assert rest[i - 1] == o[i] && rest[j - 1] == o[j];
          }
        }
      } else {
        assert Without(o, left) == [o[0]] + kept;
        KeysCons(o[0], kept);
        DistinctFirst(o, left);
      }
    }
  }

  lemma DistinctFirst(o: Members, left: set<Bytes>)
    requires o != [] && o[0].key !in left
    ensures (forall i, j :: 0 <= i < j < |o| && o[i].key !in left && o[j].key !in left ==> o[i].key != o[j].key) <==>
            (forall i, j :: 0 <= i < j < |o[1..]| && o[1..][i].key !in left && o[1..][j].key !in left ==>
               o[1..][i].key != o[1..][j].key) &&
            o[0].key !in Keys(Without(o[1..], left))
  {
    var rest := o[1..];
    var kept := Without(rest, left);
    assert forall i :: 0 <= i < |rest| ==> rest[i] == o[i + 1];
    assert o[0].key in Keys(kept) <==> exists m :: m in rest && m.key == o[0].key by {
      if i :| 0 <= i < |kept| && kept[i].key == o[0].key {
        assert kept[i] in kept;
      }
      if m :| m in rest && m.key == o[0].key {
        assert m in kept;
        var i :| 0 <= i < |kept| && kept[i] == m;
      }
    }
    if (forall i, j :: 0 <= i < j < |rest| && rest[i].key !in left && rest[j].key !in left ==> rest[i].key != rest[j].key) &&
       o[0].key !in Keys(kept)
    {
      forall i, j | 0 <= i < j < |o| && o[i].key !in left && o[j].key !in left
        ensures o[i].key != o[j].key
      {
        assert rest[j - 1] == o[j] && o[j] in rest;
        assert i > 0 ==> rest[i - 1] == o[i];
      }
    }
    if forall i, j :: 0 <= i < j < |o| && o[i].key !in left && o[j].key !in left ==> o[i].key != o[j].key {
      forall m | m in rest
        ensures m.key != o[0].key
      {
        var j :| 0 <= j < |rest| && rest[j] == m;
        assert o[j + 1] == m;
      }
    }
  }

  /** Stripping and serializing succeeds exactly when the rest can be serialized. */
  lemma StrippedSucceedsIff(o: Members, left: set<Bytes>)
    ensures Serialized(Object(Without(o, left))).Output? <==> CleanBesides(o, left)
  {
    var kept := Without(o, left);
    NoErrorIffClean(Object(kept));
    CleanObject(kept);
    DistinctWithout(o, left);
    hide Clean, FirstError, DistinctKeys;
    assert (forall m :: m in kept ==> MemberClean(m)) <==>
           (forall i :: 0 <= i < |o| && o[i].key !in left ==> StringOk(o[i].key) && Clean(o[i].value)) by {
      if forall m :: m in kept ==> MemberClean(m) {
        forall i | 0 <= i < |o| && o[i].key !in left
          ensures StringOk(o[i].key) && Clean(o[i].value)
        {
          assert o[i] in kept;
        }
      }
    }
  }

  lemma KeptIsOneOf(o: Members, left: set<Bytes>, m: Member<Value>)
    ensures IsOneOf(m, Without(o, left), {}) <==> IsOneOf(m, o, left)
  {
    var kept := Without(o, left);
    if k :| 0 <= k < |kept| && m == Member(kept[k].key, Normal(kept[k].value)) {
      assert kept[k] in kept;
      var i :| 0 <= i < |o| && o[i] == kept[k];
    }
    if i :| 0 <= i < |o| && o[i].key !in left && m == Member(o[i].key, Normal(o[i].value)) {
      assert o[i] in kept;
      var k :| 0 <= k < |kept| && kept[k] == o[i];
    }
  }

  lemma StrippedHolds(o: Members, left: set<Bytes>)
    requires Serialized(Object(Without(o, left))).Output?
    ensures HoldsAllBut(Serialized(Object(Without(o, left))).text, o, left)
  {
    var kept := Without(o, left);
    NoErrorIffClean(Object(kept));
    DecodeOfCanon(Object(kept));
    NormalObjectMembers(kept);
    var back := Sort(NormalMembers(kept));
    assert Normal(Object(kept)) == Object(back);
    hide Clean, FirstError, Canon, Decode, Sort, NormalMembers, Normal, Without;
    forall m
      ensures m in back <==> IsOneOf(m, o, left)
    {
      assert m in back <==> IsOneOf(m, kept, {});
      KeptIsOneOf(o, left, m);
    }
  }

  lemma StrippedAgree(a: Members, b: Members, left: set<Bytes>)
    requires SameBesides(a, b, left) && CleanBesides(a, left) && CleanBesides(b, left)
    ensures Serialized(Object(Without(a, left))) == Serialized(Object(Without(b, left)))
  {
    var x, y := Without(a, left), Without(b, left);
    StrippedSucceedsIff(a, left);
    StrippedSucceedsIff(b, left);
    NoErrorIffClean(Object(x));
    NoErrorIffClean(Object(y));
    CleanObject(x);
    CleanObject(y);
    forall key
      ensures Entry(x, key) == Entry(y, key)
    {
      LookupIsMember(x, key);
      LookupIsMember(y, key);
      if Lookup(x, key).Some? {
        assert Member(key, Lookup(x, key).value) in y;
        LookupUnique(y, Member(key, Lookup(x, key).value));
      }
      if Lookup(y, key).Some? {
        assert Member(key, Lookup(y, key).value) in x;
      }
    }
    SameEntries(x, y);
    CanonOfNormal(Object(x));
    CanonOfNormal(Object(y));
  }

  // ---- The payload, the content hash and the signed event ------------------------------

  /** What is signed: the event without "signatures" and "unsigned", and nothing else is left out. */
  lemma PayloadIs(event: Value)
    ensures SigningPayload(event).Output? <==>
            event.Object? && CleanBesides(event.members, {Ascii("signatures"), Ascii("unsigned")})
    ensures SigningPayload(event).Output? ==>
              HoldsAllBut(SigningPayload(event).text, event.members, {Ascii("signatures"), Ascii("unsigned")})
  {
    FieldNames();
    assert {UNSIGNED, SIGNATURES} == {Ascii("signatures"), Ascii("unsigned")};
    if event.Object? {
      StrippedSucceedsIff(event.members, {UNSIGNED, SIGNATURES});
      if SigningPayload(event).Output? {
        StrippedHolds(event.members, {UNSIGNED, SIGNATURES});
      }
    }
  }

  /** Events that differ in those two members only are signed alike. */
  lemma PayloadsAgree(a: Members, b: Members)
    requires SameBesides(a, b, {Ascii("signatures"), Ascii("unsigned")})
    requires SigningPayload(Object(a)).Output? && SigningPayload(Object(b)).Output?
    ensures SigningPayload(Object(a)) == SigningPayload(Object(b))
  {
    hide Serialized, CleanBesides, HoldsAllBut, SameBesides, Without;
    FieldNames();
    PayloadIs(Object(a));
    PayloadIs(Object(b));
    assert {UNSIGNED, SIGNATURES} == {Ascii("signatures"), Ascii("unsigned")};
    StrippedAgree(a, b, {UNSIGNED, SIGNATURES});
  }

  /** The text is the event without the three members that are not hashed. */
  ghost predicate IsHashed(event: Value, text: Bytes) {
    event.Object? && HoldsAllBut(text, event.members, {Ascii("signatures"), Ascii("unsigned"), Ascii("hashes")})
  }

  /** What is hashed, whatever the hash function: the event without those and without "hashes". */
  lemma ContentHashIs(c: Crypto, event: Value)
    ensures ContentHash(c, event).Output? <==>
            event.Object? && CleanBesides(event.members, {Ascii("signatures"), Ascii("unsigned"), Ascii("hashes")})
    ensures ContentHash(c, event).Output? ==>
              exists text :: IsHashed(event, text) && ContentHash(c, event).text == c.sha256Base64(text)
  {
    FieldNames();
    assert {UNSIGNED, SIGNATURES, HASHES} == {Ascii("signatures"), Ascii("unsigned"), Ascii("hashes")};
    if event.Object? {
      StrippedSucceedsIff(event.members, {UNSIGNED, SIGNATURES, HASHES});
      if ContentHash(c, event).Output? {
        StrippedHolds(event.members, {UNSIGNED, SIGNATURES, HASHES});
        assert IsHashed(event, Serialized(Object(Without(event.members, {UNSIGNED, SIGNATURES, HASHES}))).text);
      }
    }
  }

  lemma ContentHashesAgree(c: Crypto, a: Members, b: Members)
    requires SameBesides(a, b, {Ascii("signatures"), Ascii("unsigned"), Ascii("hashes")})
    requires ContentHash(c, Object(a)).Output? && ContentHash(c, Object(b)).Output?
    ensures ContentHash(c, Object(a)) == ContentHash(c, Object(b))
  {
    hide Serialized, CleanBesides, IsHashed, SameBesides, Without;
    FieldNames();
    ContentHashIs(c, Object(a));
    ContentHashIs(c, Object(b));
    assert {UNSIGNED, SIGNATURES, HASHES} == {Ascii("signatures"), Ascii("unsigned"), Ascii("hashes")};
    StrippedAgree(a, b, {UNSIGNED, SIGNATURES, HASHES});
  }

  // ---- The signed event and the presence check -------------------------------------------

  /** The object's first member with the key has the value. */
  ghost predicate Holds(o: Members, key: Bytes, v: Value) {
    exists i :: 0 <= i < |o| && o[i] == Member(key, v) && forall j :: 0 <= j < i ==> o[j].key != key
  }

  lemma {:induction false} LookupHolds(o: Members, key: Bytes, v: Value)
    ensures Lookup(o, key) == Some(v) <==> Holds(o, key, v)
  {
    if o != [] && o[0].key != key {
      var rest := o[1..];
      LookupHolds(rest, key, v);
      if i :| 0 <= i < |rest| && rest[i] == Member(key, v) && forall j :: 0 <= j < i ==> rest[j].key != key {
        assert o[i + 1] == Member(key, v);
        assert forall j :: 0 < j < i + 1 ==> o[j] == rest[j - 1];
      }
      if i :| 0 <= i < |o| && o[i] == Member(key, v) && forall j :: 0 <= j < i ==> o[j].key != key {
        assert rest[i - 1] == Member(key, v);
        assert forall j :: 0 <= j < i - 1 ==> rest[j] == o[j + 1];
      }
    } else if o != [] && o[0].value == v {
      assert o[0] == Member(key, v);
    }
  }

  /** The text stands in the event under "signatures", the server's name and the key's. */
  ghost predicate Carries(event: Value, k: KeyId, signature: Bytes) {
    event.Object? && exists servers, keys :: Placed(event.members, servers, keys, k, signature)
  }

  ghost predicate Placed(o: Members, servers: Members, keys: Members, k: KeyId, signature: Bytes) {
    Holds(o, Ascii("signatures"), Object(servers)) && Holds(servers, k.server, Object(keys)) &&
    Holds(keys, k.key, Str(signature))
  }

  ghost predicate Visible(s: Bytes) {
    s != [] && forall i :: 0 <= i < |s| ==> 0x20 < s[i] && s[i] != 0x7F
  }

  lemma SignatureOfIs(event: Value, k: KeyId, signature: Bytes)
    ensures SignatureOf(event, k) == Some(signature) <==> Carries(event, k, signature)
  {
    hide Holds;
    FieldNames();
    if SignatureOf(event, k) == Some(signature) {
      var servers := MembersOf(Lookup(event.members, SIGNATURES));
      var keys := MembersOf(Lookup(servers, k.server));
      LookupHolds(event.members, SIGNATURES, Object(servers));
      LookupHolds(servers, k.server, Object(keys));
      LookupHolds(keys, k.key, Str(signature));
      assert Placed(event.members, servers, keys, k, signature);
    }
    if Carries(event, k, signature) {
      var servers, keys :| Placed(event.members, servers, keys, k, signature);
      LookupHolds(event.members, SIGNATURES, Object(servers));
      LookupHolds(servers, k.server, Object(keys));
      LookupHolds(keys, k.key, Str(signature));
    }
  }

  /** The presence check passes exactly for a well-formed signature in that place under a valid key. */
  lemma PresentIff(c: Crypto, event: Value, k: KeyId)
    ensures Present(c, event, k) <==>
            Visible(k.server) && c.keyIdOk(k.key) &&
            exists signature :: Carries(event, k, signature) && Visible(signature) && |signature| <= 4096 &&
                                c.signatureShapeOk(signature)
  {
    hide Carries;
    if SignatureOf(event, k).Some? {
      SignatureOfIs(event, k, SignatureOf(event, k).value);
    }
    forall signature | Carries(event, k, signature)
      ensures SignatureOf(event, k) == Some(signature)
    {
      SignatureOfIs(event, k, signature);
    }
  }

  /** Which keys and signatures can be attached, and to which events. */
  lemma AttachSucceedsIff(c: Crypto, event: Value, k: KeyId, signature: Bytes)
    ensures Attached(c, event, k, signature).Output? <==>
            Visible(k.server) && c.keyIdOk(k.key) && Visible(signature) && |signature| <= 4096 &&
            c.signatureShapeOk(signature) && Printable(k, signature) && event.Object? &&
            CleanApartFrom(event.members, k)
  {
    hide CleanApartFrom, Printable;
    AttachedIff(c, event, k, signature);
  }

  /** The signed text has the members of the event other than "signatures", and no others. */
  lemma AttachKeepsOtherMembers(c: Crypto, o: Members, k: KeyId, signature: Bytes, m: Member<Value>)
    returns (back: Members)
    requires Attached(c, Object(o), k, signature).Output?
    ensures Decode(Attached(c, Object(o), k, signature).text) == Some(Object(back))
    ensures MemberKept(o, back, m)
  {
    hide Clean, Normal, Attached, Decode, Signed, IsOneOf;
    FieldNames();
    AttachedIsClean(c, Object(o), k, signature);
    var signed := Signed(o, k, signature);
    NormalIsOneOf(signed, m);
    back := Normal(Object(signed)).members;
    if m.key != SIGNATURES {
      KeptIsOneOf(signed, {SIGNATURES}, m);
      SignedWithout(o, k, signature, {SIGNATURES});
      KeptIsOneOf(o, {SIGNATURES}, m);
      NotLeftOut(signed, m);
    }
  }

  ghost predicate MemberKept(o: Members, back: Members, m: Member<Value>) {
    m.key != Ascii("signatures") ==> (m in back <==> IsOneOf(m, o, {Ascii("signatures")}))
  }

  lemma NotLeftOut(o: Members, m: Member<Value>)
    requires m.key != SIGNATURES
    ensures IsOneOf(m, o, {SIGNATURES}) <==> IsOneOf(m, o, {})
  {
  }

  lemma NormalIsOneOf(o: Members, m: Member<Value>)
    ensures Normal(Object(o)).Object?
    ensures m in Normal(Object(o)).members <==> IsOneOf(m, o, {})
  {
    NormalObjectMembers(o);
  }

  /**
   * Under "signatures" the signed text has what the event had, but for the one
   * entry: other servers' entries and the server's other keys are kept, whatever they are.
   */
  lemma AttachKeepsOtherEntries(c: Crypto, o: Members, k: KeyId, signature: Bytes, server: Bytes, key: Bytes)
    returns (back: Members)
    requires Attached(c, Object(o), k, signature).Output?
    ensures Decode(Attached(c, Object(o), k, signature).text) == Some(Object(back))
    ensures EntriesKept(o, back, k, signature, server, key)
  {
    hide Attached, Decode, Clean, Signed, Normal;
    FieldNames();
    AttachedIsClean(c, Object(o), k, signature);
    var signed := Signed(o, k, signature);
    var was := MembersOf(Lookup(o, SIGNATURES));
    var put := PutSignature(was, k, signature);
    var keys := MembersOf(Lookup(was, k.server));
    var put2 := Put(keys, k.key, Str(signature));
    SignedLookup(o, k, signature, SIGNATURES);
    PutSignatureLookup(was, k, signature, server);
    PutSignatureLookup(was, k, signature, k.server);
    LookupPut(keys, k.key, Str(signature), key);
    LookupPut(keys, k.key, Str(signature), k.key);
    EntriesReadBack(signed, put, put2, k.server, server, key);
    EntriesReadBack(signed, put, put2, k.server, server, k.key);
    back := Normal(Object(signed)).members;
    assert Entry(put2, k.key) == Some(Str(signature)) by {
      NormalOfString(signature);
    }
  }

  lemma NormalOfString(s: Bytes)
    ensures Normal(Str(s)) == Str(s)
  {
  }

  ghost predicate EntriesKept(o: Members, back: Members, k: KeyId, signature: Bytes, server: Bytes, key: Bytes) {
    var was, now := MembersOf(Lookup(o, Ascii("signatures"))), MembersOf(Lookup(back, Ascii("signatures")));
    (server != k.server ==> Lookup(now, server) == Entry(was, server)) &&
    (key != k.key ==>
       Lookup(MembersOf(Lookup(now, k.server)), key) == Entry(MembersOf(Lookup(was, k.server)), key)) &&
    Lookup(MembersOf(Lookup(now, k.server)), k.key) == Some(Str(signature))
  }

  lemma EntriesReadBack(o: Members, servers: Members, keys: Members, at: Bytes, server: Bytes, key: Bytes)
    requires Clean(Object(o)) && Lookup(o, SIGNATURES) == Some(Object(servers))
    requires Lookup(servers, at) == Some(Object(keys))
    ensures Normal(Object(o)).Object?
    ensures var now := MembersOf(Lookup(Normal(Object(o)).members, SIGNATURES));
            Lookup(now, server) == Entry(servers, server) &&
            Lookup(MembersOf(Lookup(now, at)), key) == Entry(keys, key)
  {
    LookupNormalMembers(o, SIGNATURES);
    CleanLookup(o, SIGNATURES);
    LookupNormalMembers(servers, server);
    LookupNormalMembers(servers, at);
    CleanLookup(servers, at);
    LookupNormalMembers(keys, key);
  }
}
