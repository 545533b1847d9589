/**
 * Signing of events: src/events/event_signer.cpp, src/events/event_id.cpp and
 * src/canonicaljson/signable.cpp (Matrix v1.19 Appendices, "Signing JSON").
 * Base64, Ed25519 and SHA-256 are foreign; `Crypto` holds what they answer.
 * Every member is taken to own a value: this code copies members by
 * dereferencing their pointers without a check, which a `NoValue` member does
 * not survive.
 */
module Signing {
  import opened Basics
  import opened MemberOrder
  import opened JsonValue
  import opened Serializer
  import CanonicalDecoder

  type Members = seq<Member<Value>>

  const SIGNATURES: Bytes := [0x73, 0x69, 0x67, 0x6E, 0x61, 0x74, 0x75, 0x72, 0x65, 0x73]
  const UNSIGNED: Bytes := [0x75, 0x6E, 0x73, 0x69, 0x67, 0x6E, 0x65, 0x64]
  const HASHES: Bytes := [0x68, 0x61, 0x73, 0x68, 0x65, 0x73]

  datatype Crypto = Crypto(keyIdOk: Bytes -> bool, signatureShapeOk: Bytes -> bool, sha256Base64: Bytes -> Bytes)

  datatype KeyId = KeyId(server: Bytes, key: Bytes)

  predicate NoControlOrSpace(s: Bytes) {
    forall i :: 0 <= i < |s| ==> s[i] > 0x20 && s[i] != 0x7F
  }

  predicate KeyIdValid(c: Crypto, k: KeyId) {
    k.server != [] && NoControlOrSpace(k.server) && c.keyIdOk(k.key)
  }

  predicate SignatureValid(c: Crypto, signature: Bytes) {
    signature != [] && |signature| <= 4096 && NoControlOrSpace(signature) && c.signatureShapeOk(signature)
  }

  // ---- Objects as dictionaries ---------------------------------------------

  /** The value of the first member with the key. */
  function Lookup(o: Members, key: Bytes): Option<Value> {
    if o == [] then None else if o[0].key == key then Some(o[0].value) else Lookup(o[1..], key)
  }

  /** The object with the first member of that key replaced, or a member added at the end. */
  function Put(o: Members, key: Bytes, v: Value): Members {
    if o == [] then [Member(key, v)]
    else if o[0].key == key then [Member(key, v)] + o[1..]
    else [o[0]] + Put(o[1..], key, v)
  }

  function KeyNotIn(fields: set<Bytes>): Member<Value> -> bool {
    (m: Member<Value>) => m.key !in fields
  }

  function Without(o: Members, fields: set<Bytes>): Members {
    Filter(o, KeyNotIn(fields))
  }

  /** The members of an object value; nothing for any other value. */
  function MembersOf(v: Option<Value>): Members {
    if v.Some? && v.value.Object? then v.value.members else []
  }

  // ---- What attaching does to the tree -------------------------------------

  function PutSignature(signatures: Members, k: KeyId, signature: Bytes): Members {
    Put(signatures, k.server, Object(Put(MembersOf(Lookup(signatures, k.server)), k.key, Str(signature))))
  }

  function Signed(o: Members, k: KeyId, signature: Bytes): Members {
    Without(o, {SIGNATURES}) +
    [Member(SIGNATURES, Object(PutSignature(MembersOf(Lookup(o, SIGNATURES)), k, signature)))]
  }

  ghost function Attached(c: Crypto, event: Value, k: KeyId, signature: Bytes): Result {
    if !KeyIdValid(c, k) || !SignatureValid(c, signature) || !event.Object? then Failed(InvalidString)
    else Serialized(Object(Signed(event.members, k, signature)))
  }

  /** The first member with the key is the one looked up and the one replaced. */
  lemma {:induction false} PutAt(o: Members, key: Bytes, v: Value, i: nat)
    requires i < |o| && o[i].key == key && forall j :: 0 <= j < i ==> o[j].key != key
    ensures Put(o, key, v) == o[i := Member(key, v)] && Lookup(o, key) == Some(o[i].value)
  {
    if i > 0 {
      PutAt(o[1..], key, v, i - 1);
    }
  }

  lemma {:induction false} PutAtEnd(o: Members, key: Bytes, v: Value)
    requires forall j :: 0 <= j < |o| ==> o[j].key != key
    ensures Put(o, key, v) == o + [Member(key, v)] && Lookup(o, key) == None
  {
    if o != [] {
      PutAtEnd(o[1..], key, v);
    }
  }

  method UpsertServerSignature(serverSignatures: Members, k: KeyId, signature: Bytes) returns (r: Members)
    ensures r == Put(serverSignatures, k.key, Str(signature))
  {
    r := serverSignatures;
    for i := 0 to |r|
      invariant r == serverSignatures
      invariant forall j :: 0 <= j < i ==> r[j].key != k.key
    {
      if r[i].key == k.key {
        PutAt(r, k.key, Str(signature), i);
        r := r[i := Member(k.key, Str(signature))];
        return;
      }
    }
    PutAtEnd(r, k.key, Str(signature));
    r := r + [Member(k.key, Str(signature))];
  }

  method UpsertSignature(signatures: Members, k: KeyId, signature: Bytes) returns (r: Members)
    ensures r == PutSignature(signatures, k, signature)
  {
    r := signatures;
    ghost var v := Object(Put(MembersOf(Lookup(r, k.server)), k.key, Str(signature)));
    for i := 0 to |r|
      invariant r == signatures
      invariant forall j :: 0 <= j < i ==> r[j].key != k.server
    {
      if r[i].key == k.server {
        PutAt(r, k.server, v, i);
        var existing := if r[i].value.Object? then r[i].value.members else [];
        var serverSignatures := UpsertServerSignature(existing, k, signature);
        r := r[i := Member(k.server, Object(serverSignatures))];
        return;
      }
    }
    PutAtEnd(r, k.server, v);
    r := r + [Member(k.server, Object([Member(k.key, Str(signature))]))];
  }

  method CloneWithout(o: Members, fields: set<Bytes>) returns (stripped: Members)
    ensures stripped == Without(o, fields)
  {
    ghost var keep := KeyNotIn(fields);
    stripped := [];
    for i := 0 to |o|
      invariant stripped == Filter(o[..i], keep)
    {
      hide Filter;
      FilterNext(o, i, keep);
      if o[i].key !in fields {
        stripped := stripped + [o[i]];
      }
    }
    assert o[..|o|] == o;
  }

  method FindMember(o: Members, key: Bytes) returns (r: Option<Value>)
    ensures r == Lookup(o, key)
  {
    for i := 0 to |o|
      invariant Lookup(o, key) == Lookup(o[i..], key)
    {
      assert o[i..][0] == o[i] && o[i..][1..] == o[i + 1..];
      if o[i].key == key {
        return Some(o[i].value);
      }
    }
    return None;
  }

  method AttachEventSignature(c: Crypto, event: Value, k: KeyId, signature: Bytes) returns (r: Result)
    ensures r == Attached(c, event, k, signature)
  {
    if !KeyIdValid(c, k) || !SignatureValid(c, signature) {
      return Failed(InvalidString);
    }
    if !event.Object? {
      return Failed(InvalidString);
    }
    var signaturesValue := FindMember(event.members, SIGNATURES);
    var signedObject := CloneWithout(event.members, {SIGNATURES});
    var signatures := UpsertSignature(MembersOf(signaturesValue), k, signature);
    signedObject := signedObject + [Member(SIGNATURES, Object(signatures))];
    r := SerializeValue(Object(signedObject));
  }

  // ---- Presence ------------------------------------------------------------

  /** The signature text an event carries for a key, if it is in the expected place. */
  function SignatureOf(event: Value, k: KeyId): Option<Bytes> {
    if !event.Object? then None
    else
      var signatures := MembersOf(Lookup(event.members, SIGNATURES));
      var server := MembersOf(Lookup(signatures, k.server));
      var found := Lookup(server, k.key);
      if found.Some? && found.value.Str? then Some(found.value.s) else None
  }

  predicate Present(c: Crypto, event: Value, k: KeyId) {
    KeyIdValid(c, k) && SignatureOf(event, k).Some? && SignatureValid(c, SignatureOf(event, k).value)
  }

  method VerifyEventSignaturePresence(c: Crypto, event: Value, k: KeyId) returns (valid: bool)
    ensures valid == Present(c, event, k)
  {
    if !KeyIdValid(c, k) {
      return false;
    }
    if !event.Object? {
      return false;
    }
    var signaturesValue := FindMember(event.members, SIGNATURES);
    if signaturesValue.None? || !signaturesValue.value.Object? {
      return false;
    }
    var serverValue := FindMember(signaturesValue.value.members, k.server);
    if serverValue.None? || !serverValue.value.Object? {
      return false;
    }
    var signatureValue := FindMember(serverValue.value.members, k.key);
    if signatureValue.None? {
      return false;
    }
    if !signatureValue.value.Str? || !SignatureValid(c, signatureValue.value.s) {
      return false;
    }
    return true;
  }

  // ---- Payloads ------------------------------------------------------------

  ghost function SigningPayload(event: Value): Result {
    if event.Object? then Serialized(Object(Without(event.members, {UNSIGNED, SIGNATURES}))) else Failed(InvalidString)
  }

  ghost function ContentHash(c: Crypto, event: Value): Result {
    if !event.Object? then Failed(InvalidString)
    else
      match Serialized(Object(Without(event.members, {UNSIGNED, SIGNATURES, HASHES})))
      case Failed(e) => Failed(e)
      case Output(text) => Output(c.sha256Base64(text))
  }

  method MakeEventSigningPayload(event: Value) returns (r: Result)
    ensures r == SigningPayload(event)
  {
    if !event.Object? {
      return Failed(InvalidString);
    }
    var stripped := CloneWithout(event.members, {UNSIGNED, SIGNATURES});
    r := SerializeValue(Object(stripped));
  }

  method MakeContentHash(c: Crypto, event: Value) returns (r: Result)
    ensures r == ContentHash(c, event)
  {
    if !event.Object? {
      return Failed(InvalidString);
    }
    var stripped := CloneWithout(event.members, {UNSIGNED, SIGNATURES, HASHES});
    var serialized := SerializeValue(Object(stripped));
    match serialized
    case Failed(e) => return Failed(e);
    case Output(text) => return Output(c.sha256Base64(text));
  }

  /** The signable view of canonical JSON and the policy-free payload agree on every object. */
  method MakeSignableObjectView(v: Value) returns (r: Result)
    ensures v.Object? ==> r == SigningPayload(v)
    ensures !v.Object? ==> r == Serialized(v)
  {
    if v.Object? {
      var erased := (m: Member<Value>) => m.key == SIGNATURES || m.key == UNSIGNED;
      var kept := (m: Member<Value>) => !erased(m);
      var stripped := Filter(v.members, kept);
      FilterSame(v.members, kept, KeyNotIn({UNSIGNED, SIGNATURES}));
      r := SerializeValue(Object(stripped));
      return;
    }
    r := SerializeValue(v);
  }
}
