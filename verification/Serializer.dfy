/**
 * The strict canonical serializer used for everything that is signed or
 * hashed (src/canonicaljson/serializer.cpp; Matrix v1.19 Appendices,
 * "Canonical JSON"; string escapes of section 7 of RFC 8259).
 */
module Serializer {
  import opened Basics
  import opened MemberOrder
  import opened JsonValue
  import Decimal
  import Utf8

  datatype Error = DuplicateObjectKey | InvalidString | FloatNotAllowed

  datatype Result = Output(text: Bytes) | Failed(error: Error)

  const QUOTE: Byte := 0x22
  const BACKSLASH: Byte := 0x5C
  const COMMA: Byte := 0x2C
  const COLON: Byte := 0x3A
  const OPEN_BRACKET: Byte := 0x5B
  const CLOSE_BRACKET: Byte := 0x5D
  const OPEN_BRACE: Byte := 0x7B
  const CLOSE_BRACE: Byte := 0x7D
  const NULL_TEXT: Bytes := [0x6E, 0x75, 0x6C, 0x6C]
  const TRUE_TEXT: Bytes := [0x74, 0x72, 0x75, 0x65]
  const FALSE_TEXT: Bytes := [0x66, 0x61, 0x6C, 0x73, 0x65]

  /** The bytes of the grammar are the characters of section 2 and 3 of RFC 8259. */
  lemma GrammarCharacters()
    ensures QUOTE == '"' as int && BACKSLASH == '\\' as int && COMMA == ',' as int && COLON == ':' as int
    ensures OPEN_BRACKET == '[' as int && CLOSE_BRACKET == ']' as int && OPEN_BRACE == '{' as int && CLOSE_BRACE == '}' as int
    ensures NULL_TEXT == Ascii("null") && TRUE_TEXT == Ascii("true") && FALSE_TEXT == Ascii("false")
    ensures Decimal.MINUS == '-' as int && Decimal.ZERO == '0' as int
  {
  }

  // ---- Strings -------------------------------------------------------------

  function HexDigit(v: nat): Byte
    requires v < 16
  {
    if v < 10 then 0x30 + v else 0x57 + v
  }

  /** The letter of a two-character escape, if the byte has one. */
  function ShortEscape(c: Byte): Option<Byte> {
    if c == QUOTE then Some(QUOTE)
    else if c == BACKSLASH then Some(BACKSLASH)
    else if c == 0x08 then Some(0x62)
    else if c == 0x0C then Some(0x66)
    else if c == 0x0A then Some(0x6E)
    else if c == 0x0D then Some(0x72)
    else if c == 0x09 then Some(0x74)
    else None
  }

  /** The text of one byte of a string. */
  function Escape(c: Byte): (e: Bytes)
    ensures e != []
  {
    if ShortEscape(c).Some? then [BACKSLASH, ShortEscape(c).value]
    else if c < 0x20 then [BACKSLASH, 0x75, 0x30, 0x30, HexDigit(c / 16), HexDigit(c % 16)]
    else [c]
  }

  function EscapeAll(s: Bytes): Bytes {
    if s == [] then [] else Escape(s[0]) + EscapeAll(s[1..])
  }

  function Quote(s: Bytes): Bytes {
    [QUOTE] + EscapeAll(s) + [QUOTE]
  }

  lemma {:induction false} EscapeAllAppend(s: Bytes, c: Byte)
    ensures EscapeAll(s + [c]) == EscapeAll(s) + Escape(c)
  {
    if s == [] {
      assert EscapeAll([c]) == Escape(c) + EscapeAll([]);
    } else {
      assert (s + [c])[1..] == s[1..] + [c];
      EscapeAllAppend(s[1..], c);
    }
  }

  method AppendEscapedCharacter(output: Bytes, character: Byte) returns (r: Bytes)
    ensures r == output + Escape(character)
  {
    match character
    case 0x22 => r := output + [BACKSLASH, 0x22];
    case 0x5C => r := output + [BACKSLASH, 0x5C];
    case 0x08 => r := output + [BACKSLASH, 0x62];
    case 0x0C => r := output + [BACKSLASH, 0x66];
    case 0x0A => r := output + [BACKSLASH, 0x6E];
    case 0x0D => r := output + [BACKSLASH, 0x72];
    case 0x09 => r := output + [BACKSLASH, 0x74];
    case _ =>
      if character < 0x20 {
        r := output + [BACKSLASH, 0x75, 0x30, 0x30, HexDigit(character / 16), HexDigit(character % 16)];
      } else {
        r := output + [character];
      }
  }

  method AppendEscapedString(output: Bytes, value: Bytes) returns (r: Bytes)
    ensures r == output + Quote(value)
  {
    r := output + [QUOTE];
    for k := 0 to |value|
      invariant r == output + ([QUOTE] + EscapeAll(value[..k]))
    {
      assert value[..k + 1] == value[..k] + [value[k]];
      EscapeAllAppend(value[..k], value[k]);
      r := AppendEscapedCharacter(r, value[k]);
    }
    assert value[..|value|] == value;
    r := r + [QUOTE];
  }

  // ---- The text of a value -------------------------------------------------

  /** Pieces separated by commas; `More` is what follows the first piece. */
  function Join(pieces: seq<Bytes>): Bytes {
    if pieces == [] then [] else pieces[0] + More(pieces[1..])
  }

  function More(pieces: seq<Bytes>): Bytes {
    if pieces == [] then [] else [COMMA] + pieces[0] + More(pieces[1..])
  }

  function MemberText(m: Member<Bytes>): Bytes {
    Quote(m.key) + [COLON] + m.value
  }

  function MemberTexts(members: seq<Member<Bytes>>): (r: seq<Bytes>)
    ensures |r| == |members|
    ensures forall i :: 0 <= i < |members| ==> r[i] == MemberText(members[i])
  {
    if members == [] then [] else [MemberText(members[0])] + MemberTexts(members[1..])
  }

  /** The bytes of a clean tree: members serialized, then ordered by key, at every level. */
  function Canon(v: Value): Bytes {
    match v
    case Null => NULL_TEXT
    case Bool(b) => if b then TRUE_TEXT else FALSE_TEXT
    case Int(i) => Decimal.Print(i)
    case Str(s) => Quote(s)
    case Array(items) => [OPEN_BRACKET] + Join(CanonItems(items)) + [CLOSE_BRACKET]
    case Object(members) => [OPEN_BRACE] + Join(MemberTexts(Sort(CanonMembers(members)))) + [CLOSE_BRACE]
    case _ => []
  }

  function CanonItems(items: seq<Value>): (r: seq<Bytes>)
    ensures |r| == |items|
    ensures forall i :: 0 <= i < |items| ==> r[i] == Canon(items[i])
  {
    if items == [] then [] else [Canon(items[0])] + CanonItems(items[1..])
  }

  function CanonMembers(members: seq<Member<Value>>): (r: seq<Member<Bytes>>)
    ensures |r| == |members|
    ensures forall i :: 0 <= i < |members| ==> r[i] == Member(members[i].key, Canon(members[i].value))
  {
    if members == [] then []
    else [Member(members[0].key, Canon(members[0].value))] + CanonMembers(members[1..])
  }

  // ---- The error a tree is refused with ------------------------------------

  /** The first failure met: repeated keys of an object before anything inside it, then in order. */
  ghost function FirstError(v: Value): Option<Error> {
    match v
    case NoValue => Some(InvalidString)
    case Float(_) => Some(FloatNotAllowed)
    case Str(s) => if StringOk(s) then None else Some(InvalidString)
    case Array(items) => ItemsError(items)
    case Object(members) => if DistinctKeys(members) then MembersError(members) else Some(DuplicateObjectKey)
    case _ => None
  }

  ghost function ItemsError(items: seq<Value>): Option<Error> {
    if items == [] then None
    else if FirstError(items[0]).Some? then FirstError(items[0])
    else ItemsError(items[1..])
  }

  ghost function MembersError(members: seq<Member<Value>>): Option<Error> {
    if members == [] then None
    else if !StringOk(members[0].key) then Some(InvalidString)
    else if FirstError(members[0].value).Some? then FirstError(members[0].value)
    else MembersError(members[1..])
  }

  lemma {:induction false} NoErrorIffClean(v: Value)
    ensures FirstError(v).None? <==> Clean(v)
    decreases v, 1
  {
    match v
    case Array(items) =>
      NoItemsErrorIffClean(items);
    case Object(members) =>
      NoMembersErrorIffClean(members);
    case _ =>
  }

  lemma {:induction false} NoItemsErrorIffClean(items: seq<Value>)
    ensures ItemsError(items).None? <==> forall i :: 0 <= i < |items| ==> Clean(items[i])
    decreases items, 0
  {
    if items != [] {
      NoErrorIffClean(items[0]);
      NoItemsErrorIffClean(items[1..]);
      assert forall i :: 1 <= i < |items| ==> items[i] == items[1..][i - 1];
    }
  }

  lemma {:induction false} NoMembersErrorIffClean(members: seq<Member<Value>>)
    ensures MembersError(members).None? <==>
            forall i :: 0 <= i < |members| ==> StringOk(members[i].key) && Clean(members[i].value)
    decreases members, 0
  {
    if members != [] {
      NoErrorIffClean(members[0].value);
      NoMembersErrorIffClean(members[1..]);
      assert forall i :: 1 <= i < |members| ==> members[i] == members[1..][i - 1];
    }
  }

  /** Everything wrong with a tree, in document order; an object's repeated key comes before what is inside it. */
  ghost function Faults(v: Value): seq<Error> {
    match v
    case NoValue => [InvalidString]
    case Float(_) => [FloatNotAllowed]
    case Str(s) => TextFaults(s)
    case Array(items) => ItemFaults(items)
    case Object(members) => KeyFaults(members) + MemberFaults(members)
    case _ => []
  }

  ghost function TextFaults(s: Bytes): seq<Error> {
    if Utf8.IsText(s) then [] else [InvalidString]
  }

  ghost function KeyFaults(members: seq<Member<Value>>): seq<Error> {
    if exists i, j :: 0 <= i < j < |members| && members[i].key == members[j].key then [DuplicateObjectKey] else []
  }

  ghost function ItemFaults(items: seq<Value>): seq<Error> {
    if items == [] then [] else Faults(items[0]) + ItemFaults(items[1..])
  }

  ghost function MemberFaults(members: seq<Member<Value>>): seq<Error> {
    if members == [] then []
    else TextFaults(members[0].key) + Faults(members[0].value) + MemberFaults(members[1..])
  }

  ghost function First(faults: seq<Error>): Option<Error> {
    if faults == [] then None else Some(faults[0])
  }

  lemma TextFaultsAre(s: Bytes)
    ensures TextFaults(s) == if StringOk(s) then [] else [InvalidString]
  {
    Utf8.AcceptedIffReading(s);
  }

  /** The error a tree is refused with is the first thing wrong with it. */
  lemma {:induction false} FirstErrorIsFirstFault(v: Value)
    ensures FirstError(v) == First(Faults(v))
    decreases v, 1
  {
    match v
    case Str(s) => TextFaultsAre(s);
    case Array(items) => FirstItemFault(items);
    case Object(members) => FirstMemberFault(members);
    case _ =>
  }

  lemma {:induction false} FirstItemFault(items: seq<Value>)
    ensures ItemsError(items) == First(ItemFaults(items))
    decreases items, 0
  {
    if items != [] {
      FirstErrorIsFirstFault(items[0]);
      FirstItemFault(items[1..]);
    }
  }

  lemma {:induction false} FirstMemberFault(members: seq<Member<Value>>)
    ensures MembersError(members) == First(MemberFaults(members))
    decreases members, 0
  {
    if members != [] {
      TextFaultsAre(members[0].key);
      FirstErrorIsFirstFault(members[0].value);
      FirstMemberFault(members[1..]);
    }
  }

  // ---- The serializer ------------------------------------------------------

  ghost function Serialized(v: Value): Result {
    if FirstError(v).Some? then Failed(FirstError(v).value) else Output(Canon(v))
  }

  method ObjectHasDuplicateKeys(members: seq<Member<Value>>) returns (dup: bool)
    ensures dup <==> !DistinctKeys(members)
  {
    var seenKeys: set<Bytes> := {};
    for k := 0 to |members|
      invariant forall i :: 0 <= i < k ==> members[i].key in seenKeys
      invariant forall key :: key in seenKeys ==> exists i :: 0 <= i < k && members[i].key == key
      invariant forall i, j :: 0 <= i < j < k ==> members[i].key != members[j].key
    {
      if members[k].key in seenKeys {
        return true;
      }
      seenKeys := seenKeys + {members[k].key};
    }
    return false;
  }

  lemma ErrorOfSuffix(items: seq<Value>, k: nat)
    requires k < |items|
    ensures ItemsError(items[k..]) ==
            if FirstError(items[k]).Some? then FirstError(items[k]) else ItemsError(items[k + 1..])
  {
    assert items[k..][0] == items[k] && items[k..][1..] == items[k + 1..];
  }

  lemma MembersErrorOfSuffix(members: seq<Member<Value>>, k: nat)
    requires k < |members|
    ensures MembersError(members[k..]) ==
            if !StringOk(members[k].key) then Some(InvalidString)
            else if FirstError(members[k].value).Some? then FirstError(members[k].value)
            else MembersError(members[k + 1..])
  {
    assert members[k..][0] == members[k] && members[k..][1..] == members[k + 1..];
  }

  /** What one turn of a joining loop adds: a comma unless it is the first turn, and piece `k`. */
  lemma JoinStep(head: Bytes, pieces: seq<Bytes>, k: nat, before: Bytes, after: Bytes)
    requires k < |pieces|
    requires k == 0 ==> before == head && after == before + pieces[0]
    requires k > 0 ==> before + More(pieces[k..]) == head + Join(pieces) && after == before + [COMMA] + pieces[k]
    ensures after + More(pieces[k + 1..]) == head + Join(pieces)
  {
    var more := More(pieces[k + 1..]);
    assert pieces[k..][0] == pieces[k] && pieces[k..][1..] == pieces[k + 1..];
    if k > 0 {
      assert after + more == before + ([COMMA] + pieces[k] + more);
    } else {
      assert after + more == head + (pieces[0] + more);
    }
  }

  method SerializeArray(items: seq<Value>) returns (r: Result)
    ensures r == Serialized(Array(items))
    decreases items, 0
  {
    ghost var texts := CanonItems(items);
    assert items[0..] == items;
    var output: Bytes := [OPEN_BRACKET];
    var first := true;
    for k := 0 to |items|
      invariant ItemsError(items) == ItemsError(items[k..])
      invariant first <==> k == 0
      invariant k == 0 ==> output == [OPEN_BRACKET]
      invariant k > 0 ==> output + More(texts[k..]) == [OPEN_BRACKET] + Join(texts)
    {
      ErrorOfSuffix(items, k);
      var item := SerializeValue(items[k]);
      if item.Failed? {
        return item;
      }
      ghost var before := output;
      if !first {
        output := output + [COMMA];
      }
      first := false;
      output := output + item.text;
      JoinStep([OPEN_BRACKET], texts, k, before, output);
    }
    assert texts[|items|..] == [];
    output := output + [CLOSE_BRACKET];
    return Output(output);
  }

  method AppendMember(output: Bytes, member: Member<Bytes>) returns (r: Bytes)
    ensures r == output + MemberText(member)
  {
    r := AppendEscapedString(output, member.key);
    r := r + [COLON];
    r := r + member.value;
  }

  method JoinMembers(members: seq<Member<Bytes>>) returns (output: Bytes)
    ensures output == [OPEN_BRACE] + Join(MemberTexts(members)) + [CLOSE_BRACE]
  {
    ghost var texts := MemberTexts(members);
    output := [OPEN_BRACE];
    var first := true;
    for k := 0 to |members|
      invariant first <==> k == 0
      invariant k == 0 ==> output == [OPEN_BRACE]
      invariant k > 0 ==> output + More(texts[k..]) == [OPEN_BRACE] + Join(texts)
    {
      ghost var before := output;
      if !first {
        output := output + [COMMA];
      }
      first := false;
      output := AppendMember(output, members[k]);
      JoinStep([OPEN_BRACE], texts, k, before, output);
    }
    assert texts[|members|..] == [];
    output := output + [CLOSE_BRACE];
  }

  method SerializeObject(source: seq<Member<Value>>) returns (r: Result)
    ensures r == Serialized(Object(source))
    decreases source, 0
  {
    var duplicate := ObjectHasDuplicateKeys(source);
    if duplicate {
      return Failed(DuplicateObjectKey);
    }
    assert source[0..] == source;
    var members: seq<Member<Bytes>> := [];
    for k := 0 to |source|
      invariant MembersError(source) == MembersError(source[k..])
      invariant members == CanonMembers(source)[..k]
    {
      MembersErrorOfSuffix(source, k);
      var valid := Utf8.Utf8IsValid(source[k].key);
      if !valid {
        return Failed(InvalidString);
      }
      var value := SerializeValue(source[k].value);
      if value.Failed? {
        return value;
      }
      members := members + [Member(source[k].key, value.text)];
    }
    // std::sort: any ascending arrangement of members with distinct keys is this one.
    members := Sort(members);
    assert CanonMembers(source)[..|source|] == CanonMembers(source);
    var output := JoinMembers(members);
    return Output(output);
  }

  method SerializeValue(v: Value) returns (r: Result)
    ensures r == Serialized(v)
    decreases v, 1
  {
    match v
    case Null => return Output(NULL_TEXT);
    case Bool(b) => return Output(if b then TRUE_TEXT else FALSE_TEXT);
    case Int(i) => return Output(Decimal.Print(i));
    case Float(_) => return Failed(FloatNotAllowed);
    case Str(s) =>
      var valid := Utf8.Utf8IsValid(s);
      if !valid {
        return Failed(InvalidString);
      }
      var output := AppendEscapedString([], s);
      return Output(output);
    case Array(items) =>
      r := SerializeArray(items);
    case Object(members) =>
      r := SerializeObject(members);
    case NoValue => return Failed(InvalidString);
  }

  method SerializeCanonicalStrict(v: Value) returns (r: Result)
    ensures r.Output? <==> Clean(v)
    ensures r.Output? ==> r.text == Canon(v)
    ensures r.Failed? ==> FirstError(v) == Some(r.error)
  {
    NoErrorIffClean(v);
    r := SerializeValue(v);
  }
}
