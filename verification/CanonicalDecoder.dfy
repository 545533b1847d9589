/**
 * A decoder for the canonical grammar alone: no white space, the escapes the
 * serializer writes and no others, integers in canonical form, members in
 * strictly ascending key order. It is the reference the serializer is proved
 * against; the server itself parses with a library.
 */
module CanonicalDecoder {
  import opened Basics
  import opened MemberOrder
  import opened JsonValue
  import opened Serializer
  import Decimal

  datatype Parsed<+T> = Fail | Parsed(value: T, rest: Bytes)

  // ---- Strings -------------------------------------------------------------

  /** The byte that a backslash and one more character stand for (section 7 of RFC 8259). */
  function ShortEscaped(letter: Byte): Option<Byte> {
    if letter == '"' as int then Some(0x22)
    else if letter == '\\' as int then Some(0x5C)
    else if letter == 'b' as int then Some(0x08)
    else if letter == 'f' as int then Some(0x0C)
    else if letter == 'n' as int then Some(0x0A)
    else if letter == 'r' as int then Some(0x0D)
    else if letter == 't' as int then Some(0x09)
    else None
  }

  /** Hexadecimal digits in lower case. */
  function HexValue(b: Byte): Option<nat> {
    if '0' as int <= b <= '9' as int then Some(b - '0' as int)
    else if 'a' as int <= b <= 'f' as int then Some(b - 'a' as int + 10)
    else None
  }

  /**
   * One byte of a string and the length of its text. A control character has its
   * short escape if there is one and `\u00` with two digits otherwise; nothing else
   * is escaped but the quote and the backslash.
   */
  function ReadByte(b: Bytes): Option<(Byte, nat)>
    requires b != []
  {
    if b[0] != '\\' as int then (if b[0] < 0x20 || b[0] == '"' as int then None else Some((b[0], 1)))
    else if |b| >= 2 && ShortEscaped(b[1]).Some? then Some((ShortEscaped(b[1]).value, 2))
    else if |b| >= 6 && b[1..4] == Ascii("u00") && HexValue(b[4]).Some? && HexValue(b[5]).Some? then
      var c := HexValue(b[4]).value * 16 + HexValue(b[5]).value;
      if c < 0x20 && c !in {0x08, 0x09, 0x0A, 0x0C, 0x0D} then Some((c, 6)) else None
    else None
  }

  /** What the serializer writes for a byte is read as that byte, */
  lemma ReadByteOfEscape(c: Byte, rest: Bytes)
    ensures ReadByte(Escape(c) + rest) == Some((c, |Escape(c)|)) && Escape(c)[0] != QUOTE
  {
    var b := Escape(c) + rest;
    assert forall k :: 0 <= k < |Escape(c)| ==> b[k] == Escape(c)[k];
    if ShortEscape(c).None? && c < 0x20 {
      assert b[1..4] == Ascii("u00");
    }
  }

  /** and nothing else is. */
  lemma EscapeOfReadByte(b: Bytes)
    requires b != [] && ReadByte(b).Some?
    ensures var (c, n) := ReadByte(b).value; n == |Escape(c)| && n <= |b| && b[..n] == Escape(c)
  {
    var (c, n) := ReadByte(b).value;
    if n == 6 {
      assert b[1..4][0] == b[1] && b[1..4][1] == b[2] && b[1..4][2] == b[3];
    }
  }

  /** Reads a string body up to and past its closing quote. */
  function ReadString(b: Bytes): (r: Parsed<Bytes>)
    ensures r.Parsed? ==> |r.rest| < |b|
    decreases |b|
  {
    if b == [] then Fail
    else if b[0] == QUOTE then Parsed([], b[1..])
    else if ReadByte(b).None? then Fail
    else
      var (c, n) := ReadByte(b).value;
      match ReadString(b[n..])
      case Fail => Fail
      case Parsed(s, rest) => Parsed([c] + s, rest)
  }

  /** The text of a string after its opening quote, followed by `rest`. */
  function StringBody(s: Bytes, rest: Bytes): Bytes {
    if s == [] then [QUOTE] + rest else Escape(s[0]) + StringBody(s[1..], rest)
  }

  lemma {:induction false} StringBodyIs(s: Bytes, rest: Bytes)
    ensures StringBody(s, rest) == EscapeAll(s) + [QUOTE] + rest
    ensures Quote(s) + rest == [QUOTE] + StringBody(s, rest)
  {
    if s != [] {
      StringBodyIs(s[1..], rest);
    }
  }

  lemma {:induction false} ReadQuoted(s: Bytes, rest: Bytes)
    ensures ReadString(StringBody(s, rest)) == Parsed(s, rest)
  {
    var b := StringBody(s, rest);
    if s != [] {
      var tail := StringBody(s[1..], rest);
      ReadByteOfEscape(s[0], tail);
      assert b[0] == Escape(s[0])[0] && b[|Escape(s[0])|..] == tail;
      hide Escape, ReadByte;
      ReadQuoted(s[1..], rest);
      assert s == [s[0]] + s[1..];
    }
  }

  lemma {:induction false} ReadIsQuoted(b: Bytes)
    requires ReadString(b).Parsed?
    ensures b == StringBody(ReadString(b).value, ReadString(b).rest)
    decreases |b|
  {
    if b[0] != QUOTE {
      EscapeOfReadByte(b);
      hide Escape, ReadByte;
      var (c, n) := ReadByte(b).value;
      var tail := b[n..];
      ReadIsQuoted(tail);
      assert b == Escape(c) + tail;
      var s := ReadString(tail).value;
      assert ([c] + s)[1..] == s;
    }
  }

  // ---- Numbers -------------------------------------------------------------

  predicate NumberByte(b: Byte) {
    b == Decimal.MINUS || Decimal.IsDigit(b)
  }

  /** Length of the longest head of `b` made of number bytes. */
  function NumberLength(b: Bytes): (n: nat)
    ensures n <= |b|
  {
    if b == [] || !NumberByte(b[0]) then 0 else 1 + NumberLength(b[1..])
  }

  /** What may follow a value: nothing that could continue a number. */
  predicate Ends(rest: Bytes) {
    rest == [] || !NumberByte(rest[0])
  }

  lemma {:induction false} NumberLengthIs(token: Bytes, rest: Bytes)
    requires (forall k :: 0 <= k < |token| ==> NumberByte(token[k])) && Ends(rest)
    ensures NumberLength(token + rest) == |token|
  {
    if token == [] {
      assert token + rest == rest;
    } else {
      assert (token + rest)[1..] == token[1..] + rest;
      NumberLengthIs(token[1..], rest);
    }
  }

  lemma PrintIsNumber(n: int)
    ensures forall k :: 0 <= k < |Decimal.Print(n)| ==> NumberByte(Decimal.Print(n)[k])
  {
  }

  function ParseNumber(b: Bytes): (r: Parsed<Value>)
    ensures r.Parsed? ==> |r.rest| < |b|
  {
    var n := NumberLength(b);
    var token := b[..n];
    if Decimal.IntToken(token) && -0x8000_0000_0000_0000 <= Decimal.IntValue(token) < 0x8000_0000_0000_0000 then
      Parsed(Int(Decimal.IntValue(token)), b[n..])
    else Fail
  }

  // ---- Values --------------------------------------------------------------

  function ParseValue(b: Bytes): (r: Parsed<Value>)
    ensures r.Parsed? ==> |r.rest| < |b|
    decreases |b|, 0
  {
    if b == [] then Fail
    else if b[0] == QUOTE then
      (match ReadString(b[1..])
       case Fail => Fail
       case Parsed(s, rest) => if StringOk(s) then Parsed(Str(s), rest) else Fail)
    else if b[0] == OPEN_BRACKET then
      if |b| > 1 && b[1] == CLOSE_BRACKET then Parsed(Array([]), b[2..])
      else
        (match ParseItems(b[1..])
         case Fail => Fail
         case Parsed(items, rest) => Parsed(Array(items), rest))
    else if b[0] == OPEN_BRACE then
      if |b| > 1 && b[1] == CLOSE_BRACE then Parsed(Object([]), b[2..])
      else
        (match ParseMembers(b[1..], None)
         case Fail => Fail
         case Parsed(members, rest) => Parsed(Object(members), rest))
    else if NULL_TEXT <= b then Parsed(Null, b[4..])
    else if TRUE_TEXT <= b then Parsed(Bool(true), b[4..])
    else if FALSE_TEXT <= b then Parsed(Bool(false), b[5..])
    else ParseNumber(b)
  }

  /** One or more items up to and past the closing bracket. */
  function ParseItems(b: Bytes): (r: Parsed<seq<Value>>)
    ensures r.Parsed? ==> |r.rest| < |b|
    decreases |b|, 1
  {
    match ParseValue(b)
    case Fail => Fail
    case Parsed(v, after) =>
      if after != [] && after[0] == CLOSE_BRACKET then Parsed([v], after[1..])
      else if after != [] && after[0] == COMMA then
        (match ParseItems(after[1..])
         case Fail => Fail
         case Parsed(vs, rest) => Parsed([v] + vs, rest))
      else Fail
  }

  /** One or more members, keys above `prev`, up to and past the closing brace. */
  function ParseMembers(b: Bytes, prev: Option<Bytes>): (r: Parsed<seq<Member<Value>>>)
    ensures r.Parsed? ==> |r.rest| < |b|
    decreases |b|, 1
  {
    match ParseMember(b)
    case Fail => Fail
    case Parsed(m, after) =>
      if prev.Some? && !Less(prev.value, m.key) then Fail
      else if after != [] && after[0] == CLOSE_BRACE then Parsed([m], after[1..])
      else if after != [] && after[0] == COMMA then
        (match ParseMembers(after[1..], Some(m.key))
         case Fail => Fail
         case Parsed(ms, rest) => Parsed([m] + ms, rest))
      else Fail
  }

  function ParseMember(b: Bytes): (r: Parsed<Member<Value>>)
    ensures r.Parsed? ==> |r.rest| < |b|
    decreases |b|, 0
  {
    if b == [] || b[0] != QUOTE then Fail
    else
      match ReadString(b[1..])
      case Fail => Fail
      case Parsed(key, rest) =>
        if !StringOk(key) || rest == [] || rest[0] != COLON then Fail
        else
          match ParseValue(rest[1..])
          case Fail => Fail
          case Parsed(v, after) => Parsed(Member(key, v), after)
  }

  /** A whole canonical text. */
  function Decode(b: Bytes): Option<Value> {
    match ParseValue(b)
    case Fail => None
    case Parsed(v, rest) => if rest == [] then Some(v) else None
  }

  // ---- What the serializer wrote is read back ------------------------------

  lemma SortOfAscending(ms: seq<Member<Value>>)
    requires Ascending(ms)
    ensures Sort(CanonMembers(ms)) == CanonMembers(ms)
  {
    AscendingIsDistinct(ms);
    AnySortIsSort(CanonMembers(ms), CanonMembers(ms));
  }

  lemma CanonStart(v: Value)
    requires Clean(v)
    ensures Canon(v) != [] && Canon(v)[0] != CLOSE_BRACKET
    ensures v.Int? ==> NumberByte(Canon(v)[0])
  {
    if v.Int? {
      PrintIsNumber(v.i);
    }
  }

  /** Comma-separated pieces, the closing byte, and `rest`. */
  function Body(pieces: seq<Bytes>, close: Byte, rest: Bytes): Bytes {
    if pieces == [] then [close] + rest
    else if |pieces| == 1 then pieces[0] + ([close] + rest)
    else pieces[0] + ([COMMA] + Body(pieces[1..], close, rest))
  }

  lemma {:induction false} BodyIs(pieces: seq<Bytes>, close: Byte, rest: Bytes)
    ensures Body(pieces, close, rest) == Join(pieces) + [close] + rest
  {
    if |pieces| > 1 {
      BodyIs(pieces[1..], close, rest);
      assert More(pieces[1..]) == [COMMA] + Join(pieces[1..]);
    } else if |pieces| == 1 {
      assert Join(pieces) == pieces[0];
    }
  }

  lemma ArrayText(items: seq<Value>, rest: Bytes)
    ensures Canon(Array(items)) + rest == [OPEN_BRACKET] + Body(CanonItems(items), CLOSE_BRACKET, rest)
  {
    BodyIs(CanonItems(items), CLOSE_BRACKET, rest);
  }

  function Text(m: Member<Value>): Bytes {
    MemberText(Member(m.key, Canon(m.value)))
  }

  /** Members in the order given, the closing brace, and `rest`. */
  function MembersBody(members: seq<Member<Value>>, rest: Bytes): Bytes {
    if members == [] then [CLOSE_BRACE] + rest
    else if |members| == 1 then Text(members[0]) + ([CLOSE_BRACE] + rest)
    else Text(members[0]) + ([COMMA] + MembersBody(members[1..], rest))
  }

  lemma {:induction false} MembersBodyIs(members: seq<Member<Value>>, rest: Bytes)
    ensures MembersBody(members, rest) == Body(MemberTexts(CanonMembers(members)), CLOSE_BRACE, rest)
  {
    if |members| > 1 {
      MembersBodyIs(members[1..], rest);
      assert MemberTexts(CanonMembers(members))[1..] == MemberTexts(CanonMembers(members[1..]));
    }
  }

  lemma ObjectText(members: seq<Member<Value>>, rest: Bytes)
    requires Ascending(members)
    ensures Canon(Object(members)) + rest == [OPEN_BRACE] + MembersBody(members, rest)
  {
    SortOfAscending(members);
    BodyIs(MemberTexts(CanonMembers(members)), CLOSE_BRACE, rest);
    MembersBodyIs(members, rest);
  }

  /** The text of member `m`, followed by `after`. */
  lemma MemberShape(m: Member<Value>, after: Bytes)
    ensures Text(m) + after ==
            [QUOTE] + StringBody(m.key, [COLON] + (Canon(m.value) + after))
  {
    var text := Canon(m.value);
    StringBodyIs(m.key, [COLON] + (text + after));
    hide Quote, Canon, StringBody;
    Associate(Quote(m.key) + [COLON], text, after);
    Associate(Quote(m.key), [COLON], text + after);
  }

  lemma {:induction false} ParseOfCanon(v: Value, rest: Bytes)
    requires Clean(v) && InOrder(v) && Ends(rest)
    ensures ParseValue(Canon(v) + rest) == Parsed(v, rest)
    decreases v, 1
  {
    hide ParseValue, InOrder, Ends, Join, Quote, CanonMembers, CanonItems;
    match v
    case Null => ParseOfLiteral(v, rest);
    case Bool(x) => ParseOfLiteral(v, rest);
    case Int(i) => ParseOfInt(i, rest);
    case Str(s) => ParseOfString(s, rest);
    case Array(items) => ParseOfArray(items, rest);
    case Object(members) => ParseOfObject(members, rest);
  }

  lemma ParseOfLiteral(v: Value, rest: Bytes)
    requires v.Null? || v.Bool?
    ensures ParseValue(Canon(v) + rest) == Parsed(v, rest)
  {
    var b := Canon(v) + rest;
    assert b[|Canon(v)|..] == rest;
  }

  lemma ParseOfString(s: Bytes, rest: Bytes)
    requires StringOk(s)
    ensures ParseValue(Canon(Str(s)) + rest) == Parsed(Str(s), rest)
  {
    var b := Canon(Str(s)) + rest;
    StringBodyIs(s, rest);
    assert b[1..] == StringBody(s, rest);
    ReadQuoted(s, rest);
  }

  lemma ParseOfInt(i: Int64, rest: Bytes)
    requires Ends(rest)
    ensures ParseValue(Decimal.Print(i) + rest) == Parsed(Int(i), rest)
  {
    var b := Decimal.Print(i) + rest;
    PrintIsNumber(i);
    NumberLengthIs(Decimal.Print(i), rest);
    assert b[..|Decimal.Print(i)|] == Decimal.Print(i) && b[|Decimal.Print(i)|..] == rest;
    Decimal.IntValueOfPrint(i);
    assert NumberByte(b[0]);
    assert b[0] != NULL_TEXT[0] && b[0] != TRUE_TEXT[0] && b[0] != FALSE_TEXT[0];
  }

  lemma {:induction false} ParseOfArray(items: seq<Value>, rest: Bytes)
    requires Clean(Array(items)) && InOrder(Array(items)) && Ends(rest)
    ensures ParseValue(Canon(Array(items)) + rest) == Parsed(Array(items), rest)
    decreases items, 1
  {
    ArrayText(items, rest);
    var inner := Body(CanonItems(items), CLOSE_BRACKET, rest);
    var b := [OPEN_BRACKET] + inner;
    assert b[1..] == inner;
    if items == [] {
      assert b[2..] == rest;
    } else {
      CanonStart(items[0]);
      assert inner[0] == Canon(items[0])[0];
      ParseOfItems(items, rest);
    }
  }

  lemma BodyOfItems(items: seq<Value>, rest: Bytes)
    requires |items| > 0
    ensures Body(CanonItems(items), CLOSE_BRACKET, rest) == Canon(items[0]) + (
              if |items| == 1 then [CLOSE_BRACKET] + rest
              else [COMMA] + Body(CanonItems(items[1..]), CLOSE_BRACKET, rest))
  {
    assert CanonItems(items)[1..] == CanonItems(items[1..]);
  }

  lemma {:induction false} ParseOfItems(items: seq<Value>, rest: Bytes)
    requires items != [] && Clean(Array(items)) && InOrder(Array(items)) && Ends(rest)
    ensures ParseItems(Body(CanonItems(items), CLOSE_BRACKET, rest)) == Parsed(items, rest)
    decreases items, 0
  {
    hide Body, Canon, CanonItems, ParseValue;
    BodyOfItems(items, rest);
    if |items| == 1 {
      ParseOfCanon(items[0], [CLOSE_BRACKET] + rest);
      assert items == [items[0]];
    } else {
      var inner := Body(CanonItems(items[1..]), CLOSE_BRACKET, rest);
      var after := [COMMA] + inner;
      ParseOfCanon(items[0], after);
      assert after[1..] == inner;
      ParseOfItems(items[1..], rest);
      assert items == [items[0]] + items[1..];
    }
  }

  lemma MembersBodyStart(members: seq<Member<Value>>, rest: Bytes)
    requires members != []
    ensures MembersBody(members, rest) != [] && MembersBody(members, rest)[0] == QUOTE
  {
    assert Text(members[0])[0] == QUOTE;
  }

  lemma ParseOfBrace(inner: Bytes, members: seq<Member<Value>>, rest: Bytes)
    requires inner != [] && inner[0] == QUOTE && ParseMembers(inner, None) == Parsed(members, rest)
    ensures ParseValue([OPEN_BRACE] + inner) == Parsed(Object(members), rest)
  {
    var b := [OPEN_BRACE] + inner;
    assert b[1] == inner[0] && b[1..] == inner;
  }

  lemma {:induction false} ParseOfObject(members: seq<Member<Value>>, rest: Bytes)
    requires Clean(Object(members)) && InOrder(Object(members)) && Ends(rest)
    ensures ParseValue(Canon(Object(members)) + rest) == Parsed(Object(members), rest)
    decreases members, 2
  {
    ObjectText(members, rest);
    if members == [] {
      assert ([OPEN_BRACE] + ([CLOSE_BRACE] + rest))[2..] == rest;
    } else {
      MembersBodyStart(members, rest);
      ParseOfMembers(members, None, rest);
      ParseOfBrace(MembersBody(members, rest), members, rest);
    }
  }

  lemma TailMembers(members: seq<Member<Value>>)
    requires |members| > 1 && Clean(Object(members)) && InOrder(Object(members))
    ensures Clean(Object(members[1..])) && InOrder(Object(members[1..]))
    ensures Less(members[0].key, members[1..][0].key)
  {
  }

  lemma HeadMember(members: seq<Member<Value>>)
    requires members != [] && Clean(Object(members)) && InOrder(Object(members))
    ensures StringOk(members[0].key) && Clean(members[0].value) && InOrder(members[0].value)
  {
  }

  lemma {:induction false} ParseOfMembers(members: seq<Member<Value>>, prev: Option<Bytes>, rest: Bytes)
    requires members != [] && Clean(Object(members)) && InOrder(Object(members)) && Ends(rest)
    requires prev.Some? ==> Less(prev.value, members[0].key)
    ensures ParseMembers(MembersBody(members, rest), prev) == Parsed(members, rest)
    decreases members, 1
  {
    MembersBodyStarts(members, rest);
    if |members| == 1 {
      ParseFirstMember(members, [CLOSE_BRACE] + rest);
      OneMemberRead(members, prev, rest);
    } else {
      TailMembers(members);
      hide Clean, InOrder, ParseMember, ParseMembers, MembersBody, Text, Less, Ends;
      ParseFirstMember(members, [COMMA] + MembersBody(members[1..], rest));
      ParseOfMembers(members[1..], Some(members[0].key), rest);
      MoreMembersRead(members, prev, rest);
    }
  }

  lemma {:induction false} ParseFirstMember(members: seq<Member<Value>>, after: Bytes)
    requires members != [] && Clean(Object(members)) && InOrder(Object(members)) && Ends(after)
    ensures ParseMember(Text(members[0]) + after) == Parsed(members[0], after)
    decreases members, 0
  {
    HeadMember(members);
    hide Clean, InOrder, ParseMember, Text, Ends;
    ParseOfMember(members[0], after);
  }

  lemma OneMemberRead(members: seq<Member<Value>>, prev: Option<Bytes>, rest: Bytes)
    requires |members| == 1 && (prev.Some? ==> Less(prev.value, members[0].key))
    requires ParseMember(Text(members[0]) + ([CLOSE_BRACE] + rest)) == Parsed(members[0], [CLOSE_BRACE] + rest)
    ensures ParseMembers(MembersBody(members, rest), prev) == Parsed(members, rest)
  {
    hide ParseMember, ParseMembers, Text, Less;
    assert members == [members[0]] && ([CLOSE_BRACE] + rest)[1..] == rest;
    ParseLastMember(MembersBody(members, rest), prev, members[0], [CLOSE_BRACE] + rest);
  }

  lemma MoreMembersRead(members: seq<Member<Value>>, prev: Option<Bytes>, rest: Bytes)
    requires |members| > 1 && (prev.Some? ==> Less(prev.value, members[0].key))
    requires var after := [COMMA] + MembersBody(members[1..], rest);
             ParseMember(Text(members[0]) + after) == Parsed(members[0], after)
    requires ParseMembers(MembersBody(members[1..], rest), Some(members[0].key)) == Parsed(members[1..], rest)
    ensures ParseMembers(MembersBody(members, rest), prev) == Parsed(members, rest)
  {
    MembersBodyStarts(members, rest);
    hide ParseMember, ParseMembers, Text, Less, MembersBody;
    var after := [COMMA] + MembersBody(members[1..], rest);
    assert after[1..] == MembersBody(members[1..], rest) && members == [members[0]] + members[1..];
    ParseMoreMembers(MembersBody(members, rest), prev, members[0], after, members[1..], rest);
  }

  lemma MembersBodyStarts(members: seq<Member<Value>>, rest: Bytes)
    requires members != []
    ensures var after := if |members| == 1 then [CLOSE_BRACE] + rest else [COMMA] + MembersBody(members[1..], rest);
            MembersBody(members, rest) == Text(members[0]) + after && Ends(after)
  {
  }

  lemma ParseLastMember(b: Bytes, prev: Option<Bytes>, m: Member<Value>, after: Bytes)
    requires ParseMember(b) == Parsed(m, after) && (prev.Some? ==> Less(prev.value, m.key))
    requires after != [] && after[0] == CLOSE_BRACE
    ensures ParseMembers(b, prev) == Parsed([m], after[1..])
  {
    hide ParseMember, Less;
  }

  lemma ParseMoreMembers(b: Bytes, prev: Option<Bytes>, m: Member<Value>, after: Bytes, more: seq<Member<Value>>, rest: Bytes)
    requires ParseMember(b) == Parsed(m, after) && (prev.Some? ==> Less(prev.value, m.key))
    requires after != [] && after[0] == COMMA && ParseMembers(after[1..], Some(m.key)) == Parsed(more, rest)
    ensures ParseMembers(b, prev) == Parsed([m] + more, rest)
  {
    hide ParseMember, Less;
  }

  lemma {:induction false} ParseOfMember(m: Member<Value>, after: Bytes)
    requires StringOk(m.key) && Clean(m.value) && InOrder(m.value) && Ends(after)
    ensures ParseMember(Text(m) + after) == Parsed(m, after)
    decreases m, 0
  {
    MemberShape(m, after);
    var tail := [COLON] + (Canon(m.value) + after);
    assert ([QUOTE] + StringBody(m.key, tail))[1..] == StringBody(m.key, tail);
    ReadQuoted(m.key, tail);
    assert tail[1..] == Canon(m.value) + after;
    ParseOfCanon(m.value, after);
  }

  // ---- What is read is what the serializer writes --------------------------

  lemma {:induction false} ParseIsCanon(b: Bytes)
    requires ParseValue(b).Parsed?
    ensures var v := ParseValue(b).value;
            Clean(v) && InOrder(v) && b == Canon(v) + ParseValue(b).rest
    decreases |b|, 2
  {
    var v, rest := ParseValue(b).value, ParseValue(b).rest;
    if b[0] == QUOTE {
      ReadIsQuoted(b[1..]);
      StringBodyIs(v.s, rest);
    } else if b[0] == OPEN_BRACKET {
      ArrayIsCanon(b);
    } else if b[0] == OPEN_BRACE {
      ObjectIsCanon(b);
    } else if NULL_TEXT <= b {
    } else if TRUE_TEXT <= b {
    } else if FALSE_TEXT <= b {
    } else {
      Decimal.PrintOfIntValue(b[..NumberLength(b)]);
    }
  }

  lemma {:induction false} ArrayIsCanon(b: Bytes)
    requires ParseValue(b).Parsed? && b[0] == OPEN_BRACKET
    ensures var v := ParseValue(b).value;
            Clean(v) && InOrder(v) && b == Canon(v) + ParseValue(b).rest
    decreases |b|, 1
  {
    var v, rest := ParseValue(b).value, ParseValue(b).rest;
    ArrayText(v.items, rest);
    assert b == [OPEN_BRACKET] + b[1..];
    if |b| > 1 && b[1] == CLOSE_BRACKET {
      assert b[1..] == [CLOSE_BRACKET] + b[2..];
    } else {
      ItemsAreCanon(b[1..]);
    }
  }

  lemma {:induction false} ObjectIsCanon(b: Bytes)
    requires ParseValue(b).Parsed? && b[0] == OPEN_BRACE
    ensures var v := ParseValue(b).value;
            Clean(v) && InOrder(v) && b == Canon(v) + ParseValue(b).rest
    decreases |b|, 1
  {
    var v, rest := ParseValue(b).value, ParseValue(b).rest;
    assert b == [OPEN_BRACE] + b[1..];
    if |b| > 1 && b[1] == CLOSE_BRACE {
      assert b[1..] == [CLOSE_BRACE] + b[2..];
    } else {
      MembersAreCanon(b[1..], None);
    }
    ObjectText(v.members, rest);
    AscendingIsDistinct(v.members);
  }

  lemma {:induction false} ItemsAreCanon(b: Bytes)
    requires ParseItems(b).Parsed?
    ensures var items := ParseItems(b).value;
            Clean(Array(items)) && InOrder(Array(items)) &&
            b == Body(CanonItems(items), CLOSE_BRACKET, ParseItems(b).rest)
    decreases |b|, 3
  {
    ParseIsCanon(b);
    var v, after := ParseValue(b).value, ParseValue(b).rest;
    assert after == [after[0]] + after[1..];
    if after[0] == COMMA {
      ItemsAreCanon(after[1..]);
      var vs := ParseItems(after[1..]).value;
      assert CanonItems([v] + vs) == [Canon(v)] + CanonItems(vs);
      assert ([Canon(v)] + CanonItems(vs))[1..] == CanonItems(vs);
    } else {
      assert CanonItems([v]) == [Canon(v)];
    }
  }

  lemma {:induction false} MemberIsCanon(b: Bytes)
    requires ParseMember(b).Parsed?
    ensures var m := ParseMember(b).value;
            StringOk(m.key) && Clean(m.value) && InOrder(m.value) &&
            b == Text(m) + ParseMember(b).rest
    decreases |b|, 2
  {
    var m, after := ParseMember(b).value, ParseMember(b).rest;
    MemberShape(m, after);
    ReadIsQuoted(b[1..]);
    var tail := ReadString(b[1..]).rest;
    ParseIsCanon(tail[1..]);
    assert b == [QUOTE] + b[1..] && tail == [COLON] + tail[1..];
  }

  lemma {:induction false} MembersAreCanon(b: Bytes, prev: Option<Bytes>)
    requires ParseMembers(b, prev).Parsed?
    ensures var ms := ParseMembers(b, prev).value;
            ms != [] && Ascending(ms) && (prev.Some? ==> Less(prev.value, ms[0].key)) &&
            (forall i :: 0 <= i < |ms| ==> StringOk(ms[i].key) && Clean(ms[i].value) && InOrder(ms[i].value)) &&
            b == MembersBody(ms, ParseMembers(b, prev).rest)
    decreases |b|, 3
  {
    MemberIsCanon(b);
    hide Clean, InOrder, StringOk, ParseMember, Quote;
    var m, after := ParseMember(b).value, ParseMember(b).rest;
    assert after == [after[0]] + after[1..];
    if after[0] == COMMA {
      MembersAreCanon(after[1..], Some(m.key));
      var ms := ParseMembers(after[1..], Some(m.key)).value;
      AscendingCons(m, ms);
      assert ([m] + ms)[1..] == ms;
    }
  }

  lemma AscendingCons(m: Member<Value>, ms: seq<Member<Value>>)
    requires ms != [] && Ascending(ms) && Less(m.key, ms[0].key)
    ensures Ascending([m] + ms)
  {
    forall j | 0 <= j < |ms|
      ensures Less(m.key, ms[j].key)
    {
      if j > 0 {
        LessTransitive(m.key, ms[0].key, ms[j].key);
      }
    }
  }

  // ---- The laws of canonical JSON ------------------------------------------

  lemma {:induction false} CanonOfNormal(v: Value)
    requires Clean(v)
    ensures Canon(Normal(v)) == Canon(v)
  {
    match v
    case Array(items) =>
      forall i | 0 <= i < |items|
        ensures CanonItems(NormalItems(items))[i] == CanonItems(items)[i]
      {
        CanonOfNormal(items[i]);
      }
      assert CanonItems(NormalItems(items)) == CanonItems(items);
    case Object(members) =>
      forall i | 0 <= i < |members|
        ensures CanonMembers(NormalMembers(members))[i] == CanonMembers(members)[i]
      {
        CanonOfNormal(members[i].value);
      }
      assert CanonMembers(NormalMembers(members)) == CanonMembers(members);
      CanonOfSorted(NormalMembers(members));
      SortAscends(CanonMembers(members));
      var sorted := Sort(CanonMembers(members));
      AscendingIsDistinct(sorted);
      AnySortIsSort(sorted, sorted);
    case _ =>
  }

  lemma CanonOfSorted(members: seq<Member<Value>>)
    ensures CanonMembers(Sort(members)) == Sort(CanonMembers(members))
  {
    var f := (v: Value) => Canon(v);
    SortMaps(f, members);
    CanonIsMap(f, members);
    CanonIsMap(f, Sort(members));
  }

  lemma {:induction false} CanonIsMap(f: Value -> Bytes, members: seq<Member<Value>>)
    requires forall v :: f(v) == Canon(v)
    ensures CanonMembers(members) == MapValues(f, members)
  {
    hide Canon;
    if members != [] {
      CanonIsMap(f, members[1..]);
    }
  }

  /** Reading back canonical bytes gives the value with every object in key order. */
  lemma DecodeOfCanon(v: Value)
    requires Clean(v)
    ensures Decode(Canon(v)) == Some(Normal(v))
  {
    NormalIsClean(v);
    CanonOfNormal(v);
    ParseOfCanon(Normal(v), []);
    assert Canon(v) + [] == Canon(v);
  }

  /** Every text the decoder takes is what the serializer writes for the value it gives. */
  lemma CanonOfDecode(b: Bytes)
    requires Decode(b).Some?
    ensures Clean(Decode(b).value) && Canon(Decode(b).value) == b
  {
    ParseIsCanon(b);
    assert Canon(Decode(b).value) + [] == Canon(Decode(b).value);
  }

  /** A text is canonical exactly when it is the serialization of some clean tree. */
  lemma CanonicalTexts(b: Bytes)
    ensures Decode(b).Some? <==> exists v :: Clean(v) && Canon(v) == b
  {
    if Decode(b).Some? {
      CanonOfDecode(b);
    }
    forall v | Clean(v) && Canon(v) == b
      ensures Decode(b).Some?
    {
      DecodeOfCanon(v);
    }
  }

  /** Every object, at every level, lists its members by the bytes of their keys. */
  ghost predicate BytewiseOrdered(v: Value) {
    match v
    case Array(items) => forall i :: 0 <= i < |items| ==> BytewiseOrdered(items[i])
    case Object(members) =>
      (forall i, j :: 0 <= i < j < |members| ==> BytewiseBefore(members[i].key, members[j].key)) &&
      forall i :: 0 <= i < |members| ==> BytewiseOrdered(members[i].value)
    case _ => true
  }

  lemma {:induction false} InOrderIsBytewise(v: Value)
    ensures InOrder(v) <==> BytewiseOrdered(v)
    decreases v
  {
    match v
    case Array(items) =>
      forall i | 0 <= i < |items|
        ensures InOrder(items[i]) <==> BytewiseOrdered(items[i])
      {
        InOrderIsBytewise(items[i]);
      }
    case Object(members) =>
      forall i, j | 0 <= i < j < |members|
        ensures Less(members[i].key, members[j].key) <==> BytewiseBefore(members[i].key, members[j].key)
      {
        LessIsBytewise(members[i].key, members[j].key);
      }
      forall i | 0 <= i < |members|
        ensures InOrder(members[i].value) <==> BytewiseOrdered(members[i].value)
      {
        InOrderIsBytewise(members[i].value);
      }
    case _ =>
  }

  /**
   * The canonical text of a clean tree reads back as the same JSON value, with the
   * keys of every object, at every level, in ascending order of their bytes.
   */
  lemma CanonIsOrdered(v: Value)
    requires Clean(v)
    ensures Decode(Canon(v)).Some? && SameUpToOrder(v, Decode(Canon(v)).value) && BytewiseOrdered(Decode(Canon(v)).value)
  {
    DecodeOfCanon(v);
    NormalIsClean(v);
    InOrderIsBytewise(Normal(v));
    NormalOfInOrder(Normal(v));
    NormalIffSame(v, Normal(v));
  }

  /** Two trees have the same bytes exactly when they are equal up to member order, at every level. */
  lemma SameBytesIffSameValue(a: Value, b: Value)
    requires Clean(a) && Clean(b)
    ensures Canon(a) == Canon(b) <==> SameUpToOrder(a, b)
  {
    DecodeOfCanon(a);
    DecodeOfCanon(b);
    NormalIffSame(a, b);
    CanonOfNormal(a);
    CanonOfNormal(b);
  }
}
