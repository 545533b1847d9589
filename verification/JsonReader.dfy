/**
 * The server's own reader of canonical JSON (src/canonicaljson/parser.cpp):
 * a library turns the text into a document whose numbers stay raw tokens,
 * and the conversion below turns the document into a tree or refuses it.
 */
module JsonReader {
  import opened Basics
  import opened MemberOrder
  import opened JsonValue
  import Serializer
  import opened CanonicalDecoder
  import Decimal
  import Utf8

  const MAX_DEPTH := 64
  const MAX_OBJECT_MEMBERS := 65536

  /** A value of the library's document, read with raw numbers. */
  datatype Node =
    | NullNode
    | BoolNode(b: bool)
    | RawNode(token: Bytes)
    | StringNode(s: Bytes)
    | ArrayNode(items: seq<Node>)
    | ObjectNode(members: seq<Member<Node>>)

  datatype ParseError =
    | TrailingData | UnexpectedEnd | UnexpectedToken | InvalidLiteral | InvalidString
    | InvalidEscape | InvalidUnicodeEscape | InvalidNumber | IntegerOutOfRange
    | DuplicateObjectKey | NestingTooDeep | TooManyObjectMembers

  datatype Conversion<+T> = Converted(value: T) | Refused(error: ParseError)

  // ---- What the conversion computes ------------------------------------------------

  function Convert(node: Node, depth: nat): Conversion<Value> {
    if depth > MAX_DEPTH then Refused(NestingTooDeep)
    else
      match node
      case NullNode => Converted(Null)
      case BoolNode(b) => Converted(Bool(b))
      case RawNode(token) => ConvertNumber(token)
      case StringNode(s) => Converted(Str(s))
      case ArrayNode(items) =>
        (match ConvertItems(items, depth + 1)
         case Converted(values) => Converted(Array(values))
         case Refused(error) => Refused(error))
      case ObjectNode(members) =>
        if |members| > MAX_OBJECT_MEMBERS then Refused(TooManyObjectMembers)
        else
          match ConvertMembers(members, depth + 1)
          case Converted(values) => Converted(Object(values))
          case Refused(error) => Refused(error)
  }

  function ConvertNumber(token: Bytes): Conversion<Value> {
    match Decimal.NumberOf(token)
    case Number(n) => Converted(Int(n))
    case InvalidNumber => Refused(InvalidNumber)
    case IntegerOutOfRange => Refused(IntegerOutOfRange)
  }

  /** The items in order, or the error of the first one refused. */
  function ConvertItems(items: seq<Node>, depth: nat): Conversion<seq<Value>> {
    if items == [] then Converted([])
    else
      var last := |items| - 1;
      match ConvertItems(items[..last], depth)
      case Refused(error) => Refused(error)
      case Converted(values) =>
        match Convert(items[last], depth)
        case Refused(error) => Refused(error)
        case Converted(v) => Converted(values + [v])
  }

  /** The members in order, or the first error; a key seen before is one, found ahead of its value. */
  function ConvertMembers(members: seq<Member<Node>>, depth: nat): Conversion<seq<Member<Value>>> {
    if members == [] then Converted([])
    else
      var last := |members| - 1;
      match ConvertMembers(members[..last], depth)
      case Refused(error) => Refused(error)
      case Converted(values) =>
        if members[last].key in Keys(members[..last]) then Refused(DuplicateObjectKey)
        else
          match Convert(members[last].value, depth)
          case Refused(error) => Refused(error)
          case Converted(v) => Converted(values + [Member(members[last].key, v)])
  }

  // ---- The conversion of the source ------------------------------------------------

  lemma {:induction false} ItemsStayRefused(items: seq<Node>, k: nat, depth: nat)
    requires k <= |items| && ConvertItems(items[..k], depth).Refused?
    ensures ConvertItems(items, depth) == ConvertItems(items[..k], depth)
    decreases |items|
  {
    if k == |items| {
      assert items[..k] == items;
    } else {
      var front := items[..|items| - 1];
      assert front[..k] == items[..k];
      ItemsStayRefused(front, k, depth);
    }
  }

  lemma {:induction false} MembersStayRefused(members: seq<Member<Node>>, k: nat, depth: nat)
    requires k <= |members| && ConvertMembers(members[..k], depth).Refused?
    ensures ConvertMembers(members, depth) == ConvertMembers(members[..k], depth)
    decreases |members|
  {
    if k == |members| {
      assert members[..k] == members;
    } else {
      var front := members[..|members| - 1];
      assert front[..k] == members[..k];
      MembersStayRefused(front, k, depth);
    }
  }

  method ConvertValue(node: Node, depth: nat) returns (r: Conversion<Value>)
    ensures r == Convert(node, depth)
    decreases node, 1
  {
    if depth > MAX_DEPTH {
      return Refused(NestingTooDeep);
    }
    match node
    case NullNode => return Converted(Null);
    case BoolNode(b) => return Converted(Bool(b));
    case RawNode(token) =>
      var number := Decimal.RawNumberAsInt64(token);
      match number {
        case Number(n) => return Converted(Int(n));
        case InvalidNumber => return Refused(InvalidNumber);
        case IntegerOutOfRange => return Refused(IntegerOutOfRange);
      }
    case StringNode(s) => return Converted(Str(s));
    case ArrayNode(items) => r := ConvertArray(items, depth);
    case ObjectNode(members) => r := ConvertObject(members, depth);
  }

  method ConvertArray(items: seq<Node>, depth: nat) returns (r: Conversion<Value>)
    requires depth <= MAX_DEPTH
    ensures r == Convert(ArrayNode(items), depth)
    decreases items, 0
  {
    var values := [];
    for k := 0 to |items|
      invariant ConvertItems(items[..k], depth + 1) == Converted(values)
    {
      assert items[..k + 1][..k] == items[..k];
      var converted := ConvertValue(items[k], depth + 1);
      if converted.Refused? {
        ItemsStayRefused(items, k + 1, depth + 1);
        return Refused(converted.error);
      }
      values := values + [converted.value];
    }
    assert items[..|items|] == items;
    return Converted(Array(values));
  }

  method ConvertObject(members: seq<Member<Node>>, depth: nat) returns (r: Conversion<Value>)
    requires depth <= MAX_DEPTH
    ensures r == Convert(ObjectNode(members), depth)
    decreases members, 0
  {
    if |members| > MAX_OBJECT_MEMBERS {
      return Refused(TooManyObjectMembers);
    }
    var values: seq<Member<Value>> := [];
    var seenKeys: set<Bytes> := {};
    for k := 0 to |members|
      invariant ConvertMembers(members[..k], depth + 1) == Converted(values)
      invariant seenKeys == Keys(members[..k])
    {
      assert members[..k + 1][..k] == members[..k];
      if members[k].key in seenKeys {
        MembersStayRefused(members, k + 1, depth + 1);
        return Refused(DuplicateObjectKey);
      }
      seenKeys := seenKeys + {members[k].key};
      assert Keys(members[..k + 1]) == seenKeys;
      var converted := ConvertValue(members[k].value, depth + 1);
      if converted.Refused? {
        MembersStayRefused(members, k + 1, depth + 1);
        return Refused(converted.error);
      }
      values := values + [Member(members[k].key, converted.value)];
    }
    assert members[..|members|] == members;
    return Converted(Object(values));
  }

  // ---- Which documents are taken, and as what --------------------------------------

  /** The document and the tree hold the same data: numbers by their decimal text, members in order. */
  ghost predicate Shows(node: Node, v: Value)
    decreases node
  {
    match node
    case NullNode => v == Null
    case BoolNode(b) => v == Bool(b)
    case RawNode(token) => v.Int? && token == Decimal.Print(v.i)
    case StringNode(s) => v == Str(s)
    case ArrayNode(items) =>
      v.Array? && |v.items| == |items| &&
      forall i :: 0 <= i < |items| ==> Shows(items[i], v.items[i])
    case ObjectNode(members) =>
      v.Object? && |v.members| == |members| &&
      forall i :: 0 <= i < |members| ==> members[i].key == v.members[i].key && Shows(members[i].value, v.members[i].value)
  }

  /** The limits of the reader on a tree that stands `depth` levels down. */
  ghost predicate Fits(v: Value, depth: nat)
    decreases v
  {
    depth <= MAX_DEPTH &&
    match v
    case Int(i) => -Decimal.MAX_SAFE_INTEGER <= i <= Decimal.MAX_SAFE_INTEGER
    case Array(items) => forall i :: 0 <= i < |items| ==> Fits(items[i], depth + 1)
    case Object(members) =>
      |members| <= MAX_OBJECT_MEMBERS && forall i :: 0 <= i < |members| ==> Fits(members[i].value, depth + 1)
    case _ => true
  }

  /** No object, at any level, repeats a key. */
  ghost predicate NoRepeats(v: Value) {
    match v
    case Array(items) => forall i :: 0 <= i < |items| ==> NoRepeats(items[i])
    case Object(members) =>
      DistinctKeys(members) && forall i :: 0 <= i < |members| ==> NoRepeats(members[i].value)
    case _ => true
  }

  lemma {:induction false} ItemsConverted(items: seq<Node>, depth: nat, values: seq<Value>)
    ensures ConvertItems(items, depth) == Converted(values) <==>
            |values| == |items| && forall i :: 0 <= i < |items| ==> Convert(items[i], depth) == Converted(values[i])
    decreases |items|
  {
    if items != [] {
      var last := |items| - 1;
      if values != [] {
        ItemsConverted(items[..last], depth, values[..|values| - 1]);
        assert values == values[..|values| - 1] + [values[|values| - 1]];
      }
    }
  }

  lemma {:induction false} MembersConverted(members: seq<Member<Node>>, depth: nat, values: seq<Member<Value>>)
    ensures ConvertMembers(members, depth) == Converted(values) <==>
            |values| == |members| && DistinctKeys(members) &&
            forall i :: 0 <= i < |members| ==>
              members[i].key == values[i].key && Convert(members[i].value, depth) == Converted(values[i].value)
    decreases |members|
  {
    if members != [] {
      var last := |members| - 1;
      if values != [] {
        MembersConverted(members[..last], depth, values[..|values| - 1]);
        assert values == values[..|values| - 1] + [values[|values| - 1]];
      }
    }
  }

  /** The reader is lossless: it gives v exactly on the documents that show v, if v fits and repeats no key. */
  lemma {:induction false} ConvertIff(node: Node, depth: nat, v: Value)
    ensures Convert(node, depth) == Converted(v) <==> Shows(node, v) && Fits(v, depth) && NoRepeats(v)
    decreases node, 1
  {
    match node
    case RawNode(token) =>
      NumberIff(token, v);
    case ArrayNode(items) =>
      if v.Array? {
        ConvertArrayIff(items, depth, v.items);
      }
    case ObjectNode(members) =>
      if v.Object? {
        ConvertObjectIff(members, depth, v.members);
      }
    case _ =>
  }

  lemma {:induction false} ConvertArrayIff(items: seq<Node>, depth: nat, values: seq<Value>)
    ensures Convert(ArrayNode(items), depth) == Converted(Array(values)) <==>
            Shows(ArrayNode(items), Array(values)) && Fits(Array(values), depth) && NoRepeats(Array(values))
    decreases items, 0
  {
    if |values| == |items| {
      forall i | 0 <= i < |items|
        ensures Convert(items[i], depth + 1) == Converted(values[i]) <==>
                Shows(items[i], values[i]) && Fits(values[i], depth + 1) && NoRepeats(values[i])
      {
        ConvertIff(items[i], depth + 1, values[i]);
      }
    }
    ItemsConverted(items, depth + 1, values);
    hide ConvertItems;
  }

  lemma {:induction false} ConvertObjectIff(members: seq<Member<Node>>, depth: nat, values: seq<Member<Value>>)
    ensures Convert(ObjectNode(members), depth) == Converted(Object(values)) <==>
            Shows(ObjectNode(members), Object(values)) && Fits(Object(values), depth) && NoRepeats(Object(values))
    decreases members, 0
  {
    if |values| == |members| {
      forall i | 0 <= i < |members|
        ensures Convert(members[i].value, depth + 1) == Converted(values[i].value) <==>
                Shows(members[i].value, values[i].value) && Fits(values[i].value, depth + 1) && NoRepeats(values[i].value)
      {
        ConvertIff(members[i].value, depth + 1, values[i].value);
      }
    }
    MembersConverted(members, depth + 1, values);
    hide ConvertMembers;
  }

  lemma NumberIff(token: Bytes, v: Value)
    ensures ConvertNumber(token) == Converted(v) <==>
            v.Int? && token == Decimal.Print(v.i) && -Decimal.MAX_SAFE_INTEGER <= v.i <= Decimal.MAX_SAFE_INTEGER
  {
    if Decimal.IntToken(token) {
      Decimal.PrintOfIntValue(token);
    }
    if v.Int? {
      Decimal.IntValueOfPrint(v.i);
    }
  }

  // ---- The whole reader ------------------------------------------------------------

  /** The library's answer on a text: its error, or the document and how much of the text it took. */
  datatype Reading = Unread(error: ParseError) | Document(root: Node, bytesRead: nat)

  predicate IsBlank(c: Byte) {
    c == 0x20 || c == 0x0A || c == 0x0D || c == 0x09
  }

  predicate Blank(input: Bytes) {
    forall i :: 0 <= i < |input| ==> IsBlank(input[i])
  }

  function Parse(input: Bytes, reading: Reading): Conversion<Value> {
    if Blank(input) then Refused(UnexpectedEnd)
    else if !StringOk(input) then Refused(InvalidString)
    else if reading.Unread? then Refused(reading.error)
    else if reading.bytesRead != |input| then Refused(TrailingData)
    else Convert(reading.root, 0)
  }

  method ParseLossless(input: Bytes, reading: Reading) returns (r: Conversion<Value>)
    ensures r == Parse(input, reading)
    ensures forall v :: r == Converted(v) <==>
                        !Blank(input) && StringOk(input) && reading.Document? && reading.bytesRead == |input| &&
                        Shows(reading.root, v) && Fits(v, 0) && NoRepeats(v)
  {
    if reading.Document? {
      forall v
        ensures Convert(reading.root, 0) == Converted(v) <==> Shows(reading.root, v) && Fits(v, 0) && NoRepeats(v)
      {
        ConvertIff(reading.root, 0, v);
      }
    }
    var blank := true;
    for k := 0 to |input|
      invariant blank == Blank(input[..k])
    {
      assert input[..k + 1] == input[..k] + [input[k]];
      blank := blank && IsBlank(input[k]);
    }
    assert input[..|input|] == input;
    if blank {
      return Refused(UnexpectedEnd);
    }
    var valid := Utf8.Utf8IsValid(input);
    if !valid {
      return Refused(InvalidString);
    }
    if reading.Unread? {
      return Refused(reading.error);
    }
    if reading.bytesRead != |input| {
      return Refused(TrailingData);
    }
    r := ConvertValue(reading.root, 0);
  }

  // ---- Canonical texts are valid UTF-8 and not blank -------------------------------

  lemma {:induction false} EncodeAllAppend(a: seq<Utf8.Scalar>, b: seq<Utf8.Scalar>)
    ensures Utf8.EncodeAll(a + b) == Utf8.EncodeAll(a) + Utf8.EncodeAll(b)
  {
    if a == [] {
      assert a + b == b;
    } else {
      assert (a + b)[1..] == a[1..] + b;
      EncodeAllAppend(a[1..], b);
    }
  }

  lemma StringOkAppend(a: Bytes, b: Bytes)
    requires StringOk(a) && StringOk(b)
    ensures StringOk(a + b)
  {
    Utf8.AcceptedIffReading(a);
    Utf8.AcceptedIffReading(b);
    Utf8.AcceptedIffReading(a + b);
    var x: seq<Utf8.Scalar> :| Utf8.EncodeAll(x) == a;
    var y: seq<Utf8.Scalar> :| Utf8.EncodeAll(y) == b;
    EncodeAllAppend(x, y);
  }

  lemma {:induction false} AsciiOk(s: Bytes)
    requires forall i :: 0 <= i < |s| ==> s[i] < 0x80
    ensures StringOk(s)
  {
    AsciiFrom(s, 0);
  }

  lemma {:induction false} AsciiFrom(s: Bytes, i: nat)
    requires i <= |s| && forall k :: 0 <= k < |s| ==> s[k] < 0x80
    ensures Utf8.Accepted(s, i)
    decreases |s| - i
  {
    if i < |s| {
      AsciiFrom(s, i + 1);
    }
  }

  lemma EscapeOk(c: Byte)
    ensures if c < 0x80 then StringOk(Serializer.Escape(c)) else Serializer.Escape(c) == [c]
  {
    if c < 0x80 {
      assert forall k :: 0 <= k < |Serializer.Escape(c)| ==> Serializer.Escape(c)[k] < 0x80;
      hide Serializer.Escape, StringOk;
      AsciiOk(Serializer.Escape(c));
    }
  }

  lemma EscapeFirst(s: Bytes)
    requires s != []
    ensures Serializer.EscapeAll(s) == Serializer.Escape(s[0]) + Serializer.EscapeAll(s[1..])
  {
    hide Serializer.Escape;
  }

  /** Bytes of a longer sequence are written as they are. */
  lemma {:induction false} EscapeKeepsHigh(high: Bytes, rest: Bytes)
    requires forall i :: 0 <= i < |high| ==> high[i] >= 0x80
    ensures Serializer.EscapeAll(high + rest) == high + Serializer.EscapeAll(rest)
  {
    hide Serializer.EscapeAll, Serializer.Escape;
    if high == [] {
      assert high + rest == rest;
    } else {
      EscapeOk(high[0]);
      EscapeFirst(high + rest);
      assert (high + rest)[1..] == high[1..] + rest;
      EscapeKeepsHigh(high[1..], rest);
    }
  }

  lemma SequenceOk(s: Bytes, i: nat)
    requires i < |s| && Utf8.SequenceAt(s, i)
    ensures StringOk(s[i..i + Utf8.SequenceLength(s[i])])
  {
    var n := Utf8.SequenceLength(s[i]);
    Utf8.SequenceEncodes(s, i);
    var cps: seq<Utf8.Scalar> := [Utf8.CodePoint(s, i, n)];
    assert Utf8.EncodeAll(cps) == Utf8.Encode(cps[0]) + Utf8.EncodeAll([]);
    Utf8.AcceptedIffReading(s[i..i + n]);
  }

  lemma {:induction false} EscapedOk(s: Bytes, i: nat)
    requires i <= |s| && Utf8.Accepted(s, i)
    ensures StringOk(Serializer.EscapeAll(s[i..]))
    decreases |s| - i
  {
    hide Serializer.Escape;
    if i == |s| {
      assert s[i..] == [];
    } else {
      hide Serializer.EscapeAll;
      var n := Utf8.SequenceLength(s[i]);
      EscapedOk(s, i + n);
      hide StringOk;
      var rest := Serializer.EscapeAll(s[i + n..]);
      if n == 1 {
        EscapeOk(s[i]);
        EscapeFirst(s[i..]);
        StringOkAppend(Serializer.Escape(s[i]), rest);
        assert s[i..][1..] == s[i + 1..];
      } else {
        SequenceOk(s, i);
        StringOkAppend(s[i..i + n], rest);
        EscapeKeepsHigh(s[i..i + n], s[i + n..]);
        assert s[i..] == s[i..i + n] + s[i + n..];
      }
    }
  }

  lemma QuotedOk(s: Bytes)
    requires StringOk(s)
    ensures StringOk(Serializer.Quote(s))
  {
    assert s[0..] == s;
    EscapedOk(s, 0);
    AsciiOk([Serializer.QUOTE]);
    StringOkAppend([Serializer.QUOTE], Serializer.EscapeAll(s));
    StringOkAppend([Serializer.QUOTE] + Serializer.EscapeAll(s), [Serializer.QUOTE]);
  }

  lemma {:induction false} MoreOk(pieces: seq<Bytes>)
    requires forall i :: 0 <= i < |pieces| ==> StringOk(pieces[i])
    ensures StringOk(Serializer.More(pieces))
  {
    if pieces == [] {
      AsciiOk([]);
    } else {
      MoreOk(pieces[1..]);
      AsciiOk([Serializer.COMMA]);
      StringOkAppend([Serializer.COMMA], pieces[0]);
      StringOkAppend([Serializer.COMMA] + pieces[0], Serializer.More(pieces[1..]));
    }
  }

  lemma EnclosedOk(open: Byte, pieces: seq<Bytes>, close: Byte)
    requires open < 0x80 && close < 0x80 && forall i :: 0 <= i < |pieces| ==> StringOk(pieces[i])
    ensures StringOk([open] + Serializer.Join(pieces) + [close])
  {
    AsciiOk([]);
    if pieces != [] {
      MoreOk(pieces[1..]);
      StringOkAppend(pieces[0], Serializer.More(pieces[1..]));
    }
    AsciiOk([open]);
    AsciiOk([close]);
    StringOkAppend([open], Serializer.Join(pieces));
    StringOkAppend([open] + Serializer.Join(pieces), [close]);
  }

  lemma MemberTextOk(m: Member<Bytes>)
    requires StringOk(m.key) && StringOk(m.value)
    ensures StringOk(Serializer.MemberText(m))
  {
    QuotedOk(m.key);
    AsciiOk([Serializer.COLON]);
    StringOkAppend(Serializer.Quote(m.key), [Serializer.COLON]);
    StringOkAppend(Serializer.Quote(m.key) + [Serializer.COLON], m.value);
  }

  /** Every canonical text is valid UTF-8, and it does not start with white space. */
  lemma {:induction false} CanonIsText(v: Value)
    requires Clean(v)
    ensures StringOk(Serializer.Canon(v)) && !Blank(Serializer.Canon(v))
    decreases v
  {
    var text := Serializer.Canon(v);
    match v
    case Null => AsciiOk(text); assert text[0] == 0x6E;
    case Bool(b) => AsciiOk(text); assert text[0] == 0x74 || text[0] == 0x66;
    case Int(i) =>
      PrintIsNumber(i);
      AsciiOk(text);
      assert NumberByte(text[0]);
    case Str(s) => QuotedOk(s); assert text[0] == Serializer.QUOTE;
    case Array(items) =>
      forall i | 0 <= i < |items|
        ensures StringOk(Serializer.CanonItems(items)[i])
      {
        CanonIsText(items[i]);
      }
      EnclosedOk(Serializer.OPEN_BRACKET, Serializer.CanonItems(items), Serializer.CLOSE_BRACKET);
      assert text[0] == Serializer.OPEN_BRACKET;
    case Object(members) =>
      var texts := Serializer.CanonMembers(members);
      forall i | 0 <= i < |members|
        ensures StringOk(texts[i].key) && StringOk(texts[i].value)
      {
        CanonIsText(members[i].value);
      }
      SortedTextsOk(texts);
      EnclosedOk(Serializer.OPEN_BRACE, Serializer.MemberTexts(Sort(texts)), Serializer.CLOSE_BRACE);
      assert text[0] == Serializer.OPEN_BRACE;
  }

  lemma SortedTextsOk(texts: seq<Member<Bytes>>)
    requires forall i :: 0 <= i < |texts| ==> StringOk(texts[i].key) && StringOk(texts[i].value)
    ensures forall i :: 0 <= i < |texts| ==> StringOk(Serializer.MemberTexts(Sort(texts))[i])
  {
    var sorted := Sort(texts);
    SortHasSameMembers(texts);
    forall i | 0 <= i < |texts|
      ensures StringOk(Serializer.MemberTexts(sorted)[i])
    {
      assert sorted[i] in texts;
      MemberTextOk(sorted[i]);
    }
  }

  // ---- What the server takes back of what it wrote ---------------------------------

  /** The document of a clean tree. */
  ghost function NodeOf(v: Value): (node: Node)
    requires Clean(v)
    ensures Shows(node, v)
    decreases v
  {
    match v
    case Null => NullNode
    case Bool(b) => BoolNode(b)
    case Int(i) => RawNode(Decimal.Print(i))
    case Str(s) => StringNode(s)
    case Array(items) => ArrayNode(seq(|items|, i requires 0 <= i < |items| => NodeOf(items[i])))
    case Object(members) =>
      ObjectNode(seq(|members|, i requires 0 <= i < |members| => Member(members[i].key, NodeOf(members[i].value))))
  }

  /** The reader on a canonical text, which the library reads to the end as the document of its value. */
  ghost function ReadBack(text: Bytes): Conversion<Value>
    requires Decode(text).Some?
  {
    CanonOfDecode(text);
    Parse(text, Document(NodeOf(Decode(text).value), |text|))
  }

  lemma {:induction false} CleanHasNoRepeats(v: Value)
    requires Clean(v)
    ensures NoRepeats(v)
    decreases v
  {
    match v
    case Array(items) =>
      forall i | 0 <= i < |items|
        ensures NoRepeats(items[i])
      {
        CleanHasNoRepeats(items[i]);
      }
    case Object(members) =>
      forall i | 0 <= i < |members|
        ensures NoRepeats(members[i].value)
      {
        CleanHasNoRepeats(members[i].value);
      }
    case _ =>
  }

  /** Sorting members changes no depth, number or count. */
  lemma {:induction false} FitsNormal(v: Value, depth: nat)
    ensures Fits(Normal(v), depth) <==> Fits(v, depth)
    decreases v
  {
    match v
    case Array(items) =>
      FitsNormalItems(items, depth);
      hide NormalItems, Fits;
    case Object(members) =>
      FitsNormalMembers(members, depth);
      FitsSorted(NormalMembers(members), depth);
      hide NormalMembers, Sort, Fits;
    case _ =>
  }

  lemma {:induction false} FitsNormalItems(items: seq<Value>, depth: nat)
    ensures Fits(Array(NormalItems(items)), depth) <==> Fits(Array(items), depth)
    decreases items
  {
    hide Normal, NormalItems;
    var normal := NormalItems(items);
    forall i | 0 <= i < |items|
      ensures Fits(normal[i], depth + 1) <==> Fits(items[i], depth + 1)
    {
      hide Fits;
      FitsNormal(items[i], depth + 1);
    }
  }

  lemma {:induction false} FitsNormalMembers(members: seq<Member<Value>>, depth: nat)
    ensures Fits(Object(NormalMembers(members)), depth) <==> Fits(Object(members), depth)
    decreases members
  {
    hide Normal, NormalMembers;
    var normal := NormalMembers(members);
    forall i | 0 <= i < |members|
      ensures Fits(normal[i].value, depth + 1) <==> Fits(members[i].value, depth + 1)
    {
      hide Fits;
      FitsNormal(members[i].value, depth + 1);
    }
  }

  lemma FitsSorted(members: seq<Member<Value>>, depth: nat)
    ensures Fits(Object(Sort(members)), depth) <==> Fits(Object(members), depth)
  {
    var sorted := Sort(members);
    SortHasSameMembers(members);
    if Fits(Object(sorted), depth) {
      forall i | 0 <= i < |members|
        ensures Fits(members[i].value, depth + 1)
      {
        assert members[i] in sorted;
      }
    }
    if Fits(Object(members), depth) {
      forall i | 0 <= i < |sorted|
        ensures Fits(sorted[i].value, depth + 1)
      {
        assert sorted[i] in members;
      }
    }
  }

  lemma ReadBackConverts(v: Value)
    requires Clean(v)
    ensures Decode(Serializer.Canon(v)) == Some(Normal(v)) && Clean(Normal(v))
    ensures ReadBack(Serializer.Canon(v)) == Convert(NodeOf(Normal(v)), 0)
  {
    DecodeOfCanon(v);
    CanonIsText(v);
    NormalIsClean(v);
    hide Convert, NodeOf, Normal, Serializer.Canon, Decode, Clean;
  }

  /** The server takes back a strict output exactly when its tree fits the reader's limits. */
  lemma ReadBackOfCanon(v: Value)
    requires Clean(v)
    ensures Decode(Serializer.Canon(v)).Some?
    ensures ReadBack(Serializer.Canon(v)).Converted? <==> Fits(v, 0)
    ensures Fits(v, 0) ==> ReadBack(Serializer.Canon(v)) == Converted(Normal(v))
  {
    ReadBackConverts(v);
    CleanHasNoRepeats(Normal(v));
    FitsNormal(v, 0);
    var node := NodeOf(Normal(v));
    ConvertIff(node, 0, Normal(v));
    if Convert(node, 0).Converted? {
      var other := Convert(node, 0).value;
      ConvertIff(node, 0, other);
      ShowsOne(node, other, Normal(v));
    }
    hide Convert, Shows, Fits, NoRepeats, NodeOf, Normal, Serializer.Canon, Decode, ReadBack;
  }

  /** A document shows at most one tree. */
  lemma {:induction false} ShowsOne(node: Node, a: Value, b: Value)
    requires Shows(node, a) && Shows(node, b)
    ensures a == b
    decreases node
  {
    match node
    case RawNode(token) =>
      Decimal.IntValueOfPrint(a.i);
      Decimal.IntValueOfPrint(b.i);
    case ArrayNode(items) =>
      forall i | 0 <= i < |items|
        ensures a.items[i] == b.items[i]
      {
        ShowsOne(items[i], a.items[i], b.items[i]);
      }
    case ObjectNode(members) =>
      forall i | 0 <= i < |members|
        ensures a.members[i] == b.members[i]
      {
        ShowsOne(members[i].value, a.members[i].value, b.members[i].value);
      }
    case _ =>
  }

  // ---- Outputs it does not take back -----------------------------------------------

  /** Every 64-bit integer is written; those beyond 2^53-1 are refused. */
  lemma IntegerReadBack(i: Int64)
    ensures Decode(Serializer.Canon(Int(i))).Some?
    ensures ReadBack(Serializer.Canon(Int(i))) ==
            if -9007199254740991 <= i <= 9007199254740991 then Converted(Int(i))
            else Refused(IntegerOutOfRange)
  {
    ReadBackConverts(Int(i));
    Decimal.IntValueOfPrint(i);
    hide Serializer.Canon, Decode, ReadBack, Decimal.Print;
  }

  const FIRST_UNSAFE_INTEGER: Int64 := 9007199254740992

  lemma FirstUnsafeInteger()
    ensures Clean(Int(FIRST_UNSAFE_INTEGER)) && Decode(Serializer.Canon(Int(FIRST_UNSAFE_INTEGER))).Some?
    ensures ReadBack(Serializer.Canon(Int(FIRST_UNSAFE_INTEGER))) == Refused(IntegerOutOfRange)
  {
    IntegerReadBack(FIRST_UNSAFE_INTEGER);
    hide Serializer.Canon, Decode, ReadBack;
  }

  /** An empty array inside `n` others, each the only item of the next. */
  function Nested(n: nat): Value {
    if n == 0 then Array([]) else Array([Nested(n - 1)])
  }

  lemma {:induction false} NestedIsClean(n: nat)
    ensures Clean(Nested(n)) && InOrder(Nested(n))
  {
    if n > 0 {
      NestedIsClean(n - 1);
    }
  }

  lemma {:induction false} TooDeepFrom(n: nat, depth: nat)
    requires depth <= MAX_DEPTH + 1 && n + depth > MAX_DEPTH
    ensures Clean(Nested(n)) && Convert(NodeOf(Nested(n)), depth) == Refused(NestingTooDeep)
  {
    NestedIsClean(n);
    if depth <= MAX_DEPTH {
      TooDeepFrom(n - 1, depth + 1);
      var node := NodeOf(Nested(n));
      assert node.items == [NodeOf(Nested(n - 1))] && node.items[..0] == [];
      assert ConvertItems(node.items, depth + 1) == Refused(NestingTooDeep);
    }
  }

  lemma {:induction false} NestedFits(n: nat, depth: nat)
    requires depth <= MAX_DEPTH + 1
    ensures Fits(Nested(n), depth) <==> n + depth <= MAX_DEPTH
  {
    if depth <= MAX_DEPTH && n > 0 {
      NestedFits(n - 1, depth + 1);
      assert Nested(n).items[0] == Nested(n - 1);
    }
  }

  /** An array 64 levels down is read, one 65 or more levels down is written and refused. */
  lemma DeepestArray(n: nat)
    ensures Clean(Nested(n)) && Decode(Serializer.Canon(Nested(n))).Some?
    ensures n <= 64 ==> ReadBack(Serializer.Canon(Nested(n))) == Converted(Nested(n))
    ensures n > 64 ==> ReadBack(Serializer.Canon(Nested(n))) == Refused(NestingTooDeep)
  {
    NestedIsClean(n);
    NormalOfInOrder(Nested(n));
    NestedFits(n, 0);
    ReadBackConverts(Nested(n));
    ReadBackOfCanon(Nested(n));
    if n > MAX_DEPTH {
      TooDeepFrom(n, 0);
    }
    hide Nested, Clean, InOrder, Normal, Convert, Fits, NodeOf, Serializer.Canon, Decode, ReadBack;
  }

  /** An object with `n` different keys. */
  function Wide(n: nat): Value {
    Object(seq(n, i => Member(Decimal.Print(i), Null)))
  }

  lemma WideIsClean(n: nat)
    ensures Clean(Wide(n)) && (Fits(Wide(n), 0) <==> n <= MAX_OBJECT_MEMBERS)
  {
    var members := Wide(n).members;
    forall i | 0 <= i < n
      ensures StringOk(members[i].key)
    {
      PrintIsNumber(i);
      AsciiOk(members[i].key);
    }
    forall i, j | 0 <= i < j < n
      ensures members[i].key != members[j].key
    {
      Decimal.IntValueOfPrint(i);
      Decimal.IntValueOfPrint(j);
    }
  }

  /** An object of 65536 members is read, one of 65537 or more is written and refused. */
  lemma WidestObject(n: nat)
    ensures Clean(Wide(n)) && Decode(Serializer.Canon(Wide(n))).Some?
    ensures n <= 65536 ==> ReadBack(Serializer.Canon(Wide(n))) == Converted(Normal(Wide(n)))
    ensures n > 65536 ==> ReadBack(Serializer.Canon(Wide(n))) == Refused(TooManyObjectMembers)
  {
    WideIsClean(n);
    ReadBackConverts(Wide(n));
    ReadBackOfCanon(Wide(n));
    assert |Normal(Wide(n)).members| == n;
    assert NodeOf(Normal(Wide(n))).ObjectNode? && |NodeOf(Normal(Wide(n))).members| == n;
    hide Clean, Fits, Serializer.Canon, Decode, ReadBack;
  }
}
