/** The error the reader refuses a document with is the first thing wrong with it (src/canonicaljson/parser.cpp). */
module ReaderLaws {
  import opened Basics
  import opened MemberOrder
  import opened JsonValue
  import opened JsonReader
  import Decimal

  /** The token is the printing of the integer. */
  ghost predicate Prints(n: int, token: Bytes) {
    Decimal.Print(n) == token
  }

  ghost function NumberFaults(token: Bytes): seq<ParseError> {
    if exists n :: Prints(n, token) && -9007199254740991 <= n <= 9007199254740991 then []
    else if exists n :: Prints(n, token) then [IntegerOutOfRange]
    else [InvalidNumber]
  }

  /**
   * Everything the reader objects to in a document, in document order: depth
   * before contents, an object's size before its members, a repeated key before
   * the value under it.
   */
  ghost function Faults(node: Node, depth: nat): seq<ParseError> {
    (if depth > 64 then [NestingTooDeep] else []) +
    match node
    case RawNode(token) => NumberFaults(token)
    case ArrayNode(items) => ItemFaults(items, depth + 1)
    case ObjectNode(members) =>
      (if |members| > 65536 then [TooManyObjectMembers] else []) + MemberFaults(members, depth + 1)
    case _ => []
  }

  ghost function ItemFaults(items: seq<Node>, depth: nat): seq<ParseError> {
    if items == [] then []
    else
      var last := |items| - 1;
      ItemFaults(items[..last], depth) + Faults(items[last], depth)
  }

  ghost function MemberFaults(members: seq<Member<Node>>, depth: nat): seq<ParseError> {
    if members == [] then []
    else
      var last := |members| - 1;
      MemberFaults(members[..last], depth) + KeyFaults(members, last) + Faults(members[last].value, depth)
  }

  ghost function KeyFaults(members: seq<Member<Node>>, i: nat): seq<ParseError>
    requires i < |members|
  {
    if exists j :: 0 <= j < i && members[j].key == members[i].key then [DuplicateObjectKey] else []
  }

  ghost predicate Agrees<T>(c: Conversion<T>, faults: seq<ParseError>) {
    if faults == [] then c.Converted? else c == Refused(faults[0])
  }

  lemma NumberAgrees(token: Bytes)
    ensures Agrees(ConvertNumber(token), NumberFaults(token))
  {
    Decimal.TokenIffPrinted(token);
    if Decimal.IntToken(token) {
      Decimal.PrintOfIntValue(token);
      assert Prints(Decimal.IntValue(token), token);
    }
    forall n | Prints(n, token)
      ensures Decimal.IntToken(token) && n == Decimal.IntValue(token)
    {
      Decimal.IntValueOfPrint(n);
    }
  }

  /** A document is converted exactly when there is nothing wrong with it, and else refused with the first fault. */
  lemma {:induction false} RefusedWithFirstFault(node: Node, depth: nat)
    ensures Agrees(Convert(node, depth), Faults(node, depth))
    decreases node, 1
  {
    match node
    case RawNode(token) => NumberAgrees(token);
    case ArrayNode(items) => ItemsAgree(items, depth + 1);
    case ObjectNode(members) => MembersAgree(members, depth + 1);
    case _ =>
  }

  lemma {:induction false} ItemsAgree(items: seq<Node>, depth: nat)
    ensures Agrees(ConvertItems(items, depth), ItemFaults(items, depth))
    decreases items, 0
  {
    if items != [] {
      var last := |items| - 1;
      ItemsAgree(items[..last], depth);
      RefusedWithFirstFault(items[last], depth);
    }
  }

  lemma {:induction false} MembersAgree(members: seq<Member<Node>>, depth: nat)
    ensures Agrees(ConvertMembers(members, depth), MemberFaults(members, depth))
    decreases members, 0
  {
    hide Convert, Faults, Keys, KeyFaults;
    if members != [] {
      var last := |members| - 1;
      MembersAgree(members[..last], depth);
      RefusedWithFirstFault(members[last].value, depth);
      KeyFaultsAre(members, last);
    }
  }

  lemma KeyFaultsAre(members: seq<Member<Node>>, i: nat)
    requires i < |members|
    ensures KeyFaults(members, i) == if members[i].key in Keys(members[..i]) then [DuplicateObjectKey] else []
  {
    if j :| 0 <= j < i && members[j].key == members[i].key {
      assert members[..i][j].key == members[i].key;
    }
  }
}
