/**
 * Canonical JSON integers: the decimal text `std::to_string` writes
 * (src/canonicaljson/serializer.cpp) and the number tokens the lossless
 * parser takes (src/canonicaljson/parser.cpp).
 */
module Decimal {
  import opened Basics

  const MINUS: Byte := 0x2D
  const ZERO: Byte := 0x30
  const MAX_SAFE_INTEGER := 9007199254740991
  const MAX_INT64 := 9223372036854775807

  predicate IsDigit(b: Byte) {
    ZERO <= b <= 0x39
  }

  predicate AllDigits(s: Bytes) {
    forall i :: 0 <= i < |s| ==> IsDigit(s[i])
  }

  function PrintNat(n: nat): (s: Bytes)
    ensures s != [] && AllDigits(s)
    ensures s[0] == ZERO ==> n == 0 && |s| == 1
  {
    var digit: Byte := ZERO + n % 10;
    if n < 10 then [digit] else PrintNat(n / 10) + [digit]
  }

  /** `std::to_string` of a signed integer. */
  function Print(n: int): (s: Bytes)
    ensures s != []
  {
    if n < 0 then [MINUS] + PrintNat(-n) else PrintNat(n)
  }

  function NatValue(s: Bytes): nat
    requires AllDigits(s)
  {
    if s == [] then 0 else NatValue(s[..|s| - 1]) * 10 + (s[|s| - 1] - ZERO)
  }

  /** A non-empty digit string without a leading zero, unless it is "0" itself. */
  predicate NatToken(s: Bytes) {
    s != [] && AllDigits(s) && (s[0] == ZERO ==> |s| == 1)
  }

  predicate IntToken(s: Bytes) {
    if s != [] && s[0] == MINUS then NatToken(s[1..]) && s[1] != ZERO else NatToken(s)
  }

  function IntValue(s: Bytes): int
    requires IntToken(s)
  {
    if s[0] == MINUS then 0 - NatValue(s[1..]) else NatValue(s)
  }

  lemma {:induction false} ValueOfPrint(n: nat)
    ensures NatValue(PrintNat(n)) == n
  {
    var s := PrintNat(n);
    if n >= 10 {
      ValueOfPrint(n / 10);
      assert s[..|s| - 1] == PrintNat(n / 10);
    } else {
      assert s[..|s| - 1] == [];
    }
  }

  lemma {:induction false} PrintOfValue(s: Bytes)
    requires NatToken(s)
    ensures PrintNat(NatValue(s)) == s
    ensures s[0] != ZERO ==> NatValue(s) > 0
  {
    var front, last := s[..|s| - 1], s[|s| - 1];
    assert s == front + [last];
    if front != [] {
      assert front[0] == s[0];
      PrintOfValue(front);
    }
  }

  /** A token of the canonical shape is the printing of its value, */
  lemma PrintOfIntValue(s: Bytes)
    requires IntToken(s)
    ensures Print(IntValue(s)) == s
  {
    if s[0] == MINUS {
      PrintOfValue(s[1..]);
      assert s == [MINUS] + s[1..];
    } else {
      PrintOfValue(s);
    }
  }

  /** every printing has the canonical shape, and its value is the number printed. */
  lemma IntValueOfPrint(n: int)
    ensures IntToken(Print(n)) && IntValue(Print(n)) == n
  {
    var s := Print(n);
    if n < 0 {
      assert s[1..] == PrintNat(-n);
      ValueOfPrint(-n);
    } else {
      ValueOfPrint(n);
    }
  }

  lemma TokenIffPrinted(s: Bytes)
    ensures IntToken(s) <==> exists n :: Print(n) == s
  {
    if IntToken(s) {
      PrintOfIntValue(s);
    }
    forall n | Print(n) == s
      ensures IntToken(s)
    {
      IntValueOfPrint(n);
    }
  }

  method IsCanonicalInt64Token(token: Bytes) returns (ok: bool)
    ensures ok == IntToken(token)
    ensures ok <==> exists n :: Print(n) == token
  {
    TokenIffPrinted(token);
    if token == [] {
      return false;
    }
    var index := 0;
    var hasMinus := token[index] == MINUS;
    if hasMinus {
      if |token| == 1 {
        return false;
      }
      index := index + 1;
    }
    if token[index] == ZERO {
      if hasMinus {
        return false;
      }
      return index + 1 == |token|;
    }
    if token[index] < ZERO + 1 || token[index] > ZERO + 9 {
      return false;
    }
    index := index + 1;
    while index < |token|
      invariant index <= |token|
      invariant forall k :: (if hasMinus then 1 else 0) <= k < index ==> IsDigit(token[k])
    {
      var character := token[index];
      if character < ZERO || character > ZERO + 9 {
        return false;
      }
      index := index + 1;
    }
    return true;
  }

  datatype NumberResult = Number(value: int) | InvalidNumber | IntegerOutOfRange

  predicate FractionOrExponent(token: Bytes) {
    0x2E in token || 0x65 in token || 0x45 in token
  }

  lemma TokenIsInteger(token: Bytes)
    requires IntToken(token)
    ensures !FractionOrExponent(token)
  {
    forall k | 0 <= k < |token|
      ensures token[k] == MINUS || IsDigit(token[k])
    {
      if token[0] == MINUS && k >= 1 {
        assert token[1..][k - 1] == token[k];
      }
    }
  }

  /** The number a raw token stands for, or why it stands for none. */
  function NumberOf(token: Bytes): NumberResult {
    if !IntToken(token) then InvalidNumber
    else if -MAX_SAFE_INTEGER <= IntValue(token) <= MAX_SAFE_INTEGER then Number(IntValue(token))
    else IntegerOutOfRange
  }

  /**
   * What the parser makes of a raw number token. `std::from_chars` reads a
   * token of the canonical shape to its value, or reports that it does not
   * fit 64 bits.
   */
  method RawNumberAsInt64(token: Bytes) returns (r: NumberResult)
    ensures r == NumberOf(token)
    ensures forall n :: r == Number(n) <==> Print(n) == token && -9007199254740991 <= n <= 9007199254740991
    ensures r == IntegerOutOfRange <==>
            exists n :: Print(n) == token && !(-9007199254740991 <= n <= 9007199254740991)
    ensures r == InvalidNumber <==> !exists n :: Print(n) == token
  {
    TokenIffPrinted(token);
    forall n | Print(n) == token
      ensures IntToken(token) && n == IntValue(token)
    {
      IntValueOfPrint(n);
    }
    if IntToken(token) {
      TokenIsInteger(token);
    }
    if FractionOrExponent(token) {
      return InvalidNumber;
    }
    var canonical := IsCanonicalInt64Token(token);
    if !canonical {
      return InvalidNumber;
    }
    PrintOfIntValue(token);
    var parsed := IntValue(token);
    if parsed < -MAX_INT64 - 1 || parsed > MAX_INT64 {
      return IntegerOutOfRange;
    }
    if parsed < -MAX_SAFE_INTEGER || parsed > MAX_SAFE_INTEGER {
      return IntegerOutOfRange;
    }
    return Number(parsed);
  }
}
