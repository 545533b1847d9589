/**
 * The two UTF-8 validators of the server, src/canonicaljson/parser.cpp and
 * src/auth/identity.cpp, against the encoding of RFC 3629, section 3.
 *
 * Bytes are integers below 256, so a mask test on a byte is a range test
 * (`first & 0xE0 == 0xC0` is `0xC0 <= first < 0xE0`), stripping the marker
 * bits of a byte whose marker is known is a subtraction, and
 * `(cp << 6) | bits` is `cp * 64 + bits`.
 */
module Utf8 {
  import opened Basics

  predicate IsScalar(cp: int) {
    0 <= cp <= 0x10FFFF && !(0xD800 <= cp <= 0xDFFF)
  }

  /** A Unicode scalar value. */
  type Scalar = cp: int | 0 <= cp <= 0x10FFFF && !(0xD800 <= cp <= 0xDFFF)

  /** A continuation byte: the low six bits of `x`. */
  function Tail(x: nat): Byte {
    0x80 + x % 0x40
  }

  /** The shortest-form encoding of one scalar value. */
  function Encode(cp: Scalar): (s: Bytes)
    ensures 1 <= |s| <= 4
  {
    var c1 := cp / 0x40;
    var c2 := c1 / 0x40;
    var c3 := c2 / 0x40;
    if cp < 0x80 then var b: Byte := cp; [b]
    else if cp < 0x800 then var b: Byte := 0xC0 + c1; [b, Tail(cp)]
    else if cp < 0x10000 then var b: Byte := 0xE0 + c2; [b, Tail(c1), Tail(cp)]
    else var b: Byte := 0xF0 + c3; [b, Tail(c2), Tail(c1), Tail(cp)]
  }

  function EncodeAll(cps: seq<Scalar>): Bytes {
    if cps == [] then [] else Encode(cps[0]) + EncodeAll(cps[1..])
  }

  // ---- One sequence, starting at position i of a byte string --------------

  /** Length announced by a lead byte; 0 for a byte that cannot lead. */
  function SequenceLength(first: Byte): nat {
    if first < 0x80 then 1
    else if 0xC0 <= first < 0xE0 then 2
    else if 0xE0 <= first < 0xF0 then 3
    else if 0xF0 <= first < 0xF8 then 4
    else 0
  }

  function LeadBits(first: Byte): int {
    if first < 0x80 then first
    else if first < 0xE0 then first - 0xC0
    else if first < 0xF0 then first - 0xE0
    else first - 0xF0
  }

  /** Code point read from `n` bytes, six bits a continuation byte. */
  function CodePoint(s: Bytes, i: nat, n: nat): int
    requires 1 <= n && i + n <= |s|
  {
    if n == 1 then LeadBits(s[i]) else CodePoint(s, i, n - 1) * 64 + s[i + n - 1] - 0x80
  }

  function MinCodePoint(n: nat): nat {
    if n == 2 then 0x80 else if n == 3 then 0x800 else if n == 4 then 0x10000 else 0
  }

  predicate Continuations(s: Bytes, i: nat, n: nat)
    requires i + n <= |s|
  {
    forall j :: i + 1 <= j < i + n ==> 0x80 <= s[j] < 0xC0
  }

  /** The checks one turn of either validator's loop makes. */
  predicate SequenceAt(s: Bytes, i: nat)
    requires i < |s|
  {
    var n := SequenceLength(s[i]);
    n != 0 && i + n <= |s| && Continuations(s, i, n) &&
    MinCodePoint(n) <= CodePoint(s, i, n) && IsScalar(CodePoint(s, i, n))
  }

  /** The checks of the loop from position `i` on. */
  predicate Accepted(s: Bytes, i: nat)
    requires i <= |s|
    decreases |s| - i
  {
    i == |s| || (SequenceAt(s, i) && Accepted(s, i + SequenceLength(s[i])))
  }

  // ---- Decoding and encoding one sequence are inverse ----------------------

  lemma SplitSix(hi: nat, low: nat)
    requires low < 64
    ensures (hi * 64 + low) / 0x40 == hi && Tail(hi * 64 + low) == 0x80 + low
  {
  }

  lemma Encodes2(cp: Scalar, a: nat, b: nat)
    requires a < 0x20 && b < 64 && 0x80 <= cp == a * 64 + b
    ensures Encode(cp) == [0xC0 + a, 0x80 + b]
  {
    SplitSix(a, b);
  }

  lemma Encodes3(cp: Scalar, a: nat, b: nat, c: nat)
    requires a < 0x10 && b < 64 && c < 64 && 0x800 <= cp == (a * 64 + b) * 64 + c
    ensures Encode(cp) == [0xE0 + a, 0x80 + b, 0x80 + c]
  {
    SplitSix(a, b);
    SplitSix(a * 64 + b, c);
  }

  lemma Encodes4(cp: Scalar, a: nat, b: nat, c: nat, d: nat)
    requires a < 0x08 && b < 64 && c < 64 && d < 64
    requires 0x10000 <= cp == ((a * 64 + b) * 64 + c) * 64 + d
    ensures Encode(cp) == [0xF0 + a, 0x80 + b, 0x80 + c, 0x80 + d]
  {
    SplitSix(a, b);
    SplitSix(a * 64 + b, c);
    SplitSix((a * 64 + b) * 64 + c, d);
  }

  lemma UnfoldCodePoint(s: Bytes, i: nat)
    ensures i + 1 <= |s| ==> CodePoint(s, i, 1) == LeadBits(s[i])
    ensures i + 2 <= |s| ==> CodePoint(s, i, 2) == CodePoint(s, i, 1) * 64 + s[i + 1] - 0x80
    ensures i + 3 <= |s| ==> CodePoint(s, i, 3) == CodePoint(s, i, 2) * 64 + s[i + 2] - 0x80
    ensures i + 4 <= |s| ==> CodePoint(s, i, 4) == CodePoint(s, i, 3) * 64 + s[i + 3] - 0x80
  {
  }

  lemma Sequence2(s: Bytes, i: nat)
    requires i < |s| && SequenceAt(s, i) && SequenceLength(s[i]) == 2
    ensures s[i..i + 2] == Encode(CodePoint(s, i, 2))
  {
    var a: nat, b: nat := s[i] - 0xC0, s[i + 1] - 0x80;
    UnfoldCodePoint(s, i);
    Encodes2(CodePoint(s, i, 2), a, b);
  }

  lemma Sequence3(s: Bytes, i: nat)
    requires i < |s| && SequenceAt(s, i) && SequenceLength(s[i]) == 3
    ensures s[i..i + 3] == Encode(CodePoint(s, i, 3))
  {
    var a: nat, b: nat, c: nat := s[i] - 0xE0, s[i + 1] - 0x80, s[i + 2] - 0x80;
    UnfoldCodePoint(s, i);
    Encodes3(CodePoint(s, i, 3), a, b, c);
  }

  lemma Sequence4(s: Bytes, i: nat)
    requires i < |s| && SequenceAt(s, i) && SequenceLength(s[i]) == 4
    ensures s[i..i + 4] == Encode(CodePoint(s, i, 4))
  {
    var a: nat, b: nat, c: nat, d: nat := s[i] - 0xF0, s[i + 1] - 0x80, s[i + 2] - 0x80, s[i + 3] - 0x80;
    UnfoldCodePoint(s, i);
    Encodes4(CodePoint(s, i, 4), a, b, c, d);
  }

  lemma SequenceEncodes(s: Bytes, i: nat)
    requires i < |s| && SequenceAt(s, i)
    ensures s[i..i + SequenceLength(s[i])] == Encode(CodePoint(s, i, SequenceLength(s[i])))
  {
    var n := SequenceLength(s[i]);
    if n == 1 {
      assert s[i..i + 1] == [s[i]];
    } else if n == 2 {
      Sequence2(s, i);
    } else if n == 3 {
      Sequence3(s, i);
    } else {
      Sequence4(s, i);
    }
  }

  lemma JoinSix(x: nat)
    ensures x / 0x40 * 64 + Tail(x) - 0x80 == x && 0x80 <= Tail(x) < 0xC0
  {
  }

  lemma Reads2(s: Bytes, i: nat, cp: Scalar)
    requires 0x80 <= cp < 0x800 && i + 2 <= |s| && s[i] == 0xC0 + cp / 0x40 && s[i + 1] == Tail(cp)
    ensures SequenceLength(s[i]) == 2 && SequenceAt(s, i) && CodePoint(s, i, 2) == cp
  {
    JoinSix(cp);
    UnfoldCodePoint(s, i);
  }

  lemma Reads3(s: Bytes, i: nat, cp: Scalar)
    requires 0x800 <= cp < 0x10000 && i + 3 <= |s| && s[i] == 0xE0 + cp / 0x40 / 0x40
    requires s[i + 1] == Tail(cp / 0x40) && s[i + 2] == Tail(cp)
    ensures SequenceLength(s[i]) == 3 && SequenceAt(s, i) && CodePoint(s, i, 3) == cp
  {
    JoinSix(cp);
    JoinSix(cp / 0x40);
    UnfoldCodePoint(s, i);
  }

  lemma Reads4(s: Bytes, i: nat, cp: Scalar)
    requires 0x10000 <= cp && i + 4 <= |s| && s[i] == 0xF0 + cp / 0x40 / 0x40 / 0x40
    requires s[i + 1] == Tail(cp / 0x40 / 0x40) && s[i + 2] == Tail(cp / 0x40) && s[i + 3] == Tail(cp)
    ensures SequenceLength(s[i]) == 4 && SequenceAt(s, i) && CodePoint(s, i, 4) == cp
  {
    JoinSix(cp);
    JoinSix(cp / 0x40);
    JoinSix(cp / 0x40 / 0x40);
    UnfoldCodePoint(s, i);
  }

  lemma EncodingIsSequence(s: Bytes, i: nat, cp: Scalar)
    requires i + |Encode(cp)| <= |s| && s[i..i + |Encode(cp)|] == Encode(cp)
    ensures SequenceAt(s, i) && SequenceLength(s[i]) == |Encode(cp)| && CodePoint(s, i, |Encode(cp)|) == cp
  {
    var e := Encode(cp);
    forall j | 0 <= j < |e|
      ensures s[i + j] == e[j]
    {
      assert s[i + j] == s[i..i + |e|][j];
    }
    assert s[i + 0] == e[0];
    if cp >= 0x10000 {
      Reads4(s, i, cp);
    } else if cp >= 0x800 {
      Reads3(s, i, cp);
    } else if cp >= 0x80 {
      Reads2(s, i, cp);
    }
  }

  lemma FirstOfAll(cps: seq<Scalar>)
    requires cps != []
    ensures var s := EncodeAll(cps); var n := |Encode(cps[0])|;
            n <= |s| && s[..n] == s[0..n] == Encode(cps[0]) && s[n..] == EncodeAll(cps[1..])
  {
  }

  /** A text has one reading: the encoding of scalar values is injective. */
  lemma {:induction false} EncodeAllInjective(a: seq<Scalar>, b: seq<Scalar>)
    requires EncodeAll(a) == EncodeAll(b)
    ensures a == b
  {
    if a == [] || b == [] {
    } else {
      FirstOfAll(a);
      FirstOfAll(b);
      EncodingIsSequence(EncodeAll(a), 0, a[0]);
      EncodingIsSequence(EncodeAll(b), 0, b[0]);
      EncodeAllInjective(a[1..], b[1..]);
      assert a == [a[0]] + a[1..] && b == [b[0]] + b[1..];
    }
  }

  /** The loop accepts every encoding of scalar values, */
  lemma {:induction false} EncodingsAreAccepted(s: Bytes, i: nat, cps: seq<Scalar>)
    requires i <= |s| && s[i..] == EncodeAll(cps)
    ensures Accepted(s, i)
    decreases cps
  {
    if cps != [] {
      FirstOfAll(cps);
      var n := |Encode(cps[0])|;
      assert s[i..i + n] == s[i..][..n];
      EncodingIsSequence(s, i, cps[0]);
      assert s[i + n..] == s[i..][n..];
      EncodingsAreAccepted(s, i + n, cps[1..]);
    }
  }

  /** and nothing else: an accepted text has a reading. */
  lemma {:induction false} AcceptedHasReading(s: Bytes, i: nat) returns (cps: seq<Scalar>)
    requires i <= |s| && Accepted(s, i)
    ensures EncodeAll(cps) == s[i..]
    decreases |s| - i
  {
    if i == |s| {
      cps := [];
    } else {
      var n := SequenceLength(s[i]);
      SequenceEncodes(s, i);
      hide Encode, CodePoint, SequenceLength, Continuations;
      var rest := AcceptedHasReading(s, i + n);
      cps := [CodePoint(s, i, n)] + rest;
      assert s[i..] == s[i..i + n] + s[i + n..];
    }
  }

  /** The bytes are the encoding of some scalar values, one after the other. */
  ghost predicate IsText(s: Bytes) {
    exists cps: seq<Scalar> :: EncodeAll(cps) == s
  }

  lemma AcceptedIffReading(s: Bytes)
    ensures Accepted(s, 0) <==> IsText(s)
  {
    assert s[0..] == s;
    if Accepted(s, 0) {
      var cps := AcceptedHasReading(s, 0);
    }
    if IsText(s) {
      var cps: seq<Scalar> :| EncodeAll(cps) == s;
      EncodingsAreAccepted(s, 0, cps);
    }
  }

  // ---- The validators ------------------------------------------------------

  /** The length of the encoding that starts with a non-ASCII byte, as the parser decodes it; 0 if there is none. */
  method MultiByteAt(value: Bytes, index: nat) returns (n: nat)
    requires index < |value| && value[index] > 0x7F
    ensures n == if SequenceAt(value, index) then SequenceLength(value[index]) else 0
  {
    var first := value[index];
    var length: nat, minCodepoint: nat, codepoint: int := 0, 0, 0;
    if 0xC0 <= first < 0xE0 {
      length, minCodepoint, codepoint := 2, 0x80, first - 0xC0;
    } else if 0xE0 <= first < 0xF0 {
      length, minCodepoint, codepoint := 3, 0x800, first - 0xE0;
    } else if 0xF0 <= first < 0xF8 {
      length, minCodepoint, codepoint := 4, 0x10000, first - 0xF0;
    } else {
      return 0;
    }
    assert length == SequenceLength(first) && minCodepoint == MinCodePoint(length) && codepoint == LeadBits(first);
    if index + length > |value| {
      return 0;
    }
    var offset := 1;
    while offset < length
      invariant 1 <= offset <= length
      invariant Continuations(value, index, offset)
      invariant codepoint == CodePoint(value, index, offset)
    {
      var next := value[index + offset];
      if !(0x80 <= next < 0xC0) {
        return 0;
      }
      codepoint := codepoint * 64 + next - 0x80;
      offset := offset + 1;
    }
    if codepoint < minCodepoint || codepoint > 0x10FFFF || 0xD800 <= codepoint <= 0xDFFF {
      return 0;
    }
    return length;
  }

  method Utf8IsValid(value: Bytes) returns (ok: bool)
    ensures ok == Accepted(value, 0)
    ensures ok <==> IsText(value)
  {
    AcceptedIffReading(value);
    var index := 0;
    while index < |value|
      invariant 0 <= index <= |value|
      invariant Accepted(value, 0) == Accepted(value, index)
    {
      if value[index] <= 0x7F {
        index := index + 1;
        continue;
      }
      var length := MultiByteAt(value, index);
      if length == 0 {
        return false;
      }
      index := index + length;
    }
    return true;
  }

  const NUL: Byte := 0x00
  const COLON: Byte := 0x3A

  /** Whether neither NUL nor ':' occurs from position `i` on. */
  predicate Plain(s: Bytes, i: nat) {
    forall k :: i <= k < |s| ==> s[k] != NUL && s[k] != COLON
  }

  lemma PlainSplits(s: Bytes, i: nat, n: nat)
    requires 1 <= n && i + n <= |s| && Continuations(s, i, n)
    ensures Plain(s, i) <==> s[i] != NUL && s[i] != COLON && Plain(s, i + n)
  {
  }

  /** The length of the encoding that starts at `i`, as the localpart validator decodes it; 0 if there is none. */
  method DecodeAt(bytes: Bytes, i: nat) returns (n: nat)
    requires i < |bytes|
    ensures n == if SequenceAt(bytes, i) then SequenceLength(bytes[i]) else 0
  {
    var byte := bytes[i];
    var seqLen: nat, codePoint: int := 0, 0;
    if byte < 0x80 {
      seqLen, codePoint := 1, byte;
    } else if 0xC0 <= byte < 0xE0 {
      seqLen, codePoint := 2, byte - 0xC0;
    } else if 0xE0 <= byte < 0xF0 {
      seqLen, codePoint := 3, byte - 0xE0;
    } else if 0xF0 <= byte < 0xF8 {
      seqLen, codePoint := 4, byte - 0xF0;
    } else {
      return 0;
    }
    assert seqLen == SequenceLength(byte) && codePoint == LeadBits(byte);
    var j := 1;
    while j < seqLen
      invariant 1 <= j <= seqLen && i + j <= |bytes|
      invariant Continuations(bytes, i, j)
      invariant codePoint == CodePoint(bytes, i, j)
    {
      if i + j >= |bytes| {
        return 0;
      }
      var cont := bytes[i + j];
      if !(0x80 <= cont < 0xC0) {
        return 0;
      }
      codePoint := codePoint * 64 + cont - 0x80;
      j := j + 1;
    }
    if seqLen == 2 && codePoint < 0x80 {
      return 0;
    }
    if seqLen == 3 && codePoint < 0x800 {
      return 0;
    }
    if seqLen == 4 && codePoint < 0x10000 {
      return 0;
    }
    if 0xD800 <= codePoint <= 0xDFFF {
      return 0;
    }
    if codePoint > 0x10FFFF {
      return 0;
    }
    return seqLen;
  }

  method IsValidFederatedLocalpart(bytes: Bytes) returns (ok: bool)
    ensures ok <==> IsText(bytes) && NUL !in bytes && COLON !in bytes
  {
    AcceptedIffReading(bytes);
    var i := 0;
    while i < |bytes|
      invariant 0 <= i <= |bytes|
      invariant Accepted(bytes, 0) && Plain(bytes, 0) <==> Accepted(bytes, i) && Plain(bytes, i)
    {
      if bytes[i] == NUL || bytes[i] == COLON {
        return false;
      }
      var n := DecodeAt(bytes, i);
      if n == 0 {
        return false;
      }
      PlainSplits(bytes, i, n);
      i := i + n;
    }
    return true;
  }
}
