/**
 * Prepared statements and what makes one valid: its name, the shape of its SQL,
 * the number of its parameters and the placeholders that refer to them
 * (src/database/statement.cpp).
 */
module Statements {
  import opened Basics

  datatype PreparedStatement = PreparedStatement(name: string, sql: string, parameters: seq<string>)

  const MAX_PARAMETERS: nat := 128
  const MAX_SQL: nat := 16384
  /** `std::size_t` wraps. */
  const SIZE_T: nat := 0x1_0000_0000_0000_0000

  predicate IsDigit(c: char) {
    '0' <= c <= '9'
  }

  predicate NameIsValid(name: string) {
    name != "" && |name| <= 96 &&
    forall i :: 0 <= i < |name| ==> 'a' <= name[i] <= 'z' || IsDigit(name[i]) || name[i] == '_'
  }

  predicate StartsWithVerb(sql: string) {
    "SELECT " <= sql || "INSERT " <= sql || "UPDATE " <= sql || "DELETE " <= sql || "CREATE " <= sql ||
    "ALTER " <= sql || "DROP " <= sql || "SET " <= sql || "RESET " <= sql || "BEGIN" <= sql || "COMMIT" <= sql ||
    "ROLLBACK" <= sql || "SAVEPOINT " <= sql
  }

  predicate FragmentAt(sql: string, i: nat)
    requires i < |sql|
  {
    sql[i] == ';' ||
    (i + 1 < |sql| && ((sql[i] == '-' && sql[i + 1] == '-') || (sql[i] == '/' && sql[i + 1] == '*') ||
                       (sql[i] == '*' && sql[i + 1] == '/')))
  }

  predicate ShapeIsAllowed(sql: string) {
    sql != "" && |sql| <= MAX_SQL && StartsWithVerb(sql) && forall i :: 0 <= i < |sql| ==> !FragmentAt(sql, i)
  }

  /** The fragment stands somewhere in the text. */
  ghost predicate Occurs(fragment: string, sql: string) {
    exists i :: 0 <= i <= |sql| && fragment <= sql[i..]
  }

  lemma StandsAt(fragment: string, sql: string, i: nat)
    requires i <= |sql|
    ensures fragment <= sql[i..] <==> i + |fragment| <= |sql| && forall k :: 0 <= k < |fragment| ==> sql[i + k] == fragment[k]
  {
    var rest := sql[i..];
    assert forall k :: 0 <= k < |rest| ==> rest[k] == sql[i + k];
    if i + |fragment| <= |sql| && forall k :: 0 <= k < |fragment| ==> sql[i + k] == fragment[k] {
      assert rest[..|fragment|] == fragment;
    }
  }

  /** A shape is allowed exactly up to 16384 characters, after one of the verbs, without the four fragments. */
  lemma ShapeIff(sql: string)
    ensures ShapeIsAllowed(sql) <==>
            |sql| <= 16384 && StartsWithVerb(sql) &&
            !Occurs(";", sql) && !Occurs("--", sql) && !Occurs("/*", sql) && !Occurs("*/", sql)
  {
    forall i | 0 <= i < |sql|
      ensures FragmentAt(sql, i) <==>
              ";" <= sql[i..] || "--" <= sql[i..] || "/*" <= sql[i..] || "*/" <= sql[i..]
    {
      FragmentStands(sql, i);
    }
    hide FragmentAt, StartsWithVerb;
    assert sql[|sql|..] == "";
  }

  lemma FragmentStands(sql: string, i: nat)
    requires i < |sql|
    ensures FragmentAt(sql, i) <==> ";" <= sql[i..] || "--" <= sql[i..] || "/*" <= sql[i..] || "*/" <= sql[i..]
  {
    StandsAt(";", sql, i);
    StandsAt("--", sql, i);
    StandsAt("/*", sql, i);
    StandsAt("*/", sql, i);
  }

  // ---- Placeholders ------------------------------------------------------------------

  /** The digits a text starts with. */
  function LeadingDigits(s: string): (d: string)
    ensures d <= s && forall i :: 0 <= i < |d| ==> IsDigit(d[i])
  {
    if s != "" && IsDigit(s[0]) then [s[0]] + LeadingDigits(s[1..]) else ""
  }

  /** The number a digit string stands for, as unsigned 64-bit arithmetic computes it. */
  function Number(d: string): nat
    requires forall i :: 0 <= i < |d| ==> IsDigit(d[i])
  {
    if d == "" then 0 else (Number(d[..|d| - 1]) * 10 + (d[|d| - 1] as int - '0' as int)) % SIZE_T
  }

  /** The numbers of the placeholders, in order; `None` if a dollar sign has no number. */
  function Placeholders(sql: string): Option<seq<nat>>
    decreases |sql|
  {
    if sql == "" then Some([])
    else if sql[0] != '$' then Placeholders(sql[1..])
    else
      var d := LeadingDigits(sql[1..]);
      var rest := Placeholders(sql[1..][|d|..]);
      if d == "" || rest.None? then None else Some([Number(d)] + rest.value)
  }

  /** Exactly the numbers from 1 to the number of parameters occur. */
  predicate ArityMatches(sql: string, count: nat) {
    var p := Placeholders(sql);
    p.Some? && (forall i :: 0 <= i < |p.value| ==> 1 <= p.value[i] <= count) && (forall k :: 1 <= k <= count ==> k in p.value)
  }

  predicate IsValid(s: PreparedStatement) {
    NameIsValid(s.name) && ShapeIsAllowed(s.sql) && |s.parameters| <= MAX_PARAMETERS && ArityMatches(s.sql, |s.parameters|)
  }

  // ---- The scan as the code runs it ------------------------------------------------------

  method ReadNumber(sql: string, start: nat) returns (number: nat, cursor: nat)
    requires start <= |sql|
    ensures start <= cursor <= |sql| && sql[start..cursor] == LeadingDigits(sql[start..])
    ensures number == Number(LeadingDigits(sql[start..]))
  {
    number, cursor := 0, start;
    while cursor < |sql| && IsDigit(sql[cursor])
      invariant start <= cursor <= |sql|
      invariant forall i :: start <= i < cursor ==> IsDigit(sql[i])
      invariant number == Number(sql[start..cursor])
    {
      assert sql[start..cursor + 1][..cursor - start] == sql[start..cursor];
      number := (number * 10 + (sql[cursor] as int - '0' as int)) % SIZE_T;
      cursor := cursor + 1;
    }
    LongestDigits(sql[start..], cursor - start);
  }

  lemma {:induction false} LongestDigits(s: string, n: nat)
    requires n <= |s| && (forall i :: 0 <= i < n ==> IsDigit(s[i])) && (n < |s| ==> !IsDigit(s[n]))
    ensures LeadingDigits(s) == s[..n]
  {
    if n > 0 {
      LongestDigits(s[1..], n - 1);
      assert s[..n] == [s[0]] + s[1..][..n - 1];
    }
  }

  /** Which numbers were seen, among those in range. */
  ghost predicate Marks(marked: seq<bool>, seen: seq<nat>) {
    (forall i :: 0 <= i < |seen| ==> 1 <= seen[i] < |marked| && marked[seen[i]]) &&
    (forall k :: 1 <= k < |marked| && marked[k] ==> k in seen)
  }

  /** Where the scan stands: what is left of the text decides what the placeholders are. */
  lemma PlaceholdersAt(sql: string, index: nat)
    requires index <= |sql|
    ensures index == |sql| ==> Placeholders(sql[index..]) == Some([])
    ensures index < |sql| && sql[index] != '$' ==> Placeholders(sql[index..]) == Placeholders(sql[index + 1..])
    ensures index < |sql| && sql[index] == '$' && (index + 1 == |sql| || !IsDigit(sql[index + 1])) ==>
              Placeholders(sql[index..]) == None
  {
    if index < |sql| {
      assert sql[index..][1..] == sql[index + 1..];
    }
  }

  lemma PlaceholderRead(sql: string, index: nat, cursor: nat, seen: seq<nat>)
    requires index < |sql| && sql[index] == '$' && index + 1 < cursor <= |sql|
    requires sql[index + 1..cursor] == LeadingDigits(sql[index + 1..])
    ensures Joined(seen, Placeholders(sql[index..])) ==
            Joined(seen + [Number(LeadingDigits(sql[index + 1..]))], Placeholders(sql[cursor..]))
  {
    assert sql[index..][1..] == sql[index + 1..];
    assert sql[index + 1..][cursor - (index + 1)..] == sql[cursor..];
    JoinedNext(seen, Number(LeadingDigits(sql[index + 1..])), Placeholders(sql[cursor..]));
  }

  lemma MarkOne(marked: seq<bool>, seen: seq<nat>, n: nat, highest: nat)
    requires Marks(marked, seen) && IsHighest(highest, seen) && 1 <= n < |marked|
    ensures Marks(marked[n := true], seen + [n]) && IsHighest(if highest < n then n else highest, seen + [n])
  {
  }

  lemma NothingMarked(marked: seq<bool>)
    requires forall i :: 0 <= i < |marked| ==> !marked[i]
    ensures Marks(marked, []) && IsHighest(0, [])
  {
  }

  lemma NoPlaceholders(sql: string, count: nat, seen: seq<nat>)
    requires Placeholders(sql) == Joined(seen, None)
    ensures !ArityMatches(sql, count)
  {
  }

  lemma JoinedNothing(seen: seq<nat>)
    ensures Joined(seen, Some([])) == Some(seen)
  {
    assert seen + [] == seen;
  }

  /** The scan for placeholders: it stops at one that is malformed or out of range. */
  method MarkPlaceholders(sql: string, count: nat) returns (ok: bool, marked: seq<bool>, highest: nat, ghost seen: seq<nat>)
    ensures !ok ==> !ArityMatches(sql, count)
    ensures ok ==> Placeholders(sql) == Some(seen) && |marked| == count + 1 && Marks(marked, seen) && IsHighest(highest, seen)
  {
    hide Placeholders, LeadingDigits, Number, Marks, IsHighest, ArityMatches, Joined;
    marked := seq(count + 1, i => false);
    highest, seen := 0, [];
    NothingMarked(marked);
    var index := 0;
    assert sql[0..] == sql;
    JoinedEmpty(Placeholders(sql));
    while index < |sql|
      invariant index <= |sql| && |marked| == count + 1 && Marks(marked, seen) && IsHighest(highest, seen)
      invariant Joined(seen, Placeholders(sql[index..])) == Placeholders(sql)
    {
      PlaceholdersAt(sql, index);
      if sql[index] != '$' {
        index := index + 1;
        continue;
      }
      if index + 1 >= |sql| || !IsDigit(sql[index + 1]) {
        NoPlaceholders(sql, count, seen);
        return false, marked, highest, seen;
      }
      var placeholder, cursor := ReadNumber(sql, index + 1);
      DigitIsRead(sql, index + 1);
      PlaceholderRead(sql, index, cursor, seen);
      if placeholder == 0 || placeholder > count {
        OutOfRange(sql, count, seen + [placeholder], Placeholders(sql[cursor..]));
        return false, marked, highest, seen;
      }
      MarkOne(marked, seen, placeholder, highest);
      seen := seen + [placeholder];
      highest := if highest < placeholder then placeholder else highest;
      marked := marked[placeholder := true];
      index := cursor;
    }
    PlaceholdersAt(sql, index);
    JoinedNothing(seen);
    return true, marked, highest, seen;
  }

  lemma DigitIsRead(sql: string, start: nat)
    requires start < |sql| && IsDigit(sql[start])
    ensures LeadingDigits(sql[start..]) != ""
  {
  }

  ghost predicate IsHighest(highest: nat, seen: seq<nat>) {
    (highest == 0 || highest in seen) && forall i :: 0 <= i < |seen| ==> seen[i] <= highest
  }

  method PlaceholderArityMatches(sql: string, count: nat) returns (ok: bool)
    ensures ok == ArityMatches(sql, count)
  {
    var scanned, marked, highest;
    ghost var seen;
    scanned, marked, highest, seen := MarkPlaceholders(sql, count);
    if !scanned {
      return false;
    }
    hide Placeholders;
    if highest != count {
      assert highest < count && count !in seen;
      return false;
    }
    for k := 1 to highest + 1
      invariant forall i :: 1 <= i < k ==> marked[i]
    {
      if !marked[k] {
        assert k !in seen;
        return false;
      }
    }
    return true;
  }

  lemma JoinedEmpty(rest: Option<seq<nat>>)
    ensures Joined([], rest) == rest
  {
    if rest.Some? {
      assert [] + rest.value == rest.value;
    }
  }

  function Joined(seen: seq<nat>, rest: Option<seq<nat>>): Option<seq<nat>> {
    if rest.None? then None else Some(seen + rest.value)
  }

  lemma JoinedNext(seen: seq<nat>, n: nat, rest: Option<seq<nat>>)
    ensures Joined(seen, if rest.None? then None else Some([n] + rest.value)) == Joined(seen + [n], rest)
  {
    if rest.Some? {
      assert seen + ([n] + rest.value) == seen + [n] + rest.value;
    }
  }

  lemma OutOfRange(sql: string, count: nat, seen: seq<nat>, rest: Option<seq<nat>>)
    requires seen != [] && Joined(seen, rest) == Placeholders(sql)
    requires seen[|seen| - 1] == 0 || seen[|seen| - 1] > count
    ensures !ArityMatches(sql, count)
  {
    if rest.Some? {
      assert Placeholders(sql).value[|seen| - 1] == seen[|seen| - 1];
    }
  }

  method PreparedStatementIsValid(s: PreparedStatement) returns (ok: bool)
    ensures ok == IsValid(s)
  {
    if !NameIsValid(s.name) {
      return false;
    }
    if !ShapeIsAllowed(s.sql) {
      return false;
    }
    if |s.parameters| > MAX_PARAMETERS {
      return false;
    }
    ok := PlaceholderArityMatches(s.sql, |s.parameters|);
  }

  // ---- Numbers in placeholders are read back ------------------------------------------------

  /** `std::to_string` of an unsigned number. */
  function Decimal(n: nat): (s: string)
    ensures s != "" && forall i :: 0 <= i < |s| ==> IsDigit(s[i])
  {
    var digit := (n % 10 + '0' as int) as char;
    if n < 10 then [digit] else Decimal(n / 10) + [digit]
  }

  lemma {:induction false} NumberOfDecimal(n: nat)
    requires n < SIZE_T
    ensures Number(Decimal(n)) == n
  {
    var s := Decimal(n);
    if n >= 10 {
      NumberOfDecimal(n / 10);
      assert s[..|s| - 1] == Decimal(n / 10);
    } else {
      assert s[..|s| - 1] == "";
    }
  }

  /** Text without a dollar sign adds no placeholder, */
  lemma {:induction false} NoDollar(a: string, b: string)
    requires forall i :: 0 <= i < |a| ==> a[i] != '$'
    ensures Placeholders(a + b) == Placeholders(b)
  {
    if a == "" {
      assert a + b == b;
    } else {
      assert (a + b)[0] == a[0] && (a + b)[1..] == a[1..] + b;
      NoDollar(a[1..], b);
    }
  }

  /** and a dollar sign with a number adds that number. */
  lemma OneDollar(n: nat, b: string)
    requires n < SIZE_T && (b != "" ==> !IsDigit(b[0]))
    ensures Placeholders("$" + Decimal(n) + b) == Joined([n], Placeholders(b))
  {
    var s := "$" + Decimal(n) + b;
    assert s[1..] == Decimal(n) + b;
    LongestDigits(s[1..], |Decimal(n)|);
    assert s[1..][..|Decimal(n)|] == Decimal(n) && s[1..][|Decimal(n)|..] == b;
    NumberOfDecimal(n);
  }
}
