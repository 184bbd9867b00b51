/**
 * Decimal text for integers, as Python's `str` writes a non-negative `int`
 * and as Python's `int(text)` reads one back (base 10).
 */
module Numerals {
  import opened Options

  predicate IsDigit(c: char) {
    '0' <= c <= '9'
  }

  function DigitChar(d: nat): (c: char)
    requires d < 10
    ensures IsDigit(c) && c as int - '0' as int == d
  {
    (d + '0' as int) as char
  }

  /** Python's `str(n)` for `n >= 0`: decimal digits, no sign, no leading zero. */
  function NatToString(n: nat): (s: string)
    ensures |s| > 0 && forall i :: 0 <= i < |s| ==> IsDigit(s[i])
    ensures |s| > 1 ==> s[0] != '0'
    ensures n < 10 <==> |s| == 1
    decreases n
  {
    if n < 10 then [DigitChar(n)] else NatToString(n / 10) + [DigitChar(n % 10)]
  }

  /** The number a string of decimal digits denotes, most significant first. */
  function DigitsValue(s: string): nat
    requires forall i :: 0 <= i < |s| ==> IsDigit(s[i])
  {
    if s == [] then 0
    else
      assert IsDigit(s[|s| - 1]);
      10 * DigitsValue(s[..|s| - 1]) + (s[|s| - 1] as int - '0' as int)
  }

  /**
   * The ASCII whitespace `int` strips around a literal: blank, tab, line
   * feed, vertical tab, form feed and carriage return.
   */
  predicate IsSpace(c: char) {
    c == ' ' || 9 <= c as int <= 13
  }

  predicate AllSpace(s: string) {
    forall i :: 0 <= i < |s| ==> IsSpace(s[i])
  }

  function TrimStart(s: string): (r: string)
    ensures |r| <= |s| && (r != [] ==> !IsSpace(r[0]))
  {
    if s != [] && IsSpace(s[0]) then TrimStart(s[1..]) else s
  }

  function TrimEnd(s: string): (r: string)
    ensures |r| <= |s| && (r != [] ==> !IsSpace(r[|r| - 1]))
  {
    if s != [] && IsSpace(s[|s| - 1]) then TrimEnd(s[..|s| - 1]) else s
  }

  /**
   * The body of a base-10 integer literal as `int` accepts it: digits,
   * optionally grouped by single underscores between digits.
   */
  predicate IsDigitGroups(s: string) {
    && |s| > 0
    && IsDigit(s[0]) && IsDigit(s[|s| - 1])
    && (forall i :: 0 <= i < |s| ==> IsDigit(s[i]) || s[i] == '_')
    && (forall i, j :: 0 <= i < |s| && 0 <= j < |s| && j == i + 1 ==> !(s[i] == '_' && s[j] == '_'))
  }

  /** `s` with its underscores removed. */
  function DropUnderscores(s: string): (r: string)
    requires forall i :: 0 <= i < |s| ==> IsDigit(s[i]) || s[i] == '_'
    ensures forall i :: 0 <= i < |r| ==> IsDigit(r[i])
    ensures (forall i :: 0 <= i < |s| ==> IsDigit(s[i])) ==> r == s
  {
    if s == [] then []
    else DropUnderscores(s[..|s| - 1]) + (if s[|s| - 1] == '_' then [] else [s[|s| - 1]])
  }

  /**
   * Python's `int(text)`: surrounding whitespace is ignored, one optional
   * sign, then digits. `None` stands for the `ValueError` it raises on
   * anything else.
   */
  function ParseInt(text: string): Option<int> {
    ParseSigned(TrimEnd(TrimStart(text)))
  }

  /** `int` reads a text of plain decimal digits as the number they denote. */
  lemma ParseIntOfDigits(text: string)
    requires |text| > 0 && forall i :: 0 <= i < |text| ==> IsDigit(text[i])
    ensures ParseInt(text) == Some(DigitsValue(text))
  {
    DigitsAreTrimmed(text);
    assert SplitSign(text) == (false, text);
    DigitGroupsOfDigits(text);
  }

  /** An optional sign followed by digit groups; `None` for anything else. */
  function ParseSigned(t: string): Option<int>
  {
    if t == [] then None
    else
      var (negative, body) := SplitSign(t);
      if negative then Negated(ParseDigitGroups(body)) else ParseDigitGroups(body)
  }

  /** Whether `t` starts with a minus sign, and `t` without its leading sign, if any. */
  function SplitSign(t: string): (bool, string)
    requires t != []
  {
    if t[0] == '-' then (true, t[1..])
    else if t[0] == '+' then (false, t[1..])
    else (false, t)
  }

  function Negated(v: Option<nat>): Option<int> {
    match v
    case Some(n) => Some(-(n as int))
    case None => None
  }

  lemma NegatedSome(n: nat)
    ensures Negated(Some(n)) == Some(-(n as int))
  {
  }

  /** Digit groups as `int` reads them; `None` for anything else. */
  function ParseDigitGroups(body: string): Option<nat> {
    if IsDigitGroups(body) then Some(DigitsValue(DropUnderscores(body))) else None
  }

  /** Plain digits are digit groups, read as the number they denote. */
  lemma DigitGroupsOfDigits(body: string)
    requires |body| > 0 && forall i :: 0 <= i < |body| ==> IsDigit(body[i])
    ensures ParseDigitGroups(body) == Some(DigitsValue(body))
  {
    assert IsDigitGroups(body);
    assert DropUnderscores(body) == body;
  }

  /** Reading back what `str` wrote gives the number that was written. */
  lemma {:induction false} DigitsValueOfNatToString(n: nat)
    ensures DigitsValue(NatToString(n)) == n
    decreases n
  {
    if n >= 10 {
      DigitsValueOfNatToString(n / 10);
      var s := NatToString(n / 10);
      assert (s + [DigitChar(n % 10)])[..|s|] == s;
    }
  }

  /** `int(str(n)) == n` for every natural number `n`. */
  lemma ParseIntOfNatToString(n: nat)
    ensures ParseInt(NatToString(n)) == Some(n)
  {
    ParseIntOfDigits(NatToString(n));
    DigitsValueOfNatToString(n);
  }

  /** One leading sign is read as such: `-` negates what follows, `+` leaves it as it is. */
  lemma ParseSignedOfSign(body: string)
    ensures ParseSigned(['-'] + body) == Negated(ParseDigitGroups(body))
    ensures ParseSigned(['+'] + body) == ParseDigitGroups(body)
  {
    assert SplitSign(['-'] + body) == (true, body);
    assert SplitSign(['+'] + body) == (false, body);
  }

  /** A minus sign before the digits negates: `int("-" + str(n)) == -n`. */
  lemma ParseIntOfNegative(n: nat)
    ensures ParseInt("-" + NatToString(n)) == Some(-(n as int))
  {
    var s := NatToString(n);
    assert "-" + s == ['-'] + s;
    SignedTextIsTrimmed('-', s);
    NegativeDigitsRead(s);
    DigitsValueOfNatToString(n);
    NegatedSome(n);
  }

  /** A plus sign before the digits changes nothing: `int("+" + str(n)) == n`. */
  lemma ParseIntOfPositive(n: nat)
    ensures ParseInt("+" + NatToString(n)) == Some(n)
  {
    var s := NatToString(n);
    assert "+" + s == ['+'] + s;
    SignedTextIsTrimmed('+', s);
    PositiveDigitsRead(s);
    DigitsValueOfNatToString(n);
  }

  /** `-` followed by plain digits reads as the digits' value, negated. */
  lemma NegativeDigitsRead(s: string)
    requires |s| > 0 && forall i :: 0 <= i < |s| ==> IsDigit(s[i])
    ensures ParseSigned(['-'] + s) == Negated(Some(DigitsValue(s)))
  {
    ParseSignedOfSign(s);
    DigitGroupsOfDigits(s);
  }

  /** `+` followed by plain digits reads as the digits' value. */
  lemma PositiveDigitsRead(s: string)
    requires |s| > 0 && forall i :: 0 <= i < |s| ==> IsDigit(s[i])
    ensures ParseSigned(['+'] + s) == Some(DigitsValue(s) as int)
  {
    ParseSignedOfSign(s);
    DigitGroupsOfDigits(s);
  }

  /** A sign followed by digits has no whitespace to trim. */
  lemma SignedTextIsTrimmed(c: char, s: string)
    requires c == '-' || c == '+'
    requires |s| > 0 && IsDigit(s[|s| - 1])
    ensures TrimEnd(TrimStart([c] + s)) == [c] + s
  {
    var t := [c] + s;
    assert t[0] == c;
    assert TrimStart(t) == t;
    assert t[|t| - 1] == s[|s| - 1];
  }

  /** Whitespace around the digits is ignored: `int(a + str(n) + b) == n` for blank `a` and `b`. */
  lemma ParseIntIgnoresSurroundingSpace(a: string, n: nat, b: string)
    requires AllSpace(a) && AllSpace(b)
    ensures ParseInt(a + NatToString(n) + b) == Some(n)
  {
    var s := NatToString(n);
    assert a + s + b == a + (s + b);
    TrimStartSkipsBlanks(a, s + b);
    assert (s + b)[0] == s[0];
    TrimEndSkipsBlanks(s, b);
    DigitsAreTrimmed(s);
    ParseIntOfNatToString(n);
  }

  /** A run of digits has no whitespace to trim. */
  lemma DigitsAreTrimmed(s: string)
    requires |s| > 0 && IsDigit(s[0]) && IsDigit(s[|s| - 1])
    ensures TrimEnd(TrimStart(s)) == s
  {
  }

  /** Leading whitespace is skipped whatever follows it. */
  lemma {:induction false} TrimStartSkipsBlanks(a: string, x: string)
    requires AllSpace(a)
    ensures TrimStart(a + x) == TrimStart(x)
  {
    if a != [] {
      assert (a + x)[0] == a[0] && IsSpace(a[0]);
      assert (a + x)[1..] == a[1..] + x;
      TrimStartSkipsBlanks(a[1..], x);
    } else {
      assert a + x == x;
    }
  }

  /** Trailing whitespace is skipped whatever precedes it. */
  lemma {:induction false} TrimEndSkipsBlanks(x: string, b: string)
    requires AllSpace(b)
    ensures TrimEnd(x + b) == TrimEnd(x)
  {
    if b != [] {
      var init := b[..|b| - 1];
      assert (x + b)[|x + b| - 1] == b[|b| - 1] && IsSpace(b[|b| - 1]);
      assert (x + b)[..|x + b| - 1] == x + init;
      TrimEndSkipsBlanks(x, init);
    } else {
      assert x + b == x;
    }
  }

  /** Text with no digits at all raises: the empty text, blanks, and a lone sign. */
  lemma ParseIntRejectsNoDigits(text: string)
    requires forall i :: 0 <= i < |text| ==> IsSpace(text[i]) || text[i] == '-' || text[i] == '+'
    ensures ParseInt(text) == None
  {
    var t := TrimEnd(TrimStart(text));
    TrimKeepsCharacters(text);
    if t != [] {
      var body := if t[0] == '-' || t[0] == '+' then t[1..] else t;
      if body != [] {
        assert body[0] in t;
        assert !IsDigit(body[0]);
      }
    }
  }

  /** Trimming keeps a contiguous part of the text. */
  lemma TrimKeepsCharacters(text: string)
    ensures forall c :: c in TrimEnd(TrimStart(text)) ==> c in text
  {
    TrimStartIsSuffix(text);
    TrimEndIsPrefix(TrimStart(text));
  }

  lemma {:induction false} TrimStartIsSuffix(s: string)
    ensures forall c :: c in TrimStart(s) ==> c in s
  {
    if s != [] && IsSpace(s[0]) {
      TrimStartIsSuffix(s[1..]);
    }
  }

  lemma {:induction false} TrimEndIsPrefix(s: string)
    ensures forall c :: c in TrimEnd(s) ==> c in s
  {
    if s != [] && IsSpace(s[|s| - 1]) {
      TrimEndIsPrefix(s[..|s| - 1]);
    }
  }

  /** Distinct natural numbers have distinct decimal texts. */
  lemma NatToStringInjective(a: nat, b: nat)
    requires NatToString(a) == NatToString(b)
    ensures a == b
  {
    ParseIntOfNatToString(a);
    ParseIntOfNatToString(b);
  }
}
