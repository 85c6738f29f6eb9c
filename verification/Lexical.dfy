/** Characters, case and numbers as both query languages see them. */
module Lexical {
  import opened Core

  /** What the standard library contributes beyond ASCII: upper-casing, the Unicode classes of
      characters, and float literals, which `showFloat` writes. */
  datatype TextModel = TextModel(
    upper: string -> string, isWhitespace: char -> bool, isAlphabetic: char -> bool, isAlphanumeric: char -> bool,
    parseFloat: string -> Option<F64>, showFloat: F64 -> string, ofInt: I64 -> F64)
  {
    predicate WordChar(c: char) {
      isAlphanumeric(c) || c == '_'
    }

    /** On ASCII the classes are the familiar ones. */
    ghost predicate Laws() {
      && (forall s :: Ascii(s) ==> upper(s) == AsciiUpper(s))
      && (forall c: char :: c < 128 as char ==> (isAlphabetic(c) <==> Letter(c)))
      && (forall c: char :: c < 128 as char ==> (isAlphanumeric(c) <==> Letter(c) || IsDigit(c)))
      && (forall c: char :: c < 128 as char ==> (isWhitespace(c) <==> c == ' ' || 9 as char <= c <= 13 as char))
      && (forall c: char :: isAlphabetic(c) ==> isAlphanumeric(c))
      && (forall c: char :: isAlphanumeric(c) ==> !isWhitespace(c))
    }

    /** The literal of the number reads back as it: digits, a point, digits. */
    ghost predicate Shown(f: F64) {
      parseFloat(showFloat(f)) == Some(f) && IsFloatLiteral(showFloat(f))
    }
  }

  /** The laws can be met: here by a world that knows ASCII only. */
  lemma AsciiLaws(parseFloat: string -> Option<F64>, showFloat: F64 -> string, ofInt: I64 -> F64)
    ensures TextModel((s: string) => AsciiUpper(s), (c: char) => c == ' ' || 9 as char <= c <= 13 as char,
                      (c: char) => Letter(c), (c: char) => Letter(c) || IsDigit(c), parseFloat, showFloat, ofInt).Laws()
  {
  }

  predicate Letter(c: char) {
    'A' <= c <= 'Z' || 'a' <= c <= 'z'
  }

  predicate IsDigit(c: char) {
    '0' <= c <= '9'
  }

  predicate Ascii(s: string) {
    forall i :: 0 <= i < |s| ==> s[i] < 128 as char
  }

  function AsciiUpperChar(c: char): char {
    if 'a' <= c <= 'z' then (c as int - 32) as char else c
  }

  function AsciiUpper(s: string): string {
    seq(|s|, i requires 0 <= i < |s| => AsciiUpperChar(s[i]))
  }

  /** The letters that have a capital, and what is ASCII. */
  lemma AsciiCase(c: char)
    ensures AsciiUpper("abcdefghijklmnopqrstuvwxyz") == "ABCDEFGHIJKLMNOPQRSTUVWXYZ"
    ensures c !in "abcdefghijklmnopqrstuvwxyz" ==> AsciiUpper([c]) == [c]
    ensures Ascii([c]) <==> c as int < 0x80
  {
    assert [c][0] == c;
    if 'a' <= c <= 'z' {
      assert "abcdefghijklmnopqrstuvwxyz"[c as int - 'a' as int] == c;
    }
  }

  predicate EqIgnoreAsciiCase(a: string, b: string) {
    AsciiUpper(a) == AsciiUpper(b)
  }

  predicate AllDigits(s: string) {
    forall i :: 0 <= i < |s| ==> IsDigit(s[i])
  }

  ghost predicate IsFloatLiteral(s: string) {
    exists k :: 0 < k < |s| && s[k] == '.' && AllDigits(s[..k]) && AllDigits(s[k + 1..])
  }

  // ---- Decimal integers ----

  function Digit(d: nat): char
    requires d < 10
  {
    (48 + d) as char
  }

  function Digits(n: nat): string {
    if n < 10 then [Digit(n)] else Digits(n / 10) + [Digit(n % 10)]
  }

  function ShowInt(i: int): string {
    if i < 0 then "-" + Digits(-i) else Digits(i)
  }

  function NumberOf(s: string): nat
    requires AllDigits(s)
  {
    if s == [] then 0 else NumberOf(s[..|s| - 1]) * 10 + (s[|s| - 1] as int - 48)
  }

  /** Digits only, and at least one. */
  function ParseNat(s: string): Option<nat> {
    if s != [] && AllDigits(s) then Some(NumberOf(s)) else None
  }

  /** `parse::<u64>`: an optional plus, and no overflow. */
  function ParseU64(s: string): Option<U64> {
    var digits := if s != [] && s[0] == '+' then s[1..] else s;
    match ParseNat(digits)
    case Some(n) => if n <= MAX_U64 then Some(n) else None
    case None => None
  }

  /** `parse::<i64>`: an optional sign, and no overflow on either side. */
  function ParseI64(s: string): Option<I64> {
    var signed := s != [] && (s[0] == '+' || s[0] == '-');
    match ParseNat(if signed then s[1..] else s)
    case Some(n) =>
      var i: int := if signed && s[0] == '-' then 0 - n as int else n;
      if -0x8000_0000_0000_0000 <= i < 0x8000_0000_0000_0000 then Some(i) else None
    case None => None
  }

  lemma {:induction false} DigitsReadBack(n: nat)
    ensures Digits(n) != [] && AllDigits(Digits(n)) && NumberOf(Digits(n)) == n
    decreases n
  {
    if n >= 10 {
      DigitsReadBack(n / 10);
      var init := Digits(n / 10);
      assert Digits(n)[..|Digits(n)| - 1] == init;
    }
  }

  lemma NatRoundTrip(n: nat)
    ensures ParseNat(Digits(n)) == Some(n) && Digits(n) != [] && IsDigit(Digits(n)[0])
  {
    DigitsReadBack(n);
    assert IsDigit(Digits(n)[0]);
  }

  lemma U64RoundTrip(n: U64)
    ensures ParseU64(Digits(n)) == Some(n)
  {
    hide Digits, ParseNat;
    NatRoundTrip(n);
  }

  lemma I64RoundTrip(i: I64)
    ensures ParseI64(ShowInt(i)) == Some(i)
  {
    hide Digits, ParseNat;
    if i < 0 {
      NatRoundTrip(0 - i as int);
      assert ShowInt(i)[1..] == Digits(0 - i as int);
    } else {
      NatRoundTrip(i);
    }
  }

  // ---- What decimal means ----

  function Pow10(k: nat): nat {
    if k == 0 then 1 else 10 * Pow10(k - 1)
  }

  lemma TenTimes(k: int, p: int, m: int, d: int)
    ensures (k * p + m) * 10 + d == k * (10 * p) + (m * 10 + d)
  {
    assert k * p * 10 == k * (10 * p);
  }

  /** The digit in front counts by the power of ten of its place. */
  lemma {:induction false} LeadingDigit(c: char, s: string)
    requires IsDigit(c) && AllDigits(s)
    ensures AllDigits([c] + s) && NumberOf([c] + s) == (c as int - '0' as int) * Pow10(|s|) + NumberOf(s)
    decreases |s|
  {
    var t := [c] + s;
    if s == [] {
      assert t[..0] == [];
    } else {
      var init, last := s[..|s| - 1], s[|s| - 1];
      LeadingDigit(c, init);
      assert t[..|t| - 1] == [c] + init && t[|t| - 1] == last;
      TenTimes(c as int - '0' as int, Pow10(|init|), NumberOf(init), last as int - 48);
    }
  }

  /** What is shown of a number has no zero in front, and so is the only such text that reads as it. */
  lemma {:induction false} NoLeadingZero(n: nat)
    ensures Digits(n)[0] == '0' <==> n == 0
    decreases n
  {
    if n >= 10 {
      NoLeadingZero(n / 10);
      DigitsReadBack(n / 10);
    }
  }

  /** An optional plus sign and digits, whose number fits 64 bits. */
  lemma U64Exactly(s: string, n: U64)
    ensures ParseU64(s) == Some(n) <==> exists d :: DigitsFor(d, n) && (s == d || s == "+" + d)
  {
    hide NumberOf;
    if ParseU64(s) == Some(n) {
      assert DigitsFor(if s[0] == '+' then s[1..] else s, n);
      assert s[0] == '+' ==> s == "+" + s[1..];
    } else if d :| DigitsFor(d, n) && (s == d || s == "+" + d) {
      assert d[0] != '+';
    }
  }

  predicate DigitsFor(d: string, n: nat) {
    d != [] && AllDigits(d) && NumberOf(d) == n
  }

  /** An optional sign and digits, whose number fits 64 bits in two's complement. */
  lemma I64Exactly(s: string, i: I64)
    ensures ParseI64(s) == Some(i) <==>
      exists d, n: nat :: DigitsFor(d, n) && ((i == n && (s == d || s == "+" + d)) || (i == 0 - n && s == "-" + d))
  {
    hide NumberOf;
    if ParseI64(s) == Some(i) {
      var signed := s[0] == '+' || s[0] == '-';
      var d := if signed then s[1..] else s;
      assert DigitsFor(d, NumberOf(d));
      assert signed ==> s == [s[0]] + d;
    } else if d, n: nat :| DigitsFor(d, n) && ((i == n && (s == d || s == "+" + d)) || (i == 0 - n && s == "-" + d)) {
      assert d[0] != '+' && d[0] != '-';
    }
  }

  // ---- Spelling ----

  /** How keywords are spelled: any case will do. */
  ghost predicate IsSpelling(kw: string -> string) {
    forall s :: AsciiUpper(kw(s)) == AsciiUpper(s)
  }

  lemma Uppercase(s: string)
    requires forall i :: 0 <= i < |s| ==> !('a' <= s[i] <= 'z')
    ensures AsciiUpper(s) == s
  {
  }

  /** A keyword in any spelling is made of letters and upper-cases to itself. */
  lemma Spelled(m: TextModel, kw: string -> string, s: string)
    requires m.Laws() && IsSpelling(kw) && forall i :: 0 <= i < |s| ==> 'A' <= s[i] <= 'Z'
    ensures m.upper(kw(s)) == s && EqIgnoreAsciiCase(kw(s), s)
    ensures |kw(s)| == |s| && forall i :: 0 <= i < |s| ==> Letter(kw(s)[i])
  {
    Uppercase(s);
    forall i | 0 <= i < |kw(s)| ensures Letter(kw(s)[i]) {
      assert AsciiUpper(kw(s))[i] == s[i];
    }
  }

  lemma SpelledWord(kw: string -> string, s: string, i: nat)
    requires IsSpelling(kw) && i < |s|
    ensures |kw(s)| == |s| && AsciiUpperChar(kw(s)[i]) == AsciiUpperChar(s[i])
  {
    assert AsciiUpper(kw(s))[i] == AsciiUpper(s)[i];
  }

  predicate QuoteFree(s: string) {
    forall i :: 0 <= i < |s| ==> s[i] != '"'
  }

  function Quoted(s: string): string {
    "\"" + s + "\""
  }
}
