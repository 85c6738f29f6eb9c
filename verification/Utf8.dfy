/** UTF-8 as Rust's `str::as_bytes` writes it and `String::from_utf8` accepts it. */
module Utf8 {
  import opened Core

  function EncodeChar(c: char): (bs: seq<U8>)
    ensures 1 <= |bs| <= 4
  {
    var n := c as int;
    if n < 0x80 then [n]
    else if n < 0x800 then [0xC0 + n / 0x40, 0x80 + n % 0x40]
    else if n < 0x1_0000 then [0xE0 + n / 0x1000, 0x80 + n / 0x40 % 0x40, 0x80 + n % 0x40]
    else [0xF0 + n / 0x4_0000, 0x80 + n / 0x1000 % 0x40, 0x80 + n / 0x40 % 0x40, 0x80 + n % 0x40]
  }

  function Encode(s: string): seq<U8> {
    if s == [] then [] else EncodeChar(s[0]) + Encode(s[1..])
  }

  predicate Continuation(b: int) {
    0x80 <= b < 0xC0
  }

  predicate Scalar(n: int) {
    0 <= n < 0xD800 || 0xE000 <= n < 0x11_0000
  }

  /** The scalar value that starts the byte sequence and its length, if there is one: no overlong
      form, no surrogate, nothing past U+10FFFF. */
  function DecodeChar(bs: seq<U8>): Option<(char, nat)>
    requires bs != []
  {
    var b: int := bs[0];
    var c1: int := if |bs| > 1 then bs[1] else 0;
    var c2: int := if |bs| > 2 then bs[2] else 0;
    var c3: int := if |bs| > 3 then bs[3] else 0;
    if b < 0x80 then CharAt(b, 0, 1)
    else if 0xC2 <= b < 0xE0 && Continuation(c1) then
      CharAt(b * 0x40 + c1 - 0x3080, 0x80, 2)
    else if 0xE0 <= b < 0xF0 && Continuation(c1) && Continuation(c2) then
      CharAt(b * 0x1000 + c1 * 0x40 + c2 - 0xE_2080, 0x800, 3)
    else if 0xF0 <= b < 0xF5 && Continuation(c1) && Continuation(c2) && Continuation(c3) then
      CharAt(b * 0x4_0000 + c1 * 0x1000 + c2 * 0x40 + c3 - 0x3C8_2080, 0x1_0000, 4)
    else None
  }

  function CharAt(n: int, least: int, length: nat): Option<(char, nat)> {
    if n >= least && Scalar(n) then Some((n as char, length)) else None
  }

  function Decode(bs: seq<U8>): Option<string> {
    if bs == [] then Some("")
    else match DecodeChar(bs)
      case None => None
      case Some((c, k)) =>
        match Decode(if 0 < k <= |bs| then bs[k..] else [])
        case None => None
        case Some(rest) => Some([c] + rest)
  }

  lemma CharRoundTrip(c: char, rest: seq<U8>)
    ensures DecodeChar(EncodeChar(c) + rest) == Some((c, |EncodeChar(c)|))
  {
    var n := c as int;
    var bs := EncodeChar(c) + rest;
    assert CharAt(n, 0, |EncodeChar(c)|) == Some((c, |EncodeChar(c)|));
    if n < 0x80 {
    } else if n < 0x800 {
      assert bs[0] == 0xC0 + n / 0x40 && bs[1] == 0x80 + n % 0x40;
    } else if n < 0x1_0000 {
      Split3(n);
      assert bs[0] == 0xE0 + n / 0x1000 && bs[1] == 0x80 + n / 0x40 % 0x40 && bs[2] == 0x80 + n % 0x40;
    } else {
      Split4(n);
      assert bs[0] == 0xF0 + n / 0x4_0000 && bs[1] == 0x80 + n / 0x1000 % 0x40;
      assert bs[2] == 0x80 + n / 0x40 % 0x40 && bs[3] == 0x80 + n % 0x40;
    }
  }

  lemma Split3(n: nat)
    ensures n == n / 0x1000 * 0x1000 + n / 0x40 % 0x40 * 0x40 + n % 0x40
  {
    assert n / 0x40 / 0x40 == n / 0x1000;
  }

  lemma Split4(n: nat)
    ensures n == n / 0x4_0000 * 0x4_0000 + n / 0x1000 % 0x40 * 0x1000 + n / 0x40 % 0x40 * 0x40 + n % 0x40
  {
    Split3(n);
    assert n / 0x1000 / 0x40 == n / 0x4_0000;
  }

  /** The four forms of section 3 of RFC 3629: what the leading byte and the others carry. */
  lemma CharBytes(c: char)
    ensures var n, bs := c as int, EncodeChar(c);
            && (n < 0x80 ==> bs == [n])
            && (0x80 <= n < 0x800 ==>
                  && |bs| == 2 && 0xC2 <= bs[0] < 0xE0 && 0x80 <= bs[1] < 0xC0
                  && n == (bs[0] as int - 0xC0) * 0x40 + (bs[1] as int - 0x80))
            && (0x800 <= n < 0x1_0000 ==>
                  && |bs| == 3 && 0xE0 <= bs[0] < 0xF0 && 0x80 <= bs[1] < 0xC0 && 0x80 <= bs[2] < 0xC0
                  && n == (bs[0] as int - 0xE0) * 0x1000 + (bs[1] as int - 0x80) * 0x40 + (bs[2] as int - 0x80))
            && (n >= 0x1_0000 ==>
                  && |bs| == 4 && 0xF0 <= bs[0] < 0xF5
                  && 0x80 <= bs[1] < 0xC0 && 0x80 <= bs[2] < 0xC0 && 0x80 <= bs[3] < 0xC0
                  && n == (bs[0] as int - 0xF0) * 0x4_0000 + (bs[1] as int - 0x80) * 0x1000
                          + (bs[2] as int - 0x80) * 0x40 + (bs[3] as int - 0x80))
  {
    Split3(c as int);
    Split4(c as int);
  }

  lemma {:induction false} RoundTrip(s: string)
    ensures Decode(Encode(s)) == Some(s)
  {
    if s != [] {
      CharRoundTrip(s[0], Encode(s[1..]));
      RoundTrip(s[1..]);
      assert Encode(s)[|EncodeChar(s[0])|..] == Encode(s[1..]);
      assert [s[0]] + s[1..] == s;
    }
  }

  /** What decodes is the form of the character it decodes to: every character has one form. */
  lemma CharDecoded(bs: seq<U8>)
    requires bs != [] && DecodeChar(bs).Some?
    ensures var (c, k) := DecodeChar(bs).value; k <= |bs| && bs[..k] == EncodeChar(c)
  {
    var b: int := bs[0];
    var c1: int := if |bs| > 1 then bs[1] else 0;
    var c2: int := if |bs| > 2 then bs[2] else 0;
    if b < 0x80 {
    } else if b < 0xE0 {
      Joined2(b, c1);
    } else if b < 0xF0 {
      Joined3(b, c1, c2);
    } else {
      Joined4(b, c1, c2, bs[3]);
    }
  }

  lemma Joined2(b: int, c1: int)
    requires 0xC2 <= b < 0xE0 && Continuation(c1)
    ensures var n := b * 0x40 + c1 - 0x3080; n / 0x40 == b - 0xC0 && n % 0x40 == c1 - 0x80
  {
  }

  lemma Joined3(b: int, c1: int, c2: int)
    requires 0xE0 <= b < 0xF0 && Continuation(c1) && Continuation(c2)
    ensures var n := b * 0x1000 + c1 * 0x40 + c2 - 0xE_2080;
            n / 0x1000 == b - 0xE0 && n / 0x40 % 0x40 == c1 - 0x80 && n % 0x40 == c2 - 0x80
  {
    var n := b * 0x1000 + c1 * 0x40 + c2 - 0xE_2080;
    assert n / 0x40 == (b - 0xE0) * 0x40 + (c1 - 0x80);
  }

  lemma Joined4(b: int, c1: int, c2: int, c3: int)
    requires 0xF0 <= b < 0xF5 && Continuation(c1) && Continuation(c2) && Continuation(c3)
    ensures var n := b * 0x4_0000 + c1 * 0x1000 + c2 * 0x40 + c3 - 0x3C8_2080;
            && n / 0x4_0000 == b - 0xF0 && n / 0x1000 % 0x40 == c1 - 0x80
            && n / 0x40 % 0x40 == c2 - 0x80 && n % 0x40 == c3 - 0x80
  {
    var n := b * 0x4_0000 + c1 * 0x1000 + c2 * 0x40 + c3 - 0x3C8_2080;
    assert n / 0x40 == (b - 0xF0) * 0x1000 + (c1 - 0x80) * 0x40 + (c2 - 0x80);
    assert n / 0x1000 == (b - 0xF0) * 0x40 + (c1 - 0x80);
  }

  /** Bytes decode exactly when they are the form of some string, and to that string. */
  lemma {:induction false} DecodesExactly(bs: seq<U8>, s: string)
    ensures Decode(bs) == Some(s) <==> bs == Encode(s)
    decreases |bs|
  {
    RoundTrip(s);
    if bs != [] && Decode(bs) == Some(s) {
      hide DecodeChar, EncodeChar;
      CharDecoded(bs);
      var (c, k) := DecodeChar(bs).value;
      assert bs == bs[..k] + bs[k..];
      DecodesExactly(bs[k..], s[1..]);
    }
  }
}
