/**
 Decimal rendering of integer player ids.

 The client names a player by the decimal text of its integer id, written in
 two places with two library calls (`fmt.Sprintf("%d", id)` when a player
 joins, `strconv.Itoa(id)` when a game starts). Both produce the same text:
 an optional minus sign followed by the digits of the magnitude, without
 leading zeros. This module defines that rendering once, together with its
 inverse, and proves the round trip, from which injectivity follows: two
 different ids never share a name.
 */
module Decimal {

  predicate IsDigit(c: char) {
    '0' <= c <= '9'
  }

  /** The character of a single decimal digit. */
  function DigitChar(d: nat): (c: char)
    requires d < 10
    ensures IsDigit(c)
    ensures c as int - '0' as int == d
  {
    ('0' as int + d) as char
  }

  /** The value of a digit character. */
  function DigitValue(c: char): int {
    c as int - '0' as int
  }

  /** The digits of a non-negative number, most significant first. */
  function Digits(n: nat): (r: string)
    ensures |r| >= 1
    ensures forall i :: 0 <= i < |r| ==> IsDigit(r[i])
    ensures |r| > 1 ==> r[0] != '0'
    decreases n
  {
    if n < 10 then [DigitChar(n)] else Digits(n / 10) + [DigitChar(n % 10)]
  }

  /** Reads a string of digits back as a number (the reference inverse of Digits). */
  function ParseDigits(s: string): int
    decreases |s|
  {
    if |s| == 0 then 0 else ParseDigits(s[..|s| - 1]) * 10 + DigitValue(s[|s| - 1])
  }

  /** The decimal text of an integer, as Go's `%d` verb and `strconv.Itoa` write it. */
  function ToString(n: int): (r: string)
    ensures |r| >= 1
    ensures r[0] == '-' <==> n < 0
    ensures forall i :: 0 < i < |r| ==> IsDigit(r[i])
    ensures n >= 0 ==> IsDigit(r[0]) && (|r| > 1 ==> r[0] != '0')
    ensures n < 0 ==> |r| >= 2 && r[1] != '0'
  {
    if n < 0 then "-" + Digits(-n) else Digits(n)
  }

  /** Reads decimal text (with an optional leading minus sign) back as an integer. */
  function Parse(s: string): int {
    if |s| > 0 && s[0] == '-' then -ParseDigits(s[1..]) else ParseDigits(s)
  }

  /** A non-empty string of digits without a leading zero (other than "0" itself). */
  predicate CanonicalDigits(s: string) {
    |s| >= 1 && (forall i :: 0 <= i < |s| ==> IsDigit(s[i])) && (|s| > 1 ==> s[0] != '0')
  }

  /** Decimal text in the one form Go writes it: canonical digits, or a minus sign before non-zero canonical digits. */
  predicate Canonical(t: string) {
    CanonicalDigits(t) || (|t| >= 2 && t[0] == '-' && t[1] != '0' && CanonicalDigits(t[1..]))
  }

  lemma {:induction false} DigitsRoundTrip(n: nat)
    ensures ParseDigits(Digits(n)) == n
    decreases n
  {
    if n >= 10 {
      DigitsRoundTrip(n / 10);
      var prefix := Digits(n / 10);
      var d := DigitChar(n % 10);
      assert Digits(n) == prefix + [d];
      assert (prefix + [d])[..|prefix|] == prefix;
    }
  }

  /** Digits undoes ParseDigits on canonical digit strings. */
  lemma {:induction false} CanonicalDigitsRoundTrip(s: string)
    requires CanonicalDigits(s)
    ensures ParseDigits(s) >= 0
    ensures Digits(ParseDigits(s)) == s
    decreases |s|
  {
    var c := s[|s| - 1];
    if |s| == 1 {
      assert DigitChar(DigitValue(c)) == c;
      assert [c] == s;
    } else {
      var p := s[..|s| - 1];
      assert p + [c] == s;
      assert CanonicalDigits(p) by {
        forall i | 0 <= i < |p| ensures IsDigit(p[i]) {
          assert p[i] == s[i];
        }
      }
      CanonicalDigitsRoundTrip(p);
      var m := ParseDigits(p);
      var n := m * 10 + DigitValue(c);
      assert n / 10 == m && n % 10 == DigitValue(c);
      assert DigitChar(DigitValue(c)) == c;
    }
  }

  /** Parse undoes ToString for every integer. */
  lemma RoundTrip(n: int)
    ensures Parse(ToString(n)) == n
  {
    if n < 0 {
      DigitsRoundTrip(-n);
      assert ToString(n)[1..] == Digits(-n);
    } else {
      DigitsRoundTrip(n);
    }
  }

  /**
   Text is the rendering of some id exactly when it is canonical, and then
   it renders the id it parses to. So Go's decimal form of an id is unique:
   "05", "-0" or "+5" name no id.
   */
  lemma CanonicalIffRendering(t: string)
    ensures Canonical(t) <==> ToString(Parse(t)) == t
  {
    if Canonical(t) {
      if CanonicalDigits(t) {
        CanonicalDigitsRoundTrip(t);
      } else {
        var u := t[1..];
        CanonicalDigitsRoundTrip(u);
        assert u != "0";
        assert ParseDigits(u) != 0;
        assert "-" + u == t;
      }
    }
  }

  /** Two ids render to the same name exactly when they are the same id. */
  lemma Injective(a: int, b: int)
    ensures ToString(a) == ToString(b) <==> a == b
  {
    RoundTrip(a);
    RoundTrip(b);
  }
}
