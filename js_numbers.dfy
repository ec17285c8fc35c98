/** `Number.parseInt(s, 10)`: skip leading whitespace, take an optional sign,
    then the longest run of decimal digits; no digits at all gives NaN
    (here `None`). Trailing characters are ignored, so "12abc" reads as 12. */
module JsNumbers {
  import opened Wrappers
  import opened JsStrings

  predicate IsDigit(c: char) {
    '0' <= c <= '9'
  }

  predicate AllDigits(s: string) {
    forall i :: 0 <= i < |s| ==> IsDigit(s[i])
  }

  /** The longest prefix of `s` made of decimal digits. */
  function DigitPrefix(s: string): (r: string)
    ensures |r| <= |s| && AllDigits(r)
  {
    if s != [] && IsDigit(s[0]) then [s[0]] + DigitPrefix(s[1..]) else []
  }

  /** `DigitPrefix` is a prefix of `s`, and the character after it, if
      any, is not a digit. */
  lemma {:induction false} DigitPrefixShape(s: string)
    ensures var r := DigitPrefix(s);
      r == s[..|r|] && (|r| == |s| || !IsDigit(s[|r|]))
  {
    if s != [] && IsDigit(s[0]) {
      DigitPrefixShape(s[1..]);
      var r := DigitPrefix(s);
      assert r[1..] == DigitPrefix(s[1..]);
      assert s[1..][..|r| - 1] == s[1..|r|];
    }
  }

  /** The value of a string of decimal digits, most significant first. */
  function DigitsValue(ds: string): nat
    requires AllDigits(ds)
  {
    if ds == [] then 0
    else DigitsValue(ds[..|ds| - 1]) * 10 + (ds[|ds| - 1] as int - '0' as int)
  }

  /** `Number.parseInt(s, 10)`, with NaN as `None`. */
  function ParseInt(s: string): Option<int> {
    ParseSigned(TrimStart(s))
  }

  /** The sign and digits `parseInt` reads once the whitespace is gone. */
  function ParseSigned(t: string): Option<int> {
    var unsigned := if t != [] && (t[0] == '-' || t[0] == '+') then t[1..] else t;
    var digits := DigitPrefix(unsigned);
    var magnitude: int := DigitsValue(digits);
    if digits == [] then None
    else if t[0] == '-' then Some(-magnitude)
    else Some(magnitude)
  }

  /** The decimal digits of `n`, without leading zeros. */
  function NatDigits(n: nat): (ds: string)
    ensures ds != [] && AllDigits(ds)
    ensures ds[0] == '0' ==> n == 0
  {
    if n < 10 then [('0' as int + n) as char]
    else NatDigits(n / 10) + [('0' as int + n % 10) as char]
  }

  /** `String(n)` for an integer. */
  function Decimal(n: int): string {
    if n < 0 then "-" + NatDigits(-n) else NatDigits(n)
  }

  lemma {:induction false} NatDigitsValue(n: nat)
    ensures DigitsValue(NatDigits(n)) == n
  {
    if n >= 10 {
      var ds := NatDigits(n);
      assert ds[..|ds| - 1] == NatDigits(n / 10);
      NatDigitsValue(n / 10);
    }
  }

  /** Digits followed by a non-digit are exactly the digit prefix. */
  lemma {:induction false} DigitPrefixOf(ds: string, rest: string)
    requires AllDigits(ds)
    requires rest == [] || !IsDigit(rest[0])
    ensures DigitPrefix(ds + rest) == ds
  {
    if ds == [] {
      assert ds + rest == rest;
    } else {
      assert (ds + rest)[1..] == ds[1..] + rest;
      DigitPrefixOf(ds[1..], rest);
      assert ds == [ds[0]] + ds[1..];
    }
  }

  /** Round trip: reading back `String(n)`, whatever follows it as long as it
      does not continue the digits, gives `n` (so "12abc" parses as 12). */
  lemma ParseIntOfDecimal(n: int, rest: string)
    requires rest == [] || !IsDigit(rest[0])
    ensures ParseInt(Decimal(n) + rest) == Some(n)
  {
    if n < 0 {
      var ds := NatDigits(-n);
      NatDigitsValue(-n);
      ParseNegative(ds, rest);
      var s := "-" + ds + rest;
      assert Decimal(n) + rest == s;
      assert s[0] == '-';
      assert TrimStart(s) == s;
    } else {
      var ds := NatDigits(n);
      NatDigitsValue(n);
      ParseUnsigned(ds, rest);
      var s := ds + rest;
      assert Decimal(n) + rest == s;
      assert s[0] == ds[0];
      assert IsDigit(s[0]) && !IsWhitespace(s[0]);
      assert TrimStart(s) == s;
    }
  }

  /** Digits, then a non-digit, read as their value. */
  lemma ParseUnsigned(ds: string, rest: string)
    requires ds != [] && AllDigits(ds)
    requires rest == [] || !IsDigit(rest[0])
    ensures ParseSigned(ds + rest) == Some(DigitsValue(ds) as int)
  {
    DigitPrefixOf(ds, rest);
    assert (ds + rest)[0] == ds[0];
  }

  /** A minus sign, digits, then a non-digit, read as the negated value. */
  lemma ParseNegative(ds: string, rest: string)
    requires ds != [] && AllDigits(ds)
    requires rest == [] || !IsDigit(rest[0])
    ensures ParseSigned("-" + ds + rest) == Some(-(DigitsValue(ds) as int))
  {
    DigitPrefixOf(ds, rest);
    var s := "-" + ds + rest;
    assert s != [] && s[0] == '-';
    assert s[1..] == ds + rest;
    assert DigitPrefix(s[1..]) == ds;
  }

  /** Leading whitespace never changes what `parseInt` reads. */
  lemma ParseIntSkipsWhitespace(w: string, s: string)
    requires AllWhitespace(w)
    ensures ParseInt(w + s) == ParseInt(s)
  {
    TrimStartSkipsPadding(w, s);
  }

  /** `parseInt` gives NaN exactly when, after the whitespace and an
      optional sign, no decimal digit follows. */
  lemma ParseIntNaN(s: string)
    ensures ParseInt(s).None? <==>
      var t := TrimStart(s);
      var u := if t != [] && (t[0] == '-' || t[0] == '+') then t[1..] else t;
      u == [] || !IsDigit(u[0])
  {
  }
}
