/** The JavaScript string semantics the route handlers rely on: truthiness,
    `||` on strings, `String.prototype.trim`, `String.prototype.length`
    (UTF-16 code units) and `Array.prototype.join`. */
module JsStrings {
  import opened Wrappers

  /** `!!v` for an optional string: `undefined`, `null` and `""` are falsy;
      every other string, whitespace-only ones included, is truthy. */
  predicate Truthy(v: Option<string>) {
    v.Some? && v.value != ""
  }

  /** `a || b` on optional strings. */
  function Or(a: Option<string>, b: Option<string>): Option<string> {
    if Truthy(a) then a else b
  }

  /** `v || ""`: the string, or `""` when it is falsy. */
  function OrEmpty(v: Option<string>): string {
    if Truthy(v) then v.value else ""
  }

  /** The characters ECMAScript's `trim` and `parseInt` skip: WhiteSpace
      (TAB, VT, FF, ZWNBSP and every space separator) and LineTerminator. */
  predicate IsWhitespace(c: char) {
    || c == '\t' || c == '\n' || c == '\U{000B}' || c == '\U{000C}' || c == '\r'
    || c == ' ' || c == '\U{00A0}' || c == '\U{1680}'
    || ('\U{2000}' <= c <= '\U{200A}')
    || c == '\U{2028}' || c == '\U{2029}' || c == '\U{202F}' || c == '\U{205F}'
    || c == '\U{3000}' || c == '\U{FEFF}'
  }

  predicate AllWhitespace(s: string) {
    forall i :: 0 <= i < |s| ==> IsWhitespace(s[i])
  }

  /** Neither starts nor ends with whitespace. */
  predicate IsTrimmed(s: string) {
    s == [] || (!IsWhitespace(s[0]) && !IsWhitespace(s[|s| - 1]))
  }

  /** `s.trimStart()`: the suffix left after the leading whitespace. */
  function TrimStart(s: string): (r: string)
    ensures |r| <= |s|
  {
    if s != [] && IsWhitespace(s[0]) then TrimStart(s[1..]) else s
  }

  /** `trimStart` drops a run of whitespace from the front and stops at the
      first other character. */
  lemma {:induction false} TrimStartShape(s: string)
    ensures var r := TrimStart(s);
      && |r| <= |s| && r == s[|s| - |r|..] && AllWhitespace(s[..|s| - |r|])
      && (r == [] || !IsWhitespace(r[0]))
  {
    if s != [] && IsWhitespace(s[0]) {
      TrimStartShape(s[1..]);
      var r := TrimStart(s);
      var n := |s| - |r|;
      assert s[1..][..n - 1] == s[1..n];
      assert forall k :: 1 <= k < n ==> s[k] == s[1..][k - 1];
    }
  }

  /** `s.trimEnd()`: the prefix left before the trailing whitespace. */
  function TrimEnd(s: string): (r: string)
    ensures |r| <= |s|
  {
    if s != [] && IsWhitespace(s[|s| - 1]) then TrimEnd(s[..|s| - 1]) else s
  }

  /** `trimEnd` drops a run of whitespace from the back and stops at the
      last other character. */
  lemma {:induction false} TrimEndShape(s: string)
    ensures var r := TrimEnd(s);
      && |r| <= |s| && r == s[..|r|] && AllWhitespace(s[|r|..])
      && (r == [] || !IsWhitespace(r[|r| - 1]))
  {
    if s != [] && IsWhitespace(s[|s| - 1]) {
      var s' := s[..|s| - 1];
      TrimEndShape(s');
      var r := TrimEnd(s);
      assert s'[..|r|] == s[..|r|];
      assert forall k :: |r| <= k < |s| - 1 ==> s[k] == s'[k];
    }
  }

  /** `s.trim()`: `s` without its leading and trailing whitespace. It
      neither starts nor ends with whitespace, and it is empty exactly when
      `s` is blank. */
  function Trim(s: string): (r: string)
    ensures IsTrimmed(r)
    ensures r == [] <==> AllWhitespace(s)
  {
    TrimOfBlank(s);
    TrimEnd(TrimStart(s))
  }

  /** Only a blank string trims to the empty string, and what is left
      neither starts nor ends with whitespace. */
  lemma TrimOfBlank(s: string)
    ensures IsTrimmed(TrimEnd(TrimStart(s)))
    ensures TrimEnd(TrimStart(s)) == [] <==> AllWhitespace(s)
  {
    var t := TrimStart(s);
    var r := TrimEnd(t);
    TrimStartShape(s);
    TrimEndShape(t);
    var i := |s| - |t|;
    assert r != [] ==> r[0] == t[0];
    assert t != [] ==> t[0] == s[i];
    assert forall k :: 0 <= k < i ==> s[k] == s[..i][k];
    assert forall k :: i <= k < |s| ==> s[k] == t[k - i];
  }

  /** `trim` cuts a slice out of `s` with only whitespace on either side. */
  lemma TrimSlices(s: string)
    ensures var lead := |s| - |TrimStart(s)|; var r := Trim(s);
      && lead + |r| <= |s| && s[lead..lead + |r|] == r
      && AllWhitespace(s[..lead]) && AllWhitespace(s[lead + |r|..])
  {
    var t := TrimStart(s);
    var r := TrimEnd(t);
    TrimStartShape(s);
    TrimEndShape(t);
    var lead := |s| - |t|;
    assert s[lead..] == t;
    assert s[lead..lead + |r|] == t[..|r|];
    assert s[lead + |r|..] == t[|r|..];
  }

  /** Leading whitespace does not change `trimStart`. */
  lemma {:induction false} TrimStartSkipsPadding(w: string, u: string)
    requires AllWhitespace(w)
    ensures TrimStart(w + u) == TrimStart(u)
  {
    if w != [] {
      assert (w + u)[1..] == w[1..] + u;
      TrimStartSkipsPadding(w[1..], u);
    } else {
      assert w + u == u;
    }
  }

  /** Trailing whitespace does not change `trimEnd`. */
  lemma {:induction false} TrimEndSkipsPadding(u: string, w: string)
    requires AllWhitespace(w)
    ensures TrimEnd(u + w) == TrimEnd(u)
  {
    if w != [] {
      var w' := w[..|w| - 1];
      assert (u + w)[..|u + w| - 1] == u + w';
      TrimEndSkipsPadding(u, w');
    } else {
      assert u + w == u;
    }
  }

  /** Trim is determined by its shape: whitespace around an already trimmed
      string is exactly what `trim` removes. */
  lemma TrimOfPadded(w1: string, t: string, w2: string)
    requires AllWhitespace(w1) && AllWhitespace(w2) && IsTrimmed(t)
    ensures Trim(w1 + t + w2) == t
  {
    assert w1 + t + w2 == w1 + (t + w2);
    TrimStartSkipsPadding(w1, t + w2);
    if t == [] {
      assert t + w2 == w2;
      TrimStartShape(w2);
      assert TrimStart(w2) == [];
    } else {
      assert (t + w2)[0] == t[0];
      assert TrimStart(t + w2) == t + w2;
      TrimEndSkipsPadding(t, w2);
      assert TrimEnd(t) == t;
    }
  }

  /** A string without surrounding whitespace is its own trim. */
  lemma TrimOfTrimmed(t: string)
    requires IsTrimmed(t)
    ensures Trim(t) == t
  {
    assert [] + t + [] == t;
    TrimOfPadded([], t, []);
  }

  /** `s.trim().trim() === s.trim()`. */
  lemma TrimIdempotent(s: string)
    ensures Trim(Trim(s)) == Trim(s)
  {
    TrimOfTrimmed(Trim(s));
  }

  /** `s.length`: the number of UTF-16 code units, two for every character
      outside the Basic Multilingual Plane. */
  function Utf16Length(s: string): (n: nat)
    ensures |s| <= n <= 2 * |s|
    ensures n == |s| <==> forall i :: 0 <= i < |s| ==> s[i] as int < 0x1_0000
  {
    if s == [] then 0
    else (if s[0] as int < 0x1_0000 then 1 else 2) + Utf16Length(s[1..])
  }

  /** `parts.join(sep)`. */
  function Join(parts: seq<string>, sep: string): string {
    if |parts| == 0 then ""
    else if |parts| == 1 then parts[0]
    else parts[0] + sep + Join(parts[1..], sep)
  }
}
