/** String operations the backend (Java) and the front end (JavaScript) rely on. */
module Text {

  // ---------------------------------------------------------------------------
  // Trimming: Java's String.trim() and JavaScript's String.prototype.trim()
  // drop different characters, so the rule is a parameter.
  // ---------------------------------------------------------------------------

  datatype TrimRule = JavaTrim | JsTrim

  /** Java's trim drops every code point up to U+0020; JavaScript's drops the
      ECMAScript WhiteSpace and LineTerminator characters. */
  predicate IsSpace(rule: TrimRule, c: char) {
    match rule
    case JavaTrim => c <= ' '
    case JsTrim =>
      || c == '\t' || c == '\n' || c == '\U{000B}' || c == '\U{000C}' || c == '\r' || c == ' '
      || c == '\U{00A0}' || c == '\U{1680}' || ('\U{2000}' <= c <= '\U{200A}')
      || c == '\U{2028}' || c == '\U{2029}' || c == '\U{202F}' || c == '\U{205F}'
      || c == '\U{3000}' || c == '\U{FEFF}'
  }

  /** Every character of `s` is dropped by trimming. */
  predicate IsBlank(rule: TrimRule, s: string) {
    forall i :: 0 <= i < |s| ==> IsSpace(rule, s[i])
  }

  function TrimStart(rule: TrimRule, s: string): (r: string)
    ensures |r| <= |s| && forall i :: 0 <= i < |r| ==> r[i] == s[|s| - |r| + i]
    ensures r == [] || !IsSpace(rule, r[0])
    ensures forall i :: 0 <= i < |s| - |r| ==> IsSpace(rule, s[i])
    decreases |s|
  {
    if s != [] && IsSpace(rule, s[0]) then TrimStart(rule, s[1..]) else s
  }

  function TrimEnd(rule: TrimRule, s: string): (r: string)
    ensures |r| <= |s| && forall i :: 0 <= i < |r| ==> r[i] == s[i]
    ensures r == [] || !IsSpace(rule, r[|r| - 1])
    ensures forall i :: |r| <= i < |s| ==> IsSpace(rule, s[i])
    decreases |s|
  {
    if s != [] && IsSpace(rule, s[|s| - 1]) then TrimEnd(rule, s[..|s| - 1]) else s
  }

  /** `s` with its leading and trailing spaces removed; what is left neither
      starts nor ends with a space. */
  function Trim(rule: TrimRule, s: string): (r: string)
    ensures |r| <= |s|
    ensures r == [] || (!IsSpace(rule, r[0]) && !IsSpace(rule, r[|r| - 1]))
  {
    TrimEnd(rule, TrimStart(rule, s))
  }

  /** Trimming yields the empty string exactly when the input is blank. */
  lemma {:induction false} TrimEmptyIffBlank(rule: TrimRule, s: string)
    ensures Trim(rule, s) == [] <==> IsBlank(rule, s)
  {
    var t := TrimStart(rule, s);
    if t != [] {
      assert t[0] == s[|s| - |t|];
      assert TrimEnd(rule, t) != [];
    }
  }

  /** A string that neither starts nor ends with a space is its own trim. */
  lemma {:induction false} TrimOfTrimmed(rule: TrimRule, s: string)
    requires s == [] || (!IsSpace(rule, s[0]) && !IsSpace(rule, s[|s| - 1]))
    ensures Trim(rule, s) == s
  {
    assert TrimStart(rule, s) == s;
    assert TrimEnd(rule, s) == s;
  }

  /** A leading space makes no difference to the trim. */
  lemma TrimSkipsLeadingSpace(rule: TrimRule, c: char, s: string)
    requires IsSpace(rule, c)
    ensures Trim(rule, [c] + s) == Trim(rule, s)
  {
    assert ([c] + s)[1..] == s;
    assert TrimStart(rule, [c] + s) == TrimStart(rule, s);
  }

  /** One leading space before an already-trimmed string is all a trim removes. */
  lemma TrimPadded(rule: TrimRule, c: char, s: string)
    requires IsSpace(rule, c)
    requires s == [] || (!IsSpace(rule, s[0]) && !IsSpace(rule, s[|s| - 1]))
    ensures Trim(rule, [c] + s) == s
  {
    TrimOfTrimmed(rule, s);
    TrimSkipsLeadingSpace(rule, c, s);
  }

  /** Trimming twice is trimming once. */
  lemma TrimIdempotent(rule: TrimRule, s: string)
    ensures Trim(rule, Trim(rule, s)) == Trim(rule, s)
  {
    TrimOfTrimmed(rule, Trim(rule, s));
  }

  // ---------------------------------------------------------------------------
  // Case folding and substring search (String.prototype.includes)
  // ---------------------------------------------------------------------------

  function LowerChar(c: char): char {
    if 'A' <= c <= 'Z' then (c as int + 32) as char else c
  }

  /** toLowerCase, restricted to the ASCII letters. */
  function Lower(s: string): (r: string)
    ensures |r| == |s|
  {
    seq(|s|, i requires 0 <= i < |s| => LowerChar(s[i]))
  }

  /** `t` occurs in `s` as a contiguous piece, the way `s.includes(t)` tests it. */
  predicate Contains(s: string, t: string)
    decreases |s|
  {
    t <= s || (s != [] && Contains(s[1..], t))
  }

  /** Reference definition of `Contains`: some position of `s` starts a copy of `t`. */
  predicate OccursAt(s: string, t: string, k: int) {
    0 <= k && k + |t| <= |s| && s[k..k + |t|] == t
  }

  lemma {:induction false} ContainsIffOccurs(s: string, t: string)
    ensures Contains(s, t) <==> exists k :: OccursAt(s, t, k)
    decreases |s|
  {
    if t <= s {
      assert OccursAt(s, t, 0);
    } else if s != [] {
      ContainsIffOccurs(s[1..], t);
      forall k | OccursAt(s[1..], t, k) ensures OccursAt(s, t, k + 1) {
        assert s[k + 1..k + 1 + |t|] == s[1..][k..k + |t|];
      }
      forall k | OccursAt(s, t, k) ensures k >= 1 && OccursAt(s[1..], t, k - 1) {
        assert s[..|t|] == s[0..|t|];
        assert s[1..][k - 1..k - 1 + |t|] == s[k..k + |t|];
      }
    }
  }

  /** Every string contains the empty string: an empty search term matches everything. */
  lemma ContainsEmpty(s: string)
    ensures Contains(s, "")
  {
  }

  // ---------------------------------------------------------------------------
  // Decimal rendering of ids: Long.toString / Number.prototype.toString
  // ---------------------------------------------------------------------------

  predicate IsDigit(c: char) { '0' <= c <= '9' }

  function DigitChar(d: nat): (c: char)
    requires d < 10
    ensures IsDigit(c) && c as int - '0' as int == d
  {
    (d + '0' as int) as char
  }

  function NatToString(n: nat): (r: string)
    ensures |r| >= 1
    ensures forall i :: 0 <= i < |r| ==> IsDigit(r[i])
    decreases n
  {
    if n < 10 then [DigitChar(n)] else NatToString(n / 10) + [DigitChar(n % 10)]
  }

  function IntToString(i: int): string {
    if i < 0 then "-" + NatToString(-i) else NatToString(i)
  }

  function DigitValue(c: char): nat
    requires IsDigit(c)
  {
    c as int - '0' as int
  }

  /** The value of a string of decimal digits. */
  function DigitsValue(s: string): nat
    requires forall i :: 0 <= i < |s| ==> IsDigit(s[i])
  {
    if s == [] then 0 else 10 * DigitsValue(s[..|s| - 1]) + DigitValue(s[|s| - 1])
  }

  /** Reading back the decimal rendering of a natural number gives the number. */
  lemma {:induction false} NatToStringRoundTrip(n: nat)
    ensures DigitsValue(NatToString(n)) == n
    decreases n
  {
    if n >= 10 {
      NatToStringRoundTrip(n / 10);
      var s := NatToString(n);
      assert s[..|s| - 1] == NatToString(n / 10);
    }
  }

  // ---------------------------------------------------------------------------
  // The `<` of JavaScript strings: lexicographic, character by character
  // ---------------------------------------------------------------------------

  predicate StrLess(a: string, b: string)
    decreases |a|
  {
    if a == [] then b != []
    else if b == [] then false
    else if a[0] != b[0] then a[0] < b[0]
    else StrLess(a[1..], b[1..])
  }

  lemma {:induction false} StrLessIrreflexive(a: string)
    ensures !StrLess(a, a)
    decreases |a|
  {
    if a != [] { StrLessIrreflexive(a[1..]); }
  }

  lemma {:induction false} StrLessTransitive(a: string, b: string, c: string)
    requires StrLess(a, b) && StrLess(b, c)
    ensures StrLess(a, c)
    decreases |a|
  {
    if a != [] && b != [] && c != [] && a[0] == b[0] == c[0] {
      StrLessTransitive(a[1..], b[1..], c[1..]);
    }
  }

  lemma {:induction false} StrLessTotal(a: string, b: string)
    ensures a == b || StrLess(a, b) || StrLess(b, a)
    decreases |a|
  {
    if a != [] && b != [] && a[0] == b[0] {
      StrLessTotal(a[1..], b[1..]);
      if a[1..] == b[1..] { assert a == [a[0]] + a[1..] && b == [b[0]] + b[1..]; }
    }
  }
}
