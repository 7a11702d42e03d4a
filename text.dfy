/**
 * The JavaScript string built-ins the pages rely on, over strings as
 * sequences of Unicode code points: `trim`, `toLowerCase`, `includes`, and
 * the decimal rendering of a non-negative integer (`Number.prototype.toString`).
 */
module Text {

  /** The characters `String.prototype.trim` removes: WhiteSpace and LineTerminator of ECMAScript. */
  predicate IsWhitespace(c: char)
  {
    || '\t' <= c <= '\r'          // tab, line feed, vertical tab, form feed, carriage return
    || c == ' ' || c == '\U{00A0}' || c == '\U{1680}'
    || '\U{2000}' <= c <= '\U{200A}'
    || c == '\U{2028}' || c == '\U{2029}' || c == '\U{202F}' || c == '\U{205F}'
    || c == '\U{3000}' || c == '\U{FEFF}'
  }

  /** A string that `trim` turns into the empty string, i.e. one that is falsy after trimming. */
  predicate IsBlank(s: string)
  {
    forall i | 0 <= i < |s| :: IsWhitespace(s[i])
  }

  /** Number of leading whitespace characters. */
  function LeadingWhitespace(s: string): (n: nat)
    ensures n <= |s|
    ensures forall i | 0 <= i < n :: IsWhitespace(s[i])
    ensures n < |s| ==> !IsWhitespace(s[n])
  {
    if s == [] || !IsWhitespace(s[0]) then 0 else 1 + LeadingWhitespace(s[1..])
  }

  /** Number of trailing whitespace characters. */
  function TrailingWhitespace(s: string): (n: nat)
    ensures n <= |s|
    ensures forall i | |s| - n <= i < |s| :: IsWhitespace(s[i])
    ensures n < |s| ==> !IsWhitespace(s[|s| - 1 - n])
  {
    if s == [] || !IsWhitespace(s[|s| - 1]) then 0 else 1 + TrailingWhitespace(s[..|s| - 1])
  }

  /** True when `q` occurs in `s` starting at index `i`. */
  predicate OccursAt(s: string, q: string, i: nat)
  {
    i + |q| <= |s| && s[i..i + |q|] == q
  }

  /**
   * `s.trim()`: the part of `s` between its leading and its trailing
   * whitespace. It is empty exactly when `s` is blank, and otherwise
   * begins and ends with a non-whitespace character.
   */
  function Trim(s: string): (r: string)
    ensures |r| <= |s|
    ensures r == [] <==> IsBlank(s)
    ensures r != [] ==> !IsWhitespace(r[0]) && !IsWhitespace(r[|r| - 1])
    ensures OccursAt(s, r, LeadingWhitespace(s))
    ensures forall i | 0 <= i < LeadingWhitespace(s) :: IsWhitespace(s[i])
    ensures forall i | LeadingWhitespace(s) + |r| <= i < |s| :: IsWhitespace(s[i])
  {
    var start := LeadingWhitespace(s);
    var rest := s[start..];
    var r := rest[..|rest| - TrailingWhitespace(rest)];
    assert r == s[start..start + |r|];
    r
  }

  /** Trimming twice is trimming once. */
  lemma TrimIdempotent(s: string)
    ensures Trim(Trim(s)) == Trim(s)
  {
    var t := Trim(s);
    if t != [] {
      assert LeadingWhitespace(t) == 0;
      assert TrailingWhitespace(t) == 0;
      assert t[0..] == t;
    }
  }

  /** `toLowerCase` of one code point; only ASCII letters are mapped. */
  function LowerChar(c: char): char
  {
    if 'A' <= c <= 'Z' then (c as int + 32) as char else c
  }

  /** `s.toLowerCase()` restricted to ASCII: the result has no ASCII capital letter left. */
  function ToLower(s: string): (r: string)
    ensures |r| == |s|
    ensures forall i | 0 <= i < |r| :: !('A' <= r[i] <= 'Z')
    ensures forall i | 0 <= i < |s| :: 'A' <= s[i] <= 'Z' ==> r[i] as int == s[i] as int + 32
    ensures forall i | 0 <= i < |s| :: !('A' <= s[i] <= 'Z') ==> r[i] == s[i]
  {
    seq(|s|, i requires 0 <= i < |s| => LowerChar(s[i]))
  }

  /** `s.includes(q)`: some occurrence of `q` in `s`; the empty string occurs in every string. */
  function Includes(s: string, q: string): (r: bool)
    ensures r <==> exists i: nat :: OccursAt(s, q, i)
    decreases |s|
  {
    if q <= s then
      assert OccursAt(s, q, 0);
      true
    else if s == [] then
      assert forall i: nat :: !OccursAt(s, q, i);
      false
    else
      var r := Includes(s[1..], q);
      assert forall i: nat :: OccursAt(s[1..], q, i) <==> OccursAt(s, q, i + 1);
      assert !OccursAt(s, q, 0);
      assert forall i: nat | i > 0 :: OccursAt(s, q, i) ==> OccursAt(s[1..], q, i - 1);
      r
  }

  /** The character of a decimal digit. */
  function DigitChar(d: nat): char
    requires d < 10
  {
    "0123456789"[d]
  }

  predicate IsDigit(c: char)
  {
    '0' <= c <= '9'
  }

  /**
   * The decimal rendering of a non-negative integer, as `Date.now().toString()`
   * produces it: only digits, never empty, no leading zero unless it is "0".
   */
  function NatToString(n: nat): (r: string)
    ensures r != []
    ensures forall i | 0 <= i < |r| :: IsDigit(r[i])
    ensures r[0] == '0' ==> n == 0 && r == "0"
  {
    if n < 10 then [DigitChar(n)] else NatToString(n / 10) + [DigitChar(n % 10)]
  }

  /** The value of a string of decimal digits. */
  function DecimalValue(s: string): nat
    requires forall i | 0 <= i < |s| :: IsDigit(s[i])
  {
    if s == [] then 0
    else
      assert IsDigit(s[|s| - 1]);
      DecimalValue(s[..|s| - 1]) * 10 + (s[|s| - 1] as int - '0' as int)
  }

  /** Reading back the decimal rendering gives the number. */
  lemma {:induction false} DecimalRoundTrip(n: nat)
    ensures DecimalValue(NatToString(n)) == n
  {
    var s := NatToString(n);
    if n >= 10 {
      DecimalRoundTrip(n / 10);
      assert s[..|s| - 1] == NatToString(n / 10);
    }
  }

  /** Distinct numbers have distinct decimal renderings. */
  lemma NatToStringInjective(a: nat, b: nat)
    requires NatToString(a) == NatToString(b)
    ensures a == b
  {
    DecimalRoundTrip(a);
    DecimalRoundTrip(b);
  }
}
