/**
 * String primitives shared by the pattern matchers: occurrence at a position,
 * the JavaScript regular-expression character classes the patterns use,
 * `String.prototype.includes`, and decimal rendering of naturals
 * (`Number.prototype.toString` on a non-negative integer, then `padStart`).
 */
module Text {

  /** `pat` occurs in `s` starting at index `i`. */
  predicate StartsAt(s: string, i: int, pat: string) {
    0 <= i && i + |pat| <= |s| && s[i..i + |pat|] == pat
  }

  /** JavaScript's `\s`: the WhiteSpace and LineTerminator code points. */
  predicate IsSpace(c: char) {
    c == '\t' || c == '\n' || c == '\U{b}' || c == '\U{c}' || c == '\r' || c == ' '
    || c == '\U{a0}' || c == '\U{1680}' || ('\U{2000}' <= c <= '\U{200a}')
    || c == '\U{2028}' || c == '\U{2029}' || c == '\U{202f}' || c == '\U{205f}'
    || c == '\U{3000}' || c == '\U{feff}'
  }

  /** The characters JavaScript's `.` does not match without the `s` flag. */
  predicate IsLineTerminator(c: char) {
    c == '\n' || c == '\r' || c == '\U{2028}' || c == '\U{2029}'
  }

  /** JavaScript's `\d`: ASCII digits only. */
  predicate IsDigit(c: char) {
    '0' <= c <= '9'
  }

  predicate AllDigits(s: string) {
    forall k :: 0 <= k < |s| ==> IsDigit(s[k])
  }

  /** `pat` occurs somewhere in `s`: the declarative reading of `includes`. */
  ghost predicate Occurs(s: string, pat: string) {
    exists i :: StartsAt(s, i, pat)
  }

  /** A left-to-right scan for `pat` from index `i` on. */
  function IncludesFrom(s: string, pat: string, i: nat): bool
    decreases |s| - i
  {
    if i + |pat| > |s| then false
    else StartsAt(s, i, pat) || IncludesFrom(s, pat, i + 1)
  }

  /** `s.includes(pat)`. */
  function Includes(s: string, pat: string): bool {
    IncludesFrom(s, pat, 0)
  }

  lemma {:induction false} IncludesFromIff(s: string, pat: string, i: nat)
    ensures IncludesFrom(s, pat, i) <==> exists j :: i <= j && StartsAt(s, j, pat)
    decreases |s| - i
  {
    if i + |pat| <= |s| {
      IncludesFromIff(s, pat, i + 1);
      if exists j :: i <= j && StartsAt(s, j, pat) {
        var j :| i <= j && StartsAt(s, j, pat);
        assert j == i || (i + 1 <= j && StartsAt(s, j, pat));
      }
    }
  }

  /** The scan finds `pat` exactly when it occurs. */
  lemma IncludesIff(s: string, pat: string)
    ensures Includes(s, pat) <==> Occurs(s, pat)
  {
    IncludesFromIff(s, pat, 0);
  }

  function DigitChar(d: nat): (c: char)
    requires d < 10
    ensures IsDigit(c) && c as int - '0' as int == d
  {
    ('0' as int + d) as char
  }

  function DigitValue(c: char): (d: nat)
    requires IsDigit(c)
    ensures d < 10 && DigitChar(d) == c
  {
    c as int - '0' as int
  }

  /** The value of a string of decimal digits, leading zeros allowed (as `Number("075")`). */
  function DecimalValue(s: string): nat
    requires AllDigits(s)
  {
    if s == [] then 0 else 10 * DecimalValue(s[..|s| - 1]) + DigitValue(s[|s| - 1])
  }

  /** The shortest decimal rendering of `n` (as `String(n)` for a safe integer). */
  function NatToString(n: nat): (r: string)
    ensures |r| > 0 && AllDigits(r)
    ensures |r| > 1 ==> r[0] != '0'
    ensures n < 10 <==> |r| == 1
  {
    if n < 10 then [DigitChar(n)] else NatToString(n / 10) + [DigitChar(n % 10)]
  }

  /** Rendering then reading back a natural gives the natural back. */
  lemma {:induction false} NatToStringRoundTrip(n: nat)
    ensures DecimalValue(NatToString(n)) == n
  {
    var r := NatToString(n);
    if n >= 10 {
      NatToStringRoundTrip(n / 10);
      assert r[..|r| - 1] == NatToString(n / 10);
    }
  }

  /** `s.padStart(width, [fill])`: prefix copies of `fill` up to length `width`. */
  function PadStart(s: string, width: nat, fill: char): (r: string)
    ensures |r| == if |s| >= width then |s| else width
    ensures r[|r| - |s|..] == s
    ensures forall k :: 0 <= k < |r| - |s| ==> r[k] == fill
  {
    if |s| >= width then s else seq(width - |s|, _ => fill) + s
  }
}
