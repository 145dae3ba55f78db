/**
 * The handful of Python string operations the bot relies on: `str.isspace`,
 * `str.strip`, `str.lstrip(chars)`, ASCII `str.lower`, the `in` substring test,
 * and decimal formatting of integers.
 */
module Text {

  /** Python's `str.isspace` for one character: the ASCII whitespace and
      separator controls, and the Unicode space, line and paragraph separators. */
  predicate IsSpace(c: char) {
    || c == ' ' || '\t' <= c <= '\r' || '\U{1C}' <= c <= '\U{1F}'
    || c == '\U{85}' || c == '\U{A0}' || c == '\U{1680}'
    || '\U{2000}' <= c <= '\U{200A}' || c == '\U{2028}' || c == '\U{2029}'
    || c == '\U{202F}' || c == '\U{205F}' || c == '\U{3000}'
  }

  /** `s.lstrip()`: the suffix of `s` left after dropping leading whitespace. */
  function TrimStart(s: string): (r: string)
    ensures |r| <= |s| && r == s[|s| - |r|..]
    ensures r == [] || !IsSpace(r[0])
    ensures forall i :: 0 <= i < |s| - |r| ==> IsSpace(s[i])
  {
    if |s| > 0 && IsSpace(s[0]) then TrimStart(s[1..]) else s
  }

  /** `s.rstrip()`: the prefix of `s` left after dropping trailing whitespace. */
  function TrimEnd(s: string): (r: string)
    ensures |r| <= |s| && r == s[..|r|]
    ensures r == [] || !IsSpace(r[|r| - 1])
    ensures forall i :: |r| <= i < |s| ==> IsSpace(s[i])
  {
    if |s| > 0 && IsSpace(s[|s| - 1]) then TrimEnd(s[..|s| - 1]) else s
  }

  /** `s.strip()`. */
  function Strip(s: string): (r: string) {
    TrimEnd(TrimStart(s))
  }

  /** `Strip(s)` is the slice `s[a..b]`, with only whitespace outside it. */
  lemma StripIsSlice(s: string) returns (a: nat, b: nat)
    ensures a <= b <= |s| && Strip(s) == s[a..b]
    ensures forall i :: 0 <= i < a ==> IsSpace(s[i])
    ensures forall i :: b <= i < |s| ==> IsSpace(s[i])
    ensures a < b ==> !IsSpace(s[a]) && !IsSpace(s[b - 1])
  {
    var u := TrimStart(s);
    a := |s| - |u|;
    b := a + |TrimEnd(u)|;
    assert u == s[a..];
    assert forall i :: b <= i < |s| ==> s[i] == u[i - a];
  }

  /** `s.lstrip(cs)`: the suffix of `s` left after dropping leading characters of `cs`. */
  function TrimStartChars(s: string, cs: set<char>): (r: string)
    ensures |r| <= |s| && r == s[|s| - |r|..]
    ensures r == [] || r[0] !in cs
    ensures forall i :: 0 <= i < |s| - |r| ==> s[i] in cs
  {
    if |s| > 0 && s[0] in cs then TrimStartChars(s[1..], cs) else s
  }

  /** ASCII lower-casing of one character. */
  function LowerChar(c: char): (r: char) {
    if 'A' <= c <= 'Z' then (c as int + 32) as char else c
  }

  /** `s.lower()`, restricted to ASCII letters. */
  function Lower(s: string): (r: string)
    ensures |r| == |s|
    ensures forall i :: 0 <= i < |s| ==> r[i] == LowerChar(s[i])
  {
    seq(|s|, i requires 0 <= i < |s| => LowerChar(s[i]))
  }

  /** Lower-casing twice is lower-casing once. */
  lemma LowerIdempotent(s: string)
    ensures Lower(Lower(s)) == Lower(s)
  {
  }

  /** `p` occurs in `s` starting at index `i`. */
  predicate OccursAt(s: string, p: string, i: int) {
    0 <= i && i + |p| <= |s| && s[i..i + |p|] == p
  }

  /** Python's `p in s` for strings. */
  predicate Contains(s: string, p: string) {
    exists i | 0 <= i <= |s| - |p| :: OccursAt(s, p, i)
  }

  /** Some string of `ps` occurs in `s` (Python's `any(p in s for p in ps)`). */
  predicate ContainsAny(s: string, ps: seq<string>) {
    exists k | 0 <= k < |ps| :: Contains(s, ps[k])
  }

  /** Every string occurs in a concatenation it is the middle part of. */
  lemma ContainsMiddle(a: string, b: string, c: string)
    ensures Contains(a + b + c, b)
  {
    assert (a + b + c)[|a|..|a| + |b|] == b;
    assert OccursAt(a + b + c, b, |a|);
  }

  /** An occurrence in a slice is an occurrence in the whole string. */
  lemma ContainsInSlice(s: string, a: nat, b: nat, p: string)
    requires a <= b <= |s| && Contains(s[a..b], p)
    ensures Contains(s, p)
  {
    var t := s[a..b];
    var i :| 0 <= i <= |t| - |p| && OccursAt(t, p, i);
    forall k | 0 <= k < |p| ensures s[a + i..a + i + |p|][k] == p[k] {
      assert p[k] == t[i..i + |p|][k] == t[i + k] == s[a + i + k];
    }
    assert OccursAt(s, p, a + i);
  }

  /** An occurrence whose first and last characters lie in `s[a..b]` is an
      occurrence in that slice. */
  lemma OccurrenceInSlice(s: string, a: nat, b: nat, p: string, i: nat)
    requires a <= i && i + |p| <= b <= |s| && OccursAt(s, p, i)
    ensures Contains(s[a..b], p)
  {
    var t := s[a..b];
    forall k | 0 <= k < |p| ensures t[i - a..i - a + |p|][k] == p[k] {
      assert p[k] == s[i..i + |p|][k] == s[i + k] == t[i - a + k];
    }
    assert OccursAt(t, p, i - a);
  }

  /** Stripping whitespace never hides nor creates an occurrence of a pattern
      that starts and ends with a non-whitespace character. */
  lemma ContainsStripped(s: string, p: string)
    requires |p| > 0 && !IsSpace(p[0]) && !IsSpace(p[|p| - 1])
    ensures Contains(Strip(s), p) <==> Contains(s, p)
  {
    var a, b := StripIsSlice(s);
    if Contains(Strip(s), p) {
      ContainsInSlice(s, a, b, p);
    }
    if Contains(s, p) {
      var i :| 0 <= i <= |s| - |p| && OccursAt(s, p, i);
      assert s[i] == p[0] && s[i + |p| - 1] == p[|p| - 1] by {
        assert s[i..i + |p|] == p;
      }
      OccurrenceInSlice(s, a, b, p, i);
    }
  }

  predicate IsDigit(c: char) {
    '0' <= c <= '9'
  }

  predicate AllDigits(s: string) {
    forall i :: 0 <= i < |s| ==> IsDigit(s[i])
  }

  function DigitChar(d: nat): (c: char)
    requires d < 10
    ensures IsDigit(c)
  {
    ('0' as int + d) as char
  }

  function DigitValue(c: char): (d: nat)
    requires IsDigit(c)
    ensures d < 10 && DigitChar(d) == c
  {
    c as int - '0' as int
  }

  function Pow10(k: nat): (r: nat)
    ensures r >= 1
  {
    if k == 0 then 1 else 10 * Pow10(k - 1)
  }

  /** The last `width` decimal digits of `n`, zero-padded (the `%02d` family). */
  function Pad(n: nat, width: nat): (r: string)
    ensures |r| == width && AllDigits(r)
  {
    if width == 0 then [] else Pad(n / 10, width - 1) + [DigitChar(n % 10)]
  }

  /** One step of `Pad`: the last digit after the padded form of the rest. */
  lemma PadStep(n: nat, width: nat)
    requires width > 0
    ensures Pad(n, width) == Pad(n / 10, width - 1) + [DigitChar(n % 10)]
  {
  }

  /** The number a string of decimal digits denotes. */
  function DigitsValue(s: string): (r: nat)
    requires AllDigits(s)
  {
    if s == [] then 0 else 10 * DigitsValue(s[..|s| - 1]) + DigitValue(s[|s| - 1])
  }

  /** Reading back a zero-padded number gives the number. */
  lemma {:induction false} PadRoundTrip(n: nat, width: nat)
    requires n < Pow10(width)
    ensures DigitsValue(Pad(n, width)) == n
  {
    if width > 0 {
      var q, d := n / 10, n % 10;
      assert n == 10 * q + d && q < Pow10(width - 1);
      PadRoundTrip(q, width - 1);
      PadStep(n, width);
      DigitsValueSnoc(Pad(q, width - 1), DigitChar(d));
    }
  }

  /** Appending a digit multiplies the value by ten and adds the digit. */
  lemma DigitsValueSnoc(s: string, c: char)
    requires AllDigits(s) && IsDigit(c)
    ensures AllDigits(s + [c]) && DigitsValue(s + [c]) == 10 * DigitsValue(s) + DigitValue(c)
  {
    assert (s + [c])[..|s|] == s;
  }

  /** Every string of digits is the zero-padded form of its value. */
  lemma {:induction false} DigitsRoundTrip(s: string)
    requires AllDigits(s)
    ensures DigitsValue(s) < Pow10(|s|)
    ensures Pad(DigitsValue(s), |s|) == s
  {
    if s != [] {
      var init := s[..|s| - 1];
      DigitsRoundTrip(init);
      var v := DigitsValue(s);
      var d := DigitValue(s[|s| - 1]);
      assert v == 10 * DigitsValue(init) + d;
      assert v / 10 == DigitsValue(init) && v % 10 == d;
      assert s == init + [s[|s| - 1]];
    }
  }

  /** Python's `str(n)` for a natural number. */
  function NatToString(n: nat): (r: string)
    ensures |r| > 0 && AllDigits(r)
  {
    if n < 10 then [DigitChar(n)] else NatToString(n / 10) + [DigitChar(n % 10)]
  }

  /** Python's `str(i)` for an integer. */
  function IntToString(i: int): (r: string) {
    if i < 0 then "-" + NatToString(-i) else NatToString(i)
  }
}
