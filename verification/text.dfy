/** String rules used by the controllers and the React hooks: whitespace tests,
    trimming, clipping, previews, case-insensitive comparison and decimal rendering.
    Strings are sequences of Unicode scalar values. */
module Text {
  import opened Common

  /** .NET `char.IsWhiteSpace`: U+0009..U+000D, U+0020, U+0085 and the Unicode
      space, line and paragraph separators. `string.IsNullOrWhiteSpace` and
      `string.Trim` test characters with it. */
  predicate IsDotNetWhiteSpace(c: char) {
    c == ' ' || ('\t' <= c <= '\r') || c == '\U{0085}' || c == '\U{00A0}' || c == '\U{1680}'
    || ('\U{2000}' <= c <= '\U{200A}') || c == '\U{2028}' || c == '\U{2029}'
    || c == '\U{202F}' || c == '\U{205F}' || c == '\U{3000}'
  }

  /** The characters JavaScript's `String.prototype.trim` removes: the ECMAScript
      WhiteSpace and LineTerminator sets. Unlike .NET it keeps U+0085 and drops U+FEFF. */
  predicate IsJsWhiteSpace(c: char) {
    c == ' ' || ('\t' <= c <= '\r') || c == '\U{00A0}' || c == '\U{1680}' || c == '\U{FEFF}'
    || ('\U{2000}' <= c <= '\U{200A}') || c == '\U{2028}' || c == '\U{2029}'
    || c == '\U{202F}' || c == '\U{205F}' || c == '\U{3000}'
  }

  predicate AllWhite(s: string, ws: char -> bool) {
    forall i :: 0 <= i < |s| ==> ws(s[i])
  }

  /** One character that is not whitespace makes a text non-blank. */
  lemma NotAllWhite(s: string, ws: char -> bool, i: int)
    requires 0 <= i < |s| && !ws(s[i])
    ensures !AllWhite(s, ws)
  {
  }

  /** `string.IsNullOrWhiteSpace`. */
  predicate IsNullOrWhiteSpace(s: Option<string>) {
    s.None? || AllWhite(s.value, IsDotNetWhiteSpace)
  }

  /** Neither end of `s` is whitespace. */
  predicate Trimmed(s: string, ws: char -> bool) {
    s == [] || (!ws(s[0]) && !ws(s[|s| - 1]))
  }

  /** `s` without its leading whitespace. */
  function TrimStart(s: string, ws: char -> bool): string {
    if s != [] && ws(s[0]) then TrimStart(s[1..], ws) else s
  }

  /** `TrimStart` keeps a suffix that does not start with whitespace, and what
      it drops is all whitespace. */
  lemma {:induction false} TrimStartShape(s: string, ws: char -> bool)
    ensures var r := TrimStart(s, ws);
      && |r| <= |s| && r == s[|s| - |r|..]
      && AllWhite(s[..|s| - |r|], ws)
      && (r == [] || !ws(r[0]))
  {
    if s != [] && ws(s[0]) {
      TrimStartShape(s[1..], ws);
      var r := TrimStart(s[1..], ws);
      assert s[1..][..|s| - 1 - |r|] == s[1..|s| - |r|];
      var dropped := s[..|s| - |r|];
      forall i | 0 <= i < |dropped| ensures ws(dropped[i]) {
        if i > 0 {
          assert dropped[i] == s[1..][..|s| - 1 - |r|][i - 1];
        }
      }
    }
  }

  /** `s` without its trailing whitespace. */
  function TrimEnd(s: string, ws: char -> bool): string {
    if s != [] && ws(s[|s| - 1]) then TrimEnd(s[..|s| - 1], ws) else s
  }

  /** `TrimEnd` keeps a prefix that does not end with whitespace, and what it
      drops is all whitespace. */
  lemma {:induction false} TrimEndShape(s: string, ws: char -> bool)
    ensures var r := TrimEnd(s, ws);
      && |r| <= |s| && r == s[..|r|]
      && AllWhite(s[|r|..], ws)
      && (r == [] || !ws(r[|r| - 1]))
  {
    if s != [] && ws(s[|s| - 1]) {
      TrimEndShape(s[..|s| - 1], ws);
      var r := TrimEnd(s[..|s| - 1], ws);
      assert s[..|s| - 1][|r|..] == s[|r|..|s| - 1];
      var dropped := s[|r|..];
      forall i | 0 <= i < |dropped| ensures ws(dropped[i]) {
        if i < |s| - 1 - |r| {
          assert dropped[i] == s[..|s| - 1][|r|..][i];
        }
      }
    }
  }

  /** How many leading whitespace characters `Trim` drops. */
  function LeadingWhite(s: string, ws: char -> bool): nat {
    TrimStartShape(s, ws);
    |s| - |TrimStart(s, ws)|
  }

  /** `string.Trim()` / `String.prototype.trim()`: `s` without its leading and
      trailing whitespace. */
  function Trim(s: string, ws: char -> bool): string {
    TrimEnd(TrimStart(s, ws), ws)
  }

  /** The trimmed text is the slice of `s` between its leading and its trailing
      whitespace: it has no whitespace at either end, and what is dropped on
      either side is all whitespace. */
  lemma TrimShape(s: string, ws: char -> bool)
    ensures var r := Trim(s, ws);
      && Trimmed(r, ws)
      && LeadingWhite(s, ws) + |r| <= |s|
      && r == s[LeadingWhite(s, ws)..LeadingWhite(s, ws) + |r|]
      && AllWhite(s[..LeadingWhite(s, ws)], ws)
      && AllWhite(s[LeadingWhite(s, ws) + |r|..], ws)
  {
    TrimStartShape(s, ws);
    var a := TrimStart(s, ws);
    TrimEndShape(a, ws);
    var r := TrimEnd(a, ws);
    var k := |s| - |a|;
    assert k == LeadingWhite(s, ws);
    assert a[|r|..] == s[k + |r|..];
    if r != [] {
      assert r[0] == a[0];
    }
  }

  /** Trimming removes nothing but whitespace, and nothing from a non-blank core:
      the result is empty exactly when the input is all whitespace. */
  lemma TrimEmptyIffBlank(s: string, ws: char -> bool)
    ensures Trim(s, ws) == [] <==> AllWhite(s, ws)
  {
    TrimShape(s, ws);
    var k := LeadingWhite(s, ws);
    var r := Trim(s, ws);
    if r == [] {
      forall i | 0 <= i < |s| ensures ws(s[i]) {
        if i < k {
          assert s[..k][i] == s[i];
        } else {
          assert s[k..][i - k] == s[i];
        }
      }
    } else {
      assert r[0] == s[k];
    }
  }

  /** Trimming a trimmed string changes nothing, so `Trim` is idempotent. */
  lemma TrimIdempotent(s: string, ws: char -> bool)
    ensures Trim(Trim(s, ws), ws) == Trim(s, ws)
  {
    TrimShape(s, ws);
    TrimOfTrimmed(Trim(s, ws), ws);
  }

  /** A text that is not blank trims to a non-blank, trimmed fixed point of `Trim`. */
  lemma TrimOfNonBlank(s: string, ws: char -> bool)
    requires !AllWhite(s, ws)
    ensures var r := Trim(s, ws);
      !AllWhite(r, ws) && Trimmed(r, ws) && Trim(r, ws) == r
  {
    TrimShape(s, ws);
    TrimEmptyIffBlank(s, ws);
    TrimIdempotent(s, ws);
    NotAllWhite(Trim(s, ws), ws, 0);
  }

  lemma TrimOfTrimmed(s: string, ws: char -> bool)
    requires Trimmed(s, ws)
    ensures Trim(s, ws) == s
  {
  }

  /** The first `n` characters of `s` when it is longer than that, else `s`:
      `s.Length > n ? s[..n] : s`. */
  function Clip(s: string, n: nat): string {
    if |s| > n then s[..n] else s
  }

  lemma ClipBounded(s: string, n: nat)
    ensures |Clip(s, n)| <= n && |Clip(s, n)| <= |s|
    ensures Clip(s, n) == s[..|Clip(s, n)|]
    ensures Clip(s, n) == s <==> |s| <= n
  {
  }

  const Ellipsis: char := '\U{2026}'

  /** `s.Length > n ? s.Substring(0, n) + "…" : s`. */
  function Preview(s: string, n: nat): string {
    if |s| > n then s[..n] + [Ellipsis] else s
  }

  /** A preview is the text itself when it fits, and otherwise its first `n`
      characters followed by one ellipsis; so it is never longer than `n + 1`. */
  lemma PreviewShape(s: string, n: nat)
    ensures |Preview(s, n)| <= n + 1
    ensures |s| <= n ==> Preview(s, n) == s
    ensures |s| > n ==> |Preview(s, n)| == n + 1 && Preview(s, n)[..n] == s[..n] && Preview(s, n)[n] == Ellipsis
  {
  }

  /** Upper-case mapping used for `StringComparison.OrdinalIgnoreCase`, restricted to ASCII letters. */
  function ToUpperAscii(c: char): char {
    if 'a' <= c <= 'z' then (c as int - 32) as char else c
  }

  predicate EqualsIgnoreCase(a: string, b: string) {
    |a| == |b| && forall i :: 0 <= i < |a| ==> ToUpperAscii(a[i]) == ToUpperAscii(b[i])
  }

  /** Case-insensitive equality is an equivalence relation. */
  lemma EqualsIgnoreCaseEquivalence(a: string, b: string, c: string)
    ensures EqualsIgnoreCase(a, a)
    ensures EqualsIgnoreCase(a, b) ==> EqualsIgnoreCase(b, a)
    ensures EqualsIgnoreCase(a, b) && EqualsIgnoreCase(b, c) ==> EqualsIgnoreCase(a, c)
  {
  }

  // ---------------------------------------------------------------------------
  // Decimal rendering of a count, as C# string interpolation writes an int.

  predicate IsDigit(c: char) {
    '0' <= c <= '9'
  }

  function DigitChar(d: nat): char
    requires d < 10
  {
    ('0' as int + d) as char
  }

  function DigitValue(c: char): nat
    requires IsDigit(c)
  {
    c as int - '0' as int
  }

  /** The shortest decimal rendering of `n`. */
  function NatToString(n: nat): (r: string)
    ensures r != []
    ensures forall i :: 0 <= i < |r| ==> IsDigit(r[i])
  {
    if n < 10 then [DigitChar(n)] else NatToString(n / 10) + [DigitChar(n % 10)]
  }

  /** The number a string of decimal digits denotes. */
  function DigitsValue(s: string): nat
    requires forall i :: 0 <= i < |s| ==> IsDigit(s[i])
  {
    if s == [] then 0 else DigitsValue(s[..|s| - 1]) * 10 + DigitValue(s[|s| - 1])
  }

  /** Reading back a rendered number gives the number; no leading zero is written. */
  lemma {:induction false} NatToStringRoundTrip(n: nat)
    ensures DigitsValue(NatToString(n)) == n
    ensures |NatToString(n)| > 1 ==> NatToString(n)[0] != '0'
  {
    if n >= 10 {
      NatToStringRoundTrip(n / 10);
      var p := NatToString(n / 10);
      assert (p + [DigitChar(n % 10)])[..|p|] == p;
    }
  }
}
