/** The JavaScript string operations the application relies on, over
    `seq<char>`: whitespace as `String.prototype.trim` and the regular
    expression class `\s` see it, `trim`, `includes`, `startsWith`,
    `slice`, `split(..).pop()`/`split(..)[0]` and ASCII case mapping. */
module JsStrings {
  /** WhiteSpace and LineTerminator code points of ECMAScript. */
  predicate IsJsWhitespace(c: char) {
    || c == '\t' || c == '\n' || c == '\U{000B}' || c == '\U{000C}' || c == '\r' || c == ' '
    || c == '\U{00A0}' || c == '\U{1680}' || ('\U{2000}' <= c <= '\U{200A}')
    || c == '\U{2028}' || c == '\U{2029}' || c == '\U{202F}' || c == '\U{205F}'
    || c == '\U{3000}' || c == '\U{FEFF}'
  }

  /** Number of leading whitespace characters. */
  function LeadingWs(s: string): (n: nat)
    ensures n <= |s|
    ensures forall j :: 0 <= j < n ==> IsJsWhitespace(s[j])
    ensures n == |s| || !IsJsWhitespace(s[n])
  {
    if s == [] || !IsJsWhitespace(s[0]) then 0 else 1 + LeadingWs(s[1..])
  }

  /** Number of trailing whitespace characters. */
  function TrailingWs(s: string): (n: nat)
    ensures n <= |s|
    ensures forall j :: |s| - n <= j < |s| ==> IsJsWhitespace(s[j])
    ensures n == |s| || !IsJsWhitespace(s[|s| - n - 1])
  {
    if s == [] || !IsJsWhitespace(s[|s| - 1]) then 0 else 1 + TrailingWs(s[..|s| - 1])
  }

  /** `s.trim()` */
  function Trim(s: string): string {
    var t := s[LeadingWs(s)..];
    t[..|t| - TrailingWs(t)]
  }

  /** `s.trim()` is empty exactly when every character is whitespace, and
      otherwise starts and ends with a non-whitespace character taken from
      a contiguous piece of `s`. */
  lemma {:induction false} TrimProperties(s: string)
    ensures Trim(s) == "" <==> forall j :: 0 <= j < |s| ==> IsJsWhitespace(s[j])
    ensures Trim(s) != "" ==> !IsJsWhitespace(Trim(s)[0]) && !IsJsWhitespace(Trim(s)[|Trim(s)| - 1])
    ensures LeadingWs(s) + |Trim(s)| <= |s| && Trim(s) == s[LeadingWs(s)..LeadingWs(s) + |Trim(s)|]
  {
    var a := LeadingWs(s);
    var t := s[a..];
    var b := TrailingWs(t);
    assert Trim(s) == s[a..a + |t| - b];
    if Trim(s) == "" {
      assert b == |t|;
    } else {
      assert Trim(s)[0] == t[0] == s[a];
    }
  }

  /** Trimming twice is trimming once. */
  lemma {:induction false} TrimIdempotent(s: string)
    ensures Trim(Trim(s)) == Trim(s)
  {
    var r := Trim(s);
    TrimProperties(s);
    if r != "" {
      assert LeadingWs(r) == 0;
      assert r[LeadingWs(r)..] == r;
      assert TrailingWs(r) == 0;
    } else {
      assert LeadingWs(r) == 0;
    }
  }

  /** `s.startsWith(p)` */
  predicate StartsWith(s: string, p: string) {
    |p| <= |s| && s[..|p|] == p
  }

  /** `p` occurs in `s` at index `i`. */
  predicate OccursAt(s: string, p: string, i: int) {
    0 <= i <= |s| - |p| && s[i..i + |p|] == p
  }

  /** `s.includes(p)` */
  predicate Contains(s: string, p: string) {
    exists i :: 0 <= i <= |s| - |p| && OccursAt(s, p, i)
  }

  /** Index of the first occurrence of `p` in `s` at or after `from`, or -1. */
  function IndexOfFrom(s: string, p: string, from: nat): (r: int)
    requires from <= |s|
    ensures r == -1 || (from <= r && OccursAt(s, p, r))
    ensures forall i :: from <= i && (r == -1 || i < r) ==> !OccursAt(s, p, i)
    decreases |s| - from
  {
    if |s| - from < |p| then -1
    else if s[from..from + |p|] == p then from
    else IndexOfFrom(s, p, from + 1)
  }

  /** `s.indexOf(p)` */
  function IndexOf(s: string, p: string): (r: int)
    ensures r == -1 <==> !Contains(s, p)
    ensures r != -1 ==> OccursAt(s, p, r) && forall i :: 0 <= i < r ==> !OccursAt(s, p, i)
  {
    IndexOfFrom(s, p, 0)
  }

  /** `s.split(sep).pop()` for a non-empty separator, scanning from
      `from`: `split` finds the matches left to right without overlapping
      them, and the last piece is what follows the last match (all of
      `s[from..]` when there is none). The piece contains no separator and
      is either everything scanned or preceded by a match. */
  function SplitPopFrom(s: string, sep: string, from: nat): (r: string)
    requires |sep| > 0 && from <= |s|
    ensures |r| <= |s| - from && r == s[|s| - |r|..]
    ensures !Contains(r, sep)
    ensures |s| - |r| == from || (from + |sep| <= |s| - |r| && s[|s| - |r| - |sep|..|s| - |r|] == sep)
    decreases |s| - from
  {
    var i := IndexOfFrom(s, sep, from);
    if i == -1 then
      var r := s[from..];
      forall j | 0 <= j <= |r| - |sep| ensures !OccursAt(r, sep, j) {
        assert r[j..j + |sep|] == s[from + j..from + j + |sep|];
        assert !OccursAt(s, sep, from + j);
      }
      r
    else SplitPopFrom(s, sep, i + |sep|)
  }

  /** `s.split(sep).pop()` for a non-empty separator. */
  function SplitPop(s: string, sep: string): (r: string)
    requires |sep| > 0
    ensures |r| <= |s|
    ensures r == s[|s| - |r|..] && !Contains(r, sep)
    ensures r == s || (|sep| <= |s| - |r| && s[|s| - |r| - |sep|..|s| - |r|] == sep)
  {
    SplitPopFrom(s, sep, 0)
  }

  /** `s.split(c)[0]` for a one-character separator: the text before the
      first occurrence of `c`, or all of `s`. */
  function BeforeFirst(s: string, c: char): (r: string)
    ensures c !in r
    ensures StartsWith(s, r)
    ensures |r| < |s| ==> s[|r|] == c
  {
    if s == [] then []
    else if s[0] == c then []
    else [s[0]] + BeforeFirst(s[1..], c)
  }

  /** JavaScript `s.slice(start, end)` with both indices given (negative
      values count from the end; out-of-range values are clamped). */
  function Slice(s: string, start: int, end: int): (r: string)
    ensures |r| <= |s|
  {
    var from := if start < 0 then (if |s| + start < 0 then 0 else |s| + start)
                else (if start > |s| then |s| else start);
    var to := if end < 0 then (if |s| + end < 0 then 0 else |s| + end)
              else (if end > |s| then |s| else end);
    if from >= to then [] else s[from..to]
  }

  /** `s.slice(start)` */
  function SliceFrom(s: string, start: int): (r: string)
    ensures |r| <= |s|
  {
    Slice(s, start, |s|)
  }

  function UpperChar(c: char): char {
    if 'a' <= c <= 'z' then (c as int - 32) as char else c
  }

  function LowerChar(c: char): char {
    if 'A' <= c <= 'Z' then (c as int + 32) as char else c
  }

  /** `toUpperCase()` on ASCII letters. */
  function ToUpper(s: string): (r: string)
    ensures |r| == |s|
    ensures forall i :: 0 <= i < |s| ==> r[i] == UpperChar(s[i])
  {
    if s == [] then [] else [UpperChar(s[0])] + ToUpper(s[1..])
  }

  /** `toLowerCase()` on ASCII letters. */
  function ToLower(s: string): (r: string)
    ensures |r| == |s|
    ensures forall i :: 0 <= i < |s| ==> r[i] == LowerChar(s[i])
  {
    if s == [] then [] else [LowerChar(s[0])] + ToLower(s[1..])
  }

  function DigitChar(d: nat): (c: char)
    requires d < 10
    ensures '0' <= c <= '9'
  {
    ('0' as int + d) as char
  }

  /** The decimal text a template literal gives a non-negative integer. */
  function NatToString(n: nat): (r: string)
    ensures |r| >= 1
    ensures forall i :: 0 <= i < |r| ==> '0' <= r[i] <= '9'
    ensures |r| > 1 ==> r[0] != '0'
    decreases n
  {
    if n < 10 then [DigitChar(n)] else NatToString(n / 10) + [DigitChar(n % 10)]
  }

  predicate AllDigits(s: string) {
    forall i :: 0 <= i < |s| ==> '0' <= s[i] <= '9'
  }

  /** The value of a string of decimal digits. */
  function ParseNat(s: string): nat
    requires AllDigits(s)
  {
    if s == [] then 0 else ParseNat(s[..|s| - 1]) * 10 + (s[|s| - 1] as int - '0' as int)
  }

  /** Reading the decimal text back gives the number: the text names the
      number unambiguously. */
  lemma {:induction false} ParseNatToString(n: nat)
    ensures ParseNat(NatToString(n)) == n
    decreases n
  {
    if n >= 10 {
      var r := NatToString(n);
      assert r[..|r| - 1] == NatToString(n / 10);
      ParseNatToString(n / 10);
    }
  }

  lemma NatToStringInjective(m: nat, n: nat)
    requires NatToString(m) == NatToString(n)
    ensures m == n
  {
    ParseNatToString(m);
    ParseNatToString(n);
  }
}
