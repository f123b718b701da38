/**
 * The JavaScript string operations the core relies on, restricted to what the
 * core calls: `indexOf`/`replace` with a string pattern, `startsWith`,
 * `split(' ')`/`join(' ')`, ASCII `toUpperCase`/`toLowerCase` and the decimal
 * rendering of a non-negative integer.
 */
module Text {
  import opened Options

  /** `pat` occurs in `s` starting at index `i`. */
  predicate OccursAt(s: string, pat: string, i: nat) {
    i + |pat| <= |s| && s[i..i + |pat|] == pat
  }

  /** `s.indexOf(pat, from)`: the first occurrence of `pat` at or after `from`. */
  function IndexOfFrom(s: string, pat: string, from: nat): (r: Option<nat>)
    ensures r.Some? ==> from <= r.value && OccursAt(s, pat, r.value)
    ensures r.Some? ==> forall j :: from <= j < r.value ==> !OccursAt(s, pat, j)
    ensures r.None? ==> forall j :: from <= j ==> !OccursAt(s, pat, j)
    decreases |s| - from
  {
    if from + |pat| > |s| then None
    else if s[from..from + |pat|] == pat then Some(from)
    else IndexOfFrom(s, pat, from + 1)
  }

  /** `s.indexOf(pat)`, with `None` for JavaScript's -1. */
  function IndexOf(s: string, pat: string): (r: Option<nat>)
    ensures r.Some? ==> OccursAt(s, pat, r.value) && forall j: nat :: j < r.value ==> !OccursAt(s, pat, j)
    ensures r.None? ==> forall j: nat :: !OccursAt(s, pat, j)
  {
    IndexOfFrom(s, pat, 0)
  }

  /** `s.replace(pat, rep)` with a string pattern: only the first occurrence is replaced. */
  function ReplaceFirst(s: string, pat: string, rep: string): string {
    match IndexOf(s, pat)
    case None => s
    case Some(i) => s[..i] + rep + s[i + |pat|..]
  }

  /** `s.startsWith(prefix)`. */
  predicate StartsWith(s: string, prefix: string) {
    |prefix| <= |s| && s[..|prefix|] == prefix
  }

  /** A one-character pattern occurs exactly where that character stands. */
  lemma CharOccursAt(s: string, c: char, j: nat)
    requires j < |s|
    ensures OccursAt(s, [c], j) <==> s[j] == c
  {
    if s[j] == c {
      assert s[j..j + 1] == [c];
    }
  }

  /** `s.split(' ')`: the pieces between single spaces; never empty (`"".split(' ')` is `[""]`). */
  function Split(s: string): (words: seq<string>)
    ensures |words| >= 1
    ensures forall k :: 0 <= k < |words| ==> ' ' !in words[k]
    decreases |s|
  {
    match IndexOf(s, " ")
    case None =>
      assert forall j | 0 <= j < |s| :: s[j] != ' ' by {
        forall j | 0 <= j < |s| ensures s[j] != ' ' { CharOccursAt(s, ' ', j); }
      }
      [s]
    case Some(i) =>
      assert forall j | 0 <= j < i :: s[j] != ' ' by {
        forall j | 0 <= j < i ensures s[j] != ' ' { CharOccursAt(s, ' ', j); }
      }
      [s[..i]] + Split(s[i + 1..])
  }

  /** `words.join(' ')`. */
  function Join(words: seq<string>): string {
    if |words| == 0 then ""
    else if |words| == 1 then words[0]
    else words[0] + " " + Join(words[1..])
  }

  /** Joining the pieces of a split restores the string: `s.split(' ').join(' ') == s`. */
  lemma {:induction false} JoinSplit(s: string)
    ensures Join(Split(s)) == s
    decreases |s|
  {
    match IndexOf(s, " ")
    case None =>
    case Some(i) =>
      var rest := Split(s[i + 1..]);
      JoinSplit(s[i + 1..]);
      CharOccursAt(s, ' ', i);
      assert ([s[..i]] + rest)[1..] == rest;
      calc {
        Join(Split(s));
        Join([s[..i]] + rest);
        s[..i] + " " + Join(rest);
        s[..i] + " " + s[i + 1..];
        { assert s == s[..i] + [s[i]] + s[i + 1..]; }
        s;
      }
  }

  predicate IsLowerAscii(c: char) { 'a' <= c <= 'z' }

  predicate IsUpperAscii(c: char) { 'A' <= c <= 'Z' }

  /** `toUpperCase` of one character, for the ASCII letters; every other character is kept. */
  function ToUpper(c: char): (u: char)
    ensures !IsLowerAscii(u)
    ensures u == c <==> !IsLowerAscii(c)
    ensures IsUpperAscii(u) <==> IsUpperAscii(c) || IsLowerAscii(c)
    ensures IsLowerAscii(c) ==> u as int - 'A' as int == c as int - 'a' as int
  {
    if IsLowerAscii(c) then (c as int - 32) as char else c
  }

  /** `toLowerCase` of one character, for the ASCII letters; every other character is kept. */
  function ToLower(c: char): (l: char)
    ensures !IsUpperAscii(l)
    ensures l == c <==> !IsUpperAscii(c)
    ensures IsLowerAscii(l) <==> IsUpperAscii(c) || IsLowerAscii(c)
    ensures IsUpperAscii(c) ==> l as int - 'a' as int == c as int - 'A' as int
  {
    if IsUpperAscii(c) then (c as int + 32) as char else c
  }

  /** Upper-casing a lower-case letter and lower-casing it again gives it back, and the reverse. */
  lemma CaseMappingRoundTrip(c: char)
    ensures IsLowerAscii(c) ==> ToLower(ToUpper(c)) == c
    ensures IsUpperAscii(c) ==> ToUpper(ToLower(c)) == c
  {
  }

  /** `w.toLowerCase()`, character by character. */
  function LowerAll(w: string): (r: string)
    ensures |r| == |w| && forall k :: 0 <= k < |w| ==> r[k] == ToLower(w[k])
  {
    if w == [] then [] else [ToLower(w[0])] + LowerAll(w[1..])
  }

  predicate IsDigit(c: char) { '0' <= c <= '9' }

  function DigitChar(d: nat): (c: char)
    requires d < 10
    ensures IsDigit(c)
  {
    ('0' as int + d) as char
  }

  function DigitValue(c: char): (d: nat)
    requires IsDigit(c)
    ensures d < 10
  {
    c as int - '0' as int
  }

  /** `String(n)` for a non-negative integer: its decimal digits, without leading zeros. */
  function DecimalString(n: nat): (s: string)
    ensures |s| >= 1 && forall k :: 0 <= k < |s| ==> IsDigit(s[k])
    ensures s[0] == '0' ==> n == 0
    decreases n
  {
    if n < 10 then [DigitChar(n)] else DecimalString(n / 10) + [DigitChar(n % 10)]
  }

  /** The value of a string of decimal digits. */
  function ParseDecimal(s: string): nat
    requires forall k :: 0 <= k < |s| ==> IsDigit(s[k])
  {
    if s == [] then 0 else ParseDecimal(s[..|s| - 1]) * 10 + DigitValue(s[|s| - 1])
  }

  /** Reading back the decimal rendering of `n` gives `n`. */
  lemma {:induction false} ParseDecimalString(n: nat)
    ensures ParseDecimal(DecimalString(n)) == n
    decreases n
  {
    var s := DecimalString(n);
    if n >= 10 {
      ParseDecimalString(n / 10);
      assert s[..|s| - 1] == DecimalString(n / 10);
    }
  }
}
