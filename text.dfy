/**
 * Character classes and the handful of string operations of the Python
 * standard library that the pipeline relies on: `str.lower`, `str.find`,
 * slicing, `str.split`/`" ".join`, `str.strip`, `str.replace` and the word
 * runs that `re.findall(r'\b\w+\b', ...)` returns.
 *
 * Letters, digits and word characters are the ASCII ones; whitespace is the
 * full set Python's `str.isspace` (and `\s` in a `str` pattern) accepts.
 */
module Text {

  predicate IsDigit(c: char) { '0' <= c <= '9' }

  predicate IsUpper(c: char) { 'A' <= c <= 'Z' }

  predicate IsLower(c: char) { 'a' <= c <= 'z' }

  /** `[A-Za-z]`; with `re.IGNORECASE` both `[A-Z]` and `[a-z]` mean this. */
  predicate IsLetter(c: char) { IsUpper(c) || IsLower(c) }

  /** `\w` */
  predicate IsWordChar(c: char) { IsLetter(c) || IsDigit(c) || c == '_' }

  /** `\s`, and what `str.split()` and `str.strip()` treat as blank. */
  predicate IsSpace(c: char) {
    var n := c as int;
    (9 <= n <= 13) || (28 <= n <= 32) || n == 0x85 || n == 0xA0 || n == 0x1680
    || (0x2000 <= n <= 0x200A) || n == 0x2028 || n == 0x2029 || n == 0x202F
    || n == 0x205F || n == 0x3000
  }

  predicate NotSpace(c: char) { !IsSpace(c) }

  /** `[^\s\)]` */
  predicate IsLinkChar(c: char) { !IsSpace(c) && c != ')' }

  function LowerChar(c: char): (r: char)
    ensures IsLetter(c) ==> IsLower(r)
    ensures !IsUpper(c) ==> r == c
  {
    if IsUpper(c) then (c as int + 32) as char else c
  }

  function Lower(s: string): (r: string)
    ensures |r| == |s|
    ensures forall i :: 0 <= i < |s| ==> r[i] == LowerChar(s[i])
  {
    seq(|s|, i requires 0 <= i < |s| => LowerChar(s[i]))
  }

  /** The first `n` elements (all of them when there are fewer): Python's `xs[:n]` for a non-negative `n`. */
  function Take<T>(xs: seq<T>, n: nat): (r: seq<T>)
    ensures |r| <= n && |r| <= |xs|
    ensures |r| == if |xs| <= n then |xs| else n
    ensures r <= xs
    ensures |xs| <= n ==> r == xs
  {
    if |xs| <= n then xs else xs[..n]
  }

  /**
   * The length of the run of characters satisfying `p` that starts at
   * position `i`.  Its contract is kept ground (no quantifier) so that the
   * matchers that chain several runs stay cheap to verify; RunFromAll gives
   * the quantified fact where it is needed.
   */
  function RunFrom(s: string, i: nat, p: char -> bool): (n: nat)
    requires i <= |s|
    ensures i + n <= |s|
    ensures n > 0 ==> p(s[i])
    ensures n > 1 ==> p(s[i + 1])
    ensures n > 0 ==> p(s[i + n - 1])
    ensures i + n < |s| ==> !p(s[i + n])
    decreases |s| - i
  {
    if i == |s| || !p(s[i]) then 0 else 1 + RunFrom(s, i + 1, p)
  }

  lemma {:induction false} RunFromAll(s: string, i: nat, p: char -> bool)
    requires i <= |s|
    ensures forall k :: i <= k < i + RunFrom(s, i, p) ==> p(s[k])
    decreases |s| - i
  {
    if i < |s| && p(s[i]) {
      RunFromAll(s, i + 1, p);
    }
  }

  /** The leading run of characters satisfying `p`. */
  function LeadingRun(s: string, p: char -> bool): (n: nat)
    ensures n <= |s|
    ensures forall i :: 0 <= i < n ==> p(s[i])
    ensures n < |s| ==> !p(s[n])
  {
    RunFromAll(s, 0, p);
    RunFrom(s, 0, p)
  }

  // ---------------------------------------------------------------------------
  // Substring search

  predicate OccursAt(text: string, pat: string, i: int) {
    0 <= i && i + |pat| <= |text| && text[i..i + |pat|] == pat
  }

  /** Case-insensitive occurrence of a lower-case literal at `i`. */
  predicate OccursAtIgnoringCase(text: string, lit: string, i: int) {
    0 <= i && i + |lit| <= |text| && forall k :: 0 <= k < |lit| ==> LowerChar(text[i + k]) == lit[k]
  }

  predicate ContainsIgnoringCase(text: string, lit: string) {
    exists i | 0 <= i <= |text| :: OccursAtIgnoringCase(text, lit, i)
  }

  /** `text.find(pat)`: the first index where `pat` occurs, or -1. */
  function Find(text: string, pat: string): (r: int)
    ensures r == -1 || OccursAt(text, pat, r)
    ensures r == -1 <==> forall i :: !OccursAt(text, pat, i)
    ensures forall i :: 0 <= i < r ==> !OccursAt(text, pat, i)
  {
    FindFrom(text, pat, 0)
  }

  function FindFrom(text: string, pat: string, from: nat): (r: int)
    requires from <= |text|
    ensures r == -1 || (from <= r && OccursAt(text, pat, r))
    ensures r == -1 <==> forall i :: from <= i ==> !OccursAt(text, pat, i)
    ensures forall i :: from <= i < r ==> !OccursAt(text, pat, i)
    decreases |text| - from
  {
    if OccursAt(text, pat, from) then from
    else if from == |text| then -1
    else FindFrom(text, pat, from + 1)
  }

  // ---------------------------------------------------------------------------
  // Words, tokens, join

  /** The maximal runs of `\w` characters, in order (what `\b\w+\b` finds). */
  function Words(s: string): (r: seq<string>)
    ensures forall w :: w in r ==> |w| > 0
    decreases |s|
  {
    if |s| == 0 then []
    else if !IsWordChar(s[0]) then Words(s[1..])
    else
      var n := LeadingRun(s, IsWordChar);
      [s[..n]] + Words(s[n..])
  }

  /** `set(re.findall(r'\b\w+\b', s))` */
  function WordSet(s: string): (r: set<string>)
    ensures forall w :: w in r ==> |w| > 0
  {
    set w | w in Words(s)
  }

  /** `set(re.findall(r'\b\w{4,}\b', s))`: the words of four or more characters. */
  function LongWordSet(s: string): (r: set<string>)
    ensures r <= WordSet(s)
    ensures forall w :: w in r ==> |w| >= 4
    ensures forall w :: w in WordSet(s) && |w| >= 4 ==> w in r
  {
    set w | w in Words(s) && |w| >= 4
  }

  /** `needle in haystack` for strings. */
  predicate Contains(haystack: string, needle: string) {
    exists i | 0 <= i <= |haystack| :: OccursAt(haystack, needle, i)
  }

  /** A token of `str.split()`: non-empty and blank-free. */
  predicate IsToken(w: string) {
    |w| > 0 && forall i :: 0 <= i < |w| ==> !IsSpace(w[i])
  }

  /** `s.split()` with no separator: the maximal non-blank runs, in order. */
  function Split(s: string): (r: seq<string>)
    ensures forall w :: w in r ==> IsToken(w)
    decreases |s|
  {
    if |s| == 0 then []
    else if IsSpace(s[0]) then Split(s[1..])
    else
      var n := LeadingRun(s, NotSpace);
      [s[..n]] + Split(s[n..])
  }

  /** `" ".join(ws)` */
  function Join(ws: seq<string>): string {
    if |ws| == 0 then ""
    else if |ws| == 1 then ws[0]
    else ws[0] + " " + Join(ws[1..])
  }

  /** Splitting a space-joined list of tokens gives the tokens back. */
  lemma {:induction false} SplitJoin(ws: seq<string>)
    requires forall w :: w in ws ==> IsToken(w)
    ensures Split(Join(ws)) == ws
  {
    if |ws| > 0 {
      var w := ws[0];
      assert IsToken(w);
      var rest := if |ws| == 1 then "" else " " + Join(ws[1..]);
      var s := w + rest;
      assert Join(ws) == s;
      assert forall i :: 0 <= i < |w| ==> s[i] == w[i] && NotSpace(s[i]);
      assert |w| < |s| ==> s[|w|] == ' ' && !NotSpace(s[|w|]);
      LeadingRunStops(s, |w|, NotSpace);
      assert s[..|w|] == w;
      assert s[|w|..] == rest;
      assert Split(s) == [w] + Split(rest);
      if |ws| > 1 {
        assert rest[1..] == Join(ws[1..]);
        SplitJoin(ws[1..]);
        assert Split(rest) == Split(Join(ws[1..]));
        assert [w] + ws[1..] == ws;
      }
    }
  }

  /** The run from `i` is exactly `n` long when the `n` characters from `i` satisfy `p` and the next does not. */
  lemma {:induction false} RunFromStops(s: string, i: nat, n: nat, p: char -> bool)
    requires i + n <= |s|
    requires forall k :: i <= k < i + n ==> p(s[k])
    requires i + n < |s| ==> !p(s[i + n])
    ensures RunFrom(s, i, p) == n
    decreases n
  {
    if n > 0 {
      RunFromStops(s, i + 1, n - 1, p);
    }
  }

  lemma LeadingRunStops(s: string, n: nat, p: char -> bool)
    requires n <= |s|
    requires forall i :: 0 <= i < n ==> p(s[i])
    requires n < |s| ==> !p(s[n])
    ensures LeadingRun(s, p) == n
  {
    RunFromStops(s, 0, n, p);
  }

  /** `s.strip()` */
  function Strip(s: string): (r: string)
    ensures |r| <= |s|
    decreases |s|
  {
    if |s| > 0 && IsSpace(s[0]) then Strip(s[1..])
    else if |s| > 0 && IsSpace(s[|s| - 1]) then Strip(s[..|s| - 1])
    else s
  }

  /** `s.replace(pat, "")`: every occurrence removed, scanning left to right. */
  function RemoveAll(s: string, pat: string): (r: string)
    requires |pat| > 0
    ensures |r| <= |s|
    decreases |s|
  {
    if |s| == 0 then ""
    else if OccursAt(s, pat, 0) then RemoveAll(s[|pat|..], pat)
    else [s[0]] + RemoveAll(s[1..], pat)
  }

  function DigitChar(d: nat): char
    requires d < 10
  {
    ('0' as int + d) as char
  }

  /** `str(n)` for a natural number. */
  function NatToString(n: nat): (r: string)
    ensures |r| > 0
    ensures forall i :: 0 <= i < |r| ==> IsDigit(r[i])
  {
    if n < 10 then [DigitChar(n)] else NatToString(n / 10) + [DigitChar(n % 10)]
  }
}
