/**
 * The five citation patterns of config.py, hand-written as matchers, and
 * the left-to-right, non-overlapping scan of `re.finditer`.
 *
 *   apa   ([A-Z][a-z]+(?:\s+et\s+al\.)?(?:\s+and\s+[A-Z][a-z]+)?)\s*\((\d{4})\)   IGNORECASE
 *   mla   ([A-Z][a-z]+(?:\s+et\s+al\.)?)\s+(\d{4})                                IGNORECASE
 *   ieee  \[(\d+)\]
 *   url   https?://[^\s\)]+
 *   doi   doi:([^\s\)]+)                                                          IGNORECASE
 *
 * Under IGNORECASE, `[A-Z][a-z]+` is a run of two or more letters of either
 * case.  Every character run in these patterns is followed by a character
 * the run cannot contain, so the regex engine can only succeed with maximal
 * runs.  Each optional group, once it matches, leaves a character that the
 * group-free continuation rejects.  So the match at a position is unique, and
 * the greedy reading below is exactly what the backtracking engine finds.
 */
module Patterns {
  import opened Wrappers
  import opened Text

  /**
   * A match: its span and the spans of its first and second capture groups
   * (what `m.span()`, `m.span(1)` and `m.span(2)` give; an absent group is
   * the empty span 0..0).
   */
  datatype Match = Match(start: nat, end: nat, g1Start: nat, g1End: nat, g2Start: nat, g2End: nat)
  {
    predicate Within(s: string) {
      start <= end <= |s| && g1Start <= g1End <= |s| && g2Start <= g2End <= |s|
    }

    /** `m.group(1)` */
    function Group1(s: string): string
      requires Within(s)
    {
      s[g1Start..g1End]
    }

    /** `m.group(2)` */
    function Group2(s: string): string
      requires Within(s)
    {
      s[g2Start..g2End]
    }
  }

  datatype Pattern = ApaPattern | MlaPattern | IeeePattern | UrlPattern | DoiPattern

  /** `\d{4}` at `k`. */
  predicate FourDigitsAt(s: string, k: int) {
    0 <= k && k + 4 <= |s| && IsDigit(s[k]) && IsDigit(s[k + 1]) && IsDigit(s[k + 2]) && IsDigit(s[k + 3])
  }

  /** End of `[A-Z][a-z]+` starting at `i`, when it matches. */
  function NameEnd(s: string, i: nat): (r: Option<nat>)
    requires i <= |s|
    ensures r.Some? ==> i + 2 <= r.value <= |s|
    ensures r.Some? ==> IsLetter(s[i]) && IsLetter(s[i + 1])
  {
    var n := RunFrom(s, i, IsLetter);
    if n >= 2 then Some(i + n) else None
  }

  /** End of `\s+et\s+al\.` starting at `j`, when it matches. */
  function EtAlEnd(s: string, j: nat): (r: Option<nat>)
    requires j <= |s|
    ensures r.Some? ==> j < r.value <= |s|
  {
    var w1 := RunFrom(s, j, IsSpace);
    var k := j + w1;
    if w1 == 0 || !OccursAtIgnoringCase(s, "et", k) then None
    else
      var w2 := RunFrom(s, k + 2, IsSpace);
      var m := k + 2 + w2;
      if w2 == 0 || !OccursAtIgnoringCase(s, "al.", m) then None
      else Some(m + 3)
  }

  /** End of `\s+and\s+[A-Z][a-z]+` starting at `j`, when it matches. */
  function AndNameEnd(s: string, j: nat): (r: Option<nat>)
    requires j <= |s|
    ensures r.Some? ==> j < r.value <= |s|
  {
    var w1 := RunFrom(s, j, IsSpace);
    var k := j + w1;
    if w1 == 0 || !OccursAtIgnoringCase(s, "and", k) then None
    else
      var w2 := RunFrom(s, k + 3, IsSpace);
      var m := k + 3 + w2;
      if w2 == 0 then None else NameEnd(s, m)
  }

  /** `[A-Z][a-z]+(?:\s+et\s+al\.)?`, the author group shared by apa and mla. */
  function AuthorEnd(s: string, i: nat): (r: Option<nat>)
    requires i <= |s|
    ensures r.Some? ==> i + 2 <= r.value <= |s|
    ensures r.Some? ==> IsLetter(s[i]) && IsLetter(s[i + 1])
  {
    match NameEnd(s, i)
    case None => None
    case Some(e) =>
      match EtAlEnd(s, e)
      case Some(g) => Some(g)
      case None => Some(e)
  }

  /** Group 1 is the author text (starting with two letters), group 2 the four year digits inside `(`..`)` that end the match. */
  predicate ApaShape(s: string, m: Match) {
    && m.start + 8 <= m.end <= |s|
    && m.g1Start == m.start && m.start + 2 <= m.g1End <= m.end - 6
    && IsLetter(s[m.start]) && IsLetter(s[m.start + 1])
    && s[m.end - 6] == '(' && m.g2Start == m.end - 5 && m.g2End == m.end - 1
    && FourDigitsAt(s, m.end - 5) && s[m.end - 1] == ')'
  }

  /** Group 1 is the author text (starting with two letters), group 2 the four year digits after a blank that end the match. */
  predicate MlaShape(s: string, m: Match) {
    && m.start + 7 <= m.end <= |s|
    && m.g1Start == m.start && m.start + 2 <= m.g1End < m.end - 4
    && IsLetter(s[m.start]) && IsLetter(s[m.start + 1])
    && IsSpace(s[m.end - 5]) && m.g2Start == m.end - 4 && m.g2End == m.end
    && FourDigitsAt(s, m.end - 4)
  }

  /** `[`, a non-empty run of digits (group 1), `]`. */
  predicate IeeeShape(s: string, m: Match) {
    && m.start + 3 <= m.end <= |s|
    && s[m.start] == '[' && s[m.end - 1] == ']'
    && m.g1Start == m.start + 1 && m.g1End == m.end - 1 && m.g2Start == m.g2End == 0
    && forall k :: m.start < k < m.end - 1 ==> IsDigit(s[k])
  }

  /** Starts with `http://` or `https://`, and the link runs to a blank, `)` or the end; group 1 is the whole match. */
  predicate UrlShape(s: string, m: Match) {
    && m.start + 8 <= m.end <= |s|
    && m.g1Start == m.start && m.g1End == m.end && m.g2Start == m.g2End == 0
    && OccursAt(s, "http", m.start)
    && (OccursAt(s, "://", m.start + 4) || (s[m.start + 4] == 's' && OccursAt(s, "://", m.start + 5)))
    && (m.end < |s| ==> !IsLinkChar(s[m.end]))
  }

  /** `doi:` in any case, then a maximal non-empty run of link characters (group 1). */
  predicate DoiShape(s: string, m: Match) {
    && m.start + 5 <= m.end <= |s|
    && OccursAtIgnoringCase(s, "doi:", m.start)
    && m.g1Start == m.start + 4 && m.g1End == m.end && m.g2Start == m.g2End == 0
    && (forall k :: m.start + 4 <= k < m.end ==> IsLinkChar(s[k]))
    && (m.end < |s| ==> !IsLinkChar(s[m.end]))
  }

  predicate Shape(p: Pattern, s: string, m: Match) {
    match p
    case ApaPattern => ApaShape(s, m)
    case MlaPattern => MlaShape(s, m)
    case IeeePattern => IeeeShape(s, m)
    case UrlPattern => UrlShape(s, m)
    case DoiPattern => DoiShape(s, m)
  }

  /** Start of `(\d{4})` after `\s*` from `j`, when `\s*\((\d{4})\)` matches there. */
  function ApaYearAt(s: string, j: nat): (r: Option<nat>)
    requires j <= |s|
    ensures r.Some? ==> j <= r.value && r.value + 6 <= |s|
    ensures r.Some? ==> s[r.value] == '(' && FourDigitsAt(s, r.value + 1) && s[r.value + 5] == ')'
  {
    var k := j + RunFrom(s, j, IsSpace);
    if k + 6 <= |s| && s[k] == '(' && FourDigitsAt(s, k + 1) && s[k + 5] == ')' then Some(k) else None
  }

  /** End of the apa author group: a name, optional `et al.`, optional `and` name. */
  function ApaAuthorsEnd(s: string, i: nat): (r: Option<nat>)
    requires i <= |s|
    ensures r.Some? ==> i + 2 <= r.value <= |s|
    ensures r.Some? ==> IsLetter(s[i]) && IsLetter(s[i + 1])
  {
    match AuthorEnd(s, i)
    case None => None
    case Some(g1) =>
      match AndNameEnd(s, g1)
      case Some(a) => Some(a)
      case None => Some(g1)
  }

  function ApaAt(s: string, i: nat): (r: Option<Match>)
    requires i <= |s|
    ensures r.Some? ==> r.value.start == i && ApaShape(s, r.value)
  {
    ApaAfterAuthors(s, i, ApaAuthorsEnd(s, i))
  }

  /** The apa match at `i`, given where its author group ends (None when there is no author group). */
  function ApaAfterAuthors(s: string, i: nat, authors: Option<nat>): (r: Option<Match>)
    requires i <= |s|
    requires authors.Some? ==> i + 2 <= authors.value <= |s| && IsLetter(s[i]) && IsLetter(s[i + 1])
    ensures r.Some? ==> r.value.start == i && ApaShape(s, r.value)
  {
    match authors
    case None => None
    case Some(g) =>
      match ApaYearAt(s, g)
      case None => None
      case Some(k) => Some(Match(i, k + 6, i, g, k + 1, k + 5))
  }

  function MlaAt(s: string, i: nat): (r: Option<Match>)
    requires i <= |s|
    ensures r.Some? ==> r.value.start == i && MlaShape(s, r.value)
  {
    MlaAfterAuthors(s, i, AuthorEnd(s, i))
  }

  /** The mla match at `i`, given where its author group ends (None when there is no author group). */
  function MlaAfterAuthors(s: string, i: nat, authors: Option<nat>): (r: Option<Match>)
    requires i <= |s|
    requires authors.Some? ==> i + 2 <= authors.value <= |s| && IsLetter(s[i]) && IsLetter(s[i + 1])
    ensures r.Some? ==> r.value.start == i && MlaShape(s, r.value)
  {
    match authors
    case None => None
    case Some(g1) =>
      var w := RunFrom(s, g1, IsSpace);
      var k := g1 + w;
      if w > 0 && FourDigitsAt(s, k) then
        Some(Match(i, k + 4, i, g1, k, k + 4))
      else None
  }


  function IeeeAt(s: string, i: nat): (r: Option<Match>)
    requires i <= |s|
    ensures r.Some? ==> r.value.start == i && IeeeShape(s, r.value)
  {
    if i < |s| && s[i] == '[' then
      var d := RunFrom(s, i + 1, IsDigit);
      if d > 0 && i + 1 + d < |s| && s[i + 1 + d] == ']' then
        RunFromAll(s, i + 1, IsDigit);
        Some(Match(i, i + d + 2, i + 1, i + 1 + d, 0, 0))
      else None
    else None
  }

  function UrlAt(s: string, i: nat): (r: Option<Match>)
    requires i <= |s|
    ensures r.Some? ==> r.value.start == i && UrlShape(s, r.value)
  {
    if !OccursAt(s, "http", i) then None
    else
      var k := if i + 4 < |s| && s[i + 4] == 's' then i + 5 else i + 4;
      if !OccursAt(s, "://", k) then None
      else
        var n := RunFrom(s, k + 3, IsLinkChar);
        if n == 0 then None else Some(Match(i, k + 3 + n, i, k + 3 + n, 0, 0))
  }

  function DoiAt(s: string, i: nat): (r: Option<Match>)
    requires i <= |s|
    ensures r.Some? ==> r.value.start == i && DoiShape(s, r.value)
  {
    if !OccursAtIgnoringCase(s, "doi:", i) then None
    else
      var n := RunFrom(s, i + 4, IsLinkChar);
      if n == 0 then None
      else
        RunFromAll(s, i + 4, IsLinkChar);
        Some(Match(i, i + 4 + n, i + 4, i + 4 + n, 0, 0))
  }

  /** The match of pattern `p` that starts exactly at `i`, if any. */
  function MatchAt(p: Pattern, s: string, i: nat): (r: Option<Match>)
    requires i <= |s|
    ensures r.Some? ==> r.value.start == i && i < r.value.end <= |s| && r.value.Within(s) && Shape(p, s, r.value)
  {
    match p
    case ApaPattern => ApaAt(s, i)
    case MlaPattern => MlaAt(s, i)
    case IeeePattern => IeeeAt(s, i)
    case UrlPattern => UrlAt(s, i)
    case DoiPattern => DoiAt(s, i)
  }

  /** The pattern's match at every position 0 .. |s| (None where it does not match there). */
  function MatchTable(p: Pattern, s: string): (t: seq<Option<Match>>)
    ensures |t| == |s| + 1
    ensures TableWellFormed(t)
  {
    var t := seq(|s| + 1, i requires 0 <= i <= |s| => MatchAt(p, s, i));
    assert forall i :: 0 <= i < |t| && t[i].Some? ==> MatchAt(p, s, i) == t[i];
    t
  }

  /** Every entry of a match table is a non-empty match starting at its own position. */
  predicate TableWellFormed(t: seq<Option<Match>>) {
    forall i :: 0 <= i < |t| && t[i].Some? ==> t[i].value.start == i < t[i].value.end < |t|
  }

  /**
   * `re.finditer`: from position `from`, take the match there if there is
   * one and resume at its end, otherwise move one position on.
   */
  function Scan(t: seq<Option<Match>>, from: nat): seq<Match>
    requires TableWellFormed(t)
    requires from < |t|
    decreases |t| - from
  {
    if from == |t| - 1 then []
    else
      match t[from]
      case Some(m) => [m] + Scan(t, m.end)
      case None => Scan(t, from + 1)
  }

  /**
   * All matches of pattern `p` in `s`, left to right: `re.finditer(p, s)`.
   * They lie within `s`, are non-empty and do not overlap; FindAllIsScan
   * and FindAllShapes say which matches they are.
   */
  function FindAll(p: Pattern, s: string): (ms: seq<Match>)
    ensures forall k :: 0 <= k < |ms| ==> ms[k].start < ms[k].end && ms[k].Within(s)
    ensures forall k, l :: 0 <= k < l < |ms| ==> ms[k].end <= ms[l].start
  {
    var t := MatchTable(p, s);
    ScanSound(t, 0);
    var ms := Scan(t, 0);
    forall k | 0 <= k < |ms|
      ensures ms[k].start < ms[k].end && ms[k].Within(s)
    {
      assert t[ms[k].start] == Some(ms[k]) == MatchAt(p, s, ms[k].start);
    }
    ms
  }

  /** Some reported match covers position `q`. */
  predicate Covered(ms: seq<Match>, q: int) {
    exists k :: 0 <= k < |ms| && ms[k].start <= q < ms[k].end
  }

  /**
   * What `finditer` promises: every reported match is the table's match at
   * its start, matches come left to right without overlapping, and every
   * position from `from` on where the pattern matches is covered by a
   * reported match (a match is never skipped, only swallowed by an earlier one).
   */
  predicate IsScan(t: seq<Option<Match>>, from: nat, ms: seq<Match>) {
    && (forall k :: 0 <= k < |ms| ==> from <= ms[k].start < |t| && t[ms[k].start] == Some(ms[k]))
    && (forall k, l :: 0 <= k < l < |ms| ==> ms[k].end <= ms[l].start)
    && (forall q :: from <= q < |t| && t[q].Some? ==> Covered(ms, q))
  }

  /** Every match `Scan` reports is the table's entry at its start, and they come in order without overlapping. */
  lemma {:induction false} ScanSound(t: seq<Option<Match>>, from: nat)
    requires TableWellFormed(t)
    requires from < |t|
    ensures forall k :: 0 <= k < |Scan(t, from)| ==> from <= Scan(t, from)[k].start < |t|
    ensures forall k :: 0 <= k < |Scan(t, from)| ==> t[Scan(t, from)[k].start] == Some(Scan(t, from)[k])
    ensures forall k, l :: 0 <= k < l < |Scan(t, from)| ==> Scan(t, from)[k].end <= Scan(t, from)[l].start
    decreases |t| - from
  {
    if from < |t| - 1 {
      match t[from]
      case Some(m) =>
        ScanSound(t, m.end);
        var rest := Scan(t, m.end);
        var ms := [m] + rest;
        assert Scan(t, from) == ms;
        assert forall k :: 0 < k < |ms| ==> ms[k] == rest[k - 1];
        assert forall l :: 0 < l < |ms| ==> m.end <= ms[l].start;
      case None =>
        ScanSound(t, from + 1);
        assert Scan(t, from) == Scan(t, from + 1);
    }
  }

  /** `Scan` skips no position where the table has a match: some reported match covers it. */
  lemma {:induction false} ScanComplete(t: seq<Option<Match>>, from: nat)
    requires TableWellFormed(t)
    requires from < |t|
    ensures forall q :: from <= q < |t| && t[q].Some? ==> Covered(Scan(t, from), q)
    decreases |t| - from
  {
    if from == |t| - 1 {
      assert t[from].None?;
    } else {
      match t[from]
      case Some(m) =>
        var rest := Scan(t, m.end);
        ScanComplete(t, m.end);
        var ms := [m] + rest;
        assert Scan(t, from) == ms;
        forall q | from <= q < |t| && t[q].Some?
          ensures Covered(ms, q)
        {
          if q < m.end {
            assert ms[0].start <= q < ms[0].end;
          } else {
            assert Covered(rest, q);
            var k :| 0 <= k < |rest| && rest[k].start <= q < rest[k].end;
            assert ms[k + 1] == rest[k];
          }
        }
      case None =>
        ScanComplete(t, from + 1);
    }
  }

  lemma ScanIsScan(t: seq<Option<Match>>, from: nat)
    requires TableWellFormed(t)
    requires from < |t|
    ensures IsScan(t, from, Scan(t, from))
  {
    ScanSound(t, from);
    ScanComplete(t, from);
  }

  /**
   * `FindAll` behaves as `finditer`: every reported match is the pattern's
   * match at its start, matches come left to right without overlapping,
   * and no position where the pattern matches is skipped.
   */
  lemma FindAllIsScan(p: Pattern, s: string)
    ensures IsScan(MatchTable(p, s), 0, FindAll(p, s))
  {
    ScanIsScan(MatchTable(p, s), 0);
  }

  /** Every reported match has the pattern's shape. */
  lemma FindAllShapes(p: Pattern, s: string)
    ensures forall k :: 0 <= k < |FindAll(p, s)| ==> Shape(p, s, FindAll(p, s)[k])
  {
    var t := MatchTable(p, s);
    var ms := FindAll(p, s);
    ScanSound(t, 0);
    forall k | 0 <= k < |ms|
      ensures Shape(p, s, ms[k])
    {
      assert t[ms[k].start] == Some(ms[k]) == MatchAt(p, s, ms[k].start);
    }
  }
}
