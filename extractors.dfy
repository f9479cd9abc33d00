/**
 * Claim extraction, citation extraction and claim/citation pairing
 * (extractors.py).
 *
 * Sentence segmentation and named-entity tagging are done by NLTK in the
 * source; here they arrive as a list of sentences, each flagged with
 * whether the tagger found a named entity in it.
 */
module Extractors {
  import opened Wrappers
  import opened Text
  import opened Patterns

  /** A factual claim: a whole sentence and where it was found (-1 when it was not). */
  datatype Claim = Claim(text: string, sentence: string, startPos: int, endPos: int, confidence: real)

  /** The `citation_type` tag; the extractor only produces the first five. */
  datatype CitationType = Apa | Mla | Ieee | Url | Doi | OtherType(tag: string)

  datatype Citation = Citation(
    text: string,
    citationType: CitationType,
    authors: Option<seq<string>>,
    year: Option<string>,
    url: Option<string>,
    doi: Option<string>,
    referenceNumber: Option<string>,
    startPos: Option<int>,
    endPos: Option<int>)

  datatype ClaimCitationPair = ClaimCitationPair(claim: Claim, citation: Option<Citation>, proximityScore: real)

  /** One sentence as NLTK splits it, with whether `ne_chunk` labelled an entity in it. */
  datatype TaggedSentence = TaggedSentence(text: string, hasEntity: bool)

  // ---------------------------------------------------------------------------
  // Claims

  /** The factual-indicator patterns, searched case-insensitively. */
  datatype Indicator = Percentage | Decimal | FourDigits | Phrase(words: string)

  const FactualIndicators: seq<Indicator> := [
    Percentage, Decimal, FourDigits,
    Phrase("according to"), Phrase("research shows"), Phrase("studies indicate"),
    Phrase("data suggests"), Phrase("evidence shows")]

  /**
   * `re.search(pattern, s, re.IGNORECASE)` finds something.  `\d+%` occurs
   * exactly when some digit is directly followed by `%`, and `\d+\.\d+`
   * exactly when some `.` has a digit on each side.
   */
  predicate Searches(ind: Indicator, s: string) {
    match ind
    case Percentage => exists i | 0 <= i < |s| - 1 :: IsDigit(s[i]) && s[i + 1] == '%'
    case Decimal => exists i | 0 <= i < |s| - 2 :: IsDigit(s[i]) && s[i + 1] == '.' && IsDigit(s[i + 2])
    case FourDigits => exists i | 0 <= i <= |s| - 4 :: FourDigitsAt(s, i)
    case Phrase(w) => ContainsIgnoringCase(s, w)
  }

  predicate IsFactual(s: string) {
    exists k | 0 <= k < |FactualIndicators| :: Searches(FactualIndicators[k], s)
  }

  /**
   * The claim a sentence yields, if it yields one.  Its start is
   * `text.find(sentence)`: the first occurrence, or -1 (see Text.Find).
   */
  function ClaimFor(text: string, ts: TaggedSentence): (r: Option<Claim>)
    ensures r.Some? <==> IsFactual(ts.text) || ts.hasEntity
    ensures r.Some? ==> r.value.text == ts.text && r.value.sentence == ts.text
    ensures r.Some? ==> r.value.startPos == Find(text, ts.text)
    ensures r.Some? ==> r.value.endPos == r.value.startPos + |ts.text|
    ensures r.Some? && r.value.startPos >= 0 ==> text[r.value.startPos..r.value.endPos] == ts.text
    ensures r.Some? ==> (r.value.confidence == 0.7 <==> IsFactual(ts.text) && ts.hasEntity)
    ensures r.Some? ==> (r.value.confidence == 0.5 <==> !(IsFactual(ts.text) && ts.hasEntity))
  {
    var factual := IsFactual(ts.text);
    if factual || ts.hasEntity then
      var start := Find(text, ts.text);
      Some(Claim(ts.text, ts.text, start, start + |ts.text|, if factual && ts.hasEntity then 0.7 else 0.5))
    else None
  }

  /** The claims of a list of sentences, in sentence order. */
  function ClaimsOf(text: string, ss: seq<TaggedSentence>): seq<Claim>
    decreases |ss|
  {
    if |ss| == 0 then []
    else
      var prior := ClaimsOf(text, ss[..|ss| - 1]);
      match ClaimFor(text, ss[|ss| - 1])
      case Some(c) => prior + [c]
      case None => prior
  }

  /** `ClaimExtractor.extract_claims` */
  method ExtractClaims(text: string, ss: seq<TaggedSentence>) returns (claims: seq<Claim>)
    ensures claims == ClaimsOf(text, ss)
  {
    claims := [];
    for i := 0 to |ss|
      invariant claims == ClaimsOf(text, ss[..i])
    {
      assert ss[..i + 1][..i] == ss[..i];
      var sentence := ss[i].text;
      var isFactual := IsFactual(sentence);
      var hasEntities := ss[i].hasEntity;
      if isFactual || hasEntities {
        var startPos := Find(text, sentence);
        var endPos := startPos + |sentence|;
        var claim := Claim(sentence, sentence, startPos, endPos, if isFactual && hasEntities then 0.7 else 0.5);
        claims := claims + [claim];
      }
    }
    assert ss[..|ss|] == ss;
  }

  /** The number of sentences that are factual or carry an entity. */
  function CountQualifying(ss: seq<TaggedSentence>): nat
    decreases |ss|
  {
    if |ss| == 0 then 0
    else CountQualifying(ss[..|ss| - 1]) + if IsFactual(ss[|ss| - 1].text) || ss[|ss| - 1].hasEntity then 1 else 0
  }

  /**
   * A claim is emitted exactly for each sentence that is factual or has an
   * entity: one claim per such sentence, and every claim is one sentence's.
   */
  lemma {:induction false} ClaimsOfExactly(text: string, ss: seq<TaggedSentence>)
    ensures |ClaimsOf(text, ss)| == CountQualifying(ss)
    ensures forall c :: c in ClaimsOf(text, ss) <==> exists k :: 0 <= k < |ss| && ClaimFor(text, ss[k]) == Some(c)
    decreases |ss|
  {
    if |ss| > 0 {
      var init := ss[..|ss| - 1];
      ClaimsOfExactly(text, init);
      assert forall k :: 0 <= k < |init| ==> init[k] == ss[k];
      forall c | exists k :: 0 <= k < |ss| && ClaimFor(text, ss[k]) == Some(c)
        ensures c in ClaimsOf(text, ss)
      {
        var k :| 0 <= k < |ss| && ClaimFor(text, ss[k]) == Some(c);
        if k < |init| {
          assert ClaimFor(text, init[k]) == Some(c);
        }
      }
    }
  }

  // ---------------------------------------------------------------------------
  // Citations

  /** The pattern families, in the order `extract_citations` scans them. */
  const Families: seq<Pattern> := [ApaPattern, MlaPattern, IeeePattern, UrlPattern, DoiPattern]

  function TypeOf(p: Pattern): CitationType {
    match p
    case ApaPattern => Apa
    case MlaPattern => Mla
    case IeeePattern => Ieee
    case UrlPattern => Url
    case DoiPattern => Doi
  }

  /** The position of a citation type in the scanning order (5 for other tags). */
  function Rank(t: CitationType): nat {
    match t
    case Apa => 0
    case Mla => 1
    case Ieee => 2
    case Url => 3
    case Doi => 4
    case OtherType(_) => 5
  }

  /**
   * The type-specific fields are present exactly for their own type:
   * authors and year for apa/mla, the reference number for ieee, the url
   * for url and the doi for doi; a single author for apa/mla.
   */
  predicate FieldsMatchType(c: Citation) {
    && (c.authors.Some? <==> c.citationType in {Apa, Mla})
    && (c.year.Some? <==> c.citationType in {Apa, Mla})
    && (c.referenceNumber.Some? <==> c.citationType == Ieee)
    && (c.url.Some? <==> c.citationType == Url)
    && (c.doi.Some? <==> c.citationType == Doi)
    && (c.authors.Some? ==> |c.authors.value| == 1)
  }

  /** The citation a match of family `p` becomes: its type, its span and the text of the span. */
  function CitationOf(p: Pattern, s: string, m: Match): (c: Citation)
    requires m.Within(s)
    ensures c.citationType == TypeOf(p) && c.text == s[m.start..m.end]
    ensures c.startPos == Some(m.start as int) && c.endPos == Some(m.end as int)
  {
    var whole := s[m.start..m.end];
    var none := Citation(whole, TypeOf(p), None, None, None, None, None, Some(m.start), Some(m.end));
    match p
    case ApaPattern => none.(authors := Some([Strip(m.Group1(s))]), year := Some(m.Group2(s)))
    case MlaPattern => none.(authors := Some([Strip(m.Group1(s))]), year := Some(m.Group2(s)))
    case IeeePattern => none.(referenceNumber := Some(m.Group1(s)))
    case UrlPattern => none.(url := Some(whole))
    case DoiPattern => none.(doi := Some(m.Group1(s)))
  }

  /**
   * A citation made from a match has exactly its type's fields: the
   * stripped author group and the four-digit year for apa/mla, the
   * non-empty digit group for ieee, the whole match for url and the
   * non-empty group after `doi:` for doi.
   */
  lemma CitationOfFields(p: Pattern, s: string, m: Match)
    requires m.Within(s) && Shape(p, s, m)
    ensures var c := CitationOf(p, s, m);
      && FieldsMatchType(c)
      && (p in {ApaPattern, MlaPattern} ==> c.authors == Some([Strip(m.Group1(s))]) && c.year == Some(m.Group2(s)))
      && (p in {ApaPattern, MlaPattern} ==> |c.year.value| == 4 && forall k :: 0 <= k < 4 ==> IsDigit(c.year.value[k]))
      && (p == IeeePattern ==> c.referenceNumber == Some(m.Group1(s)) && |m.Group1(s)| > 0)
      && (p == UrlPattern ==> c.url == Some(c.text))
      && (p == DoiPattern ==> c.doi == Some(m.Group1(s)) && |m.Group1(s)| > 0)
  {
    if p in {ApaPattern, MlaPattern} {
      var y := m.Group2(s);
      assert forall k :: 0 <= k < 4 ==> y[k] == s[m.g2Start + k];
    }
  }

  /** The citations of one family, in match order. */
  function FamilyCitations(p: Pattern, s: string): (cs: seq<Citation>)
    ensures |cs| == |FindAll(p, s)|
  {
    var ms := FindAll(p, s);
    seq(|ms|, k requires 0 <= k < |ms| => CitationOf(p, s, ms[k]))
  }

  /** The citations of the first `f` families, family by family. */
  function CitationsUpTo(s: string, f: nat): seq<Citation>
    requires f <= |Families|
  {
    if f == 0 then [] else CitationsUpTo(s, f - 1) + FamilyCitations(Families[f - 1], s)
  }

  function CitationsOf(s: string): seq<Citation> {
    CitationsUpTo(s, |Families|)
  }

  /** `CitationExtractor.extract_citations`: the five families' `finditer` loops, one after the other. */
  method ExtractCitations(text: string) returns (citations: seq<Citation>)
    ensures citations == CitationsOf(text)
  {
    citations := [];
    for f := 0 to |Families|
      invariant citations == CitationsUpTo(text, f)
    {
      var p := Families[f];
      var matches := FindAll(p, text);
      ghost var family := FamilyCitations(p, text);
      for j := 0 to |matches|
        invariant citations == CitationsUpTo(text, f) + family[..j]
      {
        assert family[..j + 1] == family[..j] + [family[j]];
        citations := citations + [CitationOf(p, text, matches[j])];
      }
      assert family[..|matches|] == family;
    }
  }

  /** Every citation of a family has its type's fields, its match's span, and the span's text. */
  lemma FamilyWellFormed(p: Pattern, s: string)
    ensures forall c :: c in FamilyCitations(p, s) ==>
      && c.citationType == TypeOf(p) && FieldsMatchType(c)
      && c.startPos.Some? && c.endPos.Some?
      && 0 <= c.startPos.value < c.endPos.value <= |s|
      && c.text == s[c.startPos.value..c.endPos.value]
  {
    var ms := FindAll(p, s);
    var fam := FamilyCitations(p, s);
    FindAllShapes(p, s);
    forall c | c in fam
      ensures c.citationType == TypeOf(p) && FieldsMatchType(c)
      ensures c.startPos.Some? && c.endPos.Some? && 0 <= c.startPos.value < c.endPos.value <= |s|
      ensures c.text == s[c.startPos.value..c.endPos.value]
    {
      var k :| 0 <= k < |fam| && fam[k] == c;
      CitationOfFields(p, s, ms[k]);
    }
  }

  /** Within a family, citations come left to right without overlapping. */
  lemma FamilyOrdered(p: Pattern, s: string)
    ensures var fam := FamilyCitations(p, s);
      forall i, j :: 0 <= i < j < |fam| ==>
        && fam[i].citationType == fam[j].citationType == TypeOf(p)
        && fam[i].endPos.Some? && fam[j].startPos.Some?
        && fam[i].endPos.value <= fam[j].startPos.value
  {
  }

  /**
   * Citations come family by family (apa, mla, ieee, url, doi) and, within
   * a family, left to right without overlapping.
   */
  predicate InScanOrder(cs: seq<Citation>) {
    forall i, j :: 0 <= i < j < |cs| ==>
      || Rank(cs[i].citationType) < Rank(cs[j].citationType)
      || (&& cs[i].citationType == cs[j].citationType
          && cs[i].endPos.Some? && cs[j].startPos.Some?
          && cs[i].endPos.value <= cs[j].startPos.value)
  }

  lemma {:induction false} CitationsOrdered(s: string, f: nat)
    requires f <= |Families|
    ensures InScanOrder(CitationsUpTo(s, f))
    ensures forall c :: c in CitationsUpTo(s, f) ==> Rank(c.citationType) < f
  {
    if f > 0 {
      CitationsOrdered(s, f - 1);
      var p := Families[f - 1];
      FamilyOrdered(p, s);
      FamilyWellFormed(p, s);
      assert Rank(TypeOf(p)) == f - 1;
      InScanOrderAppend(CitationsUpTo(s, f - 1), FamilyCitations(p, s), f - 1);
    }
  }

  /** Appending a family whose citations all have rank `r`, after citations of lower rank, keeps the order. */
  lemma InScanOrderAppend(a: seq<Citation>, b: seq<Citation>, r: nat)
    requires InScanOrder(a) && (forall c :: c in a ==> Rank(c.citationType) < r)
    requires forall c :: c in b ==> Rank(c.citationType) == r
    requires forall i, j :: 0 <= i < j < |b| ==>
      && b[i].citationType == b[j].citationType
      && b[i].endPos.Some? && b[j].startPos.Some?
      && b[i].endPos.value <= b[j].startPos.value
    ensures InScanOrder(a + b)
    ensures forall c :: c in a + b ==> Rank(c.citationType) <= r
  {
    var cs := a + b;
    forall i, j | 0 <= i < j < |cs|
      ensures || Rank(cs[i].citationType) < Rank(cs[j].citationType)
              || (&& cs[i].citationType == cs[j].citationType
                  && cs[i].endPos.Some? && cs[j].startPos.Some?
                  && cs[i].endPos.value <= cs[j].startPos.value)
    {
      if j < |a| {
        assert cs[i] == a[i] && cs[j] == a[j];
      } else if i < |a| {
        assert cs[i] == a[i] && a[i] in a;
        assert cs[j] == b[j - |a|] && b[j - |a|] in b;
      } else {
        assert cs[i] == b[i - |a|] && cs[j] == b[j - |a|];
      }
    }
  }

  /**
   * Every extracted citation has its type's fields, its match's span as
   * start/end, and its text is exactly the text at that span.
   */
  lemma {:induction false} CitationsWellFormed(s: string, f: nat)
    requires f <= |Families|
    ensures forall c :: c in CitationsUpTo(s, f) ==>
      && FieldsMatchType(c)
      && c.startPos.Some? && c.endPos.Some?
      && 0 <= c.startPos.value < c.endPos.value <= |s|
      && c.text == s[c.startPos.value..c.endPos.value]
  {
    if f > 0 {
      CitationsWellFormed(s, f - 1);
      FamilyWellFormed(Families[f - 1], s);
    }
  }

  // ---------------------------------------------------------------------------
  // Pairing

  /** `abs(citation.start_pos - claim.end_pos)` */
  function Distance(claim: Claim, c: Citation): nat
    requires c.startPos.Some?
  {
    if c.startPos.value >= claim.endPos then c.startPos.value - claim.endPos else claim.endPos - c.startPos.value
  }

  /** A citation the pairing may choose for this claim: it has a start and lies within 200 characters. */
  predicate Eligible(claim: Claim, c: Citation) {
    c.startPos.Some? && Distance(claim, c) < 200
  }

  /**
   * The index of the citation paired with `claim`: the eligible citation
   * at the least distance, the earliest one among equals, or None when no
   * citation is eligible.
   */
  function Closest(claim: Claim, cs: seq<Citation>): (r: Option<nat>)
    ensures r.Some? ==> r.value < |cs| && Eligible(claim, cs[r.value])
    ensures r.Some? ==> forall k :: 0 <= k < |cs| && Eligible(claim, cs[k]) ==> Distance(claim, cs[r.value]) <= Distance(claim, cs[k])
    ensures r.Some? ==> forall k :: 0 <= k < r.value && Eligible(claim, cs[k]) ==> Distance(claim, cs[r.value]) < Distance(claim, cs[k])
    ensures r.None? <==> forall k :: 0 <= k < |cs| ==> !Eligible(claim, cs[k])
    decreases |cs|
  {
    if |cs| == 0 then None
    else
      var init := cs[..|cs| - 1];
      var r := Closest(claim, init);
      var c := cs[|cs| - 1];
      assert forall k :: 0 <= k < |init| ==> init[k] == cs[k];
      if Eligible(claim, c) && (r.None? || Distance(claim, c) < Distance(claim, init[r.value])) then Some(|cs| - 1)
      else r
  }

  /** `1.0 / (1.0 + d / 100.0)` */
  function Proximity(d: nat): real {
    1.0 / (1.0 + d as real / 100.0)
  }

  lemma ProximityAtZero()
    ensures Proximity(0) == 1.0
  {
  }

  /** Proximity lies in (0, 1] and falls strictly as the distance grows. */
  lemma ProximityDecreasing(d1: nat, d2: nat)
    ensures 0.0 < Proximity(d1) <= 1.0
    ensures d1 < d2 ==> Proximity(d2) < Proximity(d1)
  {
    var a := 1.0 + d1 as real / 100.0;
    var b := 1.0 + d2 as real / 100.0;
    assert 1.0 <= a;
    if d1 < d2 {
      assert a < b;
      assert 1.0 / b < 1.0 / a by {
        assert (1.0 / b) * (a * b) == a;
        assert (1.0 / a) * (a * b) == b;
      }
    }
  }

  function PairFor(claim: Claim, cs: seq<Citation>): (p: ClaimCitationPair)
    ensures p.claim == claim
    ensures p.citation.None? <==> forall k :: 0 <= k < |cs| ==> !Eligible(claim, cs[k])
    ensures p.citation.None? ==> p.proximityScore == 0.0
    ensures p.citation.Some? ==> p.citation.value in cs && Eligible(claim, p.citation.value)
    ensures p.citation.Some? ==> p.proximityScore == Proximity(Distance(claim, p.citation.value))
    ensures p.citation.Some? ==> forall k :: 0 <= k < |cs| && Eligible(claim, cs[k]) ==>
      Distance(claim, p.citation.value) <= Distance(claim, cs[k])
    ensures p.citation.Some? ==>
      exists i :: 0 <= i < |cs| && cs[i] == p.citation.value &&
        (forall k :: 0 <= k < i && Eligible(claim, cs[k]) ==> Distance(claim, p.citation.value) < Distance(claim, cs[k]))
  {
    match Closest(claim, cs)
    case Some(i) => ClaimCitationPair(claim, Some(cs[i]), Proximity(Distance(claim, cs[i])))
    case None => ClaimCitationPair(claim, None, 0.0)
  }

  function PairsOf(claims: seq<Claim>, cs: seq<Citation>): (ps: seq<ClaimCitationPair>)
    ensures |ps| == |claims|
    ensures forall k :: 0 <= k < |claims| ==> ps[k] == PairFor(claims[k], cs)
  {
    seq(|claims|, k requires 0 <= k < |claims| => PairFor(claims[k], cs))
  }

  /** `CitationExtractor.pair_claims_with_citations` */
  method PairClaimsWithCitations(claims: seq<Claim>, citations: seq<Citation>) returns (pairs: seq<ClaimCitationPair>)
    ensures pairs == PairsOf(claims, citations)
  {
    pairs := [];
    for i := 0 to |claims|
      invariant pairs == PairsOf(claims[..i], citations)
    {
      var claim := claims[i];
      var closestCitation: Option<Citation> := None;
      var closestIndex: Option<nat> := None;
      var minDistance: nat := 0;  // meaningful only once a citation is chosen; float('inf') before
      for j := 0 to |citations|
        invariant closestIndex == Closest(claim, citations[..j])
        invariant closestIndex.Some? ==> closestIndex.value < j
        invariant closestIndex.Some? ==> closestCitation == Some(citations[closestIndex.value])
        invariant closestIndex.Some? ==> minDistance == Distance(claim, citations[closestIndex.value])
        invariant closestIndex.None? ==> closestCitation.None?
      {
        assert citations[..j + 1][..j] == citations[..j];
        var citation := citations[j];
        if citation.startPos.Some? {
          var distance := Distance(claim, citation);
          if (closestCitation.None? || distance < minDistance) && distance < 200 {
            minDistance := distance;
            closestCitation := Some(citation);
            closestIndex := Some(j);
          }
        }
      }
      assert citations[..|citations|] == citations;
      var pair := if closestCitation.Some?
        then ClaimCitationPair(claim, closestCitation, Proximity(minDistance))
        else ClaimCitationPair(claim, None, 0.0);
      assert claims[..i + 1] == claims[..i] + [claim];
      pairs := pairs + [pair];
    }
    assert claims[..|claims|] == claims;
  }

  // ---------------------------------------------------------------------------
  // Analysis

  datatype Analysis = Analysis(
    claims: seq<Claim>,
    citations: seq<Citation>,
    pairs: seq<ClaimCitationPair>,
    totalClaims: nat,
    totalCitations: nat,
    claimsWithCitations: nat,
    claimsWithoutCitations: nat)

  function CountPaired(ps: seq<ClaimCitationPair>): nat
    decreases |ps|
  {
    if |ps| == 0 then 0 else CountPaired(ps[..|ps| - 1]) + if ps[|ps| - 1].citation.Some? then 1 else 0
  }

  function CountUnpaired(ps: seq<ClaimCitationPair>): nat
    decreases |ps|
  {
    if |ps| == 0 then 0 else CountUnpaired(ps[..|ps| - 1]) + if ps[|ps| - 1].citation.None? then 1 else 0
  }

  /** Every pair is counted either as with or as without a citation. */
  lemma {:induction false} PairedPlusUnpaired(ps: seq<ClaimCitationPair>)
    ensures CountPaired(ps) + CountUnpaired(ps) == |ps|
    decreases |ps|
  {
    if |ps| > 0 {
      PairedPlusUnpaired(ps[..|ps| - 1]);
    }
  }

  /** `TextAnalyzer.analyze`, over the sentences NLTK found in `text`. */
  method Analyze(text: string, sentences: seq<TaggedSentence>) returns (a: Analysis)
    ensures a.claims == ClaimsOf(text, sentences) && a.citations == CitationsOf(text)
    ensures a.pairs == PairsOf(a.claims, a.citations)
    ensures a.totalClaims == |a.claims| == |a.pairs| && a.totalCitations == |a.citations|
    ensures a.claimsWithCitations + a.claimsWithoutCitations == a.totalClaims
    ensures a.claimsWithCitations == CountPaired(a.pairs) && a.claimsWithoutCitations == CountUnpaired(a.pairs)
  {
    var claims := ExtractClaims(text, sentences);
    var citations := ExtractCitations(text);
    var pairs := PairClaimsWithCitations(claims, citations);
    PairedPlusUnpaired(pairs);
    a := Analysis(claims, citations, pairs, |claims|, |citations|, CountPaired(pairs), CountUnpaired(pairs));
  }
}
