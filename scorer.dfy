/**
 * Hallucination scoring (scorer.py): the five counters over the
 * verification results, the weighted risk score and its three-level tag,
 * the priority-ordered issue list and the report that gathers them.
 */
module Scorer {
  import opened Wrappers
  import opened Text
  import opened Config
  import opened Extractors
  import opened CitationVerifier
  import opened FactVerifier

  datatype IssueKind =
    | FakeCitation
    | IrrelevantCitation
    | BrokenLink
    | ContradictedClaim
    | UnverifiedClaim
    | WeakEvidence

  datatype Severity = High | Medium | Low

  /** An issue's `location`: `{"start", "end"}`. */
  datatype Location = Location(start: int, end: int)

  /**
   * An issue.  Its `detail` is the kind's message template around the
   * issue's subject (the citation text, the URL, or the claim's first 100
   * characters) and its `recommendation` depends on the kind alone.
   */
  datatype Issue = Issue(kind: IssueKind, severity: Severity, subject: string, location: Location)
  {
    function Detail(): string {
      DetailPrefix(kind) + subject + DetailSuffix(kind)
    }

    function Recommendation(): string {
      RecommendationFor(kind)
    }
  }

  function DetailPrefix(k: IssueKind): string {
    match k
    case FakeCitation => "Citation '"
    case IrrelevantCitation => "Citation '"
    case BrokenLink => "URL '"
    case _ => "Claim '"
  }

  function DetailSuffix(k: IssueKind): string {
    match k
    case FakeCitation => "' not found in any academic database"
    case IrrelevantCitation => "' exists but is not relevant to the claim"
    case BrokenLink => "' is not accessible (404 or connection error)"
    case ContradictedClaim => "...' contradicts available evidence"
    case UnverifiedClaim => "...' has no supporting evidence found"
    case WeakEvidence => "...' has weak supporting evidence"
  }

  function RecommendationFor(k: IssueKind): string {
    match k
    case FakeCitation => "Verify the citation manually or remove it if unverifiable"
    case IrrelevantCitation => "Find a more relevant citation or remove this one"
    case BrokenLink => "Update the URL or remove the broken link"
    case ContradictedClaim => "Review the claim and verify against reliable sources"
    case UnverifiedClaim => "Provide citations or verify the claim independently"
    case WeakEvidence => "Strengthen the claim with more reliable sources"
  }

  datatype RiskLevel = LowRisk | MediumRisk | HighRisk

  /** One entry of `detailed_results["citation_verifications"]`. */
  datatype CitationSummary = CitationSummary(citation: string, status: CitationStatus, sourceExists: bool, accessible: bool, relevance: real)

  /** One entry of `detailed_results["fact_verifications"]`. */
  datatype FactSummary = FactSummary(claim: string, status: FactStatus, supported: bool, contradicted: bool, evidenceScore: real)

  datatype DetailedResults = DetailedResults(citationVerifications: seq<CitationSummary>, factVerifications: seq<FactSummary>)

  datatype HallucinationReport = HallucinationReport(
    overallRisk: RiskLevel,
    riskScore: real,
    totalClaims: nat,
    totalCitations: nat,
    verifiedClaims: nat,
    fakeCitations: nat,
    unverifiedClaims: nat,
    contradictedClaims: nat,
    brokenLinks: nat,
    issues: seq<Issue>,
    detailedResults: DetailedResults)

  // ---------------------------------------------------------------------------
  // Counting

  /** `sum(1 for x in xs if p(x))` */
  function Count<T>(xs: seq<T>, p: T -> bool): (n: nat)
    ensures n <= |xs|
    decreases |xs|
  {
    if |xs| == 0 then 0 else Count(xs[..|xs| - 1], p) + if p(xs[|xs| - 1]) then 1 else 0
  }

  /** No element counts exactly when none satisfies `p`; all count exactly when all do. */
  lemma {:induction false} CountMeaning<T>(xs: seq<T>, p: T -> bool)
    ensures Count(xs, p) == 0 <==> forall k :: 0 <= k < |xs| ==> !p(xs[k])
    ensures Count(xs, p) == |xs| <==> forall k :: 0 <= k < |xs| ==> p(xs[k])
    decreases |xs|
  {
    if |xs| > 0 {
      var init := xs[..|xs| - 1];
      CountMeaning(init, p);
      assert forall k :: 0 <= k < |init| ==> init[k] == xs[k];
    }
  }

  lemma {:induction false} CountAppend<T>(xs: seq<T>, ys: seq<T>, p: T -> bool)
    ensures Count(xs + ys, p) == Count(xs, p) + Count(ys, p)
    decreases |ys|
  {
    if |ys| == 0 {
      assert xs + ys == xs;
    } else {
      assert (xs + ys)[..|xs + ys| - 1] == xs + ys[..|ys| - 1];
      CountAppend(xs, ys[..|ys| - 1], p);
    }
  }

  predicate IsFake(r: CitationVerificationResult) { r.status == Fake }

  predicate IsBrokenLink(r: CitationVerificationResult) { r.citation.citationType == Url && !r.accessible }

  predicate IsUnverified(r: FactVerificationResult) { r.status == NoEvidence || r.status == Weak }

  predicate IsContradicted(r: FactVerificationResult) { r.contradiction }

  predicate IsVerifiedClaim(r: FactVerificationResult) { r.status == Supported }

  predicate IsUnknownClaim(r: FactVerificationResult) { r.status == FactStatus.Unknown }

  /**
   * When contradicted is exactly the contradiction flag (as for every fact
   * verdict), the verified, unverified, contradicted and unknown counters
   * split the fact results between them.
   */
  lemma {:induction false} FactCountersPartition(frs: seq<FactVerificationResult>)
    requires forall k :: 0 <= k < |frs| ==> (frs[k].status == Contradicted <==> frs[k].contradiction)
    ensures Count(frs, IsVerifiedClaim) + Count(frs, IsUnverified) + Count(frs, IsContradicted) + Count(frs, IsUnknownClaim) == |frs|
    decreases |frs|
  {
    if |frs| > 0 {
      var init := frs[..|frs| - 1];
      assert forall k :: 0 <= k < |init| ==> init[k] == frs[k];
      FactCountersPartition(init);
    }
  }

  // ---------------------------------------------------------------------------
  // Risk score and tag

  /** `(count / total) * 100` */
  function Ratio(count: nat, total: nat): real
    requires total > 0
  {
    (count as real / total as real) * 100.0
  }

  /** One weighted percentage of the score. */
  function Term(count: nat, total: nat, weight: real): real
    requires total > 0
  {
    Ratio(count, total) * weight
  }

  /** `_calculate_risk_score`: weighted percentages of the claim count, contradictions weighing 0.3, capped at 100. */
  function RiskScore(w: ScoreWeights, unverified: nat, fake: nat, broken: nat, contradicted: nat, total: nat): real {
    if total == 0 then 0.0
    else
      Min(100.0,
        Term(unverified, total, w.unverifiedClaims)
        + Term(fake, total, w.fakeCitations)
        + Term(broken, total, w.brokenLinks)
        + Term(contradicted, total, 0.3))
  }

  /** A term grows with its count when its weight is non-negative. */
  lemma TermMonotone(a: nat, b: nat, total: nat, weight: real)
    requires total > 0 && a <= b && weight >= 0.0
    ensures 0.0 <= Term(a, total, weight) <= Term(b, total, weight)
  {
    var t := total as real;
    assert a as real / t <= b as real / t by {
      assert (b as real / t - a as real / t) * t == b as real - a as real;
    }
    assert Term(b, total, weight) - Term(a, total, weight) == (Ratio(b, total) - Ratio(a, total)) * weight;
    assert Term(a, total, weight) == (a as real / t) * (100.0 * weight);
  }

  /**
   * The score is 0.0 without claims and never above 100; with
   * non-negative weights it is never negative either.
   */
  lemma RiskScoreBounds(w: ScoreWeights, unverified: nat, fake: nat, broken: nat, contradicted: nat, total: nat)
    ensures total == 0 ==> RiskScore(w, unverified, fake, broken, contradicted, total) == 0.0
    ensures RiskScore(w, unverified, fake, broken, contradicted, total) <= 100.0
    ensures w.NonNegative() ==> RiskScore(w, unverified, fake, broken, contradicted, total) >= 0.0
  {
    if total > 0 && w.NonNegative() {
      TermMonotone(0, unverified, total, w.unverifiedClaims);
      TermMonotone(0, fake, total, w.fakeCitations);
      TermMonotone(0, broken, total, w.brokenLinks);
      TermMonotone(0, contradicted, total, 0.3);
    }
  }

  /** With non-negative weights, more problems never lower the score for the same number of claims. */
  lemma RiskScoreMonotone(w: ScoreWeights, u1: nat, f1: nat, b1: nat, c1: nat, u2: nat, f2: nat, b2: nat, c2: nat, total: nat)
    requires w.NonNegative()
    requires u1 <= u2 && f1 <= f2 && b1 <= b2 && c1 <= c2
    ensures RiskScore(w, u1, f1, b1, c1, total) <= RiskScore(w, u2, f2, b2, c2, total)
  {
    if total > 0 {
      TermMonotone(u1, u2, total, w.unverifiedClaims);
      TermMonotone(f1, f2, total, w.fakeCitations);
      TermMonotone(b1, b2, total, w.brokenLinks);
      TermMonotone(c1, c2, total, 0.3);
    }
  }

  /** The default weights: every claim unverified alone gives 40, every claim contradicted alone gives 30. */
  lemma DefaultWeightsExamples(total: nat)
    requires total > 0
    ensures RiskScore(DefaultWeights, total, 0, 0, 0, total) == 40.0
    ensures RiskScore(DefaultWeights, 0, 0, 0, total, total) == 30.0
    ensures RiskScore(DefaultWeights, 0, 0, 0, 0, total) == 0.0
  {
    assert total as real / total as real == 1.0;
    assert 0 as real / total as real == 0.0;
  }

  /** The risk tag, with inclusive upper bounds. */
  function RiskTag(score: real, th: RiskThresholds): RiskLevel {
    if score <= th.low then LowRisk
    else if score <= th.medium then MediumRisk
    else HighRisk
  }

  lemma RiskTagRule(score: real, th: RiskThresholds)
    ensures RiskTag(score, th) == LowRisk <==> score <= th.low
    ensures RiskTag(score, th) == MediumRisk <==> th.low < score <= th.medium
    ensures RiskTag(score, th) == HighRisk <==> th.low < score && th.medium < score
  {
  }

  /** Without claims the score is 0.0 and, with the default thresholds, the tag is low. */
  lemma NoClaimsLowRisk(w: ScoreWeights, unverified: nat, fake: nat, broken: nat, contradicted: nat)
    ensures RiskScore(w, unverified, fake, broken, contradicted, 0) == 0.0
    ensures RiskTag(RiskScore(w, unverified, fake, broken, contradicted, 0), DefaultThresholds) == LowRisk
  {
  }

  // ---------------------------------------------------------------------------
  // Issues

  /** A citation's span with a missing bound read as 0 (`start_pos or 0`). */
  function CitationLocation(c: Citation): Location {
    Location(c.startPos.GetOr(0), c.endPos.GetOr(0))
  }

  function ClaimLocation(c: Claim): Location {
    Location(c.startPos, c.endPos)
  }

  /** How an f-string renders an optional string. */
  function Show(s: Option<string>): string {
    match s
    case Some(v) => v
    case None => "None"
  }

  /** The issue a citation result raises, if any: fake, else irrelevant, else a URL that could not be reached. */
  function CitationIssue(r: CitationVerificationResult): Option<Issue> {
    var loc := CitationLocation(r.citation);
    if r.status == Fake then Some(Issue(FakeCitation, High, r.citation.text, loc))
    else if r.status == Irrelevant then Some(Issue(IrrelevantCitation, Medium, r.citation.text, loc))
    else if IsBrokenLink(r) then Some(Issue(BrokenLink, Medium, Show(r.citation.url), loc))
    else None
  }

  /** The issue a fact result raises, if any: contradicted, else no evidence, else weak evidence. */
  function FactIssue(r: FactVerificationResult): Option<Issue> {
    var loc := ClaimLocation(r.claim);
    var shown := Take(r.claim.text, 100);
    if r.contradiction then Some(Issue(ContradictedClaim, High, shown, loc))
    else if r.status == NoEvidence then Some(Issue(UnverifiedClaim, Medium, shown, loc))
    else if r.status == Weak then Some(Issue(WeakEvidence, Low, shown, loc))
    else None
  }

  /** The priority rule for citation results, and where the issue points. */
  lemma CitationIssueRule(r: CitationVerificationResult)
    ensures CitationIssue(r).Some? <==> r.status == Fake || r.status == Irrelevant || IsBrokenLink(r)
    ensures r.status == CitationStatus.Unknown && r.citation.citationType != Url ==> CitationIssue(r).None?
    ensures r.status == Verified && r.accessible ==> CitationIssue(r).None?
    ensures CitationIssue(r).Some? ==>
      var i := CitationIssue(r).value;
      && (i.kind == FakeCitation <==> r.status == Fake)
      && (i.kind == IrrelevantCitation <==> r.status == Irrelevant)
      && (i.kind == BrokenLink <==> r.status != Fake && r.status != Irrelevant)
      && (i.severity == High <==> i.kind == FakeCitation)
      && i.severity != Low
      && i.location.start == (if r.citation.startPos.Some? then r.citation.startPos.value else 0)
      && i.location.end == (if r.citation.endPos.Some? then r.citation.endPos.value else 0)
      && (i.kind != BrokenLink ==> i.subject == r.citation.text)
      && (i.kind == BrokenLink ==> (r.citation.url.Some? ==> i.subject == r.citation.url.value))
  {
  }

  /** The priority rule for fact results, and what of the claim the issue shows. */
  lemma FactIssueRule(r: FactVerificationResult)
    ensures FactIssue(r).Some? <==> r.contradiction || r.status == NoEvidence || r.status == Weak
    ensures !r.contradiction && (r.status == Supported || r.status == FactStatus.Unknown) ==> FactIssue(r).None?
    ensures FactIssue(r).Some? ==>
      var i := FactIssue(r).value;
      && (i.kind == ContradictedClaim <==> r.contradiction)
      && (i.kind == UnverifiedClaim <==> !r.contradiction && r.status == NoEvidence)
      && (i.kind == WeakEvidence <==> !r.contradiction && r.status == Weak)
      && (i.severity == High <==> i.kind == ContradictedClaim)
      && (i.severity == Low <==> i.kind == WeakEvidence)
      && i.location == Location(r.claim.startPos, r.claim.endPos)
      && |i.subject| <= 100 && i.subject <= r.claim.text
      && (|r.claim.text| <= 100 ==> i.subject == r.claim.text)
      && (|r.claim.text| > 100 ==> |i.subject| == 100)
  {
  }

  /** An issue's detail starts with its kind's opening words and then the subject, so the subject can be read back. */
  lemma DetailShowsSubject(i: Issue)
    ensures DetailPrefix(i.kind) + i.subject <= i.Detail()
    ensures |i.Detail()| == |DetailPrefix(i.kind)| + |i.subject| + |DetailSuffix(i.kind)|
    ensures i.Detail()[|DetailPrefix(i.kind)|..|i.Detail()| - |DetailSuffix(i.kind)|] == i.subject
  {
    var p, q := DetailPrefix(i.kind), DetailSuffix(i.kind);
    assert (p + i.subject + q)[|p|..|p| + |i.subject|] == i.subject;
  }

  /** The issue of each element that has one, in order. */
  function Collect<T>(xs: seq<T>, f: T -> Option<Issue>): (issues: seq<Issue>)
    ensures |issues| <= |xs|
    decreases |xs|
  {
    if |xs| == 0 then []
    else
      var last := f(xs[|xs| - 1]);
      Collect(xs[..|xs| - 1], f) + if last.Some? then [last.value] else []
  }

  /** Every collected issue is the issue of some element. */
  lemma {:induction false} CollectSources<T>(xs: seq<T>, f: T -> Option<Issue>)
    ensures forall i :: i in Collect(xs, f) ==> exists k :: 0 <= k < |xs| && f(xs[k]) == Some(i)
    decreases |xs|
  {
    if |xs| > 0 {
      var init := xs[..|xs| - 1];
      CollectSources(init, f);
      assert forall k :: 0 <= k < |init| ==> init[k] == xs[k];
    }
  }

  /**
   * Counting collected issues of some kind is counting the elements whose
   * issue is of that kind.
   */
  lemma {:induction false} CollectCount<T>(xs: seq<T>, f: T -> Option<Issue>, p: Issue -> bool, q: T -> bool)
    requires forall k :: 0 <= k < |xs| ==> (q(xs[k]) <==> f(xs[k]).Some? && p(f(xs[k]).value))
    ensures Count(Collect(xs, f), p) == Count(xs, q)
    decreases |xs|
  {
    if |xs| > 0 {
      var init := xs[..|xs| - 1];
      assert forall k :: 0 <= k < |init| ==> init[k] == xs[k];
      CollectCount(init, f, p, q);
      var last := f(xs[|xs| - 1]);
      CountAppend(Collect(init, f), if last.Some? then [last.value] else [], p);
      assert Count([], p) == 0;
    }
  }

  function CitationIssues(rs: seq<CitationVerificationResult>): seq<Issue> {
    Collect(rs, CitationIssue)
  }

  function FactIssues(rs: seq<FactVerificationResult>): seq<Issue> {
    Collect(rs, FactIssue)
  }

  /** `_generate_issues`: citation issues in result order, then fact issues in result order. */
  function IssueList(crs: seq<CitationVerificationResult>, frs: seq<FactVerificationResult>): (issues: seq<Issue>)
    ensures |issues| <= |crs| + |frs|
  {
    CitationIssues(crs) + FactIssues(frs)
  }

  method GenerateIssues(crs: seq<CitationVerificationResult>, frs: seq<FactVerificationResult>) returns (issues: seq<Issue>)
    ensures issues == IssueList(crs, frs)
  {
    issues := [];
    for i := 0 to |crs|
      invariant issues == CitationIssues(crs[..i])
    {
      assert crs[..i + 1][..i] == crs[..i];
      var issue := CitationIssue(crs[i]);
      if issue.Some? {
        issues := issues + [issue.value];
      }
    }
    assert crs[..|crs|] == crs;
    var citationIssues := issues;
    for j := 0 to |frs|
      invariant issues == citationIssues + FactIssues(frs[..j])
    {
      assert frs[..j + 1][..j] == frs[..j];
      var issue := FactIssue(frs[j]);
      if issue.Some? {
        issues := issues + [issue.value];
      }
    }
    assert frs[..|frs|] == frs;
  }

  predicate IsFakeIssue(i: Issue) { i.kind == FakeCitation }

  predicate IsBrokenLinkIssue(i: Issue) { i.kind == BrokenLink }

  predicate IsContradictedIssue(i: Issue) { i.kind == ContradictedClaim }

  predicate IsUnverifiedIssue(i: Issue) { i.kind == UnverifiedClaim || i.kind == WeakEvidence }

  predicate IsCitationIssue(i: Issue) { i.kind == FakeCitation || i.kind == IrrelevantCitation || i.kind == BrokenLink }

  /** A URL result the scorer reports as a broken link: unreachable and neither fake nor irrelevant. */
  predicate ReportedBrokenLink(r: CitationVerificationResult) {
    IsBrokenLink(r) && r.status != Fake && r.status != Irrelevant
  }

  /** One fake-citation issue per fake result. */
  lemma FakeIssuesMatchCounter(crs: seq<CitationVerificationResult>, frs: seq<FactVerificationResult>)
    ensures Count(IssueList(crs, frs), IsFakeIssue) == Count(crs, IsFake)
  {
    CountAppend(CitationIssues(crs), FactIssues(frs), IsFakeIssue);
    CollectCount(crs, CitationIssue, IsFakeIssue, IsFake);
    CollectCount(frs, FactIssue, IsFakeIssue, (r: FactVerificationResult) => false);
    CountMeaning(frs, (r: FactVerificationResult) => false);
  }

  /** One contradicted-claim issue per contradicted result. */
  lemma ContradictedIssuesMatchCounter(crs: seq<CitationVerificationResult>, frs: seq<FactVerificationResult>)
    ensures Count(IssueList(crs, frs), IsContradictedIssue) == Count(frs, IsContradicted)
  {
    CountAppend(CitationIssues(crs), FactIssues(frs), IsContradictedIssue);
    CollectCount(frs, FactIssue, IsContradictedIssue, IsContradicted);
    CollectCount(crs, CitationIssue, IsContradictedIssue, (r: CitationVerificationResult) => false);
    CountMeaning(crs, (r: CitationVerificationResult) => false);
  }

  /**
   * A broken-link issue only for an unreachable URL that is not already
   * fake or irrelevant, so never more than the broken-link counter.
   */
  lemma BrokenLinkIssuesWithinCounter(crs: seq<CitationVerificationResult>, frs: seq<FactVerificationResult>)
    ensures Count(IssueList(crs, frs), IsBrokenLinkIssue) == Count(crs, ReportedBrokenLink)
    ensures Count(crs, ReportedBrokenLink) <= Count(crs, IsBrokenLink)
  {
    CountAppend(CitationIssues(crs), FactIssues(frs), IsBrokenLinkIssue);
    CollectCount(crs, CitationIssue, IsBrokenLinkIssue, ReportedBrokenLink);
    CollectCount(frs, FactIssue, IsBrokenLinkIssue, (r: FactVerificationResult) => false);
    CountMeaning(frs, (r: FactVerificationResult) => false);
    CountImplies(crs, ReportedBrokenLink, IsBrokenLink);
  }

  lemma {:induction false} CountImplies<T>(xs: seq<T>, p: T -> bool, q: T -> bool)
    requires forall k :: 0 <= k < |xs| ==> p(xs[k]) ==> q(xs[k])
    ensures Count(xs, p) <= Count(xs, q)
    decreases |xs|
  {
    if |xs| > 0 {
      var init := xs[..|xs| - 1];
      assert forall k :: 0 <= k < |init| ==> init[k] == xs[k];
      CountImplies(init, p, q);
    }
  }

  /** All citation issues come first, then all fact issues. */
  lemma IssueOrder(crs: seq<CitationVerificationResult>, frs: seq<FactVerificationResult>)
    ensures forall k :: 0 <= k < |CitationIssues(crs)| ==> IsCitationIssue(IssueList(crs, frs)[k])
    ensures forall k :: |CitationIssues(crs)| <= k < |IssueList(crs, frs)| ==> !IsCitationIssue(IssueList(crs, frs)[k])
  {
    CitationKinds(crs);
    FactKinds(frs);
    var ci, fi := CitationIssues(crs), FactIssues(frs);
    assert forall k :: 0 <= k < |ci| ==> IssueList(crs, frs)[k] == ci[k];
    assert forall k :: |ci| <= k < |ci| + |fi| ==> IssueList(crs, frs)[k] == fi[k - |ci|];
  }

  lemma CitationKinds(crs: seq<CitationVerificationResult>)
    ensures forall i :: i in CitationIssues(crs) ==> IsCitationIssue(i)
  {
    CollectSources(crs, CitationIssue);
  }

  lemma FactKinds(frs: seq<FactVerificationResult>)
    ensures forall i :: i in FactIssues(frs) ==> !IsCitationIssue(i)
  {
    CollectSources(frs, FactIssue);
  }

  /**
   * When a contradiction never comes with an unverified status (as for
   * every fact verdict), there is one unverified or weak-evidence issue
   * per claim the unverified counter counts.
   */
  lemma UnverifiedIssuesMatchCounter(crs: seq<CitationVerificationResult>, frs: seq<FactVerificationResult>)
    requires forall k :: 0 <= k < |frs| ==> (frs[k].contradiction ==> !IsUnverified(frs[k]))
    ensures Count(IssueList(crs, frs), IsUnverifiedIssue) == Count(frs, IsUnverified)
  {
    CountAppend(CitationIssues(crs), FactIssues(frs), IsUnverifiedIssue);
    CollectCount(frs, FactIssue, IsUnverifiedIssue, IsUnverified);
    CollectCount(crs, CitationIssue, IsUnverifiedIssue, (r: CitationVerificationResult) => false);
    CountMeaning(crs, (r: CitationVerificationResult) => false);
  }

  // ---------------------------------------------------------------------------
  // Report

  function CitationSummaryOf(r: CitationVerificationResult): CitationSummary {
    CitationSummary(r.citation.text, r.status, r.sourceExists, r.accessible, r.relevanceScore)
  }

  function FactSummaryOf(r: FactVerificationResult): FactSummary {
    FactSummary(r.claim.text, r.status, r.supported, r.contradiction, r.evidenceScore)
  }

  /** `generate_report` with the configured weights and thresholds (the pairs are not consulted). */
  function Report(claims: seq<Claim>, citations: seq<Citation>, crs: seq<CitationVerificationResult>, frs: seq<FactVerificationResult>): HallucinationReport {
    var fake := Count(crs, IsFake);
    var broken := Count(crs, IsBrokenLink);
    var unverified := Count(frs, IsUnverified);
    var contradicted := Count(frs, IsContradicted);
    var verified := Count(frs, IsVerifiedClaim);
    var score := RiskScore(DefaultWeights, unverified, fake, broken, contradicted, |claims|);
    HallucinationReport(
      RiskTag(score, DefaultThresholds), score, |claims|, |citations|,
      verified, fake, unverified, contradicted, broken,
      IssueList(crs, frs),
      DetailedResults(
        seq(|crs|, k requires 0 <= k < |crs| => CitationSummaryOf(crs[k])),
        seq(|frs|, k requires 0 <= k < |frs| => FactSummaryOf(frs[k]))))
  }

  method GenerateReport(claims: seq<Claim>, citations: seq<Citation>, crs: seq<CitationVerificationResult>,
                        frs: seq<FactVerificationResult>, pairs: seq<ClaimCitationPair>) returns (report: HallucinationReport)
    ensures report == Report(claims, citations, crs, frs)
  {
    var fake := Count(crs, IsFake);
    var broken := Count(crs, IsBrokenLink);
    var unverified := Count(frs, IsUnverified);
    var contradicted := Count(frs, IsContradicted);
    var verified := Count(frs, IsVerifiedClaim);
    var score := RiskScore(DefaultWeights, unverified, fake, broken, contradicted, |claims|);
    var overall := RiskTag(score, DefaultThresholds);
    var issues := GenerateIssues(crs, frs);
    var details := DetailedResults(
      seq(|crs|, k requires 0 <= k < |crs| => CitationSummaryOf(crs[k])),
      seq(|frs|, k requires 0 <= k < |frs| => FactSummaryOf(frs[k])));
    report := HallucinationReport(overall, score, |claims|, |citations|, verified, fake, unverified, contradicted, broken, issues, details);
  }

  /**
   * What a report promises: a score in [0, 100] that is 0.0 (and "low")
   * without claims, a tag that agrees with the thresholds, at most one
   * issue per result with the fake and contradiction counters matched by
   * their issues, and one detailed entry per result.
   */
  lemma ReportMeaning(claims: seq<Claim>, citations: seq<Citation>, crs: seq<CitationVerificationResult>, frs: seq<FactVerificationResult>)
    ensures var r := Report(claims, citations, crs, frs);
      && 0.0 <= r.riskScore <= 100.0
      && (|claims| == 0 ==> r.riskScore == 0.0 && r.overallRisk == LowRisk)
      && (r.overallRisk == LowRisk <==> r.riskScore <= 30.0)
      && (r.overallRisk == HighRisk <==> r.riskScore > 60.0)
      && |r.issues| <= |crs| + |frs|
      && r.fakeCitations <= |crs| && r.brokenLinks <= |crs|
      && Count(r.issues, IsFakeIssue) == r.fakeCitations
      && Count(r.issues, IsContradictedIssue) == r.contradictedClaims
      && |r.detailedResults.citationVerifications| == |crs|
      && |r.detailedResults.factVerifications| == |frs|
  {
    var r := Report(claims, citations, crs, frs);
    RiskScoreBounds(DefaultWeights, r.unverifiedClaims, r.fakeCitations, r.brokenLinks, r.contradictedClaims, |claims|);
    RiskTagRule(r.riskScore, DefaultThresholds);
    FakeIssuesMatchCounter(crs, frs);
    ContradictedIssuesMatchCounter(crs, frs);
  }
}
