/**
 * The `/verify` endpoint (main.py): analysis, citation and fact
 * verification (or their "unknown" defaults when disabled or when there is
 * nothing to verify), the report, and its serialisation into the response.
 * Any failure on the way becomes a single HTTP 500 error.
 */
module Service {
  import opened Wrappers
  import opened Text
  import opened Extractors
  import opened CitationVerifier
  import opened FactVerifier
  import opened Scorer

  datatype VerificationRequest = VerificationRequest(text: string, verifyCitations: bool, verifyFacts: bool)

  /** A serialised issue: `{"type", "severity", "detail", "location", "recommendation"}`. */
  datatype IssueRecord = IssueRecord(issueType: string, severity: string, detail: string, location: Location, recommendation: string)

  datatype VerificationResponse = VerificationResponse(
    overallRisk: string,
    riskScore: real,
    totalClaims: nat,
    totalCitations: nat,
    verifiedClaims: nat,
    fakeCitations: nat,
    unverifiedClaims: nat,
    contradictedClaims: nat,
    brokenLinks: nat,
    issues: seq<IssueRecord>,
    detailedResults: DetailedResults)

  datatype HttpError = HttpError(statusCode: int, detail: string)

  /**
   * The collaborators of the endpoint: the citation lookups, the fact
   * models, and NLTK's sentence splitting and entity tagging of the text
   * (or the message of the exception it raised).
   */
  datatype Services = Services(lookups: Lookups, models: Models, tagger: string -> Result<seq<TaggedSentence>, string>)

  // ---------------------------------------------------------------------------
  // Citation and fact results

  /** Whether a pair cites a citation with this text. */
  predicate CitesText(p: ClaimCitationPair, key: string) {
    p.citation.Some? && p.citation.value.text == key
  }

  /** `{pair.citation.text: pair.claim.text for pair in pairs if pair.citation}` */
  function ClaimTexts(pairs: seq<ClaimCitationPair>): map<string, string>
    decreases |pairs|
  {
    if |pairs| == 0 then map[]
    else
      var m := ClaimTexts(pairs[..|pairs| - 1]);
      var p := pairs[|pairs| - 1];
      if p.citation.Some? then m[p.citation.value.text := p.claim.text] else m
  }

  /** The map holds exactly the texts of the paired citations. */
  lemma {:induction false} ClaimTextsKeys(pairs: seq<ClaimCitationPair>)
    ensures forall key :: key in ClaimTexts(pairs) <==> exists k :: 0 <= k < |pairs| && CitesText(pairs[k], key)
    decreases |pairs|
  {
    if |pairs| > 0 {
      var init := pairs[..|pairs| - 1];
      var last := |pairs| - 1;
      ClaimTextsKeys(init);
      var m := ClaimTexts(pairs);
      forall key
        ensures key in m <==> exists k :: 0 <= k < |pairs| && CitesText(pairs[k], key)
      {
        if !CitesText(pairs[last], key) {
          assert key in m <==> key in ClaimTexts(init);
          if key in ClaimTexts(init) {
            var k :| 0 <= k < |init| && CitesText(init[k], key);
            assert CitesText(pairs[k], key);
          }
          if exists k :: 0 <= k < |pairs| && CitesText(pairs[k], key) {
            var k :| 0 <= k < |pairs| && CitesText(pairs[k], key);
            assert CitesText(init[k], key);
          }
        }
      }
    }
  }

  /** Each text maps to the claim of the last pair citing it: later pairs overwrite earlier ones. */
  lemma {:induction false} ClaimTextsLastWins(pairs: seq<ClaimCitationPair>)
    ensures forall key :: key in ClaimTexts(pairs) ==>
      exists k :: (0 <= k < |pairs| && CitesText(pairs[k], key) && ClaimTexts(pairs)[key] == pairs[k].claim.text
        && forall j :: k < j < |pairs| ==> !CitesText(pairs[j], key))
    decreases |pairs|
  {
    if |pairs| > 0 {
      var init := pairs[..|pairs| - 1];
      var last := |pairs| - 1;
      ClaimTextsLastWins(init);
      var m := ClaimTexts(pairs);
      forall key | key in m
        ensures exists k :: (0 <= k < |pairs| && CitesText(pairs[k], key) && m[key] == pairs[k].claim.text
          && forall j :: k < j < |pairs| ==> !CitesText(pairs[j], key))
      {
        if CitesText(pairs[last], key) {
          assert m[key] == pairs[last].claim.text;
        } else {
          assert key in ClaimTexts(init) && m[key] == ClaimTexts(init)[key];
          var k :| (0 <= k < |init| && CitesText(init[k], key) && ClaimTexts(init)[key] == init[k].claim.text
            && forall j :: k < j < |init| ==> !CitesText(init[j], key));
          assert init[k] == pairs[k];
          assert forall j :: k < j < |pairs| ==> !CitesText(pairs[j], key) by {
            assert forall j :: k < j < |init| ==> init[j] == pairs[j];
          }
        }
      }
    }
  }

  /** The result a citation gets when citation verification is skipped. */
  function SkippedCitation(c: Citation): CitationVerificationResult {
    CitationVerificationResult(c, false, false, 0.0, CitationStatus.Unknown, SkippedDetail("Citation verification disabled"), None)
  }

  /** The result a claim gets when fact verification is skipped. */
  function SkippedFact(c: Claim): FactVerificationResult {
    FactVerificationResult(c, false, false, 0.0, FactStatus.Unknown, [], Some("Fact verification disabled"))
  }

  /** Step 2: the verdicts when enabled and there are citations, else the skipped results. */
  function CitationResults(lk: Lookups, verify: bool, citations: seq<Citation>, pairs: seq<ClaimCitationPair>): (rs: seq<CitationVerificationResult>)
    ensures |rs| == |citations|
  {
    if verify && |citations| > 0 then
      var claimTexts := ClaimTexts(pairs);
      seq(|citations|, k requires 0 <= k < |citations| => Verdict(lk, citations[k], ClaimTextFor(claimTexts, citations[k].text)))
    else seq(|citations|, k requires 0 <= k < |citations| => SkippedCitation(citations[k]))
  }

  /** Step 3: the verdicts when enabled and there are claims, else the skipped results. */
  function FactResults(m: Models, verify: bool, claims: seq<Claim>): Result<seq<FactVerificationResult>, string> {
    if verify && |claims| > 0 then FactVerdicts(m, claims)
    else Success(seq(|claims|, k requires 0 <= k < |claims| => SkippedFact(claims[k])))
  }

  predicate IsUrlCitation(c: Citation) { c.citationType == Url }

  /**
   * Skipped citation verification: one "unknown", unfound, unreached result
   * per citation, in order.  None is fake, but every URL citation counts as
   * a broken link because it was never reached.
   */
  lemma SkippedCitationResults(lk: Lookups, verify: bool, citations: seq<Citation>, pairs: seq<ClaimCitationPair>)
    requires !verify || |citations| == 0
    ensures var rs := CitationResults(lk, verify, citations, pairs);
      && (forall k :: 0 <= k < |rs| ==>
            rs[k].citation == citations[k] && rs[k].status == CitationStatus.Unknown && !rs[k].sourceExists && !rs[k].accessible)
      && Count(rs, IsFake) == 0
      && Count(rs, IsBrokenLink) == Count(citations, IsUrlCitation)
  {
    var rs := CitationResults(lk, verify, citations, pairs);
    CountMeaning(rs, IsFake);
    BrokenLinksAreUrls(rs, citations);
  }

  lemma {:induction false} BrokenLinksAreUrls(rs: seq<CitationVerificationResult>, citations: seq<Citation>)
    requires |rs| == |citations|
    requires forall k :: 0 <= k < |rs| ==> rs[k].citation == citations[k] && !rs[k].accessible
    ensures Count(rs, IsBrokenLink) == Count(citations, IsUrlCitation)
    decreases |rs|
  {
    if |rs| > 0 {
      var n := |rs| - 1;
      assert forall k :: 0 <= k < n ==> rs[..n][k] == rs[k] && citations[..n][k] == citations[k];
      BrokenLinksAreUrls(rs[..n], citations[..n]);
    }
  }

  /**
   * Skipped fact verification: one "unknown" result without contradiction
   * per claim, in order, so no fact counter counts any of them.
   */
  lemma SkippedFactResults(m: Models, verify: bool, claims: seq<Claim>)
    requires !verify || |claims| == 0
    ensures FactResults(m, verify, claims).Success?
    ensures var rs := FactResults(m, verify, claims).value;
      && |rs| == |claims|
      && (forall k :: 0 <= k < |rs| ==> rs[k].claim == claims[k] && rs[k].status == FactStatus.Unknown && !rs[k].contradiction)
      && Count(rs, IsVerifiedClaim) == 0 && Count(rs, IsUnverified) == 0 && Count(rs, IsContradicted) == 0
  {
    var rs := FactResults(m, verify, claims).value;
    CountMeaning(rs, IsVerifiedClaim);
    CountMeaning(rs, IsUnverified);
    CountMeaning(rs, IsContradicted);
  }

  /**
   * With citation verification on, every verdict is about its citation,
   * and no broken-link issue is ever raised: a URL that cannot be reached
   * is always "fake" and raises a fake-citation issue instead.
   */
  lemma VerifiedCitationsRaiseNoBrokenLinkIssue(lk: Lookups, citations: seq<Citation>, pairs: seq<ClaimCitationPair>)
    ensures var rs := CitationResults(lk, true, citations, pairs);
      && (forall k :: 0 <= k < |rs| ==> rs[k].citation == citations[k])
      && Count(rs, ReportedBrokenLink) == 0
  {
    var rs := CitationResults(lk, true, citations, pairs);
    forall k | 0 <= k < |rs|
      ensures rs[k].citation == citations[k] && !ReportedBrokenLink(rs[k])
    {
      var claimText := ClaimTextFor(ClaimTexts(pairs), citations[k].text);
      VerdictConsistent(lk, citations[k], claimText);
      if citations[k].citationType == Url {
        UrlRule(lk, citations[k], claimText);
      }
    }
    CountMeaning(rs, ReportedBrokenLink);
  }

  // ---------------------------------------------------------------------------
  // Serialisation

  function KindName(k: IssueKind): string {
    match k
    case FakeCitation => "fake_citation"
    case IrrelevantCitation => "irrelevant_citation"
    case BrokenLink => "broken_link"
    case ContradictedClaim => "contradicted_claim"
    case UnverifiedClaim => "unverified_claim"
    case WeakEvidence => "weak_evidence"
  }

  function ParseKind(s: string): Option<IssueKind> {
    if s == "fake_citation" then Some(FakeCitation)
    else if s == "irrelevant_citation" then Some(IrrelevantCitation)
    else if s == "broken_link" then Some(BrokenLink)
    else if s == "contradicted_claim" then Some(ContradictedClaim)
    else if s == "unverified_claim" then Some(UnverifiedClaim)
    else if s == "weak_evidence" then Some(WeakEvidence)
    else None
  }

  function SeverityName(s: Severity): string {
    match s
    case High => "high"
    case Medium => "medium"
    case Low => "low"
  }

  function ParseSeverity(s: string): Option<Severity> {
    if s == "high" then Some(High)
    else if s == "medium" then Some(Medium)
    else if s == "low" then Some(Low)
    else None
  }

  function RiskName(r: RiskLevel): string {
    match r
    case LowRisk => "low"
    case MediumRisk => "medium"
    case HighRisk => "high"
  }

  function ParseRisk(s: string): Option<RiskLevel> {
    if s == "low" then Some(LowRisk)
    else if s == "medium" then Some(MediumRisk)
    else if s == "high" then Some(HighRisk)
    else None
  }

  /** The issue dictionary of one issue. */
  function IssueToRecord(i: Issue): IssueRecord {
    IssueRecord(KindName(i.kind), SeverityName(i.severity), i.Detail(), i.location, i.Recommendation())
  }

  /** Reading an issue dictionary back: the subject is what the kind's message template surrounds. */
  function RecordToIssue(r: IssueRecord): Option<Issue> {
    match (ParseKind(r.issueType), ParseSeverity(r.severity))
    case (Some(k), Some(s)) =>
      var open, close := |DetailPrefix(k)|, |DetailSuffix(k)|;
      if open + close <= |r.detail| then Some(Issue(k, s, r.detail[open..|r.detail| - close], r.location))
      else None
    case _ => None
  }

  /** Serialising an issue loses nothing: it reads back as the same issue. */
  lemma IssueRoundTrip(i: Issue)
    ensures RecordToIssue(IssueToRecord(i)) == Some(i)
  {
    KindRoundTrip(i.kind);
    SeverityRoundTrip(i.severity);
    DetailShowsSubject(i);
  }

  lemma KindRoundTrip(k: IssueKind)
    ensures ParseKind(KindName(k)) == Some(k)
  {
    match k
    case FakeCitation =>
    case IrrelevantCitation =>
    case BrokenLink =>
    case ContradictedClaim =>
    case UnverifiedClaim =>
    case WeakEvidence =>
  }

  lemma SeverityRoundTrip(s: Severity)
    ensures ParseSeverity(SeverityName(s)) == Some(s)
  {
  }

  /** The risk tag's name reads back as the same tag, so different tags get different names. */
  lemma RiskNameRoundTrip(r: RiskLevel)
    ensures ParseRisk(RiskName(r)) == Some(r)
  {
  }

  /** The response fields of a report, with the issues serialised in report order. */
  function Respond(report: HallucinationReport): (r: VerificationResponse)
    ensures |r.issues| == |report.issues|
  {
    VerificationResponse(
      RiskName(report.overallRisk), report.riskScore, report.totalClaims, report.totalCitations,
      report.verifiedClaims, report.fakeCitations, report.unverifiedClaims, report.contradictedClaims, report.brokenLinks,
      seq(|report.issues|, k requires 0 <= k < |report.issues| => IssueToRecord(report.issues[k])),
      report.detailedResults)
  }

  /** The serialised issues read back, one by one and in order, as the report's issues. */
  lemma RespondKeepsIssues(report: HallucinationReport)
    ensures forall k :: 0 <= k < |report.issues| ==> RecordToIssue(Respond(report).issues[k]) == Some(report.issues[k])
    ensures ParseRisk(Respond(report).overallRisk) == Some(report.overallRisk)
  {
    forall k | 0 <= k < |report.issues|
      ensures RecordToIssue(Respond(report).issues[k]) == Some(report.issues[k])
    {
      IssueRoundTrip(report.issues[k]);
    }
    RiskNameRoundTrip(report.overallRisk);
  }

  // ---------------------------------------------------------------------------
  // The endpoint

  function Failed(message: string): HttpError {
    HttpError(500, "Verification failed: " + message)
  }

  /** The report the endpoint builds from the tagged sentences, or the message of the failure that stopped it. */
  function ReportFor(svc: Services, req: VerificationRequest, sentences: seq<TaggedSentence>): Result<HallucinationReport, string> {
    var claims := ClaimsOf(req.text, sentences);
    var citations := CitationsOf(req.text);
    var pairs := PairsOf(claims, citations);
    var crs := CitationResults(svc.lookups, req.verifyCitations, citations, pairs);
    match FactResults(svc.models, req.verifyFacts, claims)
    case Failure(e) => Failure(e)
    case Success(frs) => Success(Report(claims, citations, crs, frs))
  }

  /** `verify_text` */
  function VerifyText(svc: Services, req: VerificationRequest): Result<VerificationResponse, HttpError> {
    match svc.tagger(req.text)
    case Failure(e) => Failure(Failed(e))
    case Success(sentences) =>
      match ReportFor(svc, req, sentences)
      case Failure(e) => Failure(Failed(e))
      case Success(report) => Success(Respond(report))
  }

  /**
   * A request either gets a whole response or a single HTTP 500 error
   * carrying the failure's message; it fails exactly when tagging fails or
   * fact verification runs and the encoder fails on some claim.
   */
  lemma VerifyTextFailure(svc: Services, req: VerificationRequest)
    ensures VerifyText(svc, req).Failure? ==>
      VerifyText(svc, req).error.statusCode == 500 && "Verification failed: " <= VerifyText(svc, req).error.detail
    ensures svc.tagger(req.text).Failure? ==> VerifyText(svc, req) == Failure(Failed(svc.tagger(req.text).error))
    ensures svc.tagger(req.text).Success? ==>
      var claims := ClaimsOf(req.text, svc.tagger(req.text).value);
      (VerifyText(svc, req).Failure? <==>
        req.verifyFacts && exists k :: 0 <= k < |claims| && FactVerdict(svc.models, claims[k]).Failure?)
  {
    if svc.tagger(req.text).Success? {
      var sentences := svc.tagger(req.text).value;
      assert VerifyText(svc, req).Failure? <==> ReportFor(svc, req, sentences).Failure?;
      ReportForFailure(svc, req, sentences);
    }
  }

  /** Building the report fails exactly when fact verification runs and some claim's verdict fails. */
  lemma ReportForFailure(svc: Services, req: VerificationRequest, sentences: seq<TaggedSentence>)
    ensures var claims := ClaimsOf(req.text, sentences);
      ReportFor(svc, req, sentences).Failure? <==>
        req.verifyFacts && exists k :: 0 <= k < |claims| && FactVerdict(svc.models, claims[k]).Failure?
  {
    ReportFailsWithFacts(svc, req, sentences);
    FactResultsFailure(svc.models, req.verifyFacts, ClaimsOf(req.text, sentences));
  }

  /** Only fact verification can make the report fail. */
  lemma ReportFailsWithFacts(svc: Services, req: VerificationRequest, sentences: seq<TaggedSentence>)
    ensures ReportFor(svc, req, sentences).Failure? <==>
      FactResults(svc.models, req.verifyFacts, ClaimsOf(req.text, sentences)).Failure?
  {
  }

  /** Skipped fact verification never fails; run, it fails exactly when some claim's verdict does. */
  lemma FactResultsFailure(m: Models, verify: bool, claims: seq<Claim>)
    ensures FactResults(m, verify, claims).Failure? <==>
      verify && exists k :: 0 <= k < |claims| && FactVerdict(m, claims[k]).Failure?
  {
    if verify && |claims| > 0 {
      FactVerdictsPerClaim(m, claims);
    }
  }

  /** A text without claims is low risk with score 0.0, whatever else it holds. */
  lemma NoClaimsIsLowRisk(svc: Services, req: VerificationRequest)
    requires svc.tagger(req.text).Success?
    requires ClaimsOf(req.text, svc.tagger(req.text).value) == []
    ensures VerifyText(svc, req).Success?
    ensures VerifyText(svc, req).value.riskScore == 0.0 && VerifyText(svc, req).value.overallRisk == "low"
    ensures VerifyText(svc, req).value.totalClaims == 0
  {
    var sentences := svc.tagger(req.text).value;
    var claims := ClaimsOf(req.text, sentences);
    var citations := CitationsOf(req.text);
    var crs := CitationResults(svc.lookups, req.verifyCitations, citations, PairsOf(claims, citations));
    var frs := FactResults(svc.models, req.verifyFacts, claims).value;
    ReportMeaning(claims, citations, crs, frs);
  }

  /**
   * With both verifications off, the only counter that can be non-zero is
   * broken links, which counts the text's URL citations.
   */
  lemma NothingVerified(svc: Services, req: VerificationRequest)
    requires svc.tagger(req.text).Success?
    requires !req.verifyCitations && !req.verifyFacts
    ensures VerifyText(svc, req).Success?
    ensures var r := VerifyText(svc, req).value;
      && r.fakeCitations == 0 && r.verifiedClaims == 0 && r.unverifiedClaims == 0 && r.contradictedClaims == 0
      && r.brokenLinks == Count(CitationsOf(req.text), IsUrlCitation)
  {
    var sentences := svc.tagger(req.text).value;
    var claims := ClaimsOf(req.text, sentences);
    var citations := CitationsOf(req.text);
    var pairs := PairsOf(claims, citations);
    SkippedCitationResults(svc.lookups, false, citations, pairs);
    SkippedFactResults(svc.models, false, claims);
  }

  /**
   * With citation verification off, every URL citation of the text also
   * raises a broken-link issue, whatever the fact results are.
   */
  lemma SkippedUrlsRaiseBrokenLinkIssues(lk: Lookups, citations: seq<Citation>, pairs: seq<ClaimCitationPair>, frs: seq<FactVerificationResult>)
    ensures Count(IssueList(CitationResults(lk, false, citations, pairs), frs), IsBrokenLinkIssue) == Count(citations, IsUrlCitation)
  {
    var rs := CitationResults(lk, false, citations, pairs);
    SkippedCitationResults(lk, false, citations, pairs);
    BrokenLinkIssuesWithinCounter(rs, frs);
    CountImplies(rs, IsBrokenLink, ReportedBrokenLink);
  }
}
