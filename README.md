# Hallucination report pipeline, modelled in Dafny

This project models the deterministic core of an AI-hallucination checker: the
service takes a piece of AI-generated text and returns a risk report on it.

- **Claim extraction.** Every sentence that contains a factual indicator (a
  percentage, a decimal, four digits, or one of five stock phrases) or a named
  entity becomes a claim. Its position in the text is found by a
  first-occurrence search.
- **Citation extraction.** Citations are found by five hand-written patterns,
  scanned family by family in this order: APA, MLA, IEEE, URL, DOI. Each
  family is scanned left to right, as `re.finditer` does.
- **Pairing.** Each claim is paired with its nearest citation within 200
  characters, and gets a proximity score.
- **Citation verification.** Each citation is verified by its type: the DOI
  lookup, the URL probe, the author-year search with its CrossRef fallback,
  or "unknown". Keyword-overlap relevance decides between "verified" and
  "irrelevant".
- **Fact verification.** A claim is reduced to a search query. Wikipedia
  evidence is gathered, capped at five sources. An NLI contradiction check
  and a similarity score (0.6 of the mean plus 0.4 of the maximum) decide
  between "contradicted", "supported", "weak" and "no_evidence".
- **Scoring.** Five counters, a weighted risk score capped at 100, and a
  three-level risk tag. Issues are listed citation issues first, at most one
  issue per result.
- **The `/verify` endpoint.** It orchestrates the steps above. It gives
  "unknown" results for disabled steps. It serialises issues into
  dictionaries. Any exception becomes an HTTP 500 error.

Modules, one per source file:

| module | file |
|---|---|
| `Extractors` | `extractors.py` |
| `Patterns` | the patterns of `config.py` and `re.finditer` |
| `CitationVerifier` | `citation_verifier.py` |
| `FactVerifier` | `fact_verifier.py` |
| `Scorer` | `scorer.py` |
| `Service` | `main.py` |
| `Config` | weights and thresholds |
| `Text` | the string operations of the Python library |
| `Wrappers` | `Option` and `Result` |

Each loop of the source is a method proved equal to a specification
function, and the properties are lemmas about those functions.

External services are parameters of the model:

- CrossRef, Semantic Scholar, the page probe and fetch, Wikipedia, the NLI
  model, the sentence encoder and NLTK's sentence splitter and entity tagger.
- `Lookups`, `Models` and `Services` hold these as functions. An exception
  such a call would raise is an explicit outcome: `None` or `Failure`.

Behaviour of the code worth knowing, each proved about the model:

- **Disabled citation verification still reports broken links.** With
  citation verification off, every citation gets `accessible = false`
  (main.py:114-124). The broken-link counter (scorer.py:62-65) and the
  broken-link issue (scorer.py:206-216) test only the URL type and
  accessibility. So every URL citation is counted in `broken_links` and
  raises a `broken_link` issue (`Service.NothingVerified`,
  `Service.SkippedUrlsRaiseBrokenLinkIssues`).
- **Enabled citation verification never raises `broken_link` issues.** An
  unreachable URL is always "fake" (citation_verifier.py:125-141), and a fake
  citation raises a `fake_citation` issue instead
  (`Service.VerifiedCitationsRaiseNoBrokenLinkIssue`).
- **The 0.3 relevance is only for a non-object.** `_calculate_relevance`
  returns a fixed 0.3 for an empty paper text (citation_verifier.py:283-284).
  For a JSON object that text always holds the blank between title and
  abstract (citation_verifier.py:279-281), so only a CrossRef `message` that
  is not an object (citation_verifier.py:75) reaches it. Such a DOI citation
  is "irrelevant" with relevance 0.3 (`CitationVerifier.RelevanceMeaning`,
  `CitationVerifier.DoiRule`).
- **The cap at five never drops a source.** Wikipedia gives at most three
  sources and the Scholar step gives none, so the cap at five
  (fact_verifier.py:97-106) never applies (`FactVerifier.EvidenceCap`).

## Model

| member | source | states |
|---|---|---|
| Extractors.ClaimFor | extractors.py:87-117 | a sentence yields a claim iff it matches a factual indicator or has an entity; text and sentence are the sentence; start is the first occurrence in the text (-1 when absent), end is start plus its length, and the text at that span is the sentence; confidence is 0.7 iff both hold, else 0.5 |
| Extractors.ExtractClaims | extractors.py:82-119 | the loop returns exactly the claims of the sentences, in sentence order |
| Extractors.ClaimsOfExactly | extractors.py:87-117 | one claim per qualifying sentence, and a value is a claim iff it is the claim of some sentence |
| Extractors.CitationOf | extractors.py:136-196 | a match becomes a citation of its family's type whose text is the matched text and whose start/end are the match bounds |
| Extractors.CitationOfFields | extractors.py:136-196 | the type-specific fields are present exactly for their type: one stripped author and a four-digit year for apa/mla, the non-empty digit group for ieee, the whole match as url, the non-empty group after `doi:` for doi |
| Extractors.ExtractCitations | extractors.py:129-199 | the five `finditer` loops return exactly the citations of all families, family by family and match by match |
| Extractors.FamilyWellFormed | extractors.py:133-197 | every citation of a family has the family's type and fields, a span within the text, and the span's text |
| Extractors.FamilyOrdered | extractors.py:133-197 | within a family citations come left to right without overlapping |
| Extractors.CitationsOrdered | extractors.py:129-199 | all citations come in family order apa, mla, ieee, url, doi, and left to right without overlap within a family; overlaps across families are kept |
| Extractors.CitationsWellFormed | extractors.py:129-199 | every extracted citation has its type's fields, a span within the text, and exactly that span's text |
| Extractors.Closest | extractors.py:209-220 | the chosen citation has a start and lies under 200 characters away, no eligible citation is nearer, every earlier eligible one is strictly farther (ties go to the first), and none is chosen iff none is eligible |
| Extractors.ProximityAtZero | extractors.py:223 | proximity is 1.0 at distance 0 |
| Extractors.ProximityDecreasing | extractors.py:223 | proximity lies in (0, 1] and falls strictly as the distance grows |
| Extractors.PairFor | extractors.py:209-235 | the pair is about the claim; it has no citation iff no citation is eligible, and then proximity 0.0; otherwise the citation is the nearest eligible one, every eligible citation before it is strictly farther (ties go to the first), and the proximity is `1/(1+d/100)` of its distance |
| Extractors.PairsOf | extractors.py:201-237 | exactly one pair per claim, in claim order |
| Extractors.PairClaimsWithCitations | extractors.py:201-237 | the nested loop with `min_distance`/`closest_citation` returns exactly the specified pairs |
| Extractors.PairedPlusUnpaired | extractors.py:259-260 | claims with and without citations add up to the number of pairs |
| Extractors.Analyze | extractors.py:247-261 | the analysis holds the claims, citations and pairs, total_claims = len(claims) = len(pairs), and claims with plus without citations = total_claims |
| Patterns.ApaAt | config.py:37 | an APA match at a position starts there, begins with two letters, and ends with `(`, four digits, `)` that form group 2 |
| Patterns.MlaAt | config.py:38 | an MLA match starts there, begins with two letters, and ends with a blank and the four digits of group 2 |
| Patterns.IeeeAt | config.py:39 | an IEEE match is `[`, a non-empty run of digits (group 1), `]` |
| Patterns.UrlAt | config.py:40 | a URL match starts with `http://` or `https://` and its link runs to a blank, `)` or the end |
| Patterns.DoiAt | config.py:41 | a DOI match is `doi:` in any case followed by a maximal non-empty run of link characters (group 1) |
| Patterns.MatchAt | config.py:37-41 | the match of a pattern at a position starts there, is non-empty, lies within the text and has the pattern's shape |
| Patterns.FindAll | extractors.py:134-135 | the matches lie within the text, are non-empty and come left to right without overlapping |
| Patterns.ScanSound | extractors.py:134-135 | every match the scan reports is the pattern's match at its start, in order and without overlap |
| Patterns.ScanComplete | extractors.py:134-135 | the scan skips no position where the pattern matches: some reported match covers it |
| Patterns.FindAllIsScan | extractors.py:134-135 | `FindAll` reports the pattern's matches left to right, non-overlapping and skipping none |
| Patterns.FindAllShapes | extractors.py:134-197 | every reported match has its pattern's shape |
| Text.Find | extractors.py:107 | `str.find`: -1 iff the sentence occurs nowhere, otherwise an index where it occurs with no occurrence before it |
| Text.Take | scorer.py:224 | `xs[:n]`: the prefix of xs of length n, or all of xs when it is shorter |
| Text.LongWordSet | citation_verifier.py:299-300 | exactly the words of four or more characters |
| Text.SplitJoin | fact_verifier.py:116-123 | splitting blank-joined tokens gives the tokens back |
| CitationVerifier.OverlapRatioMeaning | citation_verifier.py:288-294 | the overlap ratio lies in [0, 1] without the cap applying; it is 1 iff every claim word occurs in the paper, 0 iff none does |
| CitationVerifier.PaperText | citation_verifier.py:278-281 | the paper text is empty iff the value is not a JSON object, and cannot be built exactly when an object's title or abstract is not a string |
| CitationVerifier.RelevanceMeaning | citation_verifier.py:269-295 | relevance is 0.5 for an empty claim; 0.3 for a value that is not an object; for an object, 0.5 for a claim without words, otherwise the overlap ratio; it raises only on a non-string title or abstract; any result lies in [0, 1] |
| CitationVerifier.SimpleTextRelevance | citation_verifier.py:297-306 | in [0, 1]; 0.5 when the claim has no word of 4+ characters; otherwise 1.0 iff all those words occur in the page and 0.0 iff none does |
| CitationVerifier.Found | citation_verifier.py:78-86 | a found paper is existing and accessible with its relevance, "verified" iff relevance exceeds the threshold, "irrelevant" otherwise |
| CitationVerifier.BestMatch | citation_verifier.py:184-201 | the pick is a same-year, author-matching paper with relevance above 0.0 and at least that of every other candidate; the search is abandoned iff computing a candidate's relevance raises |
| CitationVerifier.FirstMatch | citation_verifier.py:230-243 | the pick is a same-year item with relevance above 0.3; nothing is picked iff every same-year item has relevance at most 0.3 |
| CitationVerifier.BestMatchFirstAmongEquals | citation_verifier.py:187-201 | every candidate before the pick scored strictly less (the strict `>` keeps the first among equals) |
| CitationVerifier.FirstMatchIsFirst | citation_verifier.py:230-243 | every same-year item before the pick had relevance at most 0.3 |
| CitationVerifier.FirstMatchRaisesFirst | citation_verifier.py:230-245 | when the loop gives up, some same-year item raises and every same-year item before it had relevance at most 0.3 |
| CitationVerifier.ScholarPick | citation_verifier.py:173-214 | a Semantic Scholar pick is a returned, same-year, author-matching record whose relevance is above 0.0 |
| CitationVerifier.CrossRefPick | citation_verifier.py:217-245 | a CrossRef pick is a returned same-year item whose relevance is above 0.3 |
| CitationVerifier.FindBestMatch | citation_verifier.py:184-201 | the best-match loop returns the specified pick |
| CitationVerifier.FindFirstMatch | citation_verifier.py:230-245 | the first-match loop returns the specified pick |
| CitationVerifier.VerifyAuthorYearLoops | citation_verifier.py:143-254 | `_verify_author_year` with its two loops returns the verdict `AuthorYearRule` characterises |
| CitationVerifier.AuthorYearRule | citation_verifier.py:158-254 | with authors and a year: a Semantic Scholar pick decides, else a CrossRef pick; a pick is found and reached with its relevance and paper, "verified" iff the relevance exceeds 0.5, else "irrelevant"; with no pick the citation is "fake", does not exist, is not reached and has relevance 0.0 |
| CitationVerifier.BestMatchAbandons | citation_verifier.py:187-214 | once computing a relevance raises, the whole Semantic Scholar search is abandoned |
| CitationVerifier.VerifyCitation | citation_verifier.py:41-60 | dispatch on the type tag returns the specified verdict |
| CitationVerifier.VerifyCitations | citation_verifier.py:316-331 | one verdict per citation, in order, each with the claim text mapped to the citation's text or "" |
| CitationVerifier.VerdictConsistent | citation_verifier.py:41-267 | every verdict is about its citation; "unknown" is not found, not reached, relevance 0; "verified"/"irrelevant" are found and reached; "fake" is not reached with relevance 0; relevance lies in [0, 1] |
| CitationVerifier.AuthorYearConsistent | citation_verifier.py:143-254 | the same promise for the author-year path |
| CitationVerifier.CrossRefFallbackConsistent | citation_verifier.py:216-254 | the same promise for the CrossRef fallback |
| CitationVerifier.UnverifiableTypes | citation_verifier.py:50-60 | ieee and unknown tags are "unknown", not found, not reached, relevance 0.0 |
| CitationVerifier.MissingAuthorOrYear | citation_verifier.py:145-156 | an author-year citation without authors or year is "unknown" whatever the databases hold |
| CitationVerifier.DoiRule | citation_verifier.py:62-97 | a work CrossRef returns is "verified" iff its relevance exceeds 0.5, else "irrelevant"; a message that is not an object is "irrelevant" with 0.3 for a non-empty claim; an unreturned DOI, or a work whose relevance raises, is "fake", does not exist, is not reached and has relevance 0.0 |
| CitationVerifier.UrlRule | citation_verifier.py:99-141 | status 200 is "verified" iff relevance exceeds 0.3 (0.5 when the page cannot be read); another status exists but is unreachable and "fake"; an exception is "fake" and does not exist |
| FactVerifier.RemovePhraseFromUnchanged | fact_verifier.py:111-113 | a text without the phrase is left unchanged |
| FactVerifier.RemovePhraseFromRemoves | fact_verifier.py:111-113 | the text before the first occurrence is kept and the occurrence itself is dropped |
| FactVerifier.Filter | fact_verifier.py:118-121 | keeps exactly the words longer than 3 characters or starting with a digit |
| FactVerifier.SearchQueryMeaning | fact_verifier.py:108-123 | the query has the first ten key words of the stripped claim (all of them when there are fewer), each blank-free, and splitting the query gives them back |
| FactVerifier.Underscored | fact_verifier.py:129 | blanks become underscores, everything else is kept |
| FactVerifier.WikipediaEvidence | fact_verifier.py:125-163 | at most three sources, all from Wikipedia |
| FactVerifier.SearchWikipedia | fact_verifier.py:125-163 | the loop over the search hits returns the specified evidence |
| FactVerifier.RetrieveEvidence | fact_verifier.py:89-106 | the retrieval returns the specified evidence |
| FactVerifier.EvidenceCap | fact_verifier.py:97-106 | at most five sources, Wikipedia's first; in fact exactly Wikipedia's, at most three |
| FactVerifier.ContradictionCount | fact_verifier.py:183-225 | at most one contradiction per source |
| FactVerifier.ContradictionCountMeaning | fact_verifier.py:183-225 | the count is abandoned iff some model call on a source with text raises; otherwise it is positive iff some source with text is flagged |
| FactVerifier.CheckContradiction | fact_verifier.py:171-236 | the loop returns the specified check |
| FactVerifier.ContradictionAbandons | fact_verifier.py:180-234 | once a model call raises, the whole check is abandoned |
| FactVerifier.ContradictionMeaning | fact_verifier.py:177-236 | no contradiction without a model or sources; otherwise a contradiction iff no call raises and some source with text is flagged; details are present iff there is a contradiction |
| FactVerifier.Max | fact_verifier.py:266 | `np.max`: an element, and no element is greater |
| FactVerifier.MeanBounds | fact_verifier.py:265 | the mean lies between the least and the greatest similarity |
| FactVerifier.BlendBounds | fact_verifier.py:265-269 | the blended score lies between the mean and the greatest similarity |
| FactVerifier.Similarities | fact_verifier.py:250-259 | at most one similarity per source |
| FactVerifier.CalculateEvidenceScore | fact_verifier.py:238-271 | the loop returns the specified score or the encoder's failure |
| FactVerifier.SimilaritiesFail | fact_verifier.py:250-259 | once the encoder fails, the whole computation fails with that message |
| FactVerifier.EvidenceScoreBounds | fact_verifier.py:244-271 | 0.0 without sources, and 0.0 when no source has text; otherwise the blend of the similarities, between the least and the greatest |
| FactVerifier.NoTextNoSimilarities | fact_verifier.py:252-262 | sources without text give no similarity and never call the encoder |
| FactVerifier.StatusRule | fact_verifier.py:70-77 | "contradicted" iff contradiction; otherwise "supported" iff score > 0.7, "weak" iff 0.4 < score <= 0.7, "no_evidence" iff score <= 0.4; never "unknown" |
| FactVerifier.VerifyClaim | fact_verifier.py:48-87 | `verify_claim` returns the specified verdict |
| FactVerifier.FactVerdictConsistent | fact_verifier.py:48-87 | a verdict is about its claim, "contradicted" iff the flag, supported iff score > 0.5 and no contradiction, never "unknown", no evidence gives "no_evidence" with score 0.0; a failure needs evidence |
| FactVerifier.MapUntilFailureStops | fact_verifier.py:280-286 | once a verdict fails, the whole batch fails with it |
| FactVerifier.MapUntilFailureSuccess | fact_verifier.py:280-286 | a completed batch has one result per element, in order |
| FactVerifier.MapUntilFailureFails | fact_verifier.py:280-286 | a batch fails iff some element fails |
| FactVerifier.VerifyClaims | fact_verifier.py:280-286 | the batch loop returns the specified verdicts |
| FactVerifier.FactVerdictsPerClaim | fact_verifier.py:280-286 | a completed batch has one verdict per claim in claim order; it fails iff the verdict on some claim fails |
| Scorer.Count | scorer.py:57-80 | a counter never exceeds the number of results |
| Scorer.CountMeaning | scorer.py:57-80 | a counter is 0 iff no result qualifies, and equals the number of results iff all do |
| Scorer.FactCountersPartition | scorer.py:67-80 | verified, unverified, contradicted and unknown counts add up to the number of fact results |
| Scorer.TermMonotone | scorer.py:156-167 | a weighted ratio is non-negative and grows with its count |
| Scorer.RiskScoreBounds | scorer.py:152-170 | 0.0 without claims, never above 100, never negative with non-negative weights |
| Scorer.RiskScoreMonotone | scorer.py:156-170 | with non-negative weights, more problems never lower the score |
| Scorer.DefaultWeightsExamples | scorer.py:156-167 | with the configured weights, all claims unverified gives 40, all contradicted gives 30, none gives 0 |
| Scorer.RiskTagRule | scorer.py:92-97 | "low" iff score <= low, "medium" iff low < score <= medium, "high" iff above both |
| Scorer.NoClaimsLowRisk | scorer.py:152-153 | without claims the score is 0.0 and the tag "low" |
| Scorer.CitationIssueRule | scorer.py:183-216 | an issue iff fake, irrelevant or an unreachable URL, with that priority; high severity only for fake; location is the span with None as 0; the subject is the citation text, or the url for broken links |
| Scorer.FactIssueRule | scorer.py:219-252 | an issue iff contradicted, no evidence or weak, with that priority and severities high, medium, low; supported and unknown give none; the claim's location; the subject is the claim's first 100 characters, or the whole claim when it is shorter |
| Scorer.DetailShowsSubject | scorer.py:188-246 | an issue's detail is its kind's opening words, the subject and its kind's closing words, so the subject can be read back |
| Scorer.IssueList | scorer.py:172-254 | at most one issue per result |
| Scorer.GenerateIssues | scorer.py:172-254 | the two loops return the citation issues in order, then the fact issues in order |
| Scorer.FakeIssuesMatchCounter | scorer.py:183-194 | there is one fake-citation issue per fake result |
| Scorer.ContradictedIssuesMatchCounter | scorer.py:219-230 | there is one contradicted-claim issue per contradicted result |
| Scorer.BrokenLinkIssuesWithinCounter | scorer.py:206-216 | broken-link issues are exactly the unreachable URLs that are neither fake nor irrelevant, so never more than the counter |
| Scorer.UnverifiedIssuesMatchCounter | scorer.py:231-252 | one unverified or weak-evidence issue per result the unverified counter counts |
| Scorer.IssueOrder | scorer.py:180-254 | all citation issues come first, then all fact issues |
| Scorer.CitationKinds | scorer.py:183-216 | citation results raise only citation issues |
| Scorer.FactKinds | scorer.py:219-252 | fact results raise only claim issues |
| Scorer.GenerateReport | scorer.py:46-140 | `generate_report` returns the specified report |
| Scorer.ReportMeaning | scorer.py:46-140 | score in [0, 100], 0.0 and "low" without claims; the tag agrees with 30/60; at most one issue per result; the fake and contradicted counters equal their issues; one detailed entry per result |
| Service.ClaimTextsKeys | main.py:102-106 | the map holds exactly the texts of paired citations |
| Service.ClaimTextsLastWins | main.py:102-106 | each text maps to the claim of the last pair citing it |
| Service.CitationResults | main.py:99-124 | one result per citation |
| Service.SkippedCitationResults | main.py:111-124 | skipped or empty: one "unknown", unfound, unreached result per citation, in order; no fake; broken links = URL citations |
| Service.SkippedFactResults | main.py:130-144 | skipped or empty: one "unknown" result without contradiction per claim, in order, counted by no fact counter |
| Service.VerifiedCitationsRaiseNoBrokenLinkIssue | main.py:100-110 | verified results are about their citations and none is a reported broken link |
| Service.SkippedUrlsRaiseBrokenLinkIssues | main.py:111-124 | with citation verification off, each URL citation raises a broken-link issue |
| Service.IssueRoundTrip | main.py:166-175 | a serialised issue reads back as the same issue |
| Service.KindRoundTrip | main.py:168 | the type name reads back as the same kind |
| Service.SeverityRoundTrip | main.py:169 | the severity name reads back as the same severity |
| Service.RiskNameRoundTrip | main.py:157 | the risk name reads back as the same tag |
| Service.Respond | main.py:156-177 | one serialised issue per report issue |
| Service.RespondKeepsIssues | main.py:156-177 | the serialised issues read back in order as the report's issues, and the risk name as its tag |
| Service.VerifyTextFailure | main.py:91-180 | a failure is a single HTTP 500 error with "Verification failed: " and the message; tagging failure fails; otherwise it fails iff facts are verified and the verdict on some claim fails |
| Service.ReportForFailure | main.py:126-153 | building the report fails iff facts are verified and some claim's verdict fails |
| Service.FactResultsFailure | main.py:126-144 | skipped fact verification never fails; run, it fails iff some claim's verdict fails |
| Service.NoClaimsIsLowRisk | main.py:91-177 | a text without claims gets a response with score 0.0, risk "low" and no claims |
| Service.NothingVerified | main.py:98-153 | with both verifications off, every counter is 0 except broken links, which counts the URL citations |

## Left out

- Sentence splitting and entity tagging: NLTK's `sent_tokenize`, `pos_tag` and `ne_chunk` are not modelled. The model takes the tagger's output (sentences, each with a has-entity flag) or the tagger's exception as input. The NLTK data downloads are left out as well.
- Network calls: the HTTP requests, the JSON decoding, timeouts, session headers and API keys are not modelled. Each lookup is a function from its key to a found/not-found record. An exception is modelled only where it changes the outcome.
- `VerifyCitations`: the `time.sleep` rate limiting between requests is not modelled, because it is timing only.
- `FirstMatch`: a CrossRef item whose date structure would make indexing raise is not modelled. `str(year)` is taken as a given text.
- `BestMatch`: an author entry without a string name would raise. This is not modelled; authors are given as strings.
- `BestMatch`, `FirstMatch`: a search record that is not a JSON object makes `.get` raise and abandons its step. This is not modelled; search records are objects. Only the DOI lookup's `message` may be a non-object.
- Models: embeddings, the cosine similarity, the DeBERTa tokeniser and the softmax are oracles. The NLI oracle returns the first row of probabilities.
- Floating point: floats are modelled as exact reals, with no rounding.
- Pattern matching covers only the five fixed patterns, hand-modelled. There is no regex engine.
- Case folding: letters and `\d`/`\w` are ASCII. Python's Unicode classes and its IGNORECASE folding of a few non-ASCII letters are not modelled.
- `FactVerifier.ScholarEvidence`: a placeholder in the source that always returns nothing. It is modelled as such.
- Issue details are an issue kind, a subject and the kind's fixed wording. Serialisation produces the exact detail text.
- Detailed results: `matched_paper` and the details dictionary are modelled as datatypes. Not every JSON field of a paper is kept.
- Outside the core: the root and health endpoints, CORS, `app.py`, `run_server.py`, `run_streamlit.py`, `example_usage.py` and `setup.py` have no part in the pipeline. `config.py`'s environment loading and API keys are also left out.
