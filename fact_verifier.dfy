/**
 * Fact verification (fact_verifier.py): reducing a claim to a search
 * query, gathering evidence, the NLI contradiction check, the similarity
 * evidence score, the status rules and the batch verifier.
 *
 * Wikipedia, the NLI model and the sentence encoder are oracles in
 * `Models`.  An encoder failure is not caught in the source: it ends the
 * whole verification, so here it is a `Failure` that the callers pass on.
 */
module FactVerifier {
  import opened Wrappers
  import opened Text
  import opened Extractors

  datatype FactStatus = Supported | Contradicted | Weak | NoEvidence | Unknown

  /** An evidence record: `{"source", "title", "text", "url"}`. */
  datatype Evidence = Evidence(source: string, title: string, text: string, url: string)

  datatype FactVerificationResult = FactVerificationResult(
    claim: Claim,
    supported: bool,
    contradiction: bool,
    evidenceScore: real,
    status: FactStatus,
    evidenceSources: seq<Evidence>,
    contradictionDetails: Option<string>)

  /** The page summary endpoint's answer: title, extract and desktop page URL ("" where absent). */
  datatype WikiSummary = WikiSummary(title: string, extract: string, pageUrl: string)

  /** One page of the search endpoint's answer: title, extract and page key ("" where absent). */
  datatype WikiHit = WikiHit(title: string, extract: string, key: string)

  /**
   * The models and services a claim is checked against.  `wikiSummary` and
   * `wikiSearch` are Some when the endpoint answers 200 with a JSON body;
   * `nli` is None when the model failed to load, and a call gives the first
   * row of the softmax probabilities, None when it raises; `encode` gives a
   * sentence embedding or the message of the exception it raised; `cosine`
   * is the cosine similarity of two embeddings.
   */
  datatype Models = Models(
    wikiSummary: string -> Option<WikiSummary>,
    wikiSearch: string -> Option<seq<WikiHit>>,
    nli: Option<(string, string) -> Option<seq<real>>>,
    encode: string -> Result<seq<real>, string>,
    cosine: (seq<real>, seq<real>) -> real)

  // ---------------------------------------------------------------------------
  // Search query

  /** `\b<phrase>\b` (case-insensitive) occurs at `i` of `s`. */
  predicate PhraseAt(s: string, phrase: string, i: nat) {
    && OccursAtIgnoringCase(s, phrase, i)
    && (i == 0 || !IsWordChar(s[i - 1]))
    && (i + |phrase| == |s| || !IsWordChar(s[i + |phrase|]))
  }

  /**
   * `re.sub(r'\b<phrase>\b', '', s[i:], flags=re.IGNORECASE)` seen from
   * position `i` of the original `s`: occurrences are removed left to
   * right, each search resuming after the last removal, and the word
   * boundaries are judged in the original string.
   */
  function RemovePhraseFrom(s: string, phrase: string, i: nat): (r: string)
    requires |phrase| > 0 && i <= |s|
    ensures |r| <= |s| - i
    decreases |s| - i
  {
    if i == |s| then ""
    else if PhraseAt(s, phrase, i) then RemovePhraseFrom(s, phrase, i + |phrase|)
    else [s[i]] + RemovePhraseFrom(s, phrase, i + 1)
  }

  function RemovePhrase(s: string, phrase: string): string
    requires |phrase| > 0
  {
    RemovePhraseFrom(s, phrase, 0)
  }

  /** With no occurrence of the phrase, the text is left as it is. */
  lemma {:induction false} RemovePhraseFromUnchanged(s: string, phrase: string, i: nat)
    requires |phrase| > 0 && i <= |s|
    requires forall j :: i <= j < |s| ==> !PhraseAt(s, phrase, j)
    ensures RemovePhraseFrom(s, phrase, i) == s[i..]
    decreases |s| - i
  {
    if i < |s| {
      RemovePhraseFromUnchanged(s, phrase, i + 1);
      assert s[i..] == [s[i]] + s[i + 1..];
    }
  }

  /**
   * An occurrence is removed: from `i`, the text up to the first occurrence
   * at `j` is kept and the phrase itself is dropped.
   */
  lemma {:induction false} RemovePhraseFromRemoves(s: string, phrase: string, i: nat, j: nat)
    requires |phrase| > 0 && i <= j && j + |phrase| <= |s|
    requires PhraseAt(s, phrase, j)
    requires forall k :: i <= k < j ==> !PhraseAt(s, phrase, k)
    ensures RemovePhraseFrom(s, phrase, i) == s[i..j] + RemovePhraseFrom(s, phrase, j + |phrase|)
    decreases j - i
  {
    if i < j {
      RemovePhraseFromKeeps(s, phrase, i);
      RemovePhraseFromRemoves(s, phrase, i + 1, j);
      assert s[i..j] == [s[i]] + s[i + 1..j];
    }
  }

  /** Where the phrase does not occur, the character is kept. */
  lemma RemovePhraseFromKeeps(s: string, phrase: string, i: nat)
    requires |phrase| > 0 && i < |s|
    requires !PhraseAt(s, phrase, i)
    ensures RemovePhraseFrom(s, phrase, i) == [s[i]] + RemovePhraseFrom(s, phrase, i + 1)
  {
  }

  /** The claim with the three stock phrases removed, in the source's order. */
  function StripStockPhrases(claimText: string): string {
    RemovePhrase(RemovePhrase(RemovePhrase(claimText, "according to"), "research shows"), "studies indicate")
  }

  /** A word worth searching for: longer than 3 characters, or starting with a digit (`re.match(r'\d+', w)`). */
  predicate KeyWord(w: string) {
    |w| > 3 || (|w| > 0 && IsDigit(w[0]))
  }

  function Filter(ws: seq<string>): (r: seq<string>)
    ensures |r| <= |ws|
    ensures forall w :: w in r ==> w in ws && KeyWord(w)
    ensures forall w :: w in ws && KeyWord(w) ==> w in r
    decreases |ws|
  {
    if |ws| == 0 then []
    else if KeyWord(ws[0]) then [ws[0]] + Filter(ws[1..])
    else Filter(ws[1..])
  }

  /** The words the query is made of: the first ten key words of the stripped claim. */
  function KeyWords(claimText: string): seq<string> {
    Take(Filter(Split(StripStockPhrases(claimText))), 10)
  }

  /** `_extract_search_query` */
  function SearchQuery(claimText: string): string {
    Join(KeyWords(claimText))
  }

  /**
   * The query is at most ten blank-free key words joined by blanks, in the
   * order they appear in the stripped claim; splitting it gives exactly
   * those words back.
   */
  lemma SearchQueryMeaning(claimText: string)
    ensures |KeyWords(claimText)| <= 10
    ensures forall w :: w in KeyWords(claimText) ==> IsToken(w) && KeyWord(w)
    ensures KeyWords(claimText) <= Filter(Split(StripStockPhrases(claimText)))
    ensures var keys := Filter(Split(StripStockPhrases(claimText)));
      |KeyWords(claimText)| == if |keys| <= 10 then |keys| else 10
    ensures Split(SearchQuery(claimText)) == KeyWords(claimText)
  {
    var ws := KeyWords(claimText);
    assert forall w :: w in ws ==> w in Filter(Split(StripStockPhrases(claimText)));
    SplitJoin(ws);
  }

  // ---------------------------------------------------------------------------
  // Evidence

  /** `query.replace(" ", "_")` */
  function Underscored(query: string): (r: string)
    ensures |r| == |query|
    ensures forall i :: 0 <= i < |r| ==> r[i] == (if query[i] == ' ' then '_' else query[i])
  {
    seq(|query|, i requires 0 <= i < |query| => if query[i] == ' ' then '_' else query[i])
  }

  function HitEvidence(hit: WikiHit): Evidence {
    Evidence("wikipedia", hit.title, hit.extract, "https://en.wikipedia.org/wiki/" + hit.key)
  }

  /**
   * `_search_wikipedia`: the page summary when there is one, else at most
   * three search hits, else nothing.
   */
  function WikipediaEvidence(m: Models, query: string): (r: seq<Evidence>)
    ensures |r| <= 3
    ensures forall e :: e in r ==> e.source == "wikipedia"
  {
    match m.wikiSummary(Underscored(query))
    case Some(page) => [Evidence("wikipedia", page.title, page.extract, page.pageUrl)]
    case None =>
      match m.wikiSearch(query)
      case Some(hits) =>
        var top := Take(hits, 3);
        seq(|top|, k requires 0 <= k < |top| => HitEvidence(top[k]))
      case None => []
  }

  /** `_search_wikipedia` with its loop over the first three hits. */
  method SearchWikipedia(m: Models, query: string) returns (results: seq<Evidence>)
    ensures results == WikipediaEvidence(m, query)
  {
    var summary := m.wikiSummary(Underscored(query));
    if summary.Some? {
      return [Evidence("wikipedia", summary.value.title, summary.value.extract, summary.value.pageUrl)];
    }
    var search := m.wikiSearch(query);
    if search.None? {
      return [];
    }
    var top := Take(search.value, 3);
    results := [];
    for k := 0 to |top|
      invariant |results| == k
      invariant forall j :: 0 <= j < k ==> results[j] == HitEvidence(top[j])
    {
      results := results + [HitEvidence(top[k])];
    }
  }

  /** `_search_scholar`: a placeholder that finds nothing. */
  function ScholarEvidence(query: string): seq<Evidence> {
    []
  }

  /** `_retrieve_evidence`: Wikipedia's results, then Scholar's, at most five. */
  function RetrievedEvidence(m: Models, claimText: string): seq<Evidence> {
    var query := SearchQuery(claimText);
    Take(WikipediaEvidence(m, query) + ScholarEvidence(query), 5)
  }

  method RetrieveEvidence(m: Models, claimText: string) returns (sources: seq<Evidence>)
    ensures sources == RetrievedEvidence(m, claimText)
  {
    var query := SearchQuery(claimText);
    sources := [];
    var wiki := SearchWikipedia(m, query);
    if |wiki| > 0 {
      sources := sources + wiki;
    }
    var scholar := ScholarEvidence(query);
    if |scholar| > 0 {
      sources := sources + scholar;
    }
    sources := Take(sources, 5);
  }

  /**
   * At most five sources are kept and Wikipedia's come first.  Since
   * Wikipedia gives at most three and Scholar none, the cap never drops a
   * source: the evidence is exactly Wikipedia's.
   */
  lemma EvidenceCap(m: Models, claimText: string)
    ensures |RetrievedEvidence(m, claimText)| <= 5
    ensures WikipediaEvidence(m, SearchQuery(claimText)) <= RetrievedEvidence(m, claimText)
    ensures RetrievedEvidence(m, claimText) == WikipediaEvidence(m, SearchQuery(claimText))
    ensures |RetrievedEvidence(m, claimText)| <= 3
  {
    var wiki := WikipediaEvidence(m, SearchQuery(claimText));
    assert wiki + [] == wiki;
  }

  // ---------------------------------------------------------------------------
  // Contradiction check

  /** The contradiction probability in a row of NLI probabilities: class 2 of three or more, class 1 of two, none otherwise. */
  function ContradictionProbability(probs: seq<real>): Option<real> {
    if |probs| >= 3 then Some(probs[2])
    else if |probs| == 2 then Some(probs[1])
    else None
  }

  /** The NLI model flags a source against the claim (both cut to 256 characters). */
  predicate Contradicts(probs: seq<real>) {
    ContradictionProbability(probs).Some? && ContradictionProbability(probs).value > 0.5
  }

  /**
   * The number of sources with text that the model says contradict the
   * claim, in the loop's order; None when a model call raises (which
   * abandons the whole check).
   */
  function ContradictionCount(nli: (string, string) -> Option<seq<real>>, claimText: string, sources: seq<Evidence>): (r: Option<nat>)
    ensures r.Some? ==> r.value <= |sources|
    decreases |sources|
  {
    if |sources| == 0 then Some(0)
    else
      var source := sources[|sources| - 1];
      match ContradictionCount(nli, claimText, sources[..|sources| - 1])
      case None => None
      case Some(n) =>
        if source.text == "" then Some(n)
        else
          match nli(Take(claimText, 256), Take(source.text, 256))
          case None => None
          case Some(probs) => if Contradicts(probs) then Some(n + 1) else Some(n)
  }

  /** The NLI verdict on one source with text. */
  predicate SourceContradicts(nli: (string, string) -> Option<seq<real>>, claimText: string, source: Evidence) {
    && source.text != ""
    && nli(Take(claimText, 256), Take(source.text, 256)).Some?
    && Contradicts(nli(Take(claimText, 256), Take(source.text, 256)).value)
  }

  /** Some model call on a source with text raises. */
  predicate SomeCallRaises(nli: (string, string) -> Option<seq<real>>, claimText: string, sources: seq<Evidence>) {
    exists k :: 0 <= k < |sources| && sources[k].text != "" && nli(Take(claimText, 256), Take(sources[k].text, 256)).None?
  }

  /** The count is positive exactly when some source with text is flagged, provided no call raises. */
  lemma {:induction false} ContradictionCountMeaning(nli: (string, string) -> Option<seq<real>>, claimText: string, sources: seq<Evidence>)
    ensures ContradictionCount(nli, claimText, sources).None? <==> SomeCallRaises(nli, claimText, sources)
    ensures ContradictionCount(nli, claimText, sources).Some? ==>
      (ContradictionCount(nli, claimText, sources).value > 0 <==>
       exists k :: 0 <= k < |sources| && SourceContradicts(nli, claimText, sources[k]))
    decreases |sources|
  {
    if |sources| > 0 {
      var init := sources[..|sources| - 1];
      ContradictionCountMeaning(nli, claimText, init);
      assert forall k :: 0 <= k < |init| ==> init[k] == sources[k];
      var last := |sources| - 1;
      if SomeCallRaises(nli, claimText, sources) && !SomeCallRaises(nli, claimText, init) {
        var k :| 0 <= k < |sources| && sources[k].text != "" && nli(Take(claimText, 256), Take(sources[k].text, 256)).None?;
        assert k == last;
      }
      if ContradictionCount(nli, claimText, sources).Some? {
        if exists k :: 0 <= k < |sources| && SourceContradicts(nli, claimText, sources[k]) {
          var k :| 0 <= k < |sources| && SourceContradicts(nli, claimText, sources[k]);
          if k < last {
            assert SourceContradicts(nli, claimText, init[k]);
          }
        }
      }
    }
  }

  datatype ContradictionResult = ContradictionResult(hasContradiction: bool, details: Option<string>)

  /** `_check_contradiction` */
  function CheckContradictionSpec(m: Models, claimText: string, sources: seq<Evidence>): ContradictionResult {
    if m.nli.None? || |sources| == 0 then ContradictionResult(false, None)
    else
      match ContradictionCount(m.nli.value, claimText, sources)
      case Some(n) =>
        if n > 0 then ContradictionResult(true, Some("Contradiction found in " + NatToString(n) + " source(s)"))
        else ContradictionResult(false, None)
      case None => ContradictionResult(false, None)
  }

  method CheckContradiction(m: Models, claimText: string, sources: seq<Evidence>) returns (r: ContradictionResult)
    ensures r == CheckContradictionSpec(m, claimText, sources)
  {
    if m.nli.None? || |sources| == 0 {
      return ContradictionResult(false, None);
    }
    var nli := m.nli.value;
    var contradictions: nat := 0;
    for i := 0 to |sources|
      invariant ContradictionCount(nli, claimText, sources[..i]) == Some(contradictions)
    {
      assert sources[..i + 1][..i] == sources[..i];
      var source := sources[i];
      if source.text == "" {
        continue;
      }
      var probs := nli(Take(claimText, 256), Take(source.text, 256));
      if probs.None? {
        ContradictionAbandons(nli, claimText, sources, i + 1);
        return ContradictionResult(false, None);
      }
      if Contradicts(probs.value) {
        contradictions := contradictions + 1;
      }
    }
    assert sources[..|sources|] == sources;
    if contradictions > 0 {
      return ContradictionResult(true, Some("Contradiction found in " + NatToString(contradictions) + " source(s)"));
    }
    return ContradictionResult(false, None);
  }

  lemma {:induction false} ContradictionAbandons(nli: (string, string) -> Option<seq<real>>, claimText: string, sources: seq<Evidence>, i: nat)
    requires i <= |sources|
    requires ContradictionCount(nli, claimText, sources[..i]).None?
    ensures ContradictionCount(nli, claimText, sources).None?
    decreases |sources| - i
  {
    if i < |sources| {
      assert sources[..i + 1][..i] == sources[..i];
      ContradictionAbandons(nli, claimText, sources, i + 1);
    } else {
      assert sources[..i] == sources;
    }
  }

  /**
   * A contradiction is reported exactly when the model is loaded, no call
   * raises, and some source with text is flagged; with no model or no
   * sources there is none.
   */
  lemma ContradictionMeaning(m: Models, claimText: string, sources: seq<Evidence>)
    ensures m.nli.None? || |sources| == 0 ==> !CheckContradictionSpec(m, claimText, sources).hasContradiction
    ensures m.nli.Some? ==>
      (CheckContradictionSpec(m, claimText, sources).hasContradiction <==>
        && !SomeCallRaises(m.nli.value, claimText, sources)
        && exists k :: 0 <= k < |sources| && SourceContradicts(m.nli.value, claimText, sources[k]))
    ensures CheckContradictionSpec(m, claimText, sources).hasContradiction <==> CheckContradictionSpec(m, claimText, sources).details.Some?
  {
    if m.nli.Some? {
      ContradictionCountMeaning(m.nli.value, claimText, sources);
    }
  }

  // ---------------------------------------------------------------------------
  // Evidence score

  function Sum(xs: seq<real>): real
    decreases |xs|
  {
    if |xs| == 0 then 0.0 else Sum(xs[..|xs| - 1]) + xs[|xs| - 1]
  }

  /** `np.max` */
  function Max(xs: seq<real>): (r: real)
    requires |xs| > 0
    ensures r in xs
    ensures forall k :: 0 <= k < |xs| ==> xs[k] <= r
    decreases |xs|
  {
    if |xs| == 1 then xs[0]
    else
      var init := xs[..|xs| - 1];
      var m := Max(init);
      assert forall k :: 0 <= k < |init| ==> init[k] == xs[k];
      if xs[|xs| - 1] > m then xs[|xs| - 1] else m
  }

  function MinOf(xs: seq<real>): (r: real)
    requires |xs| > 0
    ensures r in xs
    ensures forall k :: 0 <= k < |xs| ==> r <= xs[k]
    decreases |xs|
  {
    if |xs| == 1 then xs[0]
    else
      var init := xs[..|xs| - 1];
      var m := MinOf(init);
      assert forall k :: 0 <= k < |init| ==> init[k] == xs[k];
      if xs[|xs| - 1] < m then xs[|xs| - 1] else m
  }

  /** `np.mean` */
  function Mean(xs: seq<real>): real
    requires |xs| > 0
  {
    Sum(xs) / |xs| as real
  }

  lemma {:induction false} SumBounds(xs: seq<real>, lo: real, hi: real)
    requires forall k :: 0 <= k < |xs| ==> lo <= xs[k] <= hi
    ensures |xs| as real * lo <= Sum(xs) <= |xs| as real * hi
    decreases |xs|
  {
    if |xs| > 0 {
      var init := xs[..|xs| - 1];
      assert forall k :: 0 <= k < |init| ==> init[k] == xs[k];
      SumBounds(init, lo, hi);
    }
  }

  /** The mean lies between the least and the greatest value. */
  lemma MeanBounds(xs: seq<real>)
    requires |xs| > 0
    ensures MinOf(xs) <= Mean(xs) <= Max(xs)
  {
    MeanWithin(xs, MinOf(xs), Max(xs));
  }

  lemma MeanWithin(xs: seq<real>, lo: real, hi: real)
    requires |xs| > 0
    requires forall k :: 0 <= k < |xs| ==> lo <= xs[k] <= hi
    ensures lo <= Mean(xs) <= hi
  {
    SumBounds(xs, lo, hi);
    DivideBounds(Sum(xs), |xs| as real, lo, hi);
  }

  lemma DivideBounds(s: real, n: real, lo: real, hi: real)
    requires n > 0.0 && n * lo <= s <= n * hi
    ensures lo <= s / n <= hi
  {
    var q := s / n;
    assert q * n == s;
    assert (q - lo) * n == s - lo * n;
    assert (hi - q) * n == hi * n - s;
  }

  /** The blended score: 60% of the mean similarity and 40% of the best one. */
  function Blend(sims: seq<real>): real
    requires |sims| > 0
  {
    Mean(sims) * 0.6 + Max(sims) * 0.4
  }

  /** The blended score lies between the least and the greatest similarity, and is at least the mean. */
  lemma BlendBounds(sims: seq<real>)
    requires |sims| > 0
    ensures MinOf(sims) <= Mean(sims) <= Blend(sims) <= Max(sims)
  {
    MeanBounds(sims);
  }

  /**
   * The similarities of the claim embedding with each source that has
   * text, in order; the first encoder failure ends the computation.
   */
  function Similarities(m: Models, claimEmbedding: seq<real>, sources: seq<Evidence>): (r: Result<seq<real>, string>)
    ensures r.Success? ==> |r.value| <= |sources|
    decreases |sources|
  {
    if |sources| == 0 then Success([])
    else
      var source := sources[|sources| - 1];
      match Similarities(m, claimEmbedding, sources[..|sources| - 1])
      case Failure(e) => Failure(e)
      case Success(sims) =>
        if source.text == "" then Success(sims)
        else
          match m.encode(source.text)
          case Failure(e) => Failure(e)
          case Success(embedding) => Success(sims + [m.cosine(claimEmbedding, embedding)])
  }

  /** `_calculate_evidence_score` */
  function EvidenceScore(m: Models, claimText: string, sources: seq<Evidence>): Result<real, string> {
    if |sources| == 0 then Success(0.0)
    else
      match m.encode(claimText)
      case Failure(e) => Failure(e)
      case Success(claimEmbedding) =>
        match Similarities(m, claimEmbedding, sources)
        case Failure(e) => Failure(e)
        case Success(sims) => if |sims| == 0 then Success(0.0) else Success(Blend(sims))
  }

  method CalculateEvidenceScore(m: Models, claimText: string, sources: seq<Evidence>) returns (r: Result<real, string>)
    ensures r == EvidenceScore(m, claimText, sources)
  {
    if |sources| == 0 {
      return Success(0.0);
    }
    var claimEmbedding := m.encode(claimText);
    if claimEmbedding.Failure? {
      return Failure(claimEmbedding.error);
    }
    var similarities: seq<real> := [];
    for i := 0 to |sources|
      invariant Similarities(m, claimEmbedding.value, sources[..i]) == Success(similarities)
    {
      assert sources[..i + 1][..i] == sources[..i];
      var evidenceText := sources[i].text;
      if evidenceText != "" {
        var evidenceEmbedding := m.encode(evidenceText);
        if evidenceEmbedding.Failure? {
          SimilaritiesFail(m, claimEmbedding.value, sources, i + 1, evidenceEmbedding.error);
          return Failure(evidenceEmbedding.error);
        }
        similarities := similarities + [m.cosine(claimEmbedding.value, evidenceEmbedding.value)];
      }
    }
    assert sources[..|sources|] == sources;
    if |similarities| == 0 {
      return Success(0.0);
    }
    return Success(Blend(similarities));
  }

  lemma {:induction false} SimilaritiesFail(m: Models, claimEmbedding: seq<real>, sources: seq<Evidence>, i: nat, e: string)
    requires i <= |sources|
    requires Similarities(m, claimEmbedding, sources[..i]) == Failure(e)
    ensures Similarities(m, claimEmbedding, sources) == Failure(e)
    decreases |sources| - i
  {
    if i < |sources| {
      assert sources[..i + 1][..i] == sources[..i];
      SimilaritiesFail(m, claimEmbedding, sources, i + 1, e);
    } else {
      assert sources[..i] == sources;
    }
  }

  /** Sources without text give no similarity and never call the encoder. */
  lemma {:induction false} NoTextNoSimilarities(m: Models, claimEmbedding: seq<real>, sources: seq<Evidence>)
    requires forall k :: 0 <= k < |sources| ==> sources[k].text == ""
    ensures Similarities(m, claimEmbedding, sources) == Success([])
    decreases |sources|
  {
    if |sources| > 0 {
      NoTextNoSimilarities(m, claimEmbedding, sources[..|sources| - 1]);
    }
  }

  /**
   * The score is 0.0 without sources or without a source that has text;
   * otherwise it lies between the least and the greatest similarity.
   */
  lemma EvidenceScoreBounds(m: Models, claimText: string, sources: seq<Evidence>)
    ensures |sources| == 0 ==> EvidenceScore(m, claimText, sources) == Success(0.0)
    ensures |sources| > 0 && m.encode(claimText).Success? && (forall k :: 0 <= k < |sources| ==> sources[k].text == "") ==>
      EvidenceScore(m, claimText, sources) == Success(0.0)
    ensures forall sims, e :: m.encode(claimText) == Success(e) && Similarities(m, e, sources) == Success(sims) && |sims| > 0 && |sources| > 0 ==>
      EvidenceScore(m, claimText, sources) == Success(Blend(sims)) && MinOf(sims) <= Blend(sims) <= Max(sims)
  {
    if m.encode(claimText).Success? && (forall k :: 0 <= k < |sources| ==> sources[k].text == "") {
      NoTextNoSimilarities(m, m.encode(claimText).value, sources);
    }
    forall sims, e | m.encode(claimText) == Success(e) && Similarities(m, e, sources) == Success(sims) && |sims| > 0 && |sources| > 0
      ensures EvidenceScore(m, claimText, sources) == Success(Blend(sims)) && MinOf(sims) <= Blend(sims) <= Max(sims)
    {
      BlendBounds(sims);
    }
  }

  // ---------------------------------------------------------------------------
  // Verdict

  /** The status rule: a contradiction wins; else above 0.7 supported, above 0.4 weak, else no evidence. */
  function StatusFor(contradiction: bool, score: real): FactStatus {
    if contradiction then Contradicted
    else if score > 0.7 then Supported
    else if score > 0.4 then Weak
    else NoEvidence
  }

  lemma StatusRule(contradiction: bool, score: real)
    ensures StatusFor(contradiction, score) == Contradicted <==> contradiction
    ensures StatusFor(contradiction, score) == Supported <==> !contradiction && score > 0.7
    ensures StatusFor(contradiction, score) == Weak <==> !contradiction && 0.4 < score <= 0.7
    ensures StatusFor(contradiction, score) == NoEvidence <==> !contradiction && score <= 0.4
    ensures StatusFor(contradiction, score) != Unknown
  {
  }

  /** `verify_claim` */
  function FactVerdict(m: Models, claim: Claim): Result<FactVerificationResult, string> {
    var sources := RetrievedEvidence(m, claim.text);
    if |sources| == 0 then Success(FactVerificationResult(claim, false, false, 0.0, NoEvidence, [], None))
    else
      var check := CheckContradictionSpec(m, claim.text, sources);
      match EvidenceScore(m, claim.text, sources)
      case Failure(e) => Failure(e)
      case Success(score) =>
        Success(FactVerificationResult(claim, score > 0.5 && !check.hasContradiction, check.hasContradiction, score,
          StatusFor(check.hasContradiction, score), sources, check.details))
  }

  method VerifyClaim(m: Models, claim: Claim) returns (r: Result<FactVerificationResult, string>)
    ensures r == FactVerdict(m, claim)
  {
    var sources := RetrieveEvidence(m, claim.text);
    if |sources| == 0 {
      return Success(FactVerificationResult(claim, false, false, 0.0, NoEvidence, [], None));
    }
    var check := CheckContradiction(m, claim.text, sources);
    var score := CalculateEvidenceScore(m, claim.text, sources);
    if score.Failure? {
      return Failure(score.error);
    }
    var status := StatusFor(check.hasContradiction, score.value);
    return Success(FactVerificationResult(claim, score.value > 0.5 && !check.hasContradiction, check.hasContradiction,
      score.value, status, sources, check.details));
  }

  /**
   * What every fact verdict promises: it is about the claim it was given;
   * "contradicted" is exactly the contradiction flag; "supported" (the
   * flag) needs a score above 0.5 and no contradiction; a verdict is never
   * "unknown"; and without evidence it is "no_evidence" with score 0.0.
   */
  predicate FactConsistent(claim: Claim, r: FactVerificationResult) {
    && r.claim == claim
    && (r.status == Contradicted <==> r.contradiction)
    && (r.supported <==> r.evidenceScore > 0.5 && !r.contradiction)
    && r.status != Unknown
    && (r.status == Supported ==> r.evidenceScore > 0.7)
    && (r.status == Weak ==> 0.4 < r.evidenceScore <= 0.7)
    && (|r.evidenceSources| == 0 ==> r.status == NoEvidence && r.evidenceScore == 0.0 && !r.supported && !r.contradiction)
  }

  lemma FactVerdictConsistent(m: Models, claim: Claim)
    ensures FactVerdict(m, claim).Success? ==> FactConsistent(claim, FactVerdict(m, claim).value)
    ensures FactVerdict(m, claim).Failure? ==> |RetrievedEvidence(m, claim.text)| > 0
  {
    var sources := RetrievedEvidence(m, claim.text);
    if |sources| > 0 {
      var check := CheckContradictionSpec(m, claim.text, sources);
      var score := EvidenceScore(m, claim.text, sources);
      if score.Success? {
        StatusRule(check.hasContradiction, score.value);
      }
    }
  }

  /** `f` applied to each element in order; the first failure ends the whole batch. */
  function MapUntilFailure<A, B>(xs: seq<A>, f: A -> Result<B, string>): Result<seq<B>, string>
    decreases |xs|
  {
    if |xs| == 0 then Success([])
    else
      match MapUntilFailure(xs[..|xs| - 1], f)
      case Failure(e) => Failure(e)
      case Success(ys) =>
        match f(xs[|xs| - 1])
        case Failure(e) => Failure(e)
        case Success(y) => Success(ys + [y])
  }

  /** Once a prefix has failed, the whole batch fails with the same message. */
  lemma {:induction false} MapUntilFailureStops<A, B>(xs: seq<A>, f: A -> Result<B, string>, i: nat, e: string)
    requires i <= |xs|
    requires MapUntilFailure(xs[..i], f) == Failure(e)
    ensures MapUntilFailure(xs, f) == Failure(e)
    decreases |xs| - i
  {
    if i < |xs| {
      assert xs[..i + 1][..i] == xs[..i];
      MapUntilFailureStops(xs, f, i + 1, e);
    } else {
      assert xs[..i] == xs;
    }
  }

  /** A successful batch has one result per element, in order. */
  lemma {:induction false} MapUntilFailureSuccess<A, B>(xs: seq<A>, f: A -> Result<B, string>)
    ensures MapUntilFailure(xs, f).Success? ==>
      && |MapUntilFailure(xs, f).value| == |xs|
      && forall k :: 0 <= k < |xs| ==> f(xs[k]) == Success(MapUntilFailure(xs, f).value[k])
    decreases |xs|
  {
    if |xs| > 0 {
      var init := xs[..|xs| - 1];
      MapUntilFailureSuccess(init, f);
      assert forall k :: 0 <= k < |init| ==> init[k] == xs[k];
    }
  }

  /** A batch fails exactly when some element fails. */
  lemma {:induction false} MapUntilFailureFails<A, B>(xs: seq<A>, f: A -> Result<B, string>)
    ensures MapUntilFailure(xs, f).Failure? <==> exists k :: 0 <= k < |xs| && f(xs[k]).Failure?
    decreases |xs|
  {
    if |xs| > 0 {
      var init := xs[..|xs| - 1];
      MapUntilFailureFails(init, f);
      if exists k :: 0 <= k < |xs| && f(xs[k]).Failure? {
        var k :| 0 <= k < |xs| && f(xs[k]).Failure?;
        if k < |init| {
          assert init[k] == xs[k];
        }
      }
      if exists k :: 0 <= k < |init| && f(init[k]).Failure? {
        var k :| 0 <= k < |init| && f(init[k]).Failure?;
        assert init[k] == xs[k];
      }
    }
  }

  /** `BatchFactVerifier.verify_claims`: the verdicts in claim order; the first failure ends the batch. */
  function FactVerdicts(m: Models, claims: seq<Claim>): Result<seq<FactVerificationResult>, string> {
    MapUntilFailure(claims, (c: Claim) => FactVerdict(m, c))
  }

  method VerifyClaims(m: Models, claims: seq<Claim>) returns (r: Result<seq<FactVerificationResult>, string>)
    ensures r == FactVerdicts(m, claims)
  {
    var verdict := (c: Claim) => FactVerdict(m, c);
    var results: seq<FactVerificationResult> := [];
    for i := 0 to |claims|
      invariant MapUntilFailure(claims[..i], verdict) == Success(results)
    {
      assert claims[..i + 1][..i] == claims[..i];
      var result := VerifyClaim(m, claims[i]);
      if result.Failure? {
        MapUntilFailureStops(claims, verdict, i + 1, result.error);
        return Failure(result.error);
      }
      results := results + [result.value];
    }
    assert claims[..|claims|] == claims;
    return Success(results);
  }

  /** A successful batch has one verdict per claim, in claim order; it fails exactly when the verdict on some claim fails. */
  lemma FactVerdictsPerClaim(m: Models, claims: seq<Claim>)
    ensures FactVerdicts(m, claims).Success? ==>
      && |FactVerdicts(m, claims).value| == |claims|
      && forall k :: 0 <= k < |claims| ==> FactVerdict(m, claims[k]) == Success(FactVerdicts(m, claims).value[k])
    ensures FactVerdicts(m, claims).Failure? <==> exists k :: 0 <= k < |claims| && FactVerdict(m, claims[k]).Failure?
  {
    MapUntilFailureSuccess(claims, (c: Claim) => FactVerdict(m, c));
    MapUntilFailureFails(claims, (c: Claim) => FactVerdict(m, c));
  }
}
