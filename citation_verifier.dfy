/**
 * Citation verification (citation_verifier.py): dispatch on the citation
 * type, the DOI / URL / author-year lookups with their status rules, the
 * keyword-overlap relevance scores, and the batch verifier.
 *
 * Every network call is an oracle in `Lookups`: what CrossRef, Semantic
 * Scholar or the cited web server answer is a parameter, and so is the
 * failure of a call (an exception in the source).
 */
module CitationVerifier {
  import opened Wrappers
  import opened Text
  import opened Extractors

  datatype CitationStatus = Verified | Fake | Irrelevant | Unknown

  /** A string-valued JSON field read with `.get(key, "")`: absent, a string, or another JSON value (null, a list, ...). */
  datatype Field = Missing | Str(value: string) | NotAString

  /**
   * A paper record from CrossRef or Semantic Scholar, reduced to what the
   * verifier reads: title, abstract (`summary`), the year as `str()` prints it, and
   * the authors' names.
   */
  datatype Paper = Paper(title: Field, summary: Field, yearText: string, authorNames: seq<string>)

  /**
   * A JSON value handed to the relevance score as a paper: an object, or
   * any other value (CrossRef's `message` may be null, a list or a string).
   */
  datatype Record = Object(paper: Paper) | NotAnObject

  /** The `details` dictionary of a verification result. */
  datatype Details =
    | ErrorDetail(error: string)
    | SourceDetail(source: string, paper: Record)
    | StatusDetail(statusCode: int, url: string)
    | StatusErrorDetail(statusCode: int, error: string)
    | SkippedDetail(skipped: string)

  datatype CitationVerificationResult = CitationVerificationResult(
    citation: Citation,
    sourceExists: bool,
    accessible: bool,
    relevanceScore: real,
    status: CitationStatus,
    details: Details,
    matchedPaper: Option<Record>)

  /** What a HEAD request on a URL gives: the final status code, or the message of the exception it raised. */
  datatype UrlProbe = Status(code: int) | Raised(message: string)

  /**
   * The outside world the verifier consults.  `crossRefWork(doi)` is Some
   * with the `message` field when CrossRef answers 200 with status "ok"
   * (an object when the field is absent: `{}`); the searches are Some with
   * the returned records when the service answers 200, and None when it
   * does not or the call raises; `fetchPage(url)` is the page text, None
   * when the GET raises.
   */
  datatype Lookups = Lookups(
    crossRefWork: string -> Option<Record>,
    probeUrl: string -> UrlProbe,
    fetchPage: string -> Option<string>,
    scholarSearch: string -> Option<seq<Paper>>,
    crossRefSearch: string -> Option<seq<Paper>>)

  // ---------------------------------------------------------------------------
  // Relevance

  function Min(a: real, b: real): real {
    if a <= b then a else b
  }

  /** `min(1.0, |a ∩ b| / |a|)`: the share of `a`'s words that also occur in `b`. */
  function OverlapRatio(a: set<string>, b: set<string>): real
    requires |a| > 0
  {
    Min(1.0, |a * b| as real / |a| as real)
  }

  /**
   * The ratio lies in [0, 1] without the cap ever applying; it is 1 exactly
   * when every word of `a` occurs in `b`, and 0 exactly when none does.
   */
  lemma OverlapRatioMeaning(a: set<string>, b: set<string>)
    requires |a| > 0
    ensures |a * b| as real / |a| as real <= 1.0
    ensures 0.0 <= OverlapRatio(a, b) <= 1.0
    ensures OverlapRatio(a, b) == 1.0 <==> a <= b
    ensures OverlapRatio(a, b) == 0.0 <==> a * b == {}
  {
    var n := |a * b|;
    assert n + |a - b| == |a| by {
      assert a == (a * b) + (a - b);
      assert (a * b) * (a - b) == {};
    }
    assert (n as real / |a| as real) * (|a| as real) == n as real;
    assert n as real / |a| as real <= 1.0;
    if OverlapRatio(a, b) == 1.0 {
      assert n == |a|;
      assert a - b == {};
      assert forall x :: x in a ==> x in b by {
        forall x | x in a ensures x in b {
          assert x !in a - b;
        }
      }
    }
    if a <= b {
      assert a * b == a;
      assert n as real / |a| as real == 1.0;
    }
    if n == 0 {
      assert a * b == {};
    }
  }

  /** `paper.get(key, "").lower()`: None when the field holds something other than a string, which makes the call raise. */
  function LowerField(f: Field): Option<string> {
    match f
    case Missing => Some("")
    case Str(v) => Some(Lower(v))
    case NotAString => None
  }

  /**
   * The paper text relevance is measured against: for an object, the
   * lower-cased title, a blank, the lower-cased abstract; the empty text
   * for any other value.  None when reading a field raises.
   */
  function PaperText(rec: Record): (r: Option<string>)
    ensures r.Some? ==> (r.value == "" <==> rec == NotAnObject)
    ensures r.None? <==> rec.Object? && (rec.paper.title == NotAString || rec.paper.summary == NotAString)
  {
    match rec
    case NotAnObject => Some("")
    case Object(paper) =>
      match LowerField(paper.title)
      case None => None
      case Some(title) =>
        match LowerField(paper.summary)
        case None => None
        case Some(summary) => Some(title + " " + summary)
  }

  /**
   * `_calculate_relevance`: 0.5 for an empty claim, otherwise the share of
   * the claim's words found in the paper text (0.5 when the claim has no
   * words).  None when reading the title or abstract raises.
   */
  function CalculateRelevance(paper: Record, claimText: string): Option<real> {
    if claimText == "" then Some(0.5)
    else
      var claimWords := WordSet(Lower(claimText));
      match PaperText(paper)
      case None => None
      case Some(paperText) =>
        if paperText == "" then Some(0.3)
        else if |claimWords| == 0 then Some(0.5)
        else Some(OverlapRatio(claimWords, WordSet(paperText)))
  }

  /**
   * What `_calculate_relevance` returns: 0.5 for an empty claim; 0.3 for a
   * value that is not an object; for an object, 0.5 when the claim has no
   * words and otherwise the overlap ratio, which lies in [0, 1].  It raises
   * only on a title or abstract that is not a string.  The fixed 0.3 is
   * never returned for an object, since its text always holds the blank
   * between title and abstract.
   */
  lemma RelevanceMeaning(paper: Record, claimText: string)
    ensures claimText == "" ==> CalculateRelevance(paper, claimText) == Some(0.5)
    ensures CalculateRelevance(paper, claimText).None? <==> claimText != "" && PaperText(paper).None?
    ensures claimText != "" && paper == NotAnObject ==> CalculateRelevance(paper, claimText) == Some(0.3)
    ensures claimText != "" && paper.Object? && PaperText(paper).Some? && |WordSet(Lower(claimText))| == 0
      ==> CalculateRelevance(paper, claimText) == Some(0.5)
    ensures claimText != "" && paper.Object? && PaperText(paper).Some? && |WordSet(Lower(claimText))| > 0
      ==> CalculateRelevance(paper, claimText) == Some(OverlapRatio(WordSet(Lower(claimText)), WordSet(PaperText(paper).value)))
    ensures CalculateRelevance(paper, claimText).Some? ==> 0.0 <= CalculateRelevance(paper, claimText).value <= 1.0
  {
    var claimWords := WordSet(Lower(claimText));
    if claimText != "" && paper.Object? && PaperText(paper).Some? && |claimWords| > 0 {
      OverlapRatioMeaning(claimWords, WordSet(PaperText(paper).value));
    }
  }

  /**
   * `_simple_text_relevance`: the share of the claim's words of four or
   * more characters that occur in the page text; 0.5 when the claim has no
   * such word.
   */
  function SimpleTextRelevance(text: string, claimText: string): (r: real)
    ensures 0.0 <= r <= 1.0
    ensures |LongWordSet(Lower(claimText))| == 0 ==> r == 0.5
    ensures |LongWordSet(Lower(claimText))| > 0 ==>
      (r == 1.0 <==> LongWordSet(Lower(claimText)) <= LongWordSet(Lower(text)))
    ensures |LongWordSet(Lower(claimText))| > 0 ==>
      (r == 0.0 <==> LongWordSet(Lower(claimText)) * LongWordSet(Lower(text)) == {})
  {
    var claimWords := LongWordSet(Lower(claimText));
    var textWords := LongWordSet(Lower(text));
    if |claimWords| == 0 then 0.5
    else
      OverlapRatioMeaning(claimWords, textWords);
      OverlapRatio(claimWords, textWords)
  }

  // ---------------------------------------------------------------------------
  // Results

  function Result(c: Citation, sourceExists: bool, accessible: bool, relevance: real, status: CitationStatus, details: Details): CitationVerificationResult {
    CitationVerificationResult(c, sourceExists, accessible, relevance, status, details, None)
  }

  /** The "verified" or "irrelevant" verdict on a found paper, by a relevance threshold. */
  function Found(c: Citation, relevance: real, threshold: real, source: string, paper: Record): (r: CitationVerificationResult)
    ensures r.citation == c && r.sourceExists && r.accessible && r.relevanceScore == relevance
    ensures r.status == Verified <==> relevance > threshold
    ensures r.status == Irrelevant <==> relevance <= threshold
    ensures r.matchedPaper == Some(paper)
  {
    CitationVerificationResult(c, true, true, relevance, if relevance > threshold then Verified else Irrelevant,
      SourceDetail(source, paper), Some(paper))
  }

  /** `citation.doi or citation.text.replace("doi:", "").strip()` */
  function DoiKey(c: Citation): string {
    if c.doi.Some? && c.doi.value != "" then c.doi.value else Strip(RemoveAll(c.text, "doi:"))
  }

  /** `_verify_doi`: a relevance that raises is caught like a failed lookup. */
  function VerifyDoi(lk: Lookups, c: Citation, claimText: string): CitationVerificationResult {
    var notFound := Result(c, false, false, 0.0, Fake, ErrorDetail("DOI not found in CrossRef"));
    match lk.crossRefWork(DoiKey(c))
    case None => notFound
    case Some(paper) =>
      match CalculateRelevance(paper, claimText)
      case None => notFound
      case Some(relevance) => Found(c, relevance, 0.5, "crossref", paper)
  }

  /** `citation.url or citation.text` */
  function UrlKey(c: Citation): string {
    if c.url.Some? && c.url.value != "" then c.url.value else c.text
  }

  /** `_verify_url` */
  function VerifyUrl(lk: Lookups, c: Citation, claimText: string): CitationVerificationResult {
    var url := UrlKey(c);
    match lk.probeUrl(url)
    case Raised(message) => Result(c, false, false, 0.0, Fake, ErrorDetail(message))
    case Status(code) =>
      if code == 200 then
        var relevance := match lk.fetchPage(url)
          case Some(page) => SimpleTextRelevance(Take(page, 1000), claimText)
          case None => 0.5;
        Result(c, true, true, relevance, if relevance > 0.3 then Verified else Irrelevant, StatusDetail(code, url))
      else Result(c, true, false, 0.0, Fake, StatusErrorDetail(code, "URL not accessible"))
  }

  /** `_verify_ieee` */
  function VerifyIeee(c: Citation): CitationVerificationResult {
    Result(c, false, false, 0.0, Unknown, ErrorDetail("IEEE citations require full reference list for verification"))
  }

  // ---------------------------------------------------------------------------
  // Author-year citations

  /** The best paper found so far, or none. */
  datatype Pick = NoPick | Picked(paper: Paper, relevance: real)

  function PickRelevance(p: Pick): real {
    match p
    case NoPick => 0.0
    case Picked(_, r) => r
  }

  /** Some author of the citation is, case-insensitively, a substring of some name on the paper. */
  predicate AuthorMatch(authors: seq<string>, names: seq<string>) {
    exists i, j | 0 <= i < |names| && 0 <= j < |authors| :: Contains(Lower(names[i]), Lower(authors[j]))
  }

  /** A Semantic Scholar record that may be the cited paper: same year and a matching author. */
  predicate Candidate(paper: Paper, authors: seq<string>, year: string) {
    paper.yearText == year && AuthorMatch(authors, paper.authorNames)
  }

  /**
   * The Semantic Scholar loop over `papers`: among the candidates, the one
   * of highest relevance above 0.0, the first among equals.  None when
   * computing a candidate's relevance raises (which abandons the search).
   */
  function BestMatch(papers: seq<Paper>, authors: seq<string>, year: string, claimText: string): (r: Option<Pick>)
    ensures r.Some? && r.value.Picked? ==>
      && r.value.paper in papers && Candidate(r.value.paper, authors, year)
      && CalculateRelevance(Object(r.value.paper), claimText) == Some(r.value.relevance) && r.value.relevance > 0.0
    ensures r.Some? ==> forall k ::
      (0 <= k < |papers| && Candidate(papers[k], authors, year) && CalculateRelevance(Object(papers[k]), claimText).Some?)
      ==> CalculateRelevance(Object(papers[k]), claimText).value <= PickRelevance(r.value)
    ensures r.Some? <==> forall k ::
      (0 <= k < |papers| && Candidate(papers[k], authors, year)) ==> CalculateRelevance(Object(papers[k]), claimText).Some?
    decreases |papers|
  {
    if |papers| == 0 then Some(NoPick)
    else
      var init := papers[..|papers| - 1];
      var paper := papers[|papers| - 1];
      assert forall k :: 0 <= k < |init| ==> init[k] == papers[k];
      match BestMatch(init, authors, year, claimText)
      case None => None
      case Some(best) =>
        if Candidate(paper, authors, year) then
          match CalculateRelevance(Object(paper), claimText)
          case None => None
          case Some(relevance) =>
            if relevance > PickRelevance(best) then Some(Picked(paper, relevance)) else Some(best)
        else Some(best)
  }

  /** Every item of the year in `items` was looked at without raising and without passing 0.3. */
  predicate PassedOver(items: seq<Paper>, year: string, claimText: string) {
    forall k :: 0 <= k < |items| && items[k].yearText == year ==>
      CalculateRelevance(Object(items[k]), claimText).Some? && CalculateRelevance(Object(items[k]), claimText).value <= 0.3
  }

  /**
   * The CrossRef fallback loop: the first item of the citation's year whose
   * relevance exceeds 0.3.  None when computing a relevance raises first.
   */
  function FirstMatch(items: seq<Paper>, year: string, claimText: string): (r: Option<Pick>)
    ensures r.Some? && r.value.Picked? ==>
      && r.value.paper in items && r.value.paper.yearText == year
      && CalculateRelevance(Object(r.value.paper), claimText) == Some(r.value.relevance) && r.value.relevance > 0.3
    ensures r == Some(NoPick) <==> forall k :: 0 <= k < |items| && items[k].yearText == year ==>
      CalculateRelevance(Object(items[k]), claimText).Some? && CalculateRelevance(Object(items[k]), claimText).value <= 0.3
    decreases |items|
  {
    if |items| == 0 then Some(NoPick)
    else
      var item := items[0];
      assert forall k :: 0 < k < |items| ==> items[k] == items[1..][k - 1];
      if item.yearText == year then
        match CalculateRelevance(Object(item), claimText)
        case None => None
        case Some(relevance) =>
          if relevance > 0.3 then Some(Picked(item, relevance)) else FirstMatch(items[1..], year, claimText)
      else FirstMatch(items[1..], year, claimText)
  }

  /** The search query: first author, a blank, the year. */
  function AuthorYearQuery(authors: seq<string>, year: string): string
    requires |authors| > 0
  {
    authors[0] + " " + year
  }

  function NotFoundInDatabases(c: Citation): CitationVerificationResult {
    Result(c, false, false, 0.0, Fake, ErrorDetail("Citation not found in academic databases"))
  }

  /**
   * What the Semantic Scholar step settles on: the best match among the
   * records found; nothing when the search fails, its loop raises, or no
   * candidate scores above 0.0.
   */
  function ScholarPick(lk: Lookups, authors: seq<string>, year: string, claimText: string): (r: Pick)
    requires |authors| > 0
    ensures r.Picked? ==>
      && lk.scholarSearch(AuthorYearQuery(authors, year)).Some?
      && r.paper in lk.scholarSearch(AuthorYearQuery(authors, year)).value && Candidate(r.paper, authors, year)
      && CalculateRelevance(Object(r.paper), claimText) == Some(r.relevance) && r.relevance > 0.0
  {
    match lk.scholarSearch(AuthorYearQuery(authors, year))
    case None => NoPick
    case Some(papers) => BestMatch(papers, authors, year, claimText).GetOr(NoPick)
  }

  /**
   * What the CrossRef fallback settles on: the first item of the year
   * scoring above 0.3; nothing when the search fails, its loop raises, or
   * no such item exists.
   */
  function CrossRefPick(lk: Lookups, query: string, year: string, claimText: string): (r: Pick)
    ensures r.Picked? ==>
      && lk.crossRefSearch(query).Some? && r.paper in lk.crossRefSearch(query).value && r.paper.yearText == year
      && CalculateRelevance(Object(r.paper), claimText) == Some(r.relevance) && r.relevance > 0.3
  {
    match lk.crossRefSearch(query)
    case None => NoPick
    case Some(items) => FirstMatch(items, year, claimText).GetOr(NoPick)
  }

  /** The CrossRef fallback of `_verify_author_year`. */
  function CrossRefFallback(lk: Lookups, c: Citation, query: string, year: string, claimText: string): CitationVerificationResult {
    match CrossRefPick(lk, query, year, claimText)
    case Picked(item, relevance) => Found(c, relevance, 0.5, "crossref", Object(item))
    case NoPick => NotFoundInDatabases(c)
  }

  /** `_verify_author_year` */
  function VerifyAuthorYear(lk: Lookups, c: Citation, claimText: string): CitationVerificationResult {
    var authors := c.authors.GetOr([]);
    if |authors| == 0 || c.year.None? || c.year.value == "" then
      Result(c, false, false, 0.0, Unknown, ErrorDetail("Missing author or year"))
    else
      var year := c.year.value;
      match ScholarPick(lk, authors, year, claimText)
      case Picked(paper, relevance) => Found(c, relevance, 0.5, "semantic_scholar", Object(paper))
      case NoPick => CrossRefFallback(lk, c, AuthorYearQuery(authors, year), year, claimText)
  }

  /** The Semantic Scholar best-match loop. */
  method FindBestMatch(papers: seq<Paper>, authors: seq<string>, year: string, claimText: string) returns (r: Option<Pick>)
    ensures r == BestMatch(papers, authors, year, claimText)
  {
    var best: Pick := NoPick;
    for i := 0 to |papers|
      invariant BestMatch(papers[..i], authors, year, claimText) == Some(best)
    {
      assert papers[..i + 1][..i] == papers[..i];
      var paper := papers[i];
      if Candidate(paper, authors, year) {
        var relevance := CalculateRelevance(Object(paper), claimText);
        if relevance.None? {
          BestMatchAbandons(papers, i + 1, authors, year, claimText);
          return None;
        }
        if relevance.value > PickRelevance(best) {
          best := Picked(paper, relevance.value);
        }
      }
    }
    assert papers[..|papers|] == papers;
    return Some(best);
  }

  /** The CrossRef first-match loop. */
  method FindFirstMatch(items: seq<Paper>, year: string, claimText: string) returns (r: Option<Pick>)
    ensures r == FirstMatch(items, year, claimText)
  {
    for j := 0 to |items|
      invariant FirstMatch(items, year, claimText) == FirstMatch(items[j..], year, claimText)
    {
      var item := items[j];
      assert items[j..][1..] == items[j + 1..];
      if item.yearText == year {
        var relevance := CalculateRelevance(Object(item), claimText);
        if relevance.None? {
          return None;
        }
        if relevance.value > 0.3 {
          return Some(Picked(item, relevance.value));
        }
      }
    }
    assert items[|items|..] == [];
    return Some(NoPick);
  }

  /** `_verify_author_year` as the source runs it: the best-match loop, then the first-match loop. */
  method VerifyAuthorYearLoops(lk: Lookups, c: Citation, claimText: string) returns (r: CitationVerificationResult)
    ensures r == VerifyAuthorYear(lk, c, claimText)
  {
    var authors := c.authors.GetOr([]);
    if |authors| == 0 || c.year.None? || c.year.value == "" {
      return Result(c, false, false, 0.0, Unknown, ErrorDetail("Missing author or year"));
    }
    var year := c.year.value;
    var query := AuthorYearQuery(authors, year);
    var response := lk.scholarSearch(query);
    if response.Some? {
      var best := FindBestMatch(response.value, authors, year, claimText);
      if best.Some? && best.value.Picked? {
        return Found(c, best.value.relevance, 0.5, "semantic_scholar", Object(best.value.paper));
      }
    }
    var items := lk.crossRefSearch(query);
    if items.Some? {
      var first := FindFirstMatch(items.value, year, claimText);
      if first.Some? && first.value.Picked? {
        return Found(c, first.value.relevance, 0.5, "crossref", Object(first.value.paper));
      }
    }
    return NotFoundInDatabases(c);
  }

  /**
   * The best match is the first among equals: every candidate before it
   * scored strictly less.
   */
  lemma {:induction false} BestMatchFirstAmongEquals(papers: seq<Paper>, authors: seq<string>, year: string, claimText: string)
    ensures var r := BestMatch(papers, authors, year, claimText);
      r.Some? && r.value.Picked? ==>
        exists j :: 0 <= j < |papers| && papers[j] == r.value.paper && ScoredBelow(papers[..j], authors, year, claimText, r.value.relevance)
    decreases |papers|
  {
    var r := BestMatch(papers, authors, year, claimText);
    if |papers| > 0 && r.Some? && r.value.Picked? {
      var init := papers[..|papers| - 1];
      var paper := papers[|papers| - 1];
      var best := BestMatch(init, authors, year, claimText);
      assert init == papers[..|papers| - 1];
      if r.value == Picked(paper, r.value.relevance) && (best.Some? && r.value.relevance > PickRelevance(best.value)) {
        assert ScoredBelow(papers[..|papers| - 1], authors, year, claimText, r.value.relevance);
      } else {
        assert r == best;
        BestMatchFirstAmongEquals(init, authors, year, claimText);
        var j :| 0 <= j < |init| && init[j] == r.value.paper && ScoredBelow(init[..j], authors, year, claimText, r.value.relevance);
        assert init[..j] == papers[..j];
      }
    }
  }

  /** Every candidate in `papers` whose relevance could be computed scored below `relevance`. */
  predicate ScoredBelow(papers: seq<Paper>, authors: seq<string>, year: string, claimText: string, relevance: real) {
    forall k :: 0 <= k < |papers| && Candidate(papers[k], authors, year) && CalculateRelevance(Object(papers[k]), claimText).Some?
      ==> CalculateRelevance(Object(papers[k]), claimText).value < relevance
  }

  /**
   * The first-match loop picks the first item of the year that scores
   * above 0.3: every item of the year before it was passed over.
   */
  lemma {:induction false} FirstMatchIsFirst(items: seq<Paper>, year: string, claimText: string)
    ensures var r := FirstMatch(items, year, claimText);
      r.Some? && r.value.Picked? ==> exists j :: 0 <= j < |items| && items[j] == r.value.paper && PassedOver(items[..j], year, claimText)
    decreases |items|
  {
    var r := FirstMatch(items, year, claimText);
    if |items| > 0 && r.Some? && r.value.Picked? {
      var item := items[0];
      if item.yearText == year && CalculateRelevance(Object(item), claimText).Some? && CalculateRelevance(Object(item), claimText).value > 0.3 {
        assert items[..0] == [];
      } else {
        var tail := items[1..];
        assert r == FirstMatch(tail, year, claimText);
        FirstMatchIsFirst(tail, year, claimText);
        var j :| 0 <= j < |tail| && tail[j] == r.value.paper && PassedOver(tail[..j], year, claimText);
        PassedOverCons(items, j, year, claimText);
      }
    }
  }

  /**
   * The first-match loop gives up at the first item of the year whose
   * relevance raises: every item of the year before it was passed over.
   */
  lemma {:induction false} FirstMatchRaisesFirst(items: seq<Paper>, year: string, claimText: string)
    ensures FirstMatch(items, year, claimText).None? ==>
      exists j :: 0 <= j < |items| && Raises(items[j], year, claimText) && PassedOver(items[..j], year, claimText)
    decreases |items|
  {
    if |items| > 0 && FirstMatch(items, year, claimText).None? {
      var item := items[0];
      if Raises(item, year, claimText) {
        assert items[..0] == [];
      } else {
        var tail := items[1..];
        assert FirstMatch(items, year, claimText) == FirstMatch(tail, year, claimText);
        FirstMatchRaisesFirst(tail, year, claimText);
        var j :| 0 <= j < |tail| && Raises(tail[j], year, claimText) && PassedOver(tail[..j], year, claimText);
        PassedOverCons(items, j, year, claimText);
      }
    }
  }

  /** Passing over the first item and then `j` more items is passing over `j + 1` items. */
  lemma PassedOverCons(items: seq<Paper>, j: nat, year: string, claimText: string)
    requires j < |items| - 1
    requires items[0].yearText == year ==>
      CalculateRelevance(Object(items[0]), claimText).Some? && CalculateRelevance(Object(items[0]), claimText).value <= 0.3
    requires PassedOver(items[1..][..j], year, claimText)
    ensures PassedOver(items[..j + 1], year, claimText)
    ensures items[j + 1] == items[1..][j]
  {
    assert items[..j + 1] == [items[0]] + items[1..][..j];
  }

  /** An item of the year whose relevance raises. */
  predicate Raises(item: Paper, year: string, claimText: string) {
    item.yearText == year && CalculateRelevance(Object(item), claimText).None?
  }

  /** Once the best-match loop has raised on some prefix, the whole search is abandoned. */
  lemma {:induction false} BestMatchAbandons(papers: seq<Paper>, i: nat, authors: seq<string>, year: string, claimText: string)
    requires i <= |papers|
    requires BestMatch(papers[..i], authors, year, claimText).None?
    ensures BestMatch(papers, authors, year, claimText).None?
    decreases |papers| - i
  {
    if i < |papers| {
      assert papers[..i + 1][..i] == papers[..i];
      BestMatchAbandons(papers, i + 1, authors, year, claimText);
    } else {
      assert papers[..i] == papers;
    }
  }

  // ---------------------------------------------------------------------------
  // Dispatch and batch

  /** `verify_citation`: the verdict on one citation, chosen by its type tag. */
  function Verdict(lk: Lookups, c: Citation, claimText: string): CitationVerificationResult {
    match c.citationType
    case Doi => VerifyDoi(lk, c, claimText)
    case Url => VerifyUrl(lk, c, claimText)
    case Apa => VerifyAuthorYear(lk, c, claimText)
    case Mla => VerifyAuthorYear(lk, c, claimText)
    case Ieee => VerifyIeee(c)
    case OtherType(_) => Result(c, false, false, 0.0, Unknown, ErrorDetail("Unknown citation type"))
  }

  method VerifyCitation(lk: Lookups, c: Citation, claimText: string) returns (r: CitationVerificationResult)
    ensures r == Verdict(lk, c, claimText)
  {
    match c.citationType {
      case Doi => r := VerifyDoi(lk, c, claimText);
      case Url => r := VerifyUrl(lk, c, claimText);
      case Apa => r := VerifyAuthorYearLoops(lk, c, claimText);
      case Mla => r := VerifyAuthorYearLoops(lk, c, claimText);
      case Ieee => r := VerifyIeee(c);
      case OtherType(_) => r := Result(c, false, false, 0.0, Unknown, ErrorDetail("Unknown citation type"));
    }
  }

  /** `claim_texts.get(text, "")` */
  function ClaimTextFor(claimTexts: map<string, string>, text: string): string {
    if text in claimTexts then claimTexts[text] else ""
  }

  /** `BatchCitationVerifier.verify_citations`: one verdict per citation, in order. */
  method VerifyCitations(lk: Lookups, citations: seq<Citation>, claimTexts: map<string, string>) returns (results: seq<CitationVerificationResult>)
    ensures |results| == |citations|
    ensures forall k :: 0 <= k < |citations| ==>
      results[k] == Verdict(lk, citations[k], ClaimTextFor(claimTexts, citations[k].text))
  {
    results := [];
    for i := 0 to |citations|
      invariant |results| == i
      invariant forall k :: 0 <= k < i ==> results[k] == Verdict(lk, citations[k], ClaimTextFor(claimTexts, citations[k].text))
    {
      var claimText := ClaimTextFor(claimTexts, citations[i].text);
      var result := VerifyCitation(lk, citations[i], claimText);
      results := results + [result];
    }
  }

  // ---------------------------------------------------------------------------
  // Properties of the verdicts

  /**
   * What every verdict promises, whatever the lookups answer: it is about
   * the citation it was given; "unknown" means nothing was found or
   * reached; "verified" and "irrelevant" mean the source was found and
   * reachable; "fake" means it is not reachable; and the relevance is a
   * score in [0, 1].
   */
  predicate Consistent(c: Citation, r: CitationVerificationResult) {
    && r.citation == c
    && (r.status == Unknown ==> !r.sourceExists && !r.accessible && r.relevanceScore == 0.0)
    && (r.status in {Verified, Irrelevant} ==> r.sourceExists && r.accessible)
    && (r.status == Fake ==> !r.accessible && r.relevanceScore == 0.0)
    && 0.0 <= r.relevanceScore <= 1.0
  }

  lemma VerdictConsistent(lk: Lookups, c: Citation, claimText: string)
    ensures Consistent(c, Verdict(lk, c, claimText))
  {
    match c.citationType
    case Doi =>
      var w := lk.crossRefWork(DoiKey(c));
      if w.Some? {
        RelevanceMeaning(w.value, claimText);
      }
    case Url =>
    case Apa => AuthorYearConsistent(lk, c, claimText);
    case Mla => AuthorYearConsistent(lk, c, claimText);
    case Ieee =>
    case OtherType(_) =>
  }

  lemma AuthorYearConsistent(lk: Lookups, c: Citation, claimText: string)
    ensures Consistent(c, VerifyAuthorYear(lk, c, claimText))
  {
    var authors := c.authors.GetOr([]);
    if |authors| > 0 && c.year.Some? && c.year.value != "" {
      var year := c.year.value;
      CrossRefFallbackConsistent(lk, c, AuthorYearQuery(authors, year), year, claimText);
      var pick := ScholarPick(lk, authors, year, claimText);
      if pick.Picked? {
        RelevanceMeaning(Object(pick.paper), claimText);
      }
    }
  }

  lemma CrossRefFallbackConsistent(lk: Lookups, c: Citation, query: string, year: string, claimText: string)
    ensures Consistent(c, CrossRefFallback(lk, c, query, year, claimText))
  {
    var pick := CrossRefPick(lk, query, year, claimText);
    if pick.Picked? {
      RelevanceMeaning(Object(pick.paper), claimText);
    }
  }

  /** The verdict on a picked record: found and reached, with its relevance, "verified" iff that exceeds 0.5, else "irrelevant". */
  predicate FoundWith(r: CitationVerificationResult, pick: Pick) {
    && pick.Picked?
    && r.sourceExists && r.accessible && r.relevanceScore == pick.relevance
    && (r.status == Verified <==> pick.relevance > 0.5)
    && (r.status == Irrelevant <==> pick.relevance <= 0.5)
    && r.matchedPaper == Some(Object(pick.paper))
  }

  /**
   * The author-year rule for a citation with authors and a year: the
   * Semantic Scholar pick decides when there is one, else the CrossRef
   * pick; a pick is "verified" iff its relevance exceeds 0.5, else
   * "irrelevant"; with no pick from either, the citation is "fake", does
   * not exist and has relevance 0.0.
   */
  lemma AuthorYearRule(lk: Lookups, c: Citation, claimText: string)
    requires c.citationType == Apa || c.citationType == Mla
    requires |c.authors.GetOr([])| > 0 && c.year.Some? && c.year.value != ""
    ensures var authors := c.authors.GetOr([]);
      var year := c.year.value;
      var scholar := ScholarPick(lk, authors, year, claimText);
      var crossRef := CrossRefPick(lk, AuthorYearQuery(authors, year), year, claimText);
      var r := Verdict(lk, c, claimText);
      && r.citation == c
      && (scholar.Picked? ==> FoundWith(r, scholar))
      && (scholar == NoPick && crossRef.Picked? ==> FoundWith(r, crossRef))
      && (scholar == NoPick && crossRef == NoPick ==>
            r.status == Fake && !r.sourceExists && !r.accessible && r.relevanceScore == 0.0)
  {
  }

  /** IEEE citations and unknown tags are never looked up: "unknown", not found, not reached, relevance 0. */
  lemma UnverifiableTypes(lk: Lookups, c: Citation, claimText: string)
    requires c.citationType == Ieee || c.citationType.OtherType?
    ensures var r := Verdict(lk, c, claimText);
      r.status == Unknown && !r.sourceExists && !r.accessible && r.relevanceScore == 0.0
  {
  }

  /** An author-year citation without authors or year is "unknown", whatever the databases hold. */
  lemma MissingAuthorOrYear(lk1: Lookups, lk2: Lookups, c: Citation, claimText: string)
    requires c.citationType in {Apa, Mla}
    requires c.authors.GetOr([]) == [] || c.year.GetOr("") == ""
    ensures Verdict(lk1, c, claimText) == Verdict(lk2, c, claimText)
    ensures Verdict(lk1, c, claimText).status == Unknown
  {
  }

  /**
   * The DOI rule: a work CrossRef returns is "verified" iff its relevance
   * exceeds 0.5, else "irrelevant" (so a message that is not an object is
   * "irrelevant" with relevance 0.3 for a non-empty claim); a DOI CrossRef
   * does not return, or a work whose title or abstract raises, is "fake"
   * and does not exist.
   */
  lemma DoiRule(lk: Lookups, c: Citation, claimText: string)
    requires c.citationType == Doi
    ensures var r := Verdict(lk, c, claimText);
      && (lk.crossRefWork(DoiKey(c)).None? ==> r.status == Fake && !r.sourceExists && !r.accessible && r.relevanceScore == 0.0)
      && (forall paper :: lk.crossRefWork(DoiKey(c)) == Some(paper) && CalculateRelevance(paper, claimText).None? ==>
            r.status == Fake && !r.sourceExists && !r.accessible && r.relevanceScore == 0.0)
      && (lk.crossRefWork(DoiKey(c)) == Some(NotAnObject) && claimText != "" ==>
            r.status == Irrelevant && r.sourceExists && r.accessible && r.relevanceScore == 0.3)
      && (forall paper, rel :: lk.crossRefWork(DoiKey(c)) == Some(paper) && CalculateRelevance(paper, claimText) == Some(rel) ==>
            r.sourceExists && r.accessible && r.relevanceScore == rel && (r.status == Verified <==> rel > 0.5)
            && (r.status == Irrelevant <==> rel <= 0.5))
  {
  }

  /**
   * The URL rule: a page answering 200 is "verified" iff its relevance
   * exceeds 0.3; any other status is "fake" but exists; a request that
   * raises is "fake" and does not exist.
   */
  lemma UrlRule(lk: Lookups, c: Citation, claimText: string)
    requires c.citationType == Url
    ensures var r := Verdict(lk, c, claimText);
      && (lk.probeUrl(UrlKey(c)) == Status(200) ==> r.sourceExists && r.accessible && (r.status == Verified <==> r.relevanceScore > 0.3))
      && (lk.probeUrl(UrlKey(c)) == Status(200) && lk.fetchPage(UrlKey(c)).None? ==> r.relevanceScore == 0.5 && r.status == Verified)
      && (lk.probeUrl(UrlKey(c)).Status? && lk.probeUrl(UrlKey(c)).code != 200 ==> r.sourceExists && !r.accessible && r.status == Fake)
      && (lk.probeUrl(UrlKey(c)).Raised? ==> !r.sourceExists && !r.accessible && r.status == Fake)
  {
  }
}
