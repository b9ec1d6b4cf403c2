// Building PubMed paper records (`fetch_pubmed_details` in ingest.py). The HTTP requests,
// the XML parser and the file system are outside the model: the parsed articles and the
// answer to each PDF request are inputs, and writing the file is not modelled.
module Pubmed {
  import opened Wrappers
  import opened Text

  /** An `<Author>` element: what `findtext` gives for its `LastName` and `ForeName`
      children, None when the child is missing. */
  datatype AuthorElem = AuthorElem(lastName: Option<string>, foreName: Option<string>)

  /** An `<ArticleId>` element: its `IdType` attribute and its text, None when it has none. */
  datatype ArticleIdElem = ArticleIdElem(idType: Option<string>, text: Option<string>)

  /** The parts of a `<PubmedArticle>` the loop reads, in document order. */
  datatype PubmedArticle = PubmedArticle(
    articleTitle: Option<string>,
    abstractTexts: seq<Option<string>>,
    authors: seq<AuthorElem>,
    pmid: Option<string>,
    articleIds: seq<ArticleIdElem>)

  /** The answer to the PDF request: a request that raised, or a status code and the
      `Content-Type` header (None when the header is missing, which raises as well). */
  datatype PdfResponse = RequestFailed | Response(status: int, contentType: Option<string>)

  datatype Paper = Paper(pmid: Option<string>, title: string, abstractText: string,
                         authors: seq<string>, pmcid: Option<string>, pdfPath: Option<string>)

  /** `id_elem.text.replace(...)` on a "pmc" id without text raises out of the whole call. */
  datatype PubmedError = PmcIdWithoutText

  const NoTitle := "No title"
  const PdfBase := "https://www.ncbi.nlm.nih.gov/pmc/articles/"
  const PdfType := "application/pdf"
  const SafeTitleLength := 50

  /** Python truthiness of an optional text: present and non-empty. */
  predicate Truthy(t: Option<string>) {
    t.Some? && t.value != []
  }

  function TitleOf(a: PubmedArticle): string {
    a.articleTitle.GetOr(NoTitle)
  }

  // --------------------------------------------------------------- abstract

  /** The texts of the `AbstractText` elements that are truthy, in order. */
  function PresentTexts(texts: seq<Option<string>>): (r: seq<string>)
    ensures |r| <= |texts|
    ensures forall x :: x in r <==> x != [] && Some(x) in texts
  {
    if texts == [] then []
    else
      var init, last := texts[..|texts| - 1], texts[|texts| - 1];
      assert texts == init + [last];
      PresentTexts(init) + (if Truthy(last) then [last.value] else [])
  }

  /** The texts keep document order: one more element adds its text at the end when truthy. */
  lemma PresentTextsSnoc(texts: seq<Option<string>>, t: Option<string>)
    ensures PresentTexts([]) == []
    ensures PresentTexts(texts + [t]) == PresentTexts(texts) + (if Truthy(t) then [t.value] else [])
  {
    assert (texts + [t])[..|texts + [t]| - 1] == texts;
  }

  /** `" ".join(a.text for a in ... if a.text)`. */
  function AbstractOf(texts: seq<Option<string>>): string {
    Join(" ", PresentTexts(texts))
  }

  /** The abstract is empty exactly when no `AbstractText` element has text. */
  lemma AbstractEmpty(texts: seq<Option<string>>)
    ensures AbstractOf(texts) == [] <==> forall i :: 0 <= i < |texts| ==> !Truthy(texts[i])
  {
    var present := PresentTexts(texts);
    if present != [] {
      assert present[0] in present;
      JoinFirst(" ", present);
      var i :| 0 <= i < |texts| && texts[i] == Some(present[0]);
      assert Truthy(texts[i]);
    } else {
      forall i | 0 <= i < |texts| ensures !Truthy(texts[i]) {
        assert texts[i] in texts;
      }
    }
  }

  /** A join of parts starts with the first part. */
  lemma {:induction false} JoinFirst(sep: string, parts: seq<string>)
    requires |parts| >= 1
    ensures StartsWith(Join(sep, parts), parts[0])
  {
    if |parts| > 1 {
      assert Join(sep, parts) == parts[0] + (sep + Join(sep, parts[1..]));
    }
  }

  // ---------------------------------------------------------------- authors

  /** An author the loop keeps: both names present and non-empty. */
  predicate Named(e: AuthorElem) {
    Truthy(e.lastName) && Truthy(e.foreName)
  }

  function AuthorName(e: AuthorElem): string
    requires Named(e)
  {
    e.foreName.value + " " + e.lastName.value
  }

  function AuthorsOf(elems: seq<AuthorElem>): seq<string> {
    if elems == [] then []
    else
      var last := elems[|elems| - 1];
      AuthorsOf(elems[..|elems| - 1]) + (if Named(last) then [AuthorName(last)] else [])
  }

  /** The names are those of the authors with both names, as "ForeName LastName";
      authors missing either name are left out. */
  lemma {:induction false} AuthorsOfSpec(elems: seq<AuthorElem>)
    ensures |AuthorsOf(elems)| <= |elems|
    ensures forall x :: x in AuthorsOf(elems) <==> exists e :: e in elems && Named(e) && x == AuthorName(e)
  {
    if elems != [] {
      var init, last := elems[..|elems| - 1], elems[|elems| - 1];
      AuthorsOfSpec(init);
      assert elems == init + [last];
      assert forall e :: e in elems <==> e in init || e == last;
    }
  }

  /** Document order: the names of a run of authors followed by another run are the first
      run's names followed by the second's. With the one-author case below, this fixes the
      list completely. */
  lemma {:induction false} AuthorsOfAppend(a: seq<AuthorElem>, b: seq<AuthorElem>)
    ensures AuthorsOf(a + b) == AuthorsOf(a) + AuthorsOf(b)
    decreases |b|
  {
    if b == [] {
      assert a + b == a;
    } else {
      var init, last := b[..|b| - 1], b[|b| - 1];
      assert (a + b)[..|a + b| - 1] == a + init;
      assert (a + b)[|a + b| - 1] == last;
      AuthorsOfAppend(a, init);
    }
  }

  /** One author contributes "ForeName LastName" when both names are there, nothing otherwise. */
  lemma AuthorsOfOne(e: AuthorElem)
    ensures AuthorsOf([e]) == if Named(e) then [AuthorName(e)] else []
  {
    assert [e][..0] == [];
  }

  /** The author loop: one name appended per author that has both names. */
  method CollectAuthors(elems: seq<AuthorElem>) returns (authors: seq<string>)
    ensures authors == AuthorsOf(elems)
  {
    authors := [];
    for i := 0 to |elems|
      invariant authors == AuthorsOf(elems[..i])
    {
      var author := elems[i];
      assert elems[..i + 1][..i] == elems[..i];
      if Truthy(author.lastName) && Truthy(author.foreName) {
        authors := authors + [author.foreName.value + " " + author.lastName.value];
      }
    }
    assert elems[..|elems|] == elems;
  }

  // ------------------------------------------------------------------ pmcid

  predicate IsPmc(e: ArticleIdElem) {
    e.idType == Some("pmc")
  }

  /** The pmcid after the loop over the ids: each "pmc" id overwrites it, and one without
      text raises. */
  function PmcIdOf(ids: seq<ArticleIdElem>): Result<Option<string>, PubmedError> {
    if ids == [] then Success(None)
    else
      var before := PmcIdOf(ids[..|ids| - 1]);
      var last := ids[|ids| - 1];
      if before.Failure? || !IsPmc(last) then before
      else if last.text.None? then Failure(PmcIdWithoutText)
      else Success(Some(ReplaceAll(last.text.value, "PMC", "")))
  }

  /** The loop fails exactly when a "pmc" id has no text. */
  lemma {:induction false} PmcIdFails(ids: seq<ArticleIdElem>)
    ensures PmcIdOf(ids).Failure? <==> exists i :: 0 <= i < |ids| && IsPmc(ids[i]) && ids[i].text.None?
  {
    if ids != [] {
      var init := ids[..|ids| - 1];
      PmcIdFails(init);
      assert forall i :: 0 <= i < |init| ==> init[i] == ids[i];
    }
  }

  /** When the loop does not fail, there is no pmcid exactly when no id is "pmc". */
  lemma {:induction false} PmcIdNone(ids: seq<ArticleIdElem>)
    requires PmcIdOf(ids).Success?
    ensures PmcIdOf(ids).value.None? <==> forall i :: 0 <= i < |ids| ==> !IsPmc(ids[i])
  {
    if ids != [] {
      var init, last := ids[..|ids| - 1], ids[|ids| - 1];
      assert forall i :: 0 <= i < |init| ==> init[i] == ids[i];
      if IsPmc(last) {
        assert PmcIdOf(ids).value.Some?;
        assert IsPmc(ids[|ids| - 1]);
      } else {
        PmcIdNone(init);
      }
    }
  }

  /** When the loop does not fail, the last "pmc" id wins, with "PMC" removed from its text. */
  lemma PmcIdLastWins(ids: seq<ArticleIdElem>)
    requires PmcIdOf(ids).Success?
    ensures forall i :: 0 <= i < |ids| && IsPmc(ids[i]) && (forall j :: i < j < |ids| ==> !IsPmc(ids[j])) ==>
              ids[i].text.Some? && PmcIdOf(ids).value == Some(ReplaceAll(ids[i].text.value, "PMC", ""))
  {
    forall i | 0 <= i < |ids| && IsPmc(ids[i]) && (forall j :: i < j < |ids| ==> !IsPmc(ids[j]))
      ensures ids[i].text.Some? && PmcIdOf(ids).value == Some(ReplaceAll(ids[i].text.value, "PMC", ""))
    {
      PmcIdLastAt(ids, i);
    }
  }

  lemma {:induction false} PmcIdLastAt(ids: seq<ArticleIdElem>, i: int)
    requires PmcIdOf(ids).Success?
    requires 0 <= i < |ids| && IsPmc(ids[i]) && forall j :: i < j < |ids| ==> !IsPmc(ids[j])
    ensures ids[i].text.Some? && PmcIdOf(ids).value == Some(ReplaceAll(ids[i].text.value, "PMC", ""))
    decreases |ids|
  {
    var init, last := ids[..|ids| - 1], ids[|ids| - 1];
    if i < |ids| - 1 {
      assert !IsPmc(last);
      assert PmcIdOf(ids) == PmcIdOf(init);
      assert init[i] == ids[i];
      assert forall j :: i < j < |init| ==> init[j] == ids[j];
      PmcIdLastAt(init, i);
    }
  }

  /** The usual "PMC1234567" gives the bare number. */
  lemma PmcPrefixRemoved(digits: string)
    requires forall k :: 0 <= k < |digits| ==> '0' <= digits[k] <= '9'
    ensures ReplaceAll("PMC" + digits, "PMC", "") == digits
  {
    assert StartsWith("PMC" + digits, "PMC");
    assert ("PMC" + digits)[3..] == digits;
    forall i | 0 <= i && i + 3 <= |digits| ensures !OccursAt(digits, "PMC", i) {
      assert digits[i..i + 3][0] == digits[i];
    }
    ContainsIff(digits, "PMC");
    ReplaceAllAbsent(digits, "PMC", "");
  }

  /** The loop over the `ArticleId` elements. */
  method FindPmcId(ids: seq<ArticleIdElem>) returns (r: Result<Option<string>, PubmedError>)
    ensures r == PmcIdOf(ids)
  {
    var pmcid: Option<string> := None;
    for i := 0 to |ids|
      invariant PmcIdOf(ids[..i]) == Success(pmcid)
    {
      var idElem := ids[i];
      assert ids[..i + 1][..i] == ids[..i];
      if idElem.idType == Some("pmc") {
        if idElem.text.None? {
          PmcIdStaysFailed(ids, i + 1);
          return Failure(PmcIdWithoutText);
        }
        pmcid := Some(ReplaceAll(idElem.text.value, "PMC", ""));
      }
    }
    assert ids[..|ids|] == ids;
    r := Success(pmcid);
  }

  /** Once the loop has failed, later ids do not change that. */
  lemma {:induction false} PmcIdStaysFailed(ids: seq<ArticleIdElem>, n: int)
    requires 0 <= n <= |ids| && PmcIdOf(ids[..n]).Failure?
    ensures PmcIdOf(ids) == PmcIdOf(ids[..n])
    decreases |ids| - n
  {
    if n < |ids| {
      assert ids[..n + 1][..n] == ids[..n];
      PmcIdStaysFailed(ids, n + 1);
    } else {
      assert ids[..n] == ids;
    }
  }

  // -------------------------------------------------------------- file name

  /** `title.replace(" ", "_").replace("/", "_")[:50]`. */
  function SafeTitle(title: string): (r: string)
    ensures |r| == if |title| < SafeTitleLength then |title| else SafeTitleLength
    ensures forall k :: 0 <= k < |r| ==> r[k] == if title[k] == ' ' || title[k] == '/' then '_' else title[k]
  {
    Take(ReplaceChar(ReplaceChar(title, ' ', '_'), '/', '_'), SafeTitleLength)
  }

  /** The file stem has no space and no slash, so it never leaves the folder. */
  lemma SafeTitleSafe(title: string)
    ensures ' ' !in SafeTitle(title) && '/' !in SafeTitle(title)
    ensures |SafeTitle(title)| <= SafeTitleLength
  {
    var r := SafeTitle(title);
    forall k | 0 <= k < |r| ensures r[k] != ' ' && r[k] != '/' {
    }
  }

  /** A short title without spaces or slashes is kept as it is, so the rule is idempotent. */
  lemma SafeTitleIdempotent(title: string)
    ensures SafeTitle(SafeTitle(title)) == SafeTitle(title)
  {
    SafeTitleSafe(title);
  }

  /** `os.path.join(folder, name)` for a name that does not start with "/". */
  function PathJoin(folder: string, name: string): (r: string)
    requires name == [] || name[0] != '/'
    ensures StartsWith(r, folder) && EndsWith(r, name)
    ensures |r| <= |folder| + 1 + |name|
  {
    if folder == [] || folder[|folder| - 1] == '/' then folder + name else folder + "/" + name
  }

  function PdfUrlFor(pmcid: string): string {
    PdfBase + "PMC" + pmcid + "/pdf/"
  }

  /** Where the PDF is saved, if it is: only on status 200 with a PDF content type. */
  function PdfPathOf(folder: string, title: string, response: PdfResponse): (r: Option<string>)
    ensures r.Some? <==> response == Response(200, Some(PdfType))
    ensures r.Some? ==> StartsWith(r.value, folder) && EndsWith(r.value, SafeTitle(title) + ".pdf")
  {
    if response.Response? && response.status == 200 && response.contentType == Some(PdfType) then
      SafeTitleSafe(title);
      var name := SafeTitle(title) + ".pdf";
      assert name[0] != '/' by {
        if SafeTitle(title) == [] { assert name[0] == '.'; } else { assert name[0] == SafeTitle(title)[0]; }
      }
      Some(PathJoin(folder, name))
    else None
  }

  // ---------------------------------------------------------------- records

  /** The record one article gives; `fetch` is the answer to the PDF request for a URL. */
  function PaperOf(a: PubmedArticle, folder: string, fetch: string -> PdfResponse): Result<Paper, PubmedError> {
    var pmcid := PmcIdOf(a.articleIds);
    if pmcid.Failure? then Failure(pmcid.error)
    else
      var title := TitleOf(a);
      var pdfPath := if Truthy(pmcid.value) then PdfPathOf(folder, title, fetch(PdfUrlFor(pmcid.value.value))) else None;
      Success(Paper(a.pmid, title, AbstractOf(a.abstractTexts), AuthorsOf(a.authors), pmcid.value, pdfPath))
  }

  /** A record has a PDF path only if a non-empty pmcid was found and its PDF request came
      back 200 as "application/pdf"; the title falls back to "No title". */
  lemma PaperOfSpec(a: PubmedArticle, folder: string, fetch: string -> PdfResponse)
    requires PaperOf(a, folder, fetch).Success?
    ensures var p := PaperOf(a, folder, fetch).value;
      && p.pdfPath.Some? <==> (p.pmcid.Some? && p.pmcid.value != []
                               && fetch(PdfUrlFor(p.pmcid.value)) == Response(200, Some(PdfType)))
    ensures a.articleTitle.None? ==> PaperOf(a, folder, fetch).value.title == NoTitle
    ensures PaperOf(a, folder, fetch).value.pmcid == PmcIdOf(a.articleIds).value
  {
  }

  /** One article's record, as the loop body builds it. */
  method BuildPaper(a: PubmedArticle, folder: string, fetch: string -> PdfResponse) returns (r: Result<Paper, PubmedError>)
    ensures r == PaperOf(a, folder, fetch)
  {
    var title := a.articleTitle.GetOr(NoTitle);
    var abstractText := AbstractOf(a.abstractTexts);
    var authors := CollectAuthors(a.authors);
    var pmcid := FindPmcId(a.articleIds);
    if pmcid.Failure? {
      return Failure(pmcid.error);
    }
    var pdfPath: Option<string> := None;
    if pmcid.value.Some? && pmcid.value.value != [] {
      var response := fetch(PdfUrlFor(pmcid.value.value));
      if response.Response? && response.status == 200 && response.contentType == Some(PdfType) {
        pdfPath := PdfPathOf(folder, title, response);
      }
    }
    r := Success(Paper(a.pmid, title, abstractText, authors, pmcid.value, pdfPath));
  }

  /** The records of all articles, in order, or the first failure. */
  function PapersOf(articles: seq<PubmedArticle>, folder: string, fetch: string -> PdfResponse): Result<seq<Paper>, PubmedError> {
    if articles == [] then Success([])
    else
      var before := PapersOf(articles[..|articles| - 1], folder, fetch);
      var p := PaperOf(articles[|articles| - 1], folder, fetch);
      if before.Failure? then before
      else if p.Failure? then Failure(p.error)
      else Success(before.value + [p.value])
  }

  /** Every article yields exactly one record, in order, whether or not its PDF was saved. */
  lemma {:induction false} PapersOfSpec(articles: seq<PubmedArticle>, folder: string, fetch: string -> PdfResponse)
    ensures PapersOf(articles, folder, fetch).Success? <==>
              forall i :: 0 <= i < |articles| ==> PaperOf(articles[i], folder, fetch).Success?
    ensures PapersOf(articles, folder, fetch).Success? ==>
              |PapersOf(articles, folder, fetch).value| == |articles|
              && forall i :: 0 <= i < |articles| ==>
                   PapersOf(articles, folder, fetch).value[i] == PaperOf(articles[i], folder, fetch).value
  {
    PapersOfSucceeds(articles, folder, fetch);
    if PapersOf(articles, folder, fetch).Success? && articles != [] {
      PapersOfAt(articles, folder, fetch, 0);
      forall i | 0 <= i < |articles|
        ensures PapersOf(articles, folder, fetch).value[i] == PaperOf(articles[i], folder, fetch).value
      {
        PapersOfAt(articles, folder, fetch, i);
      }
    }
  }

  lemma {:induction false} PapersOfSucceeds(articles: seq<PubmedArticle>, folder: string, fetch: string -> PdfResponse)
    ensures PapersOf(articles, folder, fetch).Success? <==>
              forall i :: 0 <= i < |articles| ==> PaperOf(articles[i], folder, fetch).Success?
  {
    if articles != [] {
      var init, last := articles[..|articles| - 1], articles[|articles| - 1];
      PapersOfSucceeds(init, folder, fetch);
      assert forall i :: 0 <= i < |init| ==> init[i] == articles[i];
      if !PaperOf(last, folder, fetch).Success? {
        assert !PaperOf(articles[|articles| - 1], folder, fetch).Success?;
      }
    }
  }

  lemma {:induction false} PapersOfAt(articles: seq<PubmedArticle>, folder: string, fetch: string -> PdfResponse, i: int)
    requires PapersOf(articles, folder, fetch).Success? && 0 <= i < |articles|
    ensures |PapersOf(articles, folder, fetch).value| == |articles|
    ensures PaperOf(articles[i], folder, fetch).Success?
    ensures PapersOf(articles, folder, fetch).value[i] == PaperOf(articles[i], folder, fetch).value
    decreases |articles|
  {
    var init := articles[..|articles| - 1];
    if i < |articles| - 1 {
      PapersOfAt(init, folder, fetch, i);
      assert init[i] == articles[i];
    } else if init != [] {
      PapersOfAt(init, folder, fetch, 0);
    }
  }

  /** `fetch_pubmed_details`' loop over the articles. */
  method FetchPubmedDetails(articles: seq<PubmedArticle>, folder: string, fetch: string -> PdfResponse)
    returns (r: Result<seq<Paper>, PubmedError>)
    ensures r == PapersOf(articles, folder, fetch)
  {
    var papers: seq<Paper> := [];
    for i := 0 to |articles|
      invariant PapersOf(articles[..i], folder, fetch) == Success(papers)
    {
      assert articles[..i + 1][..i] == articles[..i];
      var paper := BuildPaper(articles[i], folder, fetch);
      if paper.Failure? {
        PapersStayFailed(articles, folder, fetch, i + 1);
        return Failure(paper.error);
      }
      papers := papers + [paper.value];
    }
    assert articles[..|articles|] == articles;
    r := Success(papers);
  }

  lemma {:induction false} PapersStayFailed(articles: seq<PubmedArticle>, folder: string, fetch: string -> PdfResponse, n: int)
    requires 0 <= n <= |articles| && PapersOf(articles[..n], folder, fetch).Failure?
    ensures PapersOf(articles, folder, fetch) == PapersOf(articles[..n], folder, fetch)
    decreases |articles| - n
  {
    if n < |articles| {
      assert articles[..n + 1][..n] == articles[..n];
      PapersStayFailed(articles, folder, fetch, n + 1);
    } else {
      assert articles[..n] == articles;
    }
  }
}
