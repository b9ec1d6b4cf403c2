// Turning arXiv feed entries into paper records (`fetch_arxiv` in backend/mongodb.py,
// ingestpdf.py and ingestion_preprocess_upsert.py), the relevance filter, the tag list
// built from the model's reply, tag expansion, and the rules by which `upload_to_mongo`
// stores or skips a paper. The HTTP fetch, the feed parser, the language model and the
// database are outside the model: their results are inputs.
module Arxiv {
  import opened Wrappers
  import opened Text
  import opened Lists

  /** A link of a feed entry: its `rel`, `type` and `href`. */
  datatype Link = Link(rel: string, linkType: string, href: string)

  /** The parts of a parsed feed entry the scripts read. */
  datatype FeedEntry = FeedEntry(id: string, title: string, summary: string, links: seq<Link>)

  datatype Article = Article(arxivId: string, title: string, abstractText: string, pdfUrl: string)

  const PdfType := "application/pdf"
  const AlternateRel := "alternate"

  // ------------------------------------------------------------------- ids

  /** `entry.id.split("/")[-1].split("v")[0]`. */
  function ArxivId(entryId: string): (r: string)
    ensures '/' !in r && 'v' !in r
  {
    var segments := Split(entryId, '/');
    var last := segments[|segments| - 1];
    assert '/' !in last;
    SplitPieces(last, 'v');
    Split(last, 'v')[0]
  }

  /** The id is the last path segment without its version suffix. */
  lemma ArxivIdOfVersioned(prefix: string, base: string, version: string)
    requires '/' !in base && '/' !in version && 'v' !in base
    ensures ArxivId(prefix + "/" + base + "v" + version) == base
  {
    var tail := base + "v" + version;
    assert prefix + "/" + base + "v" + version == prefix + ['/'] + tail;
    SplitAround(prefix, tail, '/');
    SplitNoSep(tail, '/');
    assert base + "v" + version == base + ['v'] + version;
    SplitAround(base, version, 'v');
    SplitNoSep(base, 'v');
  }

  /** An id without a version keeps its last path segment whole. */
  lemma ArxivIdOfUnversioned(prefix: string, base: string)
    requires '/' !in base && 'v' !in base
    ensures ArxivId(prefix + "/" + base) == base
  {
    assert prefix + "/" + base == prefix + ['/'] + base;
    SplitAround(prefix, base, '/');
    SplitNoSep(base, '/');
    SplitNoSep(base, 'v');
  }

  /** `entry.summary.replace("\n", " ").strip()`. */
  function Abstract(summary: string): (r: string)
    ensures '\n' !in r
    ensures NoOuterSpace(Py, r)
  {
    var flat := ReplaceChar(summary, '\n', ' ');
    TrimSpec(Py, flat);
    TrimSubstring(Py, flat);
    Trim(Py, flat)
  }

  lemma TrimSubstring(f: Flavor, s: string)
    ensures forall c :: c in Trim(f, s) ==> c in s
  {
    TrimSpecRange(f, s);
  }

  lemma TrimSpecRange(f: Flavor, s: string)
    ensures exists i, j :: 0 <= i <= j <= |s| && Trim(f, s) == s[i..j]
  {
    var t := TrimStart(f, s);
    assert t == s[|s| - |t|..];
    var r := TrimEnd(f, t);
    assert r == t[..|r|];
    assert r == s[|s| - |t|..|s| - |t| + |r|];
  }

  // ------------------------------------------------------------- pdf links

  /** A link the loop takes: a PDF, and not an "alternate" one when those are skipped
      (backend/mongodb.py and ingestpdf.py skip them, ingestion_preprocess_upsert.py does not). */
  predicate Takes(l: Link, skipAlternate: bool) {
    !(skipAlternate && l.rel == AlternateRel) && l.linkType == PdfType
  }

  /** The `href` of the first link the loop takes. */
  function PdfUrl(links: seq<Link>, skipAlternate: bool): Option<string> {
    var l := Find(links, (l: Link) => Takes(l, skipAlternate));
    if l.Some? then Some(l.value.href) else None
  }

  /** There is a URL exactly when some link qualifies, and then it is the first such link's. */
  lemma PdfUrlSpec(links: seq<Link>, skipAlternate: bool)
    ensures PdfUrl(links, skipAlternate).None? <==> forall i :: 0 <= i < |links| ==> !Takes(links[i], skipAlternate)
    ensures forall i :: (0 <= i < |links| && Takes(links[i], skipAlternate)
                         && (forall j :: 0 <= j < i ==> !Takes(links[j], skipAlternate))) ==>
              PdfUrl(links, skipAlternate) == Some(links[i].href)
  {
    forall i | 0 <= i < |links| && Takes(links[i], skipAlternate)
                 && (forall j :: 0 <= j < i ==> !Takes(links[j], skipAlternate))
      ensures PdfUrl(links, skipAlternate) == Some(links[i].href)
    {
      FindFirst(links, (l: Link) => Takes(l, skipAlternate), i);
    }
  }

  /** The link loop: `continue` past alternate links (when skipped), `break` at the first PDF. */
  method FindPdfUrl(links: seq<Link>, skipAlternate: bool) returns (pdfUrl: Option<string>)
    ensures pdfUrl == PdfUrl(links, skipAlternate)
  {
    pdfUrl := None;
    var i := 0;
    while i < |links|
      invariant 0 <= i <= |links|
      invariant forall j :: 0 <= j < i ==> !Takes(links[j], skipAlternate)
      invariant pdfUrl == None
    {
      var link := links[i];
      if skipAlternate && link.rel == AlternateRel {
        i := i + 1;
        continue;
      }
      if link.linkType == PdfType {
        pdfUrl := Some(link.href);
        PdfUrlSpec(links, skipAlternate);
        return;
      }
      i := i + 1;
    }
    PdfUrlSpec(links, skipAlternate);
  }

  // ---------------------------------------------------------------- entries

  /** The record an entry gives, if it has a non-empty PDF URL (`if pdf_url:`). */
  function ArticleOf(e: FeedEntry, skipAlternate: bool): Option<Article> {
    var url := PdfUrl(e.links, skipAlternate);
    if url.Some? && url.value != [] then Some(Article(ArxivId(e.id), e.title, Abstract(e.summary), url.value))
    else None
  }

  function ArticlesOf(entries: seq<FeedEntry>, skipAlternate: bool): seq<Article> {
    if entries == [] then []
    else
      var a := ArticleOf(entries[|entries| - 1], skipAlternate);
      ArticlesOf(entries[..|entries| - 1], skipAlternate) + (if a.Some? then [a.value] else [])
  }

  /** Records follow the feed order: the records of two runs of entries are those of the
      first, then those of the second; each entry gives at most one record. */
  lemma {:induction false} ArticlesOfAppend(a: seq<FeedEntry>, b: seq<FeedEntry>, skipAlternate: bool)
    ensures ArticlesOf(a + b, skipAlternate) == ArticlesOf(a, skipAlternate) + ArticlesOf(b, skipAlternate)
    decreases |b|
  {
    if b == [] {
      assert a + b == a;
    } else {
      var init := b[..|b| - 1];
      ArticlesOfAppend(a, init, skipAlternate);
      assert (a + b)[..|a + b| - 1] == a + init;
      assert (a + b)[|a + b| - 1] == b[|b| - 1];
    }
  }

  lemma {:induction false} ArticlesOfBound(entries: seq<FeedEntry>, skipAlternate: bool)
    ensures |ArticlesOf(entries, skipAlternate)| <= |entries|
    ensures forall a :: a in ArticlesOf(entries, skipAlternate) ==>
              exists k :: 0 <= k < |entries| && ArticleOf(entries[k], skipAlternate) == Some(a)
  {
    if entries != [] {
      var init := entries[..|entries| - 1];
      ArticlesOfBound(init, skipAlternate);
      forall a | a in ArticlesOf(entries, skipAlternate)
        ensures exists k :: 0 <= k < |entries| && ArticleOf(entries[k], skipAlternate) == Some(a)
      {
        if a in ArticlesOf(init, skipAlternate) {
          var k :| 0 <= k < |init| && ArticleOf(init[k], skipAlternate) == Some(a);
          assert entries[k] == init[k];
        } else {
          assert ArticleOf(entries[|entries| - 1], skipAlternate) == Some(a);
        }
      }
    }
  }

  /** `fetch_arxiv`'s loop over the parsed entries. */
  method FetchArxiv(entries: seq<FeedEntry>, skipAlternate: bool) returns (articles: seq<Article>)
    ensures articles == ArticlesOf(entries, skipAlternate)
  {
    articles := [];
    for i := 0 to |entries|
      invariant articles == ArticlesOf(entries[..i], skipAlternate)
    {
      var entry := entries[i];
      var title := entry.title;
      var abstractText := Abstract(entry.summary);
      var arxivId := ArxivId(entry.id);
      var pdfUrl := FindPdfUrl(entry.links, skipAlternate);
      assert entries[..i + 1][..i] == entries[..i];
      if pdfUrl.Some? && pdfUrl.value != [] {
        articles := articles + [Article(arxivId, title, abstractText, pdfUrl.value)];
      }
    }
    assert entries[..|entries|] == entries;
  }

  // ------------------------------------------------------------- relevance

  const BadKeywords: seq<string> :=
    ["scientometric", "bibliometric", "patent analysis", "citation", "journal mapping", "publication trends"]

  /** `is_contextual`: none of the keywords occurs in the lower-cased title and abstract. */
  predicate IsContextual(title: string, abstractText: string) {
    var combined := Lower(title + " " + abstractText);
    forall k :: 0 <= k < |BadKeywords| ==> !Contains(combined, BadKeywords[k])
  }

  lemma ContainsExtend(a: string, b: string, sub: string)
    requires Contains(a, sub)
    ensures Contains(a + b, sub) && Contains(b + a, sub)
  {
    ContainsIff(a, sub);
    var i :| OccursAt(a, sub, i);
    assert OccursAt(a + b, sub, i) by {
      assert (a + b)[i..i + |sub|] == a[i..i + |sub|];
    }
    assert OccursAt(b + a, sub, |b| + i) by {
      assert (b + a)[|b| + i..|b| + i + |sub|] == a[i..i + |sub|];
    }
    ContainsIff(a + b, sub);
    ContainsIff(b + a, sub);
  }

  /** The text the keywords are searched in: the lower-cased title, a space, the
      lower-cased abstract. */
  lemma CombinedLower(title: string, abstractText: string)
    ensures Lower(title + " " + abstractText) == Lower(title) + " " + Lower(abstractText)
  {
    LowerAppend(title, " " + abstractText);
    LowerAppend(" ", abstractText);
    assert title + " " + abstractText == title + (" " + abstractText);
    assert Lower(title) + " " + Lower(abstractText) == Lower(title) + (" " + Lower(abstractText));
  }

  /** A keyword in the title or in the abstract, in any case, marks the paper as off-topic. */
  lemma KeywordMarksOffTopic(title: string, abstractText: string, k: int)
    requires 0 <= k < |BadKeywords|
    requires Contains(Lower(title), BadKeywords[k]) || Contains(Lower(abstractText), BadKeywords[k])
    ensures !IsContextual(title, abstractText)
  {
    CombinedLower(title, abstractText);
    var lt, la := Lower(title), Lower(abstractText);
    assert lt + " " + la == lt + (" " + la);
    if Contains(lt, BadKeywords[k]) {
      ContainsExtend(lt, " " + la, BadKeywords[k]);
    } else {
      ContainsExtend(la, lt + " ", BadKeywords[k]);
    }
  }

  /** The relevance test does not depend on case. */
  lemma IsContextualIgnoresCase(title: string, abstractText: string)
    ensures IsContextual(Lower(title), Lower(abstractText)) == IsContextual(title, abstractText)
  {
    CombinedLower(title, abstractText);
    CombinedLower(Lower(title), Lower(abstractText));
    LowerIdempotent(title);
    LowerIdempotent(abstractText);
  }

  // ------------------------------------------------------------------- tags

  /** The stripped, non-empty comma-separated pieces of the model's reply, in order. */
  function Tags(reply: string): (r: seq<string>)
    ensures forall i :: 0 <= i < |r| ==> r[i] != [] && NoOuterSpace(Py, r[i]) && ',' !in r[i]
  {
    var pieces := Split(Trim(Py, reply), ',');
    var stripped := StripAll(pieces);
    StrippedShape(pieces);
    Filter(stripped, (t: string) => t != [])
  }

  /** Each piece with its surrounding whitespace removed. */
  function StripAll(pieces: seq<string>): (r: seq<string>)
    ensures |r| == |pieces|
    ensures forall i :: 0 <= i < |pieces| ==> r[i] == Trim(Py, pieces[i])
  {
    seq(|pieces|, i requires 0 <= i < |pieces| => Trim(Py, pieces[i]))
  }

  lemma StrippedShape(pieces: seq<string>)
    requires forall i :: 0 <= i < |pieces| ==> ',' !in pieces[i]
    ensures forall x :: x in StripAll(pieces) ==> NoOuterSpace(Py, x) && ',' !in x
  {
    var stripped := StripAll(pieces);
    forall x | x in stripped ensures NoOuterSpace(Py, x) && ',' !in x {
      var i :| 0 <= i < |pieces| && stripped[i] == x;
      TrimSpec(Py, pieces[i]);
      TrimSubstring(Py, pieces[i]);
    }
  }

  /** Tags written back as a comma-separated reply are read back as the same tags. */
  lemma TagsOfJoin(tags: seq<string>)
    requires |tags| >= 1
    requires forall i :: 0 <= i < |tags| ==> tags[i] != [] && NoOuterSpace(Py, tags[i]) && ',' !in tags[i]
    ensures Tags(Join(",", tags)) == tags
  {
    var reply := Join(",", tags);
    JoinEnds(tags);
    TrimUnchanged(Py, reply);
    JoinSplit(tags, ',');
    var pieces := Split(Trim(Py, reply), ',');
    assert pieces == tags;
    StripAllUnchanged(tags);
    FilterKeepsAll(tags, (t: string) => t != []);
  }

  lemma StripAllUnchanged(tags: seq<string>)
    requires forall i :: 0 <= i < |tags| ==> NoOuterSpace(Py, tags[i])
    ensures StripAll(tags) == tags
  {
    forall i | 0 <= i < |tags| ensures StripAll(tags)[i] == tags[i] {
      TrimUnchanged(Py, tags[i]);
    }
  }

  /** The joined tags begin with the first tag and end with the last. */
  lemma {:induction false} JoinEnds(tags: seq<string>)
    requires |tags| >= 1
    requires forall i :: 0 <= i < |tags| ==> tags[i] != [] && NoOuterSpace(Py, tags[i])
    ensures NoOuterSpace(Py, Join(",", tags))
    ensures Join(",", tags) != [] && Join(",", tags)[0] == tags[0][0]
    ensures Join(",", tags)[|Join(",", tags)| - 1] == tags[|tags| - 1][|tags[|tags| - 1]| - 1]
  {
    if |tags| > 1 {
      JoinEnds(tags[1..]);
      var rest := Join(",", tags[1..]);
      assert Join(",", tags) == tags[0] + "," + rest;
    }
  }

  const Suffixes: seq<string> := ["", " review", " overview", " introduction", " fundamentals", " basics"]

  /** The six search phrases one tag expands to. */
  function Variants(tag: string): (r: seq<string>)
    ensures |r| == |Suffixes|
    ensures forall j :: 0 <= j < |Suffixes| ==> r[j] == tag + Suffixes[j]
  {
    seq(|Suffixes|, j requires 0 <= j < |Suffixes| => tag + Suffixes[j])
  }

  function Expanded(tags: seq<string>): seq<string> {
    if tags == [] then [] else Expanded(tags[..|tags| - 1]) + Variants(tags[|tags| - 1])
  }

  /** Six phrases per tag, tag by tag in input order: phrase `6*i + j` is tag `i` with
      suffix `j`, the first suffix being empty. */
  lemma {:induction false} ExpandedAt(tags: seq<string>)
    ensures |Expanded(tags)| == 6 * |tags|
    ensures forall i, j :: 0 <= i < |tags| && 0 <= j < 6 ==> Expanded(tags)[6 * i + j] == tags[i] + Suffixes[j]
  {
    if tags != [] {
      var init := tags[..|tags| - 1];
      ExpandedAt(init);
      ExpandedLast(init, tags[|tags| - 1]);
      assert init + [tags[|tags| - 1]] == tags;
    }
  }

  lemma ExpandedLast(init: seq<string>, last: string)
    requires |Expanded(init)| == 6 * |init|
    requires forall i, j :: 0 <= i < |init| && 0 <= j < 6 ==> Expanded(init)[6 * i + j] == init[i] + Suffixes[j]
    ensures |Expanded(init + [last])| == 6 * (|init| + 1)
    ensures forall i, j :: 0 <= i < |init| + 1 && 0 <= j < 6 ==>
              Expanded(init + [last])[6 * i + j] == (init + [last])[i] + Suffixes[j]
  {
    var tags := init + [last];
    assert tags[..|tags| - 1] == init;
    var e, v := Expanded(init), Variants(last);
    assert Expanded(tags) == e + v;
    forall i, j | 0 <= i < |tags| && 0 <= j < 6
      ensures (e + v)[6 * i + j] == tags[i] + Suffixes[j]
    {
      if i < |init| {
        assert (e + v)[6 * i + j] == e[6 * i + j];
      } else {
        assert i == |init| && 6 * i + j == |e| + j;
        assert (e + v)[|e| + j] == v[j];
      }
    }
  }

  /** `expand_tags`: six appends per tag. */
  method ExpandTags(tags: seq<string>) returns (expanded: seq<string>)
    ensures expanded == Expanded(tags)
  {
    expanded := [];
    for i := 0 to |tags|
      invariant expanded == Expanded(tags[..i])
    {
      var tag := tags[i];
      assert tags[..i + 1][..i] == tags[..i];
      expanded := expanded + [tag];
      expanded := expanded + [tag + " review"];
      expanded := expanded + [tag + " overview"];
      expanded := expanded + [tag + " introduction"];
      expanded := expanded + [tag + " fundamentals"];
      expanded := expanded + [tag + " basics"];
      assert tag + "" == tag;
      assert Variants(tag) == [tag, tag + " review", tag + " overview", tag + " introduction", tag + " fundamentals", tag + " basics"];
    }
    assert tags[..|tags|] == tags;
  }

  // ------------------------------------------------------------------ upload

  /** A stored paper document; `pineconeIndexed` is `None` where the script does not
      write that field. */
  datatype PaperDoc = PaperDoc(arxivId: string, title: string, abstractText: string, pdfUrl: string,
                               fileId: string, pineconeIndexed: Option<bool>)

  /** Whether a paper passes the relevance filter of the variant at hand. */
  predicate Relevant(a: Article, filterOffTopic: bool) {
    !filterOffTopic || IsContextual(a.title, a.abstractText)
  }

  /** The document a stored paper gets. */
  function DocOf(a: Article, fileId: string, filterOffTopic: bool): PaperDoc {
    PaperDoc(a.arxivId, a.title, a.abstractText, a.pdfUrl, fileId, if filterOffTopic then Some(false) else None)
  }

  /** `d` is the document some relevant, downloadable article of the run gives. */
  predicate StoredFrom(d: PaperDoc, articles: seq<Article>, store: Article -> Option<string>, filterOffTopic: bool) {
    exists a :: a in articles && Relevant(a, filterOffTopic) && store(a).Some? && d == DocOf(a, store(a).value, filterOffTopic)
  }

  /** `upload_to_mongo`: backend/mongodb.py (`filterOffTopic`) or ingestion_preprocess_upsert.py
      (without it). `known` holds the ids already stored, `store` stands for downloading the
      PDF and saving it, giving the file id or failing. A paper already known, or off-topic
      under the filter, is skipped before any download; a failed download skips the paper;
      every other paper is stored, and backend/mongodb.py marks it as not yet indexed. */
  method UploadToMongo(articles: seq<Article>, known: set<string>, store: Article -> Option<string>, filterOffTopic: bool)
    returns (inserted: seq<PaperDoc>, nowKnown: set<string>)
    ensures nowKnown == known + set d | d in inserted :: d.arxivId
    ensures forall i :: 0 <= i < |inserted| ==>
              inserted[i].arxivId !in known && StoredFrom(inserted[i], articles, store, filterOffTopic)
    ensures forall i, j :: 0 <= i < j < |inserted| ==> inserted[i].arxivId != inserted[j].arxivId
    ensures forall a :: a in articles && a.arxivId !in known && Relevant(a, filterOffTopic) && store(a).Some?
              ==> a.arxivId in nowKnown
  {
    inserted := [];
    nowKnown := known;
    for k := 0 to |articles|
      invariant nowKnown == known + set d | d in inserted :: d.arxivId
      invariant forall i :: 0 <= i < |inserted| ==>
                  inserted[i].arxivId !in known && StoredFrom(inserted[i], articles, store, filterOffTopic)
      invariant forall i, j :: 0 <= i < j < |inserted| ==> inserted[i].arxivId != inserted[j].arxivId
      invariant forall a :: a in articles[..k] && a.arxivId !in known && Relevant(a, filterOffTopic) && store(a).Some?
                  ==> a.arxivId in nowKnown
    {
      var paper := articles[k];
      if paper.arxivId in nowKnown {
        continue;
      }
      if filterOffTopic && !IsContextual(paper.title, paper.abstractText) {
        continue;
      }
      var fileId := store(paper);
      if fileId.None? {
        continue;
      }
      var doc := PaperDoc(paper.arxivId, paper.title, paper.abstractText, paper.pdfUrl, fileId.value,
                          if filterOffTopic then Some(false) else None);
      assert doc == DocOf(paper, fileId.value, filterOffTopic);
      assert StoredFrom(doc, articles, store, filterOffTopic);
      forall i | 0 <= i < |inserted| ensures inserted[i].arxivId != doc.arxivId {
        assert inserted[i].arxivId in nowKnown;
      }
      inserted := inserted + [doc];
      nowKnown := nowKnown + {doc.arxivId};
    }
  }
}
