// The text handling of the retrieval pipeline (backend/rag_pipeline.py): `clean_chunk`,
// the assembly of the context from the retrieved matches, the cap on the tags handed to
// background ingestion, and the routing of console input. The vector search, the
// language model and the image captioner are outside the model.
module Rag {
  import opened Wrappers
  import opened Text
  import opened Lists
  import Arxiv

  /** No two white-space characters in a row. */
  predicate NoDoubleSpace(s: string) {
    forall i :: 0 <= i < |s| - 1 ==> !(IsPySpace(s[i]) && IsPySpace(s[i + 1]))
  }

  /** Every white-space character is a plain blank. */
  predicate BlanksOnly(s: string) {
    forall i :: 0 <= i < |s| && IsPySpace(s[i]) ==> s[i] == ' '
  }

  // ------------------------------------------------------------------ URLs

  /** Length of the run of non-space characters at the start of `s`. */
  function NonSpaceRun(s: string): (n: nat)
    ensures n <= |s|
    ensures forall k :: 0 <= k < n ==> !IsPySpace(s[k])
    ensures n == |s| || IsPySpace(s[n])
  {
    if s == [] || IsPySpace(s[0]) then 0 else 1 + NonSpaceRun(s[1..])
  }

  /** `https?://\S+` can match at the start of `s`: "http", an optional "s", "://" and at
      least one character that is not white space. */
  predicate UrlAt(s: string) {
    |s| > 7 && s[0] == 'h' && s[1] == 't' && s[2] == 't' && s[3] == 'p'
    && ((s[4] == ':' && s[5] == '/' && s[6] == '/' && !IsPySpace(s[7]))
        || (|s| > 8 && s[4] == 's' && s[5] == ':' && s[6] == '/' && s[7] == '/' && !IsPySpace(s[8])))
  }

  /** Length of the `https?://\S+` match at the start of `s` (the scheme, then every
      character up to the next white space), 0 when there is none. */
  function UrlMatch(s: string): (n: nat)
    ensures n <= |s|
    ensures n > 0 <==> UrlAt(s)
    ensures n > 0 ==> n == |s| || IsPySpace(s[n])
  {
    if UrlAt(s) then
      var p := if s[4] == 's' then 8 else 7;
      p + NonSpaceRun(s[p..])
    else 0
  }

  /** `re.sub(r'https?://\S+', '', s)`: matches are removed left to right. */
  function RemoveUrls(s: string): (r: string)
    ensures |r| <= |s|
    decreases |s|
  {
    if s == [] then []
    else
      var m := UrlMatch(s);
      if m > 0 then RemoveUrls(s[m..]) else [s[0]] + RemoveUrls(s[1..])
  }

  /** Text that starts with white space (or is empty) still does after the removal. */
  lemma RemoveUrlsFromSpace(s: string)
    requires s == [] || IsPySpace(s[0])
    ensures RemoveUrls(s) == [] || IsPySpace(RemoveUrls(s)[0])
  {
  }

  /** A character where no URL starts is kept. */
  lemma RemoveUrlsKeep(s: string)
    requires s != [] && !UrlAt(s)
    ensures RemoveUrls(s) == [s[0]] + RemoveUrls(s[1..])
  {
  }

  /** A URL found at the start is dropped whole. */
  lemma RemoveUrlsDrop(s: string)
    requires UrlAt(s)
    ensures RemoveUrls(s) == RemoveUrls(s[UrlMatch(s)..])
  {
  }

  /** Up to its first white space, the result agrees with the input. */
  lemma {:induction false} RemoveUrlsKeepsHead(s: string, k: nat)
    requires k <= |RemoveUrls(s)|
    requires forall j :: 0 <= j < k ==> !IsPySpace(RemoveUrls(s)[j])
    ensures k <= |s| && RemoveUrls(s)[..k] == s[..k]
    decreases |s|
  {
    if s != [] {
      if UrlAt(s) {
        RemoveUrlsDrop(s);
        RemoveUrlsFromSpace(s[UrlMatch(s)..]);
      } else if k > 0 {
        RemoveUrlsKeep(s);
        var rest := RemoveUrls(s[1..]);
        assert forall j :: 0 <= j < k - 1 ==> rest[j] == RemoveUrls(s)[j + 1];
        RemoveUrlsKeepsHead(s[1..], k - 1);
        HeadStep(s, rest, k);
      }
    }
  }

  lemma HeadStep(s: string, rest: string, k: nat)
    requires 0 < k <= |s| && k - 1 <= |rest| && rest[..k - 1] == s[1..][..k - 1]
    ensures ([s[0]] + rest)[..k] == s[..k]
  {
    assert ([s[0]] + rest)[..k] == [s[0]] + rest[..k - 1];
    assert s[..k] == [s[0]] + s[1..][..k - 1];
  }

  /** No URL is left after the removal: a match never leaves the pieces around it
      forming a new one, because a match runs up to white space. */
  lemma {:induction false} RemoveUrlsComplete(s: string)
    ensures forall i :: 0 <= i <= |RemoveUrls(s)| ==> !UrlAt(RemoveUrls(s)[i..])
    decreases |s|
  {
    if s != [] {
      if UrlAt(s) {
        RemoveUrlsDrop(s);
        RemoveUrlsComplete(s[UrlMatch(s)..]);
      } else {
        RemoveUrlsKeep(s);
        var r, rest := RemoveUrls(s), RemoveUrls(s[1..]);
        RemoveUrlsComplete(s[1..]);
        forall i | 1 <= i <= |r| ensures !UrlAt(r[i..]) {
          assert r[i..] == rest[i - 1..];
        }
        NoUrlAtHead(s);
      }
    }
  }

  lemma NoUrlAtHead(s: string)
    requires s != [] && !UrlAt(s)
    ensures !UrlAt(RemoveUrls(s))
  {
    var r := RemoveUrls(s);
    if UrlAt(r) {
      var k := if r[4] == 's' then 9 else 8;
      RemoveUrlsKeepsHead(s, k);
    }
  }

  /** Text in which no URL starts anywhere is left as it is. */
  lemma {:induction false} RemoveUrlsAbsent(s: string)
    requires forall i :: 0 <= i <= |s| ==> !UrlAt(s[i..])
    ensures RemoveUrls(s) == s
    decreases |s|
  {
    if s != [] {
      assert !UrlAt(s[0..]) && s[0..] == s;
      forall i | 0 <= i <= |s[1..]| ensures !UrlAt(s[1..][i..]) {
        assert s[1..][i..] == s[i + 1..];
      }
      RemoveUrlsAbsent(s[1..]);
    }
  }

  // ------------------------------------------------------------- citations

  predicate IsDigit(c: char) {
    '0' <= c <= '9'
  }

  /** Number of digits from position `i` on. */
  function DigitRun(s: string, i: nat): (n: nat)
    requires i <= |s|
    ensures i + n <= |s|
    ensures forall k :: i <= k < i + n ==> IsDigit(s[k])
    ensures i + n == |s| || !IsDigit(s[i + n])
    decreases |s| - i
  {
    if i == |s| || !IsDigit(s[i]) then 0 else 1 + DigitRun(s, i + 1)
  }

  /** Number of white-space characters from position `i` on. */
  function SpaceRun(s: string, i: nat): (n: nat)
    requires i <= |s|
    ensures i + n <= |s|
    ensures forall k :: i <= k < i + n ==> IsPySpace(s[k])
    ensures i + n == |s| || !IsPySpace(s[i + n])
    decreases |s| - i
  {
    if i == |s| || !IsPySpace(s[i]) then 0 else 1 + SpaceRun(s, i + 1)
  }

  /** Where a match of `\d+(,\s*\d+)*\]` starting at `i` ends. The pattern leaves no
      choice: each run of digits or blanks is taken whole, since what must follow it
      (a comma, a bracket, a digit) cannot be one of its own characters. */
  function CitationEnd(s: string, i: nat): (e: Option<nat>)
    requires i <= |s|
    ensures e.Some? ==> i < e.value <= |s|
    decreases |s| - i
  {
    var d := DigitRun(s, i);
    if d == 0 then None
    else
      var j := i + d;
      if j < |s| && s[j] == ']' then Some(j + 1)
      else if j < |s| && s[j] == ',' then CitationEnd(s, j + 1 + SpaceRun(s, j + 1))
      else None
  }

  /** Length of the citation `\[\d+(,\s*\d+)*\]` at the start of `s`, 0 when there is none. */
  function CitationMatch(s: string): (n: nat)
    ensures n <= |s|
    ensures n > 0 ==> s[0] == '['
  {
    if |s| > 0 && s[0] == '[' then
      var e := CitationEnd(s, 1);
      if e.Some? then e.value else 0
    else 0
  }

  /** `re.sub(r'\[\d+(,\s*\d+)*\]', '', s)`. */
  function RemoveCitations(s: string): (r: string)
    ensures |r| <= |s|
    decreases |s|
  {
    if s == [] then []
    else
      var m := CitationMatch(s);
      if m > 0 then RemoveCitations(s[m..]) else [s[0]] + RemoveCitations(s[1..])
  }

  /** Text before the first "[" passes through untouched. */
  lemma {:induction false} RemoveCitationsPrefix(s: string, i: nat)
    requires i <= |s| && forall j :: 0 <= j < i ==> s[j] != '['
    ensures RemoveCitations(s) == s[..i] + RemoveCitations(s[i..])
  {
    if i == 0 {
      assert s[..0] == [] && s[0..] == s;
    } else {
      RemoveCitationsPrefix(s, i - 1);
      RemoveCitationsStep(s, i);
    }
  }

  lemma RemoveCitationsStep(s: string, i: nat)
    requires 0 < i <= |s| && s[i - 1] != '['
    ensures s[..i - 1] + RemoveCitations(s[i - 1..]) == s[..i] + RemoveCitations(s[i..])
  {
    RemoveCitationsKeep(s[i - 1..]);
    assert s[i - 1..][1..] == s[i..];
    assert s[..i - 1] + [s[i - 1]] == s[..i];
  }

  /** A character other than "[" is kept. */
  lemma RemoveCitationsKeep(s: string)
    requires s != [] && s[0] != '['
    ensures RemoveCitations(s) == [s[0]] + RemoveCitations(s[1..])
  {
  }

  /** Text without "[" is left as it is. */
  lemma RemoveCitationsAbsent(s: string)
    requires '[' !in s
    ensures RemoveCitations(s) == s
  {
    assert forall i :: 0 <= i < |s| ==> s[i] in s;
    RemoveCitationsPrefix(s, |s|);
    assert s[..|s|] == s;
  }

  predicate AllDigits(d: string) {
    d != [] && forall k :: 0 <= k < |d| ==> IsDigit(d[k])
  }

  predicate AllSpaces(w: string) {
    forall k :: 0 <= k < |w| ==> IsPySpace(w[k])
  }

  /** A run of digits starting at `i` and followed by a non-digit is measured whole. */
  lemma {:induction false} DigitRunOf(s: string, i: nat, n: nat)
    requires i + n <= |s| && forall k :: i <= k < i + n ==> IsDigit(s[k])
    requires i + n == |s| || !IsDigit(s[i + n])
    ensures DigitRun(s, i) == n
    decreases n
  {
    if n > 0 {
      DigitRunOf(s, i + 1, n - 1);
    }
  }

  lemma {:induction false} SpaceRunOf(s: string, i: nat, n: nat)
    requires i + n <= |s| && forall k :: i <= k < i + n ==> IsPySpace(s[k])
    requires i + n == |s| || !IsPySpace(s[i + n])
    ensures SpaceRun(s, i) == n
    decreases n
  {
    if n > 0 {
      SpaceRunOf(s, i + 1, n - 1);
    }
  }

  /** A citation found at the start is dropped whole. */
  lemma RemoveCitationsDrop(s: string)
    requires CitationMatch(s) > 0
    ensures RemoveCitations(s) == RemoveCitations(s[CitationMatch(s)..])
  {
  }

  /** Digits closed by "]" end the citation. */
  lemma CitationEndClose(s: string, i: nat, n: nat)
    requires 0 < n && i + n < |s| && s[i + n] == ']'
    requires forall k :: i <= k < i + n ==> IsDigit(s[k])
    ensures CitationEnd(s, i) == Some(i + n + 1)
  {
    DigitRunOf(s, i, n);
  }

  /** Digits followed by a comma and blanks continue with the next number. */
  lemma CitationEndComma(s: string, i: nat, n: nat, w: nat)
    requires 0 < n && i + n + 1 + w < |s| && s[i + n] == ','
    requires forall k :: i <= k < i + n ==> IsDigit(s[k])
    requires forall k :: i + n + 1 <= k < i + n + 1 + w ==> IsPySpace(s[k])
    requires !IsPySpace(s[i + n + 1 + w])
    ensures CitationEnd(s, i) == CitationEnd(s, i + n + 1 + w)
  {
    DigitRunOf(s, i, n);
    SpaceRunOf(s, i + n + 1, w);
  }

  lemma CitationOne(d: string, b: string)
    requires AllDigits(d)
    ensures CitationMatch("[" + d + "]" + b) == |d| + 2
  {
    var c := "[" + d + "]" + b;
    assert forall k :: 1 <= k < 1 + |d| ==> c[k] == d[k - 1];
    assert c[1 + |d|] == ']';
    CitationEndClose(c, 1, |d|);
  }

  lemma CitationPair(d1: string, w: string, d2: string, b: string)
    requires AllDigits(d1) && AllSpaces(w) && AllDigits(d2)
    ensures CitationMatch("[" + d1 + "," + w + d2 + "]" + b) == |d1| + |w| + |d2| + 3
  {
    var c := "[" + d1 + "," + w + d2 + "]" + b;
    var j := 1 + |d1|;
    var k := j + 1 + |w|;
    assert forall x :: 1 <= x < j ==> c[x] == d1[x - 1];
    assert c[j] == ',';
    assert forall x :: j + 1 <= x < k ==> c[x] == w[x - j - 1];
    assert c[k] == d2[0];
    assert forall x :: k <= x < k + |d2| ==> c[x] == d2[x - k];
    assert c[k + |d2|] == ']';
    CitationEndComma(c, 1, |d1|, |w|);
    CitationEndClose(c, k, |d2|);
  }

  /** Removing a citation that follows text without "[". */
  lemma CitationAfter(a: string, c: string, n: nat)
    requires forall i :: 0 <= i < |a| ==> a[i] != '['
    requires n <= |c| && CitationMatch(c) == n && n > 0
    ensures RemoveCitations(a + c) == a + RemoveCitations(c[n..])
  {
    var s := a + c;
    RemoveCitationsPrefix(s, |a|);
    assert s[..|a|] == a && s[|a|..] == c;
    RemoveCitationsDrop(c);
  }

  /** A one-number citation such as "[3]" is removed, and only it. */
  lemma CitationRemoved(a: string, d: string, b: string)
    requires '[' !in a && AllDigits(d)
    ensures RemoveCitations(a + "[" + d + "]" + b) == a + RemoveCitations(b)
  {
    var c := "[" + d + "]" + b;
    assert a + "[" + d + "]" + b == a + c;
    assert forall i :: 0 <= i < |a| ==> a[i] in a;
    CitationOne(d, b);
    CitationAfter(a, c, |d| + 2);
    assert c[|d| + 2..] == b;
  }

  /** A two-number citation such as "[1, 2]" is removed, and only it. */
  lemma CitationPairRemoved(a: string, d1: string, w: string, d2: string, b: string)
    requires '[' !in a && AllDigits(d1) && AllSpaces(w) && AllDigits(d2)
    ensures RemoveCitations(a + "[" + d1 + "," + w + d2 + "]" + b) == a + RemoveCitations(b)
  {
    var c := "[" + d1 + "," + w + d2 + "]" + b;
    assert a + "[" + d1 + "," + w + d2 + "]" + b == a + c;
    assert forall i :: 0 <= i < |a| ==> a[i] in a;
    CitationPair(d1, w, d2, b);
    var n := |d1| + |w| + |d2| + 3;
    CitationAfter(a, c, n);
    assert c[n..] == b;
  }

  // ------------------------------------------------------------- white space

  /** `re.sub(r'\s+', ' ', s)`: every run of white space becomes one blank. */
  function Collapse(s: string): (r: string)
    ensures |r| <= |s|
    ensures NoDoubleSpace(r) && BlanksOnly(r)
    ensures r == [] <==> s == []
    ensures s != [] ==> (IsPySpace(r[0]) <==> IsPySpace(s[0]))
    decreases |s|
  {
    if s == [] then []
    else if IsPySpace(s[0]) then
      var n := SpaceRun(s, 0);
      [' '] + Collapse(s[n..])
    else
      [s[0]] + Collapse(s[1..])
  }

  /** Text whose white space is already single blanks is left as it is, so collapsing
      twice is collapsing once. */
  lemma {:induction false} CollapseUnchanged(s: string)
    requires NoDoubleSpace(s) && BlanksOnly(s)
    ensures Collapse(s) == s
    decreases |s|
  {
    if s != [] {
      if IsPySpace(s[0]) {
        assert |s| > 1 ==> !IsPySpace(s[1]);
        assert SpaceRun(s, 0) == 1;
      }
      CollapseUnchanged(s[1..]);
    }
  }

  lemma CollapseIdempotent(s: string)
    ensures Collapse(Collapse(s)) == Collapse(s)
  {
    CollapseUnchanged(Collapse(s));
  }

  // ------------------------------------------------------------- short tail

  /** `\w` restricted to ASCII. */
  predicate IsWordChar(c: char) {
    ('a' <= c <= 'z') || ('A' <= c <= 'Z') || ('0' <= c <= '9') || c == '_'
  }

  /** Length of the run of word characters at the end of `s`. */
  function TrailingWordRun(s: string): (n: nat)
    ensures n <= |s|
    ensures forall k :: |s| - n <= k < |s| ==> IsWordChar(s[k])
    ensures n == |s| || !IsWordChar(s[|s| - n - 1])
  {
    if s == [] || !IsWordChar(s[|s| - 1]) then 0 else 1 + TrailingWordRun(s[..|s| - 1])
  }

  /** `re.sub(r'\b\w{1,3}$', '', s)` on text without line breaks: a last word of one to
      three word characters is removed; a longer one has no word boundary in its last
      three characters, so nothing matches. */
  function DropShortTail(s: string): (r: string)
    ensures |r| <= |s| && r == s[..|r|]
    ensures |s| - |r| <= 3
    ensures forall k :: |r| <= k < |s| ==> IsWordChar(s[k])
    ensures r != s ==> r == [] || !IsWordChar(r[|r| - 1])
    ensures r == s <==> TrailingWordRun(s) == 0 || TrailingWordRun(s) > 3
  {
    var n := TrailingWordRun(s);
    if 1 <= n <= 3 then s[..|s| - n] else s
  }

  // ------------------------------------------------------------- clean_chunk

  /** Substrings keep single blanks single. */
  lemma SubstringKeepsBlanks(s: string, i: int, j: int)
    requires 0 <= i <= j <= |s| && NoDoubleSpace(s) && BlanksOnly(s)
    ensures NoDoubleSpace(s[i..j]) && BlanksOnly(s[i..j])
  {
    var t := s[i..j];
    assert forall k :: 0 <= k < |t| ==> t[k] == s[i + k];
  }

  lemma TrimKeepsBlanks(s: string)
    requires NoDoubleSpace(s) && BlanksOnly(s)
    ensures NoDoubleSpace(Trim(Py, s)) && BlanksOnly(Trim(Py, s))
  {
    var t := TrimStart(Py, s);
    SubstringKeepsBlanks(s, |s| - |t|, |s|);
    SubstringKeepsBlanks(t, 0, |TrimEnd(Py, t)|);
  }

  /** `clean_chunk`: URLs and numeric citations removed, white space collapsed, a short
      last word dropped, the ends stripped. */
  function CleanChunk(text: string): (r: string)
    ensures |r| <= |text|
    ensures NoOuterSpace(Py, r) && NoDoubleSpace(r) && BlanksOnly(r)
  {
    var collapsed := Collapse(RemoveCitations(RemoveUrls(text)));
    var tail := DropShortTail(collapsed);
    SubstringKeepsBlanks(collapsed, 0, |tail|);
    TrimKeepsBlanks(tail);
    TrimSpec(Py, tail);
    Trim(Py, tail)
  }

  /** The cleaned text has no line break. */
  lemma CleanChunkOneLine(text: string)
    ensures '\n' !in CleanChunk(text)
  {
    var r := CleanChunk(text);
    forall k | 0 <= k < |r| ensures r[k] != '\n' {
      assert IsPySpace('\n');
    }
  }

  /** Text that is already clean passes through unchanged: single blanks between words, no
      URL, no "[", nothing to strip, and a last word that is not one to three word
      characters long. */
  lemma CleanChunkUnchanged(text: string)
    requires NoOuterSpace(Py, text) && NoDoubleSpace(text) && BlanksOnly(text)
    requires forall i :: 0 <= i <= |text| ==> !UrlAt(text[i..])
    requires '[' !in text
    requires TrailingWordRun(text) == 0 || TrailingWordRun(text) > 3
    ensures CleanChunk(text) == text
  {
    RemoveUrlsAbsent(text);
    RemoveCitationsAbsent(text);
    CollapseUnchanged(text);
    TrimUnchanged(Py, text);
  }

  // ------------------------------------------------------------------ context

  /** A search match: its metadata, if it has any. */
  datatype Match = Match(metadata: Option<map<string, string>>)

  predicate HasSnippet(m: Match) {
    m.metadata.Some? && "snippet" in m.metadata.value
  }

  function SnippetOf(m: Match): string
    requires HasSnippet(m)
  {
    m.metadata.value["snippet"]
  }

  /** The snippets of the matches that have one, in order. */
  function Snippets(matches: seq<Match>): (r: seq<string>)
    ensures forall x :: x in r <==> exists m :: m in matches && HasSnippet(m) && x == SnippetOf(m)
  {
    if matches == [] then []
    else
      var init, last := matches[..|matches| - 1], matches[|matches| - 1];
      assert matches == init + [last];
      Snippets(init) + (if HasSnippet(last) then [SnippetOf(last)] else [])
  }

  function CleanAll(snippets: seq<string>): (r: seq<string>)
    ensures |r| == |snippets|
    ensures forall i :: 0 <= i < |snippets| ==> r[i] == CleanChunk(snippets[i])
  {
    seq(|snippets|, i requires 0 <= i < |snippets| => CleanChunk(snippets[i]))
  }

  /** `if c.strip()`: a cleaned snippet that is not all white space. */
  predicate NotBlank(c: string) {
    Trim(Py, c) != []
  }

  /** The cleaned snippets that are not blank. */
  function ContextParts(matches: seq<Match>): seq<string> {
    Filter(CleanAll(Snippets(matches)), NotBlank)
  }

  /** The context handed to the model: the parts, separated by blank lines. */
  function ContextText(matches: seq<Match>): string {
    Join("\n\n", ContextParts(matches))
  }

  /** The snippets keep match order: one more match adds its snippet at the end, if it has one. */
  lemma SnippetsSnoc(matches: seq<Match>, m: Match)
    ensures Snippets([]) == []
    ensures Snippets(matches + [m]) == Snippets(matches) + (if HasSnippet(m) then [SnippetOf(m)] else [])
  {
    assert (matches + [m])[..|matches + [m]| - 1] == matches;
  }

  /** The context parts keep match order: one more match adds its cleaned snippet at the
      end exactly when it has a snippet that does not clean to blank text. */
  lemma ContextPartsSnoc(matches: seq<Match>, m: Match)
    ensures ContextParts([]) == []
    ensures ContextParts(matches + [m]) ==
              ContextParts(matches) +
              (if HasSnippet(m) && NotBlank(CleanChunk(SnippetOf(m))) then [CleanChunk(SnippetOf(m))] else [])
  {
    SnippetsSnoc(matches, m);
    if HasSnippet(m) {
      CleanedPartsSnoc(Snippets(matches), SnippetOf(m));
    } else {
      assert Snippets(matches + [m]) == Snippets(matches);
    }
  }

  lemma CleanedPartsSnoc(sn: seq<string>, x: string)
    ensures Filter(CleanAll(sn + [x]), NotBlank) ==
              Filter(CleanAll(sn), NotBlank) + (if NotBlank(CleanChunk(x)) then [CleanChunk(x)] else [])
  {
    CleanAllSnoc(sn, x);
    FilterSnoc(CleanAll(sn), CleanChunk(x), NotBlank);
  }

  lemma CleanAllSnoc(sn: seq<string>, x: string)
    ensures CleanAll(sn + [x]) == CleanAll(sn) + [CleanChunk(x)]
  {
    var l, r := CleanAll(sn + [x]), CleanAll(sn) + [CleanChunk(x)];
    assert |l| == |r|;
    forall i | 0 <= i < |l| ensures l[i] == r[i] {
      CleanAllSnocAt(sn, x, i);
    }
    assert l == r;
  }

  lemma CleanAllSnocAt(sn: seq<string>, x: string, i: nat)
    requires i <= |sn|
    ensures CleanAll(sn + [x])[i] == (CleanAll(sn) + [CleanChunk(x)])[i]
  {
    if i < |sn| {
      assert (sn + [x])[i] == sn[i];
    }
  }

  /** A part is a non-empty cleaned snippet of some match; none holds a line break, so the
      blank lines between parts are the only ones in the context. */
  lemma ContextPartsSound(matches: seq<Match>)
    ensures forall c :: c in ContextParts(matches) ==>
              c != [] && '\n' !in c && exists m :: m in matches && HasSnippet(m) && c == CleanChunk(SnippetOf(m))
  {
    var sn := Snippets(matches);
    var cleaned := CleanAll(sn);
    forall c | c in ContextParts(matches)
      ensures c != [] && '\n' !in c && exists m :: m in matches && HasSnippet(m) && c == CleanChunk(SnippetOf(m))
    {
      PartOfCleaned(sn, c);
      var i :| 0 <= i < |sn| && c == cleaned[i];
      assert sn[i] in sn;
      CleanChunkOneLine(sn[i]);
    }
  }

  lemma PartOfCleaned(sn: seq<string>, c: string)
    requires c in Filter(CleanAll(sn), NotBlank)
    ensures c != [] && exists i :: 0 <= i < |sn| && c == CleanAll(sn)[i]
  {
    KeptIsNotBlank(CleanAll(sn), c);
  }

  lemma KeptIsNotBlank(cleaned: seq<string>, c: string)
    requires c in Filter(cleaned, NotBlank)
    ensures c in cleaned && c != []
  {
    assert NotBlank(c);
  }

  /** Every non-empty cleaned snippet is a part. */
  lemma ContextPartsComplete(matches: seq<Match>)
    ensures forall m :: m in matches && HasSnippet(m) && CleanChunk(SnippetOf(m)) != [] ==>
              CleanChunk(SnippetOf(m)) in ContextParts(matches)
  {
    var sn := Snippets(matches);
    forall m | m in matches && HasSnippet(m) && CleanChunk(SnippetOf(m)) != []
      ensures CleanChunk(SnippetOf(m)) in ContextParts(matches)
    {
      var x := SnippetOf(m);
      assert x in sn;
      var i :| 0 <= i < |sn| && sn[i] == x;
      CleanedIsPart(sn, i);
    }
  }

  lemma CleanedIsPart(sn: seq<string>, i: int)
    requires 0 <= i < |sn| && CleanChunk(sn[i]) != []
    ensures CleanChunk(sn[i]) in Filter(CleanAll(sn), NotBlank)
  {
    var cleaned := CleanAll(sn);
    assert cleaned[i] == CleanChunk(sn[i]) && cleaned[i] in cleaned;
    TrimUnchanged(Py, cleaned[i]);
  }

  /** The context is empty exactly when no match gives a non-empty cleaned snippet. */
  lemma ContextEmpty(matches: seq<Match>)
    ensures ContextText(matches) == [] <==>
              forall m :: m in matches && HasSnippet(m) ==> CleanChunk(SnippetOf(m)) == []
  {
    ContextPartsSound(matches);
    ContextPartsComplete(matches);
    var parts := ContextParts(matches);
    if parts != [] {
      assert parts[0] in parts;
      JoinStartsWithFirst(parts);
    }
  }

  lemma {:induction false} JoinStartsWithFirst(parts: seq<string>)
    requires |parts| >= 1
    ensures StartsWith(Join("\n\n", parts), parts[0])
  {
    if |parts| > 1 {
      assert Join("\n\n", parts) == parts[0] + ("\n\n" + Join("\n\n", parts[1..]));
    }
  }

  // ---------------------------------------------------------------- tag cap

  const MaxIngestQueries := 10

  /** `expand_tags(tags)[:10]`: the searches background ingestion runs. */
  function IngestionQueries(tags: seq<string>): seq<string> {
    TakeList(Arxiv.Expanded(tags), MaxIngestQueries)
  }

  /** At most ten searches, in order: search `k` is tag `k / 6` with suffix `k % 6`, so
      only the first two tags are ever searched. */
  lemma IngestionQueriesSpec(tags: seq<string>)
    ensures |IngestionQueries(tags)| == if 6 * |tags| < MaxIngestQueries then 6 * |tags| else MaxIngestQueries
    ensures forall k :: 0 <= k < |IngestionQueries(tags)| ==>
              k / 6 < |tags| && IngestionQueries(tags)[k] == tags[k / 6] + Arxiv.Suffixes[k % 6]
  {
    Arxiv.ExpandedAt(tags);
    var r := IngestionQueries(tags);
    forall k | 0 <= k < |r| ensures k / 6 < |tags| && r[k] == tags[k / 6] + Arxiv.Suffixes[k % 6] {
      var i, j := k / 6, k % 6;
      assert 6 * i + j == k;
    }
  }

  // ---------------------------------------------------------------- console

  /** What the console loop does with one line of input. */
  datatype InputAction = Stop | CaptionImage(path: string) | Ask(query: string)

  const ExitWords: seq<string> := ["exit", "quit", "q"]
  const ImageSuffixes: seq<string> := [".jpg", ".jpeg", ".png", ".webp", ".bmp"]

  predicate IsImagePath(input: string) {
    exists k :: 0 <= k < |ImageSuffixes| && EndsWith(Lower(input), ImageSuffixes[k])
  }

  /** Exit words stop the loop; an image file name is captioned; anything else is the query. */
  function Route(input: string): (a: InputAction)
    ensures a.Stop? <==> Lower(input) in ExitWords
    ensures a.CaptionImage? <==> Lower(input) !in ExitWords && IsImagePath(input)
    ensures !a.Stop? ==> a == (if IsImagePath(input) then CaptionImage(input) else Ask(input))
  {
    if Lower(input) in ExitWords then Stop
    else if IsImagePath(input) then CaptionImage(input)
    else Ask(input)
  }

  /** The routing does not depend on the case of the input. */
  lemma RouteIgnoresCase(input: string)
    ensures Route(Lower(input)).Stop? == Route(input).Stop?
    ensures Route(Lower(input)).CaptionImage? == Route(input).CaptionImage?
    ensures Route(Lower(input)).Ask? == Route(input).Ask?
  {
    LowerIdempotent(input);
  }
}
