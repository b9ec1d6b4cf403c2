// The two text chunkers of the ingestion scripts: the fixed-size overlapping character
// chunker `split_into_chunks` (ingestion_preprocess_upsert.py, preprocess_pipeline.py and
// preprocess_pipeline2.py hold the same function) and the word chunker
// `create_semantic_chunks` (pdf_tester.py).
module Chunking {
  import opened Wrappers
  import opened Text
  import opened Lists

  function Min(a: int, b: int): int {
    if a < b then a else b
  }

  /** Python's `s[n:]` for `n >= 0`: empty when `n` is past the end. */
  function Drop(s: string, n: nat): (r: string)
    ensures |r| == if n < |s| then |s| - n else 0
  {
    if n < |s| then s[n..] else []
  }

  // ----------------------------------------------------- character chunks

  /** Where chunk `k` ends: `chunk_size` characters after its start, or the end of the text. */
  function ChunkEnd(len: nat, chunkSize: int, step: int, k: nat): int {
    Min(k * step + chunkSize, len)
  }

  /** What `split_into_chunks` returns: chunk `k` is `text[k*step : min(k*step+chunk_size, len)]`
      with `step = chunk_size - overlap`, and there are as many chunks as it takes for
      the starts to pass the end of the text, that is ceil(len / step). */
  predicate ChunkedAs(text: string, chunkSize: int, step: int, chunks: seq<string>) {
    && step > 0 && chunkSize > 0
    && |chunks| * step >= |text|
    && (|chunks| == 0 || (|chunks| - 1) * step < |text|)
    && forall k :: 0 <= k < |chunks| ==>
         0 <= k * step < |text| && chunks[k] == text[k * step .. ChunkEnd(|text|, chunkSize, step, k)]
  }

  lemma MulSucc(a: int, n: int)
    ensures (a + 1) * n == a * n + n
  {
  }

  lemma MulNonNeg(a: int, n: int)
    requires a >= 0 && n >= 0
    ensures a * n >= 0
  {
  }

  lemma MulMono(a: int, b: int, n: int)
    requires 0 <= a <= b && n >= 0
    ensures a * n <= b * n
  {
  }

  /** `split_into_chunks(text, chunk_size, overlap)`: the loop moves `start` forward by
      `chunk_size - overlap` until it reaches the end, so it ends only when that step is
      positive (or the text is empty); a non-positive `chunk_size` is not modelled. */
  method SplitIntoChunks(text: string, chunkSize: int, overlap: int) returns (chunks: seq<string>)
    requires text == [] || (0 < chunkSize && overlap < chunkSize)
    ensures text == [] ==> chunks == []
    ensures text != [] ==> ChunkedAs(text, chunkSize, chunkSize - overlap, chunks)
  {
    chunks := [];
    var start := 0;
    var textLength := |text|;
    if textLength == 0 {
      return;
    }
    var step := chunkSize - overlap;
    while start < textLength
      invariant start == |chunks| * step >= 0
      invariant |chunks| == 0 || (|chunks| - 1) * step < textLength
      invariant forall k :: 0 <= k < |chunks| ==>
                  0 <= k * step < |text| && chunks[k] == text[k * step .. ChunkEnd(|text|, chunkSize, step, k)]
      decreases textLength - start
    {
      var end := Min(start + chunkSize, textLength);
      var chunk := text[start..end];
      MulSucc(|chunks|, step);
      chunks := chunks + [chunk];
      start := start + (chunkSize - overlap);
    }
  }

  /** Every chunk is non-empty and at most `chunk_size` long, and its start lies in the text. */
  lemma ChunkBounds(text: string, chunkSize: int, step: int, chunks: seq<string>, k: int)
    requires ChunkedAs(text, chunkSize, step, chunks) && 0 <= k < |chunks|
    ensures 0 < |chunks[k]| <= chunkSize
    ensures k * step < |text|
  {
  }

  /** The empty text has no chunks, and a non-empty one starts with its first
      `chunk_size` characters. */
  lemma FirstChunk(text: string, chunkSize: int, step: int, chunks: seq<string>)
    requires ChunkedAs(text, chunkSize, step, chunks)
    ensures text == [] <==> chunks == []
    ensures text != [] ==> chunks[0] == text[..Min(chunkSize, |text|)]
  {
    if text != [] {
      assert 0 * step == 0;
    }
  }

  /** With `0 <= overlap`, every character of the text lies in some chunk. */
  lemma ChunksCover(text: string, chunkSize: int, overlap: int, chunks: seq<string>, p: int)
    requires 0 <= overlap < chunkSize
    requires ChunkedAs(text, chunkSize, chunkSize - overlap, chunks)
    requires 0 <= p < |text|
    ensures exists k :: 0 <= k < |chunks| && k * (chunkSize - overlap) <= p < k * (chunkSize - overlap) + |chunks[k]|
  {
    var step := chunkSize - overlap;
    var k := p / step;
    assert k * step <= p < k * step + step;
    if k >= |chunks| {
      MulMono(|chunks|, k, step);
      assert false;
    }
    assert 0 <= k < |chunks|;
  }

  /** Putting the chunks back together: the first chunk, then every later chunk with
      its first `overlap` characters (the part the previous chunk already holds) dropped. */
  function Rejoin(chunks: seq<string>, overlap: nat): string
    decreases |chunks|
  {
    if chunks == [] then []
    else if |chunks| == 1 then chunks[0]
    else Rejoin(chunks[..|chunks| - 1], overlap) + Drop(chunks[|chunks| - 1], overlap)
  }

  lemma ChunkAt(text: string, chunkSize: int, step: int, chunks: seq<string>, k: int)
    requires ChunkedAs(text, chunkSize, step, chunks) && 0 <= k < |chunks|
    ensures 0 <= k * step < |text|
    ensures chunks[k] == text[k * step .. ChunkEnd(|text|, chunkSize, step, k)]
  {
  }

  lemma DropSlice(text: string, a: int, b: int, n: nat)
    requires 0 <= a <= b <= |text|
    ensures Drop(text[a..b], n) == text[Min(a + n, b)..b]
  {
  }

  lemma SliceConcat(text: string, p: int, e: int)
    requires 0 <= p <= e <= |text|
    ensures text[..p] + text[p..e] == text[..e]
  {
  }

  lemma {:induction false} RejoinPrefix(text: string, chunkSize: int, overlap: nat, chunks: seq<string>, j: nat)
    requires overlap < chunkSize
    requires ChunkedAs(text, chunkSize, chunkSize - overlap, chunks)
    requires 1 <= j <= |chunks|
    ensures Rejoin(chunks[..j], overlap) == text[..ChunkEnd(|text|, chunkSize, chunkSize - overlap, j - 1)]
  {
    var step := chunkSize - overlap;
    if j == 1 {
      assert chunks[..1] == [chunks[0]];
      ChunkAt(text, chunkSize, step, chunks, 0);
      assert 0 * step == 0;
    } else {
      RejoinPrefix(text, chunkSize, overlap, chunks, j - 1);
      var prev := ChunkEnd(|text|, chunkSize, step, j - 2);
      var start := (j - 1) * step;
      var end := ChunkEnd(|text|, chunkSize, step, j - 1);
      ChunkAt(text, chunkSize, step, chunks, j - 1);
      MulSucc(j - 2, step);
      assert (j - 2) * step + chunkSize == start + overlap;
      RejoinStep(text, overlap, chunks, j, start, end, prev);
    }
  }

  lemma RejoinStep(text: string, overlap: nat, chunks: seq<string>, j: int, start: int, end: int, prev: int)
    requires 2 <= j <= |chunks|
    requires 0 <= start <= end <= |text| && chunks[j - 1] == text[start..end]
    requires prev == Min(start + overlap, end)
    requires Rejoin(chunks[..j - 1], overlap) == text[..prev]
    ensures Rejoin(chunks[..j], overlap) == text[..end]
  {
    assert chunks[..j][..j - 1] == chunks[..j - 1];
    assert chunks[..j][j - 1] == chunks[j - 1];
    DropSlice(text, start, end, overlap);
    SliceConcat(text, prev, end);
  }

  /** With `0 <= overlap`, the chunks put back together give exactly the text. */
  lemma RejoinChunks(text: string, chunkSize: int, overlap: nat, chunks: seq<string>)
    requires overlap < chunkSize
    requires ChunkedAs(text, chunkSize, chunkSize - overlap, chunks)
    ensures Rejoin(chunks, overlap) == text
  {
    if chunks == [] {
      FirstChunk(text, chunkSize, chunkSize - overlap, chunks);
    } else {
      RejoinPrefix(text, chunkSize, overlap, chunks, |chunks|);
      assert chunks[..|chunks|] == chunks;
      MulSucc(|chunks| - 1, chunkSize - overlap);
    }
  }

  // ---------------------------------------------------------- word chunks

  /** Length of the run of non-space characters at the front. */
  function WordLength(s: string): (n: nat)
    ensures n <= |s|
    ensures forall i :: 0 <= i < n ==> !IsPySpace(s[i])
    ensures n < |s| ==> IsPySpace(s[n])
  {
    if s == [] || IsPySpace(s[0]) then 0 else 1 + WordLength(s[1..])
  }

  /** `s.split()`: the maximal runs of non-space characters, in order. */
  function Words(s: string): (r: seq<string>)
    ensures forall i :: 0 <= i < |r| ==> r[i] != [] && forall c :: c in r[i] ==> !IsPySpace(c)
    decreases |s|
  {
    if s == [] then []
    else if IsPySpace(s[0]) then Words(s[1..])
    else
      var n := WordLength(s);
      [s[..n]] + Words(s[n..])
  }

  /** White space alone has no words. */
  lemma {:induction false} WordsOfSpace(s: string)
    requires AllSpace(Py, s)
    ensures Words(s) == []
  {
    if s != [] {
      WordsOfSpace(s[1..]);
    }
  }

  lemma {:induction false} WordLengthOfWord(w: string, t: string)
    requires forall c :: c in w ==> !IsPySpace(c)
    requires t == [] || IsPySpace(t[0])
    ensures WordLength(w + t) == |w|
  {
    if w != [] {
      assert (w + t)[1..] == w[1..] + t;
      assert w[0] in w;
      WordLengthOfWord(w[1..], t);
    } else {
      assert w + t == t;
    }
  }

  /** Words joined by single spaces split back into the same words. */
  lemma {:induction false} WordsOfJoin(ws: seq<string>)
    requires forall i :: 0 <= i < |ws| ==> ws[i] != [] && forall c :: c in ws[i] ==> !IsPySpace(c)
    ensures Words(Join(" ", ws)) == ws
  {
    if |ws| == 1 {
      WordLengthOfWord(ws[0], []);
      assert ws[0] + [] == ws[0];
      assert ws[0][|ws[0]|..] == [];
    } else if |ws| > 1 {
      var w := ws[0];
      var rest := Join(" ", ws[1..]);
      var s := Join(" ", ws);
      assert s == w + (" " + rest);
      WordLengthOfWord(w, " " + rest);
      assert s[..|w|] == w;
      assert s[|w|..] == " " + rest;
      assert (" " + rest)[1..] == rest;
      WordsOfJoin(ws[1..]);
      assert ws == [w] + ws[1..];
    }
  }

  datatype ChunkError = ZeroStep

  /** The chunks a positive `chunk_size` gives: each run of `chunk_size` words joined by spaces. */
  function WordChunks(words: seq<string>, chunkSize: nat): seq<string>
    requires chunkSize > 0
  {
    var groups := Batches(words, chunkSize);
    seq(|groups|, k requires 0 <= k < |groups| => Join(" ", groups[k]))
  }

  /** One more step of the loop: the next chunk joins the next `chunk_size` words. */
  lemma WordChunksStep(words: seq<string>, chunkSize: nat, i: nat)
    requires chunkSize > 0 && i < |words|
    ensures WordChunks(words[i..], chunkSize)
         == [Join(" ", words[i..Min(i + chunkSize, |words|)])] + WordChunks(words[Min(i + chunkSize, |words|)..], chunkSize)
  {
    var end := Min(i + chunkSize, |words|);
    var t := words[i..];
    var groups := Batches(t, chunkSize);
    if end < |words| {
      assert t[..chunkSize] == words[i..end];
      assert t[chunkSize..] == words[end..];
      assert groups == [t[..chunkSize]] + Batches(t[chunkSize..], chunkSize);
    } else {
      assert t == words[i..end];
      assert words[end..] == [];
      assert groups == [t];
    }
  }

  /** `create_semantic_chunks(text, chunk_size)`: `range` refuses a zero step, and a
      negative one gives no chunks. */
  method CreateSemanticChunks(text: string, chunkSize: int) returns (r: Result<seq<string>, ChunkError>)
    ensures chunkSize == 0 <==> r.Failure?
    ensures chunkSize < 0 ==> r == Success([])
    ensures chunkSize > 0 ==> r == Success(WordChunks(Words(text), chunkSize))
  {
    if chunkSize == 0 {
      return Failure(ZeroStep);
    }
    var chunks := [];
    var words := Words(text);
    if chunkSize < 0 {
      return Success(chunks);
    }
    var i := 0;
    while i < |words|
      invariant 0 <= i <= |words|
      invariant chunks + WordChunks(words[i..], chunkSize) == WordChunks(words, chunkSize)
      decreases |words| - i
    {
      var end := Min(i + chunkSize, |words|);
      var group := words[i..end];
      WordChunksStep(words, chunkSize, i);
      chunks := chunks + [Join(" ", group)];
      i := end;
    }
    assert words[i..] == [];
    assert WordChunks(words[i..], chunkSize) == [];
    assert chunks == chunks + WordChunks(words[i..], chunkSize);
    return Success(chunks);
  }

  lemma {:induction false} JoinFlatten(groups: seq<seq<string>>)
    requires forall k :: 0 <= k < |groups| ==> groups[k] != []
    ensures Join(" ", seq(|groups|, k requires 0 <= k < |groups| => Join(" ", groups[k]))) == Join(" ", Flatten(groups))
  {
    if |groups| > 1 {
      var tail := groups[1..];
      JoinFlatten(tail);
      var joined := seq(|groups|, k requires 0 <= k < |groups| => Join(" ", groups[k]));
      assert joined[1..] == seq(|tail|, k requires 0 <= k < |tail| => Join(" ", tail[k]));
      NonEmptyFlatten(tail);
      JoinAppend(" ", groups[0], Flatten(tail));
    } else if |groups| == 1 {
      assert Flatten(groups) == groups[0] + Flatten(groups[1..]);
      assert Flatten(groups[1..]) == [];
      assert Flatten(groups) == groups[0];
    }
  }

  lemma {:induction false} NonEmptyFlatten(groups: seq<seq<string>>)
    requires forall k :: 0 <= k < |groups| ==> groups[k] != []
    ensures groups != [] ==> Flatten(groups) != []
  {
  }

  /** Words in a batch of words are words. */
  lemma BatchWords(words: seq<string>, chunkSize: nat, k: int)
    requires chunkSize > 0 && 0 <= k < |Batches(words, chunkSize)|
    requires forall i :: 0 <= i < |words| ==> words[i] != [] && forall c :: c in words[i] ==> !IsPySpace(c)
    ensures Words(Join(" ", Batches(words, chunkSize)[k])) == Batches(words, chunkSize)[k]
  {
    var groups := Batches(words, chunkSize);
    var g := groups[k];
    forall i | 0 <= i < |g|
      ensures g[i] != [] && forall c :: c in g[i] ==> !IsPySpace(c)
    {
      InFlatten(groups, k, g[i]);
    }
    WordsOfJoin(g);
  }

  /** The word chunks hold every word once, in order: joined by spaces they give the words
      joined by spaces. All but the last hold exactly `chunk_size` words, and there are
      ceil(word count / chunk_size) of them; white space alone gives none. */
  lemma WordChunksSpec(text: string, chunkSize: nat)
    requires chunkSize > 0
    ensures Join(" ", WordChunks(Words(text), chunkSize)) == Join(" ", Words(text))
    ensures var n := |WordChunks(Words(text), chunkSize)|;
            n * chunkSize >= |Words(text)| && (n - 1) * chunkSize < |Words(text)|
    ensures forall k :: 0 <= k < |WordChunks(Words(text), chunkSize)| ==>
              Words(WordChunks(Words(text), chunkSize)[k]) == Batches(Words(text), chunkSize)[k]
    ensures forall k :: 0 <= k < |WordChunks(Words(text), chunkSize)| - 1 ==>
              |Words(WordChunks(Words(text), chunkSize)[k])| == chunkSize
    ensures forall k :: 0 <= k < |WordChunks(Words(text), chunkSize)| ==>
              0 < |Words(WordChunks(Words(text), chunkSize)[k])| <= chunkSize
    ensures AllSpace(Py, text) ==> WordChunks(Words(text), chunkSize) == []
  {
    var words := Words(text);
    var groups := Batches(words, chunkSize);
    JoinFlatten(groups);
    forall k | 0 <= k < |groups|
      ensures Words(Join(" ", groups[k])) == groups[k]
    {
      BatchWords(words, chunkSize, k);
    }
    if AllSpace(Py, text) {
      WordsOfSpace(text);
    }
  }
}
