// Turning text chunks into vector-index records and sending them in fixed-size batches:
// `upsert_to_pinecone` in backend/pinecone_ingestion.py and in
// ingestion_preprocess_upsert.py, and the script upsert_to_pinecone.py. Embedding, the
// index service and the database are outside the model; each call to the index is
// recorded as an effect carrying the records it sends.
module VectorUpsert {
  import opened Wrappers
  import opened Text
  import opened Lists

  const BatchSize: nat := 64
  const SnippetLength: nat := 300
  const ChunkTag := "_chunk"

  /** A chunk as read from the JSON file: each key may be missing. */
  datatype ChunkItem = ChunkItem(arxivId: Option<string>, title: Option<string>, chunk: Option<string>)

  /** A chunk as produced by the preprocessing step, with its per-paper index. */
  datatype ChunkRecord = ChunkRecord(arxivId: string, title: string, chunkIndex: int, chunk: string)

  datatype Metadata = Metadata(arxivId: Option<string>, title: string, chunkIndex: int, snippet: string)

  /** An entry of the script: the record id, the text to embed and the metadata. */
  datatype Entry = Entry(id: string, text: string, metadata: Metadata)

  /** What one upserted vector carries besides its embedding. */
  datatype Vector = Vector(id: string, metadata: Metadata)

  /** What `f"{x}"` gives for a value that may be None. */
  function PyStr(x: Option<string>): string {
    if x.Some? then x.value else "None"
  }

  /** `f"{arxiv_id}_chunk{index}"`. */
  function VectorId(arxivId: string, index: int): (r: string)
    ensures StartsWith(r, arxivId + ChunkTag)
  {
    arxivId + ChunkTag + IntToString(index)
  }

  // ----------------------------------------------------------- vector ids

  predicate AllDigits(s: string) {
    forall k :: 0 <= k < |s| ==> '0' <= s[k] <= '9'
  }

  /** Length of the run of decimal digits at the end of `s`. */
  function TrailingDigits(s: string): (n: nat)
    ensures n <= |s|
  {
    if s == [] || !('0' <= s[|s| - 1] <= '9') then 0 else 1 + TrailingDigits(s[..|s| - 1])
  }

  /** Behind the tag, the digits of the index are the whole trailing run of digits. */
  lemma {:induction false} TrailingDigitsOfId(p: string, d: string)
    requires p != [] && p[|p| - 1] == 'k' && AllDigits(d)
    ensures TrailingDigits(p + d) == |d|
    decreases |d|
  {
    if d == [] {
      assert p + d == p;
    } else {
      var init := d[..|d| - 1];
      TrailingDigitsOfId(p, init);
      assert (p + d)[..|p + d| - 1] == p + init;
    }
  }

  /** Different indices give different ids, whatever the paper ids: the index is read back
      from the digits after the last "_chunk". */
  lemma VectorIdsDiffer(a: string, m: nat, b: string, n: nat)
    requires m != n
    ensures VectorId(a, m) != VectorId(b, n)
  {
    var dm, dn := NatToString(m), NatToString(n);
    if VectorId(a, m) == VectorId(b, n) {
      var x := VectorId(a, m);
      TrailingDigitsOfId(a + ChunkTag, dm);
      TrailingDigitsOfId(b + ChunkTag, dn);
      assert x == (a + ChunkTag) + dm && x == (b + ChunkTag) + dn;
      assert dm == x[|x| - |dm|..] == dn;
      NatToStringInjective(m, n);
    }
  }

  // -------------------------------------------------------------- entries

  /** The entry for the chunk numbered `idx`: missing keys give "None" in the id and ""
      for the title and the text; the snippet is the first 300 characters. */
  function EntryOf(item: ChunkItem, idx: nat): Entry {
    var text := item.chunk.GetOr("");
    Entry(VectorId(PyStr(item.arxivId), idx), text,
          Metadata(item.arxivId, item.title.GetOr(""), idx, Take(text, SnippetLength)))
  }

  /** `for idx, item in enumerate(chunks, start=1)`: one entry per chunk, in order, numbered
      from 1 across the whole input. */
  method BuildEntries(items: seq<ChunkItem>) returns (entries: seq<Entry>)
    ensures |entries| == |items|
    ensures forall i :: 0 <= i < |items| ==> entries[i] == EntryOf(items[i], i + 1)
  {
    entries := [];
    for idx := 1 to |items| + 1
      invariant |entries| == idx - 1
      invariant forall i :: 0 <= i < idx - 1 ==> entries[i] == EntryOf(items[i], i + 1)
    {
      var item := items[idx - 1];
      var arxivId := item.arxivId;
      var title := item.title.GetOr("");
      var text := item.chunk.GetOr("");
      var uniqueId := PyStr(arxivId) + "_chunk" + IntToString(idx);
      entries := entries + [Entry(uniqueId, text, Metadata(arxivId, title, idx, Take(text, SnippetLength)))];
    }
  }

  /** The entries of one run carry pairwise different ids, and each snippet is a prefix of
      its text of at most 300 characters. */
  lemma EntriesSpec(items: seq<ChunkItem>)
    ensures forall i, j :: 0 <= i < j < |items| ==> EntryOf(items[i], i + 1).id != EntryOf(items[j], j + 1).id
    ensures forall i :: 0 <= i < |items| ==>
              var e := EntryOf(items[i], i + 1);
              |e.metadata.snippet| <= SnippetLength && StartsWith(e.text, e.metadata.snippet)
              && e.metadata.chunkIndex == i + 1
  {
    forall i, j | 0 <= i < j < |items|
      ensures EntryOf(items[i], i + 1).id != EntryOf(items[j], j + 1).id
    {
      VectorIdsDiffer(PyStr(items[i].arxivId), i + 1, PyStr(items[j].arxivId), j + 1);
    }
  }

  function EntryVector(e: Entry): Vector {
    Vector(e.id, e.metadata)
  }

  function EntryVectors(es: seq<Entry>): (r: seq<Vector>)
    ensures |r| == |es|
    ensures forall i :: 0 <= i < |es| ==> r[i] == EntryVector(es[i])
  {
    seq(|es|, i requires 0 <= i < |es| => EntryVector(es[i]))
  }

  /** The record built from a preprocessed chunk, with its own index. */
  function ChunkVector(c: ChunkRecord): Vector {
    Vector(VectorId(c.arxivId, c.chunkIndex), Metadata(Some(c.arxivId), c.title, c.chunkIndex, Take(c.chunk, SnippetLength)))
  }

  function ChunkVectors(cs: seq<ChunkRecord>): (r: seq<Vector>)
    ensures |r| == |cs|
    ensures forall i :: 0 <= i < |cs| ==> r[i] == ChunkVector(cs[i])
  {
    seq(|cs|, i requires 0 <= i < |cs| => ChunkVector(cs[i]))
  }

  /** Mapping each batch and concatenating is mapping the whole list. */
  lemma {:induction false} FlattenEntryVectors(bs: seq<seq<Entry>>)
    ensures Flatten(seq(|bs|, k requires 0 <= k < |bs| => EntryVectors(bs[k]))) == EntryVectors(Flatten(bs))
  {
    var mapped := seq(|bs|, k requires 0 <= k < |bs| => EntryVectors(bs[k]));
    if bs != [] {
      var rest := seq(|bs| - 1, k requires 0 <= k < |bs| - 1 => EntryVectors(bs[1..][k]));
      assert mapped[1..] == rest;
      FlattenEntryVectors(bs[1..]);
      assert EntryVectors(bs[0] + Flatten(bs[1..])) == EntryVectors(bs[0]) + EntryVectors(Flatten(bs[1..]));
    }
  }

  lemma {:induction false} FlattenChunkVectors(bs: seq<seq<ChunkRecord>>)
    ensures Flatten(seq(|bs|, k requires 0 <= k < |bs| => ChunkVectors(bs[k]))) == ChunkVectors(Flatten(bs))
  {
    var mapped := seq(|bs|, k requires 0 <= k < |bs| => ChunkVectors(bs[k]));
    if bs != [] {
      var rest := seq(|bs| - 1, k requires 0 <= k < |bs| - 1 => ChunkVectors(bs[1..][k]));
      assert mapped[1..] == rest;
      FlattenChunkVectors(bs[1..]);
      assert ChunkVectors(bs[0] + Flatten(bs[1..])) == ChunkVectors(bs[0]) + ChunkVectors(Flatten(bs[1..]));
    }
  }

  // ------------------------------------------------------------- upserting

  /** A call to the outside world: an upsert of some vectors, or marking papers as indexed. */
  datatype Effect = Upsert(vectors: seq<Vector>) | MarkIndexed(paperIds: seq<string>)

  /** The batch loop of the script and of `upsert_to_pinecone` in
      ingestion_preprocess_upsert.py: one upsert per batch of 64 entries. */
  method UpsertEntries(entries: seq<Entry>) returns (calls: seq<Effect>)
    ensures |calls| == |Batches(entries, BatchSize)|
    ensures forall k :: 0 <= k < |calls| ==> calls[k] == Upsert(EntryVectors(Batches(entries, BatchSize)[k]))
  {
    var batches := Batches(entries, BatchSize);
    calls := [];
    for k := 0 to |batches|
      invariant |calls| == k
      invariant forall j :: 0 <= j < k ==> calls[j] == Upsert(EntryVectors(batches[j]))
    {
      var batchItems := batches[k];
      var vectors: seq<Vector> := [];
      for i := 0 to |batchItems|
        invariant vectors == EntryVectors(batchItems[..i])
      {
        vectors := vectors + [Vector(batchItems[i].id, batchItems[i].metadata)];
      }
      assert batchItems[..|batchItems|] == batchItems;
      calls := calls + [Upsert(vectors)];
    }
  }

  /** Every entry is sent exactly once, in order: the upserted vectors, call after call,
      are the entries' vectors; every call carries between 1 and 64 of them. */
  lemma UpsertedOnce(entries: seq<Entry>)
    ensures var bs := Batches(entries, BatchSize);
      Flatten(seq(|bs|, k requires 0 <= k < |bs| => EntryVectors(bs[k]))) == EntryVectors(entries)
      && forall k :: 0 <= k < |bs| ==> 0 < |EntryVectors(bs[k])| <= BatchSize
  {
    FlattenEntryVectors(Batches(entries, BatchSize));
  }

  /** How the script ends. */
  datatype ScriptOutcome = MissingKey | NoChunks | Upserted(calls: seq<Effect>)

  /** upsert_to_pinecone.py (with `emptyGuard`), or `upsert_to_pinecone` of
      ingestion_preprocess_upsert.py (without it): the key is checked first, then the
      script stops on an empty chunk list, and otherwise every entry is upserted. */
  method UpsertScript(apiKey: Option<string>, items: seq<ChunkItem>, emptyGuard: bool) returns (out: ScriptOutcome)
    ensures out == MissingKey <==> !(apiKey.Some? && apiKey.value != [])
    ensures out == NoChunks <==> apiKey.Some? && apiKey.value != [] && emptyGuard && items == []
    ensures out.Upserted? ==>
              var entries := seq(|items|, i requires 0 <= i < |items| => EntryOf(items[i], i + 1));
              |out.calls| == |Batches(entries, BatchSize)|
              && forall k :: 0 <= k < |out.calls| ==> out.calls[k] == Upsert(EntryVectors(Batches(entries, BatchSize)[k]))
  {
    if !(apiKey.Some? && apiKey.value != []) {
      return MissingKey;
    }
    if emptyGuard && items == [] {
      return NoChunks;
    }
    var entries := BuildEntries(items);
    assert entries == seq(|items|, i requires 0 <= i < |items| => EntryOf(items[i], i + 1));
    var calls := UpsertEntries(entries);
    out := Upserted(calls);
  }

  /** `upsert_to_pinecone` (backend/pinecone_ingestion.py): nothing at all for no chunks;
      otherwise one upsert per batch of 64, then one update marking `paperIds` as indexed. */
  method IngestChunks(chunks: seq<ChunkRecord>, paperIds: seq<string>) returns (effects: seq<Effect>)
    ensures chunks == [] ==> effects == []
    ensures chunks != [] ==>
              |effects| == |Batches(chunks, BatchSize)| + 1
              && effects[|effects| - 1] == MarkIndexed(paperIds)
              && forall k :: 0 <= k < |effects| - 1 ==> effects[k] == Upsert(ChunkVectors(Batches(chunks, BatchSize)[k]))
  {
    if chunks == [] {
      return [];
    }
    var upserts := UpsertChunkBatches(Batches(chunks, BatchSize));
    effects := upserts + [MarkIndexed(paperIds)];
    assert forall k :: 0 <= k < |upserts| ==> effects[k] == upserts[k];
  }

  /** The batch loop of `upsert_to_pinecone` (backend/pinecone_ingestion.py): one upsert
      per batch, in order, carrying the vectors of that batch's chunks. */
  method UpsertChunkBatches(batches: seq<seq<ChunkRecord>>) returns (upserts: seq<Effect>)
    ensures |upserts| == |batches|
    ensures forall k :: 0 <= k < |batches| ==> upserts[k] == Upsert(ChunkVectors(batches[k]))
  {
    upserts := [];
    for k := 0 to |batches|
      invariant |upserts| == k
      invariant forall j :: 0 <= j < k ==> upserts[j] == Upsert(ChunkVectors(batches[j]))
    {
      upserts := upserts + [Upsert(ChunkVectors(batches[k]))];
    }
  }

  /** The papers are marked exactly once, after the last upsert, and the upserts carry one
      vector per chunk, in order, with id "{arxiv_id}_chunk{chunk_index}". */
  lemma IngestOrder(chunks: seq<ChunkRecord>, paperIds: seq<string>, effects: seq<Effect>)
    requires chunks != [] && |effects| == |Batches(chunks, BatchSize)| + 1
    requires effects[|effects| - 1] == MarkIndexed(paperIds)
    requires forall k :: 0 <= k < |effects| - 1 ==> effects[k] == Upsert(ChunkVectors(Batches(chunks, BatchSize)[k]))
    ensures forall k :: 0 <= k < |effects| && effects[k].MarkIndexed? ==> k == |effects| - 1
    ensures Flatten(seq(|effects| - 1, k requires 0 <= k < |effects| - 1 => effects[k].vectors)) == ChunkVectors(chunks)
    ensures forall i :: 0 <= i < |chunks| ==>
              ChunkVectors(chunks)[i].id == chunks[i].arxivId + "_chunk" + IntToString(chunks[i].chunkIndex)
  {
    var bs := Batches(chunks, BatchSize);
    assert seq(|effects| - 1, k requires 0 <= k < |effects| - 1 => effects[k].vectors)
        == seq(|bs|, k requires 0 <= k < |bs| => ChunkVectors(bs[k]));
    FlattenChunkVectors(bs);
  }
}
