// The wire side of a streamed assistant reply (ChatContext.tsx, streamAIResponse):
// how one decoded chunk becomes `data:` payloads, what one payload does to the
// message buffer and the token counter, and when the visible copy is refreshed.
// The chat store's method that drives the read loop is proved against `Feed`.
module StreamProtocol {
  import opened Wrappers
  import opened Text

  const DataPrefix: string := "data: "
  const DoneMarker: string := "[DONE]"
  /** The throttle: the visible copy is refreshed every this many fragments. */
  const RefreshEvery: nat := 5

  // ---------------------------------------------------------------- framing

  /** `pieces.filter(Boolean)`: the non-empty pieces, in order. */
  function NonEmpty(pieces: seq<string>): (r: seq<string>)
    ensures forall i :: 0 <= i < |r| ==> r[i] != [] && r[i] in pieces
  {
    if pieces == [] then []
    else (if pieces[0] == [] then [] else [pieces[0]]) + NonEmpty(pieces[1..])
  }

  /** `chunk.split("\n").filter(Boolean)`. */
  function Lines(chunk: string): (r: seq<string>)
    ensures forall i :: 0 <= i < |r| ==> r[i] != [] && '\n' !in r[i]
  {
    var pieces := Split(chunk, '\n');
    var r := NonEmpty(pieces);
    assert forall i :: 0 <= i < |r| ==> '\n' !in r[i] by {
      forall i | 0 <= i < |r| ensures '\n' !in r[i] {
        var j :| 0 <= j < |pieces| && pieces[j] == r[i];
      }
    }
    r
  }

  /** The payload of a `data: ` line, trimmed; other lines carry none. */
  function Payload(line: string): Option<string> {
    if StartsWith(line, DataPrefix) then Some(Trim(Js, line[|DataPrefix|..])) else None
  }

  /** The payload of one line as a list of none or one. */
  function PayloadList(line: string): seq<string> {
    if Payload(line).Some? then [Payload(line).value] else []
  }

  /** The payloads of a run of lines, in order. */
  function DataPayloads(lines: seq<string>): seq<string> {
    if lines == [] then [] else PayloadList(lines[0]) + DataPayloads(lines[1..])
  }

  /** The payloads of one chunk. Nothing is carried over from one chunk to the next. */
  function ChunkPayloads(chunk: string): seq<string> {
    DataPayloads(Lines(chunk))
  }

  /** The payloads of a whole stream, chunk after chunk. */
  function StreamPayloads(chunks: seq<string>): seq<string> {
    if chunks == [] then [] else ChunkPayloads(chunks[0]) + StreamPayloads(chunks[1..])
  }

  /** Reading from the front: the lines from `j` on are line `j`, then the rest. */
  lemma DataPayloadsFront(lines: seq<string>, j: int)
    requires 0 <= j < |lines|
    ensures DataPayloads(lines[j..]) == PayloadList(lines[j]) + DataPayloads(lines[j + 1..])
  {
    assert lines[j..][1..] == lines[j + 1..];
  }

  /** Reading from the front: the chunks from `i` on are chunk `i`, then the rest. */
  lemma StreamPayloadsFront(chunks: seq<string>, i: int)
    requires 0 <= i < |chunks|
    ensures StreamPayloads(chunks[i..]) == ChunkPayloads(chunks[i]) + StreamPayloads(chunks[i + 1..])
  {
    assert chunks[i..][1..] == chunks[i + 1..];
  }

  /** What a server writes for a list of payloads: each as `data: <payload>` and a line break. */
  function Frame(payloads: seq<string>): string {
    if payloads == [] then [] else DataPrefix + payloads[0] + "\n" + Frame(payloads[1..])
  }

  /** The lines of a framed stream, before the line breaks are put in. */
  function DataLines(payloads: seq<string>): seq<string> {
    seq(|payloads|, i requires 0 <= i < |payloads| => DataPrefix + payloads[i])
  }

  lemma {:induction false} FrameIsJoin(payloads: seq<string>)
    ensures Frame(payloads) == Join("\n", DataLines(payloads) + [[]])
  {
    if payloads != [] {
      FrameIsJoin(payloads[1..]);
      var ls := DataLines(payloads) + [[]];
      assert ls[1..] == DataLines(payloads[1..]) + [[]];
      assert Join("\n", ls) == ls[0] + "\n" + Join("\n", ls[1..]);
    }
  }

  lemma {:induction false} NonEmptyAppendEmpty(ls: seq<string>)
    requires forall i :: 0 <= i < |ls| ==> ls[i] != []
    ensures NonEmpty(ls + [[]]) == ls
  {
    if ls != [] {
      assert (ls + [[]])[1..] == ls[1..] + [[]];
      NonEmptyAppendEmpty(ls[1..]);
    }
  }

  /** A `data: ` line carries back the trimmed payload it was framed from. */
  lemma PayloadOfDataLine(p: string)
    requires NoOuterSpace(Js, p)
    ensures PayloadList(DataPrefix + p) == [p]
  {
    assert (DataPrefix + p)[..|DataPrefix|] == DataPrefix;
    assert (DataPrefix + p)[|DataPrefix|..] == p;
    TrimUnchanged(Js, p);
  }

  lemma DataPayloadsCons(line: string, rest: seq<string>)
    ensures DataPayloads([line] + rest) == PayloadList(line) + DataPayloads(rest)
  {
    assert ([line] + rest)[1..] == rest;
  }

  lemma DataLinesCons(p: string, rest: seq<string>)
    ensures DataLines([p] + rest) == [DataPrefix + p] + DataLines(rest)
  {
  }

  /** Reading the `data: ` lines back gives the payloads they were framed from. */
  lemma {:induction false} DataPayloadsOfDataLines(payloads: seq<string>)
    requires forall i :: 0 <= i < |payloads| ==> NoOuterSpace(Js, payloads[i])
    ensures DataPayloads(DataLines(payloads)) == payloads
  {
    if payloads != [] {
      var p, rest := payloads[0], payloads[1..];
      assert payloads == [p] + rest;
      assert forall i :: 0 <= i < |rest| ==> rest[i] == payloads[i + 1];
      DataPayloadsOfDataLines(rest);
      PayloadOfDataLine(p);
      DataLinesCons(p, rest);
      DataPayloadsCons(DataPrefix + p, DataLines(rest));
    }
  }

  /** A framed line, and the empty piece after the last line break, hold no line break. */
  lemma FramedPiecesNoBreak(payloads: seq<string>)
    requires forall i :: 0 <= i < |payloads| ==> '\n' !in payloads[i]
    ensures var ps := DataLines(payloads) + [[]];
            forall i :: 0 <= i < |ps| ==> '\n' !in ps[i]
  {
    var ls := DataLines(payloads);
    var ps := ls + [[]];
    forall i | 0 <= i < |ps| ensures '\n' !in ps[i] {
      if i < |ls| {
        assert ps[i] == DataPrefix + payloads[i];
        assert '\n' !in DataPrefix;
      }
    }
  }

  /** The line breaks of a framed stream split it back into its `data: ` lines. */
  lemma LinesOfFrame(payloads: seq<string>)
    requires forall i :: 0 <= i < |payloads| ==> '\n' !in payloads[i]
    ensures Lines(Frame(payloads)) == DataLines(payloads)
  {
    var ls := DataLines(payloads);
    FrameIsJoin(payloads);
    FramedPiecesNoBreak(payloads);
    JoinSplit(ls + [[]], '\n');
    NonEmptyAppendEmpty(ls);
  }

  /** Framing round trip: payloads with no line break inside and no white space at
      their ends, framed and delivered in one chunk, are read back exactly. */
  lemma FrameRoundTrip(payloads: seq<string>)
    requires forall i :: 0 <= i < |payloads| ==> '\n' !in payloads[i] && NoOuterSpace(Js, payloads[i])
    ensures StreamPayloads([Frame(payloads)]) == payloads
  {
    LinesOfFrame(payloads);
    DataPayloadsOfDataLines(payloads);
    StreamOfOneChunk(Frame(payloads));
  }

  /** A chunk holding a single line without a break yields that line's payload, if any. */
  lemma ChunkOfOneLine(c: string)
    requires c != [] && '\n' !in c
    ensures ChunkPayloads(c) == PayloadList(c)
  {
    SplitNoSep(c, '\n');
    assert NonEmpty([c]) == [c] by {
      assert [c][1..] == [];
    }
    assert DataPayloads([c]) == PayloadList(c) + DataPayloads([]) by {
      assert [c][1..] == [];
    }
    assert PayloadList(c) + [] == PayloadList(c);
  }

  lemma StreamOfOneChunk(c: string)
    ensures StreamPayloads([c]) == ChunkPayloads(c)
  {
    assert [c][1..] == [];
  }

  lemma TwoChunks(c1: string, c2: string)
    ensures StreamPayloads([c1, c2]) == ChunkPayloads(c1) + ChunkPayloads(c2)
  {
    assert [c1, c2][1..] == [c2];
    StreamOfOneChunk(c2);
  }

  /** A chunk of one line that is not a `data: ` line yields nothing. */
  lemma NoDataLine(c: string)
    requires c != [] && '\n' !in c && !StartsWith(c, DataPrefix)
    ensures ChunkPayloads(c) == []
  {
    ChunkOfOneLine(c);
  }

  /** Chunk boundaries are not reassembled: a `data: ` line delivered whole is read,
      but the same line cut by the transport inside its prefix is lost. */
  lemma SplitLineIsLost(line: string, k: nat)
    requires StartsWith(line, DataPrefix) && '\n' !in line
    requires 0 < k < |DataPrefix|
    ensures StreamPayloads([line]) == [Payload(line).value]
    ensures StreamPayloads([line[..k], line[k..]]) == []
  {
    StreamOfOneChunk(line);
    ChunkOfOneLine(line);
    CutHeadIsLost(line, k);
    CutTailIsLost(line, k);
    TwoChunks(line[..k], line[k..]);
  }

  /** The front of a `data: ` line cut inside its prefix is too short to be one. */
  lemma CutHeadIsLost(line: string, k: nat)
    requires StartsWith(line, DataPrefix) && '\n' !in line
    requires 0 < k < |DataPrefix|
    ensures ChunkPayloads(line[..k]) == []
  {
    var head := line[..k];
    assert '\n' !in head by {
      assert forall c :: c in head ==> c in line;
    }
    NoDataLine(head);
  }

  /** The rest of a `data: ` line cut inside its prefix does not start with `d`. */
  lemma CutTailIsLost(line: string, k: nat)
    requires StartsWith(line, DataPrefix) && '\n' !in line
    requires 0 < k < |DataPrefix|
    ensures ChunkPayloads(line[k..]) == []
  {
    var tail := line[k..];
    assert '\n' !in tail by {
      assert forall c :: c in tail ==> c in line;
    }
    assert tail[0] == DataPrefix[k] != DataPrefix[0];
    NoDataLine(tail);
  }

  // ------------------------------------------------------------- accumulator

  /** The `delta` property of a parsed payload. */
  datatype Field =
    | Absent                   // no `delta` property: it reads as `undefined`
    | Text(s: string)          // a string
    | NonText(rendered: string) // a number, boolean, `null` or object, as `+=` renders it

  /** What `JSON.parse(data)` gave. */
  datatype Parsed =
    | Malformed                // `JSON.parse` threw
    | NullValue                // the payload was `null`: reading `.delta` throws
    | Value(delta: Field)      // any other JSON value (a number, a string or a boolean has no `delta`)

  /** What `aiMessage += json.delta` appends. */
  function Appended(f: Field): string {
    match f
    case Absent => "undefined"
    case Text(s) => s
    case NonText(r) => r
  }

  /** The reader's local state: `aiMessage`, `tokenCount`, the text the last refresh
      showed (none yet before the first) and the `tokenCount` at that refresh. */
  datatype Acc = Acc(buffer: string, count: nat, shown: Option<string>, shownAt: nat)

  const Start: Acc := Acc([], 0, None, 0)

  /** `tokenCount % 5 === 0 || json.delta.includes("\n")`, after the increment. For a
      delta that is not a string the second test throws (and the throw is swallowed),
      so only the first test can schedule a refresh. */
  predicate Refreshes(count: nat, f: Field) {
    count % RefreshEvery == 0 || (f.Text? && '\n' in f.s)
  }

  /** One non-terminal payload. */
  function Step(acc: Acc, p: Parsed): Acc {
    match p
    case Malformed => acc
    case NullValue => acc
    case Value(f) =>
      var buffer := acc.buffer + Appended(f);
      var count := acc.count + 1;
      if Refreshes(count, f) then Acc(buffer, count, Some(buffer), count)
      else Acc(buffer, count, acc.shown, acc.shownAt)
  }

  /** How the stream ended: at `[DONE]`, or because the reader reported `done` first. */
  datatype Run = Run(acc: Acc, done: bool)

  /** The payloads processed in order until the first `[DONE]`. */
  function Feed(acc: Acc, payloads: seq<string>, parse: string -> Parsed): Run
    decreases |payloads|
  {
    if payloads == [] then Run(acc, false)
    else if payloads[0] == DoneMarker then Run(acc, true)
    else Feed(Step(acc, parse(payloads[0])), payloads[1..], parse)
  }

  /** Feeding in two goes is feeding at once, as long as the first go did not end the stream. */
  lemma {:induction false} FeedAppend(acc: Acc, a: seq<string>, b: seq<string>, parse: string -> Parsed)
    requires !Feed(acc, a, parse).done
    decreases |a|
    ensures Feed(acc, a + b, parse) == Feed(Feed(acc, a, parse).acc, b, parse)
  {
    if a != [] {
      assert (a + b)[0] == a[0] && (a + b)[1..] == a[1..] + b;
      FeedAppend(Step(acc, parse(a[0])), a[1..], b, parse);
    } else {
      assert a + b == b;
    }
  }

  /** Once `[DONE]` is seen nothing after it is read. */
  lemma {:induction false} FeedStopsAtDone(acc: Acc, a: seq<string>, b: seq<string>, parse: string -> Parsed)
    requires Feed(acc, a, parse).done
    decreases |a|
    ensures Feed(acc, a + b, parse) == Feed(acc, a, parse)
  {
    assert a != [];
    assert (a + b)[0] == a[0];
    if a[0] != DoneMarker {
      assert (a + b)[1..] == a[1..] + b;
      FeedStopsAtDone(Step(acc, parse(a[0])), a[1..], b, parse);
    }
  }

  /** Feeding one line, then the rest. */
  lemma FeedLine(acc: Acc, line: string, rest: seq<string>, parse: string -> Parsed)
    ensures Feed(acc, PayloadList(line) + rest, parse)
         == if Payload(line).None? then Feed(acc, rest, parse)
            else if Payload(line).value == DoneMarker then Run(acc, true)
            else Feed(Step(acc, parse(Payload(line).value)), rest, parse)
  {
    if Payload(line).Some? {
      assert (PayloadList(line) + rest)[1..] == rest;
    } else {
      assert PayloadList(line) + rest == rest;
    }
  }

  /** Feeding one chunk, then the rest: the rest is read only if the chunk held no `[DONE]`. */
  lemma FeedChunk(acc: Acc, chunk: string, rest: seq<string>, parse: string -> Parsed)
    ensures var r := Feed(acc, ChunkPayloads(chunk), parse);
            Feed(acc, ChunkPayloads(chunk) + rest, parse) == if r.done then r else Feed(r.acc, rest, parse)
  {
    if Feed(acc, ChunkPayloads(chunk), parse).done {
      FeedStopsAtDone(acc, ChunkPayloads(chunk), rest, parse);
    } else {
      FeedAppend(acc, ChunkPayloads(chunk), rest, parse);
    }
  }

  /** A payload that does not parse changes nothing, wherever it sits. */
  lemma MalformedIsSkipped(acc: Acc, a: seq<string>, m: string, b: seq<string>, parse: string -> Parsed)
    requires m != DoneMarker && parse(m) == Malformed
    ensures Feed(acc, a + [m] + b, parse) == Feed(acc, a + b, parse)
  {
    if Feed(acc, a, parse).done {
      FeedStopsAtDone(acc, a, [m] + b, parse);
      FeedStopsAtDone(acc, a, b, parse);
      assert a + [m] + b == a + ([m] + b);
    } else {
      FeedAppend(acc, a, [m] + b, parse);
      FeedAppend(acc, a, b, parse);
      assert a + [m] + b == a + ([m] + b);
      assert ([m] + b)[1..] == b;
    }
  }

  function Concat(parts: seq<string>): string {
    if parts == [] then [] else parts[0] + Concat(parts[1..])
  }

  /** Well-formed fragments: every payload before `[DONE]` is an object whose `delta` is a
      string. Then the buffer is all the deltas in arrival order, one count per fragment. */
  lemma {:induction false} FeedDeltas(acc: Acc, payloads: seq<string>, deltas: seq<string>, parse: string -> Parsed)
    requires |payloads| == |deltas|
    requires forall i :: 0 <= i < |payloads| ==> payloads[i] != DoneMarker && parse(payloads[i]) == Value(Text(deltas[i]))
    decreases |payloads|
    ensures !Feed(acc, payloads, parse).done
    ensures Feed(acc, payloads, parse).acc.buffer == acc.buffer + Concat(deltas)
    ensures Feed(acc, payloads, parse).acc.count == acc.count + |payloads|
  {
    if payloads != [] {
      FeedDeltas(Step(acc, parse(payloads[0])), payloads[1..], deltas[1..], parse);
      assert acc.buffer + deltas[0] + Concat(deltas[1..]) == acc.buffer + Concat(deltas);
    }
  }

  /** The throttle never lets five fragments pass without a refresh: no multiple of
      five lies after the last refresh, so it is less than five fragments old. */
  lemma {:induction false} FeedKeepsFresh(acc: Acc, payloads: seq<string>, parse: string -> Parsed)
    requires acc.shownAt <= acc.count && acc.count / RefreshEvery == acc.shownAt / RefreshEvery
    ensures var r := Feed(acc, payloads, parse).acc;
            r.shownAt <= r.count && r.count / RefreshEvery == r.shownAt / RefreshEvery
            && r.count < r.shownAt + RefreshEvery
    decreases |payloads|
  {
    if payloads != [] && payloads[0] != DoneMarker {
      var next := Step(acc, parse(payloads[0]));
      if next.count != acc.count && next.shownAt != next.count {
        assert next.count == acc.count + 1 && next.count % RefreshEvery != 0;
        SameBlockStep(acc.count);
      }
      FeedKeepsFresh(next, payloads[1..], parse);
    } else {
      SameBlockClose(acc.shownAt, acc.count);
    }
  }

  lemma SameBlockStep(c: nat)
    requires (c + 1) % RefreshEvery != 0
    ensures (c + 1) / RefreshEvery == c / RefreshEvery
  {
    var q, r := c / RefreshEvery, c % RefreshEvery;
    assert c == RefreshEvery * q + r;
    assert c + 1 == RefreshEvery * q + (r + 1);
  }

  lemma SameBlockClose(a: nat, b: nat)
    requires a <= b && a / RefreshEvery == b / RefreshEvery
    ensures b < a + RefreshEvery
  {
    assert a == RefreshEvery * (a / RefreshEvery) + a % RefreshEvery;
    assert b == RefreshEvery * (b / RefreshEvery) + b % RefreshEvery;
  }

  /** `formatMessageFromAI`: empty text renders as empty; anything else goes through the
      markdown renderer and sanitiser, which this model leaves abstract. */
  function Format(render: string -> string, content: string): (r: string)
    ensures content == [] ==> r == []
  {
    if content == [] then [] else render(content)
  }

  /** The worked example of a reply: two fragments and the terminator give one finished
      reply whose text is the sanitised rendering of "Hi there". */
  lemma HiThere(parse: string -> Parsed, render: string -> string)
    requires parse("{\"delta\":\"Hi\"}") == Value(Text("Hi"))
    requires parse("{\"delta\":\" there\"}") == Value(Text(" there"))
    ensures var r := Feed(Start, ["{\"delta\":\"Hi\"}", "{\"delta\":\" there\"}", DoneMarker], parse);
            r.done && Format(render, Trim(Js, r.acc.buffer)) == render("Hi there")
  {
    var ps := ["{\"delta\":\"Hi\"}", "{\"delta\":\" there\"}"];
    FeedDeltas(Start, ps, ["Hi", " there"], parse);
    FeedAppend(Start, ps, [DoneMarker], parse);
    assert ps + [DoneMarker] == ["{\"delta\":\"Hi\"}", "{\"delta\":\" there\"}", DoneMarker];
    assert Concat(["Hi", " there"]) == "Hi there";
    TrimUnchanged(Js, "Hi there");
  }
}
