/** The client's incremental reader of the relay's server-sent-event stream
    (sketch.js, the read loop of `sendMessage`). Decoded text is appended to a
    carry-over buffer, the buffer is cut at line feeds, every complete line is
    examined, and the unfinished last piece is kept for the next chunk. This is
    a simplified form of the `data:` field framing of server-sent events in the
    WHATWG HTML Living Standard, section 9.2: only a line feed ends a line and
    the prefix must include its space.

    `JSON.parse` is a parameter `parse` of this model: `None` stands for a
    payload it rejects (the exception the loop swallows), `Delta(t)` for an
    event whose `type` is `content_block_delta` with `delta.text == t`, and
    `Other` for every other event. */
module Sse {
  import opened Strings

  datatype Option<T> = None | Some(value: T)

  /** What the client looks at in a parsed event. */
  datatype Event = Delta(text: string) | Other

  const LineFeed: char := '\n'
  const DataPrefix: string := "data: "
  const DoneSentinel: string := "[DONE]"

  /** The payload of one SSE line: everything after a leading `data: `. */
  function Payload(line: string): (r: Option<string>)
    ensures r.Some? <==> StartsWith(line, DataPrefix)
    ensures r.Some? ==> line == DataPrefix + r.value
  {
    if StartsWith(line, DataPrefix) then Some(line[|DataPrefix|..]) else None
  }

  /** The text one complete line contributes to the assistant message, if any. */
  function LineDelta(parse: string -> Option<Event>, line: string): (r: Option<string>)
    ensures r.Some? <==>
              Payload(line).Some? && Payload(line).value != DoneSentinel
              && parse(Payload(line).value).Some?
              && parse(Payload(line).value).value.Delta?
              && parse(Payload(line).value).value.text != ""
    ensures r.Some? ==> parse(Payload(line).value) == Some(Delta(r.value))
  {
    match Payload(line)
    case None => None
    case Some(data) =>
      if data == DoneSentinel then None
      else match parse(data)
        case Some(Delta(t)) => if t != "" then Some(t) else None
        case _ => None
  }

  /** The texts a batch of complete lines contributes, in line order. */
  function Deltas(parse: string -> Option<Event>, lines: seq<string>): seq<string>
    decreases |lines|
  {
    if |lines| == 0 then []
    else
      var init := Deltas(parse, lines[..|lines| - 1]);
      match LineDelta(parse, lines[|lines| - 1])
      case Some(t) => init + [t]
      case None => init
  }

  /** The lines of a batch contribute independently of each other. */
  lemma {:induction false} DeltasAppend(parse: string -> Option<Event>, a: seq<string>, b: seq<string>)
    ensures Deltas(parse, a + b) == Deltas(parse, a) + Deltas(parse, b)
    decreases |b|
  {
    if |b| == 0 {
      assert a + b == a;
    } else {
      var b' := b[..|b| - 1];
      assert (a + b)[..|a + b| - 1] == a + b';
      assert (a + b)[|a + b| - 1] == b[|b| - 1];
      DeltasAppend(parse, a, b');
    }
  }

  /** A line without a delta (by `LineDelta`'s contract: not a `data: `
      line, the `[DONE]` sentinel, a payload that does not parse, or an event
      other than a non-empty text delta) contributes nothing, and the lines
      after it are still examined: one bad line does not end the stream. */
  lemma SkippedLine(parse: string -> Option<Event>, lines: seq<string>, i: nat)
    requires i < |lines|
    requires LineDelta(parse, lines[i]).None?
    ensures Deltas(parse, lines) == Deltas(parse, lines[..i]) + Deltas(parse, lines[i + 1..])
  {
    Around(lines, i);
    SkipBetween(parse, lines[..i], lines[i], lines[i + 1..]);
  }

  lemma SkipBetween(parse: string -> Option<Event>, before: seq<string>, line: string, after: seq<string>)
    requires LineDelta(parse, line).None?
    ensures Deltas(parse, before + [line] + after) == Deltas(parse, before) + Deltas(parse, after)
  {
    NoDelta(parse, line);
    DeltasAppend(parse, before + [line], after);
    DeltasAppend(parse, before, [line]);
  }

  lemma NoDelta(parse: string -> Option<Event>, line: string)
    requires LineDelta(parse, line).None?
    ensures Deltas(parse, [line]) == []
  {
    assert [line][..0] == [];
  }

  /** Result of one read: the new carry-over buffer and the extracted texts. */
  datatype StepResult = StepResult(buffer: string, deltas: seq<string>)

  /** The complete lines available once `text` is appended to `buffer`: every
      piece of the split except the last. */
  function Lines(buffer: string, text: string): seq<string> {
    var parts := Split(buffer + text, LineFeed);
    parts[..|parts| - 1]
  }

  /** The unfinished piece after the last line feed, kept for the next read. */
  function Rest(buffer: string, text: string): string {
    var parts := Split(buffer + text, LineFeed);
    parts[|parts| - 1]
  }

  /** The framing loses nothing and cuts exactly at line feeds: no line and no
      remainder holds a line feed, and lines and remainder joined with line
      feeds are the old buffer followed by the new text. */
  lemma Framing(buffer: string, text: string)
    ensures LineFeed !in Rest(buffer, text)
    ensures forall i :: 0 <= i < |Lines(buffer, text)| ==> LineFeed !in Lines(buffer, text)[i]
    ensures Join(Lines(buffer, text) + [Rest(buffer, text)], LineFeed) == buffer + text
  {
    var parts := Split(buffer + text, LineFeed);
    SplitPiecesLackSep(buffer + text, LineFeed);
    JoinSplit(buffer + text, LineFeed);
    InitLast(parts);
  }

  /** One iteration of the read loop: frame the new text and collect the
      deltas of the complete lines. */
  function Step(parse: string -> Option<Event>, buffer: string, text: string): StepResult {
    StepResult(Rest(buffer, text), Deltas(parse, Lines(buffer, text)))
  }

  /** The read loop over a whole sequence of decoded chunks. */
  function Feed(parse: string -> Option<Event>, buffer: string, chunks: seq<string>): StepResult
    decreases |chunks|
  {
    if |chunks| == 0 then StepResult(buffer, [])
    else
      var before := Feed(parse, buffer, chunks[..|chunks| - 1]);
      var last := Step(parse, before.buffer, chunks[|chunks| - 1]);
      StepResult(last.buffer, before.deltas + last.deltas)
  }

  /** With nothing new to read, a line-feed-free buffer yields nothing. */
  lemma StepEmpty(parse: string -> Option<Event>, buffer: string)
    requires LineFeed !in buffer
    ensures Step(parse, buffer, "") == StepResult(buffer, [])
  {
    assert buffer + "" == buffer;
    SplitWithoutSep(buffer, LineFeed);
  }

  /** Framing `s1` and then `s2` cuts the same lines, and leaves the same
      remainder, as framing `s1 + s2` at once. */
  lemma FramingAppend(buffer: string, s1: string, s2: string)
    ensures Lines(buffer, s1 + s2) == Lines(buffer, s1) + Lines(Rest(buffer, s1), s2)
    ensures Rest(buffer, s1 + s2) == Rest(Rest(buffer, s1), s2)
  {
    var x := buffer + s1;
    var px := Split(x, LineFeed);
    SplitAppend(x, s2, LineFeed);
    assert buffer + (s1 + s2) == x + s2;
    var py := Split(px[|px| - 1] + s2, LineFeed);
    var whole := Split(x + s2, LineFeed);
    assert whole == px[..|px| - 1] + py;
    assert whole[..|whole| - 1] == px[..|px| - 1] + py[..|py| - 1];
  }

  /** Reading `s1` and then `s2` extracts the same deltas, and leaves the same
      buffer, as reading `s1 + s2` at once. */
  lemma StepStep(parse: string -> Option<Event>, buffer: string, s1: string, s2: string)
    ensures var first := Step(parse, buffer, s1);
            var second := Step(parse, first.buffer, s2);
            Step(parse, buffer, s1 + s2) == StepResult(second.buffer, first.deltas + second.deltas)
  {
    FramingAppend(buffer, s1, s2);
    DeltasAppend(parse, Lines(buffer, s1), Lines(Rest(buffer, s1), s2));
  }

  /** The extracted deltas do not depend on where the stream was cut into
      chunks: feeding the chunks one by one is the same as reading their
      concatenation in one go. */
  lemma {:induction false} FeedIsStepOfConcat(parse: string -> Option<Event>, buffer: string, chunks: seq<string>)
    requires LineFeed !in buffer
    ensures Feed(parse, buffer, chunks) == Step(parse, buffer, Concat(chunks))
    decreases |chunks|
  {
    if |chunks| == 0 {
      StepEmpty(parse, buffer);
    } else {
      var init := chunks[..|chunks| - 1];
      FeedIsStepOfConcat(parse, buffer, init);
      StepStep(parse, buffer, Concat(init), chunks[|chunks| - 1]);
    }
  }

  /** Two ways of cutting the same stream into chunks give the same deltas. */
  lemma ChunkingIrrelevant(parse: string -> Option<Event>, a: seq<string>, b: seq<string>)
    requires Concat(a) == Concat(b)
    ensures Feed(parse, "", a) == Feed(parse, "", b)
  {
    FeedIsStepOfConcat(parse, "", a);
    FeedIsStepOfConcat(parse, "", b);
  }

  /** The `for (const line of lines)` loop: appends the delta of every
      complete line, in order, to the assistant message's content. */
  method ApplyLines(parse: string -> Option<Event>, content: string, lines: seq<string>)
    returns (newContent: string)
    ensures newContent == content + Concat(Deltas(parse, lines))
  {
    newContent := content;
    var i := 0;
    while i < |lines|
      invariant 0 <= i <= |lines|
      invariant newContent == content + Concat(Deltas(parse, lines[..i]))
    {
      ghost var before := Concat(Deltas(parse, lines[..i]));
      var piece := Piece(parse, lines[i]);
      DeltasSnoc(parse, lines, i);
      newContent := newContent + piece;
      assert newContent == content + (before + piece);
      i := i + 1;
    }
    assert lines[..i] == lines;
  }

  /** The body of the read loop on one decoded chunk: frames the text, walks
      the complete lines and appends their deltas to the assistant message.
      The content only grows, by exactly the deltas of the chunk, and the
      result agrees with `Step`. */
  method ReadChunk(parse: string -> Option<Event>, content: string, buffer: string, text: string)
    returns (newContent: string, newBuffer: string)
    ensures newBuffer == Step(parse, buffer, text).buffer
    ensures newContent == content + Concat(Step(parse, buffer, text).deltas)
    ensures StartsWith(newContent, content)
  {
    var lines := Lines(buffer, text);
    newBuffer := Rest(buffer, text);
    newContent := ApplyLines(parse, content, lines);
  }

  /** One more chunk read by `ReadChunk` extends the stream read so far by
      that chunk. */
  lemma FeedNext(parse: string -> Option<Event>, init: seq<string>, c: string, content: string,
                 buffer: string, soFar: string, newBuffer: string, newContent: string)
    requires buffer == Feed(parse, "", init).buffer
    requires soFar == content + Concat(Feed(parse, "", init).deltas)
    requires newBuffer == Step(parse, buffer, c).buffer
    requires newContent == soFar + Concat(Step(parse, buffer, c).deltas)
    ensures newBuffer == Feed(parse, "", init + [c]).buffer
    ensures newContent == content + Concat(Feed(parse, "", init + [c]).deltas)
  {
    var before := Feed(parse, "", init).deltas;
    var last := Step(parse, buffer, c).deltas;
    assert (init + [c])[..|init|] == init;
    assert Feed(parse, "", init + [c]).deltas == before + last;
    ConcatAppend(before, last);
    AppendAssoc(content, Concat(before), Concat(last));
  }

  /** The read loop of `sendMessage` (`while (true)` over `reader.read()`),
      with the decoded chunks given up front: the buffer starts empty, every
      chunk goes through `ReadChunk`, and the message gains exactly the deltas
      the whole stream yields. */
  method ReadStream(parse: string -> Option<Event>, content: string, chunks: seq<string>)
    returns (newContent: string, buffer: string)
    ensures buffer == Feed(parse, "", chunks).buffer
    ensures newContent == content + Concat(Feed(parse, "", chunks).deltas)
  {
    newContent, buffer := content, "";
    var i := 0;
    while i < |chunks|
      invariant 0 <= i <= |chunks|
      invariant buffer == Feed(parse, "", chunks[..i]).buffer
      invariant newContent == content + Concat(Feed(parse, "", chunks[..i]).deltas)
    {
      var c, b := ReadChunk(parse, newContent, buffer, chunks[i]);
      FeedNext(parse, chunks[..i], chunks[i], content, buffer, newContent, b, c);
      assert chunks[..i + 1] == chunks[..i] + [chunks[i]];
      newContent, buffer := c, b;
      i := i + 1;
    }
    assert chunks[..i] == chunks;
  }

  /** The text one line adds to the message: its delta, or nothing. */
  function Piece(parse: string -> Option<Event>, line: string): string {
    match LineDelta(parse, line)
    case Some(t) => t
    case None => ""
  }

  /** Examining one more line appends its delta, if it has one. */
  lemma DeltasSnoc(parse: string -> Option<Event>, lines: seq<string>, i: nat)
    requires i < |lines|
    ensures Concat(Deltas(parse, lines[..i + 1])) == Concat(Deltas(parse, lines[..i])) + Piece(parse, lines[i])
  {
    assert lines[..i + 1][..i] == lines[..i];
    var init := Deltas(parse, lines[..i]);
    match LineDelta(parse, lines[i]) {
      case Some(t) =>
        assert (init + [t])[..|init|] == init;
      case None =>
    }
  }
}
