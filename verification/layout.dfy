/** The conversation view of `draw` (sketch.js): a pre-pass that measures the
    height of the whole conversation, an auto-scroll offset that keeps its end
    in view, and a pass that draws every message, labelled by its role,
    wrapped to the canvas width less a margin, with a gap after each message,
    followed by the typing indicator while a reply is awaited.

    The canvas size is a parameter, and so are the font metrics (`textWidth`,
    as in `Wrap`). A frame is described by what is drawn where: the top y of
    every message's block, its wrapped lines, and the y of the indicator. */
module Layout {
  import opened Sse
  import opened Wrap
  import opened Chat

  /** Where the conversation starts, below the input box. */
  const TopMargin: int := 80
  /** Room kept free under the conversation's end. */
  const BottomMargin: int := 100
  /** The wrap width is the canvas width less this. */
  const SideMargin: int := 40
  /** Vertical space after every message. */
  const MessageGap: int := 10

  const UserLabel: string := "You: "
  const AssistantLabel: string := "Barb: "

  /** The text shown for a message: its speaker's label, then its content. */
  function Label(m: Message): string {
    match m.role
    case User => UserLabel + m.content
    case Assistant => AssistantLabel + m.content
  }

  /** The height one message occupies: its wrapped lines and the gap. */
  function BlockHeight(textWidth: string -> int, maxWidth: int, m: Message): int {
    LineHeight * |WrapText(textWidth, maxWidth, Label(m))| + MessageGap
  }

  /** The height of a run of messages, stacked. */
  function ContentHeight(textWidth: string -> int, maxWidth: int, h: seq<Message>): int
    decreases |h|
  {
    if |h| == 0 then 0
    else ContentHeight(textWidth, maxWidth, h[..|h| - 1]) + BlockHeight(textWidth, maxWidth, h[|h| - 1])
  }

  /** `totalHeight` as the pre-pass computes it. */
  function TotalHeight(textWidth: string -> int, maxWidth: int, h: seq<Message>): int {
    TopMargin + ContentHeight(textWidth, maxWidth, h)
  }

  /** The auto-scroll offset: never negative, enough to bring the end of the
      conversation above the bottom margin, and only as much as that. */
  function ScrollOffset(totalHeight: int, canvasHeight: int): (r: int)
    ensures r >= 0
    ensures totalHeight - r <= canvasHeight - BottomMargin
    ensures r == 0 || totalHeight - r == canvasHeight - BottomMargin
  {
    if totalHeight > canvasHeight - BottomMargin then totalHeight - (canvasHeight - BottomMargin) else 0
  }

  /** One drawn message: the y of its first line and its lines. */
  datatype Block = Block(top: int, lines: seq<string>)

  /** One frame of the conversation view. */
  datatype Frame = Frame(scroll: int, blocks: seq<Block>, indicator: Option<int>)

  /** How message `k` of `h` is drawn with the given scroll: its wrapped,
      labelled text, below the blocks of the messages before it. */
  function BlockAt(textWidth: string -> int, maxWidth: int, h: seq<Message>, scroll: int, k: nat): Block
    requires k < |h|
  {
    Block(TopMargin - scroll + ContentHeight(textWidth, maxWidth, h[..k]), WrapText(textWidth, maxWidth, Label(h[k])))
  }

  /** `blocks` are the first messages of `h`, drawn with the given scroll. */
  predicate DrawnSoFar(textWidth: string -> int, maxWidth: int, h: seq<Message>, scroll: int, blocks: seq<Block>) {
    && |blocks| <= |h|
    && forall k :: 0 <= k < |blocks| ==> blocks[k] == BlockAt(textWidth, maxWidth, h, scroll, k)
  }

  // ---------------------------------------------------------------------
  // Lemmas
  // ---------------------------------------------------------------------

  /** Adding a message below the others adds its block's height. */
  lemma ContentSnoc(textWidth: string -> int, maxWidth: int, h: seq<Message>, i: nat)
    requires i < |h|
    ensures ContentHeight(textWidth, maxWidth, h[..i + 1])
         == ContentHeight(textWidth, maxWidth, h[..i]) + BlockHeight(textWidth, maxWidth, h[i])
  {
    assert h[..i + 1][..i] == h[..i];
  }

  /** Every message takes at least one line and the gap, so the content is at
      least that high. */
  lemma {:induction false} ContentAtLeast(textWidth: string -> int, maxWidth: int, h: seq<Message>)
    ensures ContentHeight(textWidth, maxWidth, h) >= (LineHeight + MessageGap) * |h|
    decreases |h|
  {
    if |h| > 0 {
      ContentAtLeast(textWidth, maxWidth, h[..|h| - 1]);
      WrapLosesNothing(textWidth, maxWidth, Label(h[|h| - 1]));
    }
  }

  /** Drawing the next message extends the drawn prefix. */
  lemma DrawnNext(textWidth: string -> int, maxWidth: int, h: seq<Message>, scroll: int, blocks: seq<Block>, b: Block)
    requires DrawnSoFar(textWidth, maxWidth, h, scroll, blocks)
    requires |blocks| < |h|
    requires b == BlockAt(textWidth, maxWidth, h, scroll, |blocks|)
    ensures DrawnSoFar(textWidth, maxWidth, h, scroll, blocks + [b])
  {
    forall k | 0 <= k < |blocks| + 1
      ensures (blocks + [b])[k] == BlockAt(textWidth, maxWidth, h, scroll, k)
    {
      if k < |blocks| {
        assert (blocks + [b])[k] == blocks[k];
      }
    }
  }

  /** The offset is the least that keeps the conversation's end above the
      bottom margin: no smaller non-negative offset does. */
  lemma ScrollIsLeast(totalHeight: int, canvasHeight: int, other: int)
    requires other >= 0
    requires totalHeight - other <= canvasHeight - BottomMargin
    ensures ScrollOffset(totalHeight, canvasHeight) <= other
  {
  }

  /** A conversation that fits is not scrolled: it starts at the top margin. */
  lemma NoScrollWhenFits(totalHeight: int, canvasHeight: int)
    ensures ScrollOffset(totalHeight, canvasHeight) == 0 <==> totalHeight <= canvasHeight - BottomMargin
  {
  }

  // ---------------------------------------------------------------------
  // The two passes of `draw`
  // ---------------------------------------------------------------------

  /** The height pre-pass: counts each message's wrapped lines with the
      pre-pass's own loop and adds its height. */
  method MeasureConversation(textWidth: string -> int, canvasWidth: int, h: seq<Message>)
    returns (totalHeight: int)
    ensures totalHeight == TotalHeight(textWidth, canvasWidth - SideMargin, h)
    ensures totalHeight >= TopMargin + (LineHeight + MessageGap) * |h|
  {
    var maxWidth := canvasWidth - SideMargin;
    totalHeight := TopMargin;
    var i := 0;
    while i < |h|
      invariant 0 <= i <= |h|
      invariant totalHeight == TopMargin + ContentHeight(textWidth, maxWidth, h[..i])
    {
      var lineCount := CountLines(textWidth, Label(h[i]), maxWidth);
      ContentSnoc(textWidth, maxWidth, h, i);
      totalHeight := totalHeight + lineCount * LineHeight + MessageGap;
      i := i + 1;
    }
    assert h[..|h|] == h;
    ContentAtLeast(textWidth, maxWidth, h);
  }

  /** The drawing pass: from `TopMargin - scroll`, each message is drawn
      with `drawWrappedText` and followed by the gap. Returns the blocks and
      the y after the last gap. */
  method DrawMessages(textWidth: string -> int, maxWidth: int, h: seq<Message>, scroll: int)
    returns (blocks: seq<Block>, yEnd: int)
    ensures yEnd == TopMargin - scroll + ContentHeight(textWidth, maxWidth, h)
    ensures |blocks| == |h|
    ensures forall k :: 0 <= k < |h| ==> blocks[k] == BlockAt(textWidth, maxWidth, h, scroll, k)
  {
    var yPos := TopMargin - scroll;
    blocks := [];
    var i := 0;
    while i < |h|
      invariant 0 <= i <= |h|
      invariant |blocks| == i
      invariant DrawnSoFar(textWidth, maxWidth, h, scroll, blocks)
      invariant yPos == TopMargin - scroll + ContentHeight(textWidth, maxWidth, h[..i])
    {
      var lines, y := DrawWrappedText(textWidth, Label(h[i]), yPos, maxWidth);
      DrawnNext(textWidth, maxWidth, h, scroll, blocks, Block(yPos, lines));
      ContentSnoc(textWidth, maxWidth, h, i);
      blocks := blocks + [Block(yPos, lines)];
      yPos := y + MessageGap;
      i := i + 1;
    }
    assert h[..|h|] == h;
    yEnd := yPos;
  }

  /** The conversation view of `draw` for a canvas of the given size: the
      scroll the pre-pass calls for, every message in its place, and the
      indicator, while loading, just below the last message and above the
      bottom margin. */
  method Draw(textWidth: string -> int, canvasWidth: int, canvasHeight: int, s: ChatState)
    returns (frame: Frame)
    ensures frame.scroll == ScrollOffset(TotalHeight(textWidth, canvasWidth - SideMargin, s.history), canvasHeight)
    ensures frame.indicator.Some? <==> s.loading
    ensures frame.indicator.Some? ==>
              frame.indicator.value == TotalHeight(textWidth, canvasWidth - SideMargin, s.history) - frame.scroll
    ensures frame.indicator.Some? ==> frame.indicator.value <= canvasHeight - BottomMargin
    ensures |frame.blocks| == |s.history|
    ensures forall k :: 0 <= k < |s.history| ==>
              frame.blocks[k] == BlockAt(textWidth, canvasWidth - SideMargin, s.history, frame.scroll, k)
  {
    var total := MeasureConversation(textWidth, canvasWidth, s.history);
    var scroll := ScrollOffset(total, canvasHeight);
    var blocks, yPos := DrawMessages(textWidth, canvasWidth - SideMargin, s.history, scroll);
    frame := Frame(scroll, blocks, if s.loading then Some(yPos) else None);
  }

  /** The two passes agree: each block is exactly as high as the pre-pass
      counted its message, so blocks follow one another with the gap between
      them, and the last one ends where the pre-pass says the conversation
      ends. */
  lemma {:induction false} FrameAgrees(textWidth: string -> int, maxWidth: int, h: seq<Message>, scroll: int)
    ensures forall k :: 0 <= k < |h| - 1 ==>
              BlockAt(textWidth, maxWidth, h, scroll, k + 1).top
              == BlockAt(textWidth, maxWidth, h, scroll, k).top
                 + LineHeight * |BlockAt(textWidth, maxWidth, h, scroll, k).lines| + MessageGap
    ensures |h| > 0 ==>
              BlockAt(textWidth, maxWidth, h, scroll, |h| - 1).top
              + LineHeight * |BlockAt(textWidth, maxWidth, h, scroll, |h| - 1).lines| + MessageGap
              == TopMargin - scroll + ContentHeight(textWidth, maxWidth, h)
  {
    forall k | 0 <= k < |h| - 1
      ensures BlockAt(textWidth, maxWidth, h, scroll, k + 1).top
              == BlockAt(textWidth, maxWidth, h, scroll, k).top
                 + LineHeight * |BlockAt(textWidth, maxWidth, h, scroll, k).lines| + MessageGap
    {
      ContentSnoc(textWidth, maxWidth, h, k);
    }
    if |h| > 0 {
      ContentSnoc(textWidth, maxWidth, h, |h| - 1);
      assert h[..|h|] == h;
    }
  }
}
