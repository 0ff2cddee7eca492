# Chat sketch: stream reader, word wrap, layout and send — a Dafny model

This project models the client side of a small p5.js chat sketch (`sketch.js`) that talks to Claude through a relay. It covers four pieces of the sketch.

- **Stream reader** (`Sse`, in `sse.dfy`). This is the loop of `sendMessage` that reads the relay's server-sent-event stream. Decoded text is appended to a carry-over buffer and the buffer is cut at line feeds. Every complete `data: ` line other than `data: [DONE]` is handed to `JSON.parse`, and the non-empty text of each `content_block_delta` event is appended to the assistant message. This is a simplified form of the `data:` field framing of server-sent events in section 9.2 of the WHATWG HTML Living Standard: only a line feed ends a line, and the prefix must include its space.
- **Word wrap** (`Wrap`, in `wrap.dfy`). This is `drawWrappedText` and its line-counting twin in `draw`. Text is split on single spaces. A word is added to the current line together with one space. The line is committed when the result would be wider than the limit, except for the first word. `Greedy` is a functional reference for the wrap. `IsGreedyLayout` describes it without any algorithm, and both loops of the sketch are proved to compute it.
- **Layout** (`Layout`, in `layout.dfy`). This is `draw`'s conversation view:
  - the height pre-pass: `totalHeight = 80 + Σ (20 · lines + 10)`;
  - the auto-scroll offset: `max(0, totalHeight − (height − 100))`;
  - the drawing pass: labelled messages wrapped to `width − 40`, drawn from `80 − scrollOffset`, each followed by a 10-pixel gap;
  - the typing indicator.
- **Send state machine** (`Chat`, in `chat.dfy`). This is `sendMessage`: the guard, the trimmed user message, the request, the status check, the placeholder for the reply, the streaming into it, and the `catch` branch.
- **Shared string operations** (`Strings`, in `strings.dfy`). These are the JavaScript string operations the sketch relies on: `split` on one character, `trim` with the ECMAScript whitespace set, `startsWith`, and the decimal rendering of a status code.

Several things are parameters of the model rather than part of it:
- `JSON.parse` is a parameter `parse: string -> Option<Event>`. `None` means the payload is rejected. `Delta(t)` means the event is a `content_block_delta` with `delta.text == t`. `Other` means any other event.
- The font metric `textWidth` is a parameter `string -> int`.
- The network is a `Reply` value. It is either a rejected `fetch`, or a response carrying:
  - its status;
  - its status text;
  - either no body, or the decoded chunks of the body, possibly followed by a read error.
- The canvas size is a parameter.

## Model

| member | source | states |
|---|---|---|
| `Strings.TrimSpec` | sketch.js:121-126 | The trimmed input is a slice of the input with only whitespace outside it, and it neither starts nor ends with whitespace. |
| `Strings.TrimEmpty` | sketch.js:121 | The trimmed input is empty exactly when the input is all whitespace. This is the blank-input half of the send guard. |
| `Strings.TrimIdempotent` | sketch.js:126 | Trimming the stored user message again changes nothing. |
| `Strings.JoinSplit` | sketch.js:70 | Joining the pieces of a split with the separator gives back the text. |
| `Strings.SplitJoin` | sketch.js:179 | Splitting a join of separator-free pieces gives back the pieces. |
| `Strings.SplitAppend` | sketch.js:178-180 | Splitting `x + y` keeps every complete piece of `x` and re-splits its last fragment followed by `y`. |
| `Strings.DecimalValue` | sketch.js:154 | The decimal rendering of a status code is all digits, has no leading zero, and denotes the code. |
| `Sse.Payload` | sketch.js:183-184 | A line has a payload exactly when it starts with `data: `. The line is then `data: ` followed by the payload. |
| `Sse.LineDelta` | sketch.js:183-191 | A line contributes text exactly when its payload is not `[DONE]` and parses as a delta event with non-empty text. That text is the event's text. |
| `Sse.SkippedLine` | sketch.js:187-194 | A line that contributes nothing leaves the batch's text equal to that of the lines before it followed by the lines after it. The later lines are still examined. |
| `Sse.Framing` | sketch.js:178-180 | After a chunk, neither the new buffer nor any complete line holds a line feed. The complete lines and the new buffer, joined with line feeds, are the old buffer plus the chunk. |
| `Sse.StepStep` | sketch.js:174-196 | Feeding one text and then another gives the same buffer and the same deltas, in order, as feeding their concatenation. |
| `Sse.FeedIsStepOfConcat` | sketch.js:174-197 | Reading any sequence of chunks from a buffer without a line feed is the same as reading their concatenation at once. |
| `Sse.ChunkingIrrelevant` | sketch.js:174-197 | Two chunkings of the same decoded text give the same deltas and the same final buffer. |
| `Sse.ApplyLines` | sketch.js:182-196 | The line loop leaves the content as the old content followed by the texts of the batch's delta lines, in order. |
| `Sse.ReadChunk` | sketch.js:178-196 | One chunk sets the buffer to the last unfinished fragment. The content becomes the old content followed by the chunk's deltas, so the old content is a prefix of the new one. |
| `Sse.ReadStream` | sketch.js:160-197 | Reading all chunks from an empty buffer appends exactly the deltas of the whole stream. |
| `Wrap.DrawWrappedText` | sketch.js:210-229 | The drawn lines are the greedy wrap of the text, there is at least one, and the returned y is the start y plus 20 per line. |
| `Wrap.CountLines` | sketch.js:70-83 | The pre-pass's count equals the number of lines `drawWrappedText` draws for the same text and width. |
| `Wrap.GreedyCharacterised` | sketch.js:215-226 | A grouping of the words into lines is the wrap exactly when the first word stays on the first line, every word added to a line fitted, and every line break was forced by the next word not fitting. |
| `Wrap.WrapLinesFit` | sketch.js:215-226 | Every wrapped line fits the width or holds a single word. |
| `Wrap.WrapKeepsFirstWord` | sketch.js:219 | The first line starts with the first word and a space, however wide it is. |
| `Wrap.WrapLosesNothing` | sketch.js:211-228 | The wrapped lines, concatenated, are the text followed by one space, and there is at least one line. |
| `Chat.SendGuard` | sketch.js:121-123 | A send changes nothing exactly when a reply is awaited or the trimmed input is empty. |
| `Chat.SubmitOnce` | sketch.js:126-136 | The stored user message is the trimmed input: non-empty and trimmed. A second send before the reply is refused. |
| `Chat.SendExtends` | sketch.js:119-205 | A send only appends messages and only extends contents at their end. |
| `Chat.SendSettles` | sketch.js:126-204 | After a send the client is idle and the input box is empty. The conversation gained the user message followed by an assistant message. |
| `Chat.SendNetworkFailure` | sketch.js:138-204 | A rejected `fetch` appends the user message and `Error: ` followed by the rejection's message. |
| `Chat.SendRejected` | sketch.js:153-204 | A status outside 200–299 appends the user message and `Error: API Error: <status> <statusText>`. The body is not read. |
| `Chat.SendNoBody` | sketch.js:157-204 | An ok response with a null body appends the user message and the `getReader` error, and no placeholder. |
| `Chat.SendStreamed` | sketch.js:157-197 | An ok response with a body appends the user message and an assistant message that holds the deltas of the whole body read at once. A read error appends an error message after it. |
| `Chat.SendWhileStreaming` | sketch.js:163-172 | Loading ends once the placeholder is in place, so a message sent while the reply streams is accepted. It lands after the placeholder, and the stream keeps writing into the placeholder. |
| `Chat.SendMessage` | sketch.js:119-205 | A refused send changes nothing and posts nothing. An accepted send posts the conversation ending with the trimmed user message, with the model name and a 1024-token limit. It leaves the client idle with an empty box, and only extends the conversation. |
| `Layout.ScrollOffset` | sketch.js:87-91 | The offset is non-negative, brings the conversation's end to or above `height − 100`, and is either 0 or exactly that much. |
| `Layout.ScrollIsLeast` | sketch.js:88-91 | No smaller non-negative offset keeps the end above `height − 100`. |
| `Layout.NoScrollWhenFits` | sketch.js:89 | The view is not scrolled exactly when the conversation fits above `height − 100`. |
| `Layout.ContentAtLeast` | sketch.js:83-84 | Every message adds at least one line and the gap to the height. |
| `Layout.MeasureConversation` | sketch.js:64-85 | The pre-pass yields `80` plus each message's wrapped lines times 20 plus 10, with each message labelled `You: ` or `Barb: ` and wrapped at `width − 40`. |
| `Layout.DrawMessages` | sketch.js:94-105 | Message `k` is drawn as the wrap of its labelled text at the given width, which `Draw` sets to `width − 40`. It starts at `80 − scroll` plus the heights of the messages before it. The pass ends at `80 − scroll` plus the height of all messages. |
| `Layout.Draw` | sketch.js:60-113 | A frame scrolls by the offset of the pre-pass's height and draws every message in its place. It shows the indicator exactly while loading, just below the last message and at or above `height − 100`. |
| `Layout.FrameAgrees` | sketch.js:64-105 | Each drawn block is as high as the pre-pass counted its message. Consecutive blocks are separated by exactly the gap, and the last block ends where the pre-pass says the conversation ends. |

## Left out

- `server.js` is not part of this model. It is the relay: Express routing, the upstream `fetch`, headers, piping and key loading.
- `TextDecoder` (sketch.js:159, 178) is not modelled. Its UTF-8 decoding with `stream: true` is left out, and the body is given as already-decoded strings.
- `JSON.parse` (sketch.js:188-190) is the abstract `parse`. An event whose `delta.text` is truthy but not a string, which `+=` would turn into text, is not modelled. A delta's text is a string, and it is truthy when non-empty.
- `textWidth` (sketch.js:76, 217) is an integer-valued parameter. p5's font metrics are floating point, and the text size and style state is not modelled.
- The p5 drawing calls and the DOM wiring are not modelled: `background`, `fill`, `text`, `textStyle`, `setup`, `windowResized`, the input box and the button. A frame records only the y and lines of each message and the y of the indicator. x positions and colours are left out, and the canvas size is a parameter.
- `console.error` (sketch.js:199) is left out, because it only logs.
- The interleaving of the 60 Hz `draw` with the awaits of `sendMessage` is not modelled as concurrency. `Send` runs to completion. The intermediate states are the transitions `Submit`, `Open`, `Deliver` and `Fail`, and `Sse.ReadChunk` gives the content after each chunk. `Chat.SendWhileStreaming` covers a second send during the stream.
- The wording of the `TypeError` that `getReader` throws on a null body is engine-specific. It is a parameter of the reply, the `error` of `NullBody`.
- Characters are Unicode scalar values, whereas JavaScript strings are UTF-16 code units. Text with characters outside the Basic Multilingual Plane has different lengths in the two, but the cuts the sketch makes fall at the same characters: at a line feed, at a space, after the ASCII prefix `data: `, and at whitespace.
- `response.ok` is taken to be the status range 200–299. Redirects and opaque responses are not modelled.
