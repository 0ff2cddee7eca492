/** The conversation and `sendMessage` (sketch.js). A send is refused while a
    reply is awaited or when the input is blank after trimming; otherwise the
    trimmed input becomes a user message, the conversation is posted to the
    relay, and either an error message or a streamed assistant message is
    appended.

    The network is a parameter of this model: a `Reply` says what `fetch` and
    the reader delivered (a rejected `fetch`, or a response with its status,
    the decoded chunks of its body and possibly a read error after them).
    `sendMessage` runs here without interruption; what other code may do
    between its awaits is covered by lemmas on the individual transitions. */
module Chat {
  import opened Strings
  import opened Sse

  datatype Role = User | Assistant

  datatype Message = Message(role: Role, content: string)

  /** What `sendMessage` and `draw` share: the conversation, the loading flag
      and the text in the input box. */
  datatype ChatState = ChatState(history: seq<Message>, loading: bool, input: string)

  const ModelName: string := "claude-haiku-4-5-20251001"
  const MaxTokens: nat := 1024
  const ErrorPrefix: string := "Error: "
  const ApiErrorPrefix: string := "API Error: "

  /** The body posted to the relay. */
  datatype Request = Request(model: string, maxTokens: nat, messages: seq<Message>)

  /** What the response's body turned out to be: absent (`response.body` is
      null, as for a 204 or 205 status, so `getReader` throws the given
      error), or a stream of decoded chunks, possibly followed by a read
      error. */
  datatype Body =
    | NullBody(error: string)
    | Stream(chunks: seq<string>, failure: Option<string>)

  /** What the network delivered for one send. */
  datatype Reply =
    | NetworkFailure(message: string)
    | Response(status: nat, statusText: string, body: Body)

  /** `response.ok`: an ok status in the Fetch Living Standard, the range 200
      to 299. */
  predicate Ok(status: nat) {
    200 <= status <= 299
  }

  /** The send guard: not already waiting, and something left after trimming. */
  predicate CanSend(s: ChatState) {
    !s.loading && Trim(s.input) != ""
  }

  /** Conversation `after` is conversation `before` with messages only
      appended and contents only extended at their end. */
  predicate Extends(before: seq<Message>, after: seq<Message>) {
    && |before| <= |after|
    && forall i :: 0 <= i < |before| ==>
         after[i].role == before[i].role && StartsWith(after[i].content, before[i].content)
  }

  /** Taking the input: the trimmed text is appended as a user message, the
      box is cleared and the client waits. */
  function Submit(s: ChatState): (t: ChatState)
    requires CanSend(s)
    ensures Extends(s.history, t.history)
    ensures !CanSend(t)
  {
    ChatState(s.history + [Message(User, Trim(s.input))], true, "")
  }

  /** A successful response: an empty assistant placeholder is appended and
      the loading indicator is hidden before the body is read. */
  function Open(s: ChatState): (t: ChatState)
    ensures Extends(s.history, t.history)
  {
    ChatState(s.history + [Message(Assistant, "")], false, s.input)
  }

  /** Text streamed into the message at `target` (the placeholder): its
      content grows at its end and nothing else changes. */
  function Deliver(s: ChatState, target: nat, text: string): (t: ChatState)
    requires target < |s.history|
    ensures Extends(s.history, t.history)
  {
    var m := s.history[target];
    s.(history := s.history[target := Message(m.role, m.content + text)])
  }

  /** The `catch` branch: an error message is appended and loading ends. */
  function Fail(s: ChatState, message: string): (t: ChatState)
    ensures Extends(s.history, t.history)
  {
    ChatState(s.history + [Message(Assistant, ErrorPrefix + message)], false, s.input)
  }

  /** The message of the error thrown for a response that is not ok. */
  function HttpErrorMessage(status: nat, statusText: string): string {
    ApiErrorPrefix + Decimal(status) + " " + statusText
  }

  /** Reading an ok response's body: the placeholder is appended, the
      deltas of every chunk are streamed into it, and a read error appends
      an error message after it. */
  function Streamed(parse: string -> Option<Event>, sent: ChatState, chunks: seq<string>,
                    failure: Option<string>): ChatState
  {
    var read := Deliver(Open(sent), |sent.history|, Concat(Feed(parse, "", chunks).deltas));
    match failure
    case None => read
    case Some(message) => Fail(read, message)
  }

  /** Everything after the user message is taken: the outcome of the reply. */
  function Answer(parse: string -> Option<Event>, sent: ChatState, reply: Reply): ChatState {
    match reply
    case NetworkFailure(message) => Fail(sent, message)
    case Response(status, statusText, body) =>
      if !Ok(status) then Fail(sent, HttpErrorMessage(status, statusText))
      else match body
        case NullBody(error) => Fail(sent, error)
        case Stream(chunks, failure) => Streamed(parse, sent, chunks, failure)
  }

  /** `sendMessage` run to completion against one reply. */
  function Send(parse: string -> Option<Event>, s: ChatState, reply: Reply): ChatState {
    if !CanSend(s) then s else Answer(parse, Submit(s), reply)
  }

  /** `sendMessage` as the source writes it: the guard, the user message, the
      request, the status check, the placeholder and the read loop. `posted`
      is the request sent to the relay, if any. */
  method SendMessage(parse: string -> Option<Event>, s: ChatState, reply: Reply)
    returns (t: ChatState, posted: Option<Request>)
    ensures t == Send(parse, s, reply)
    ensures !CanSend(s) ==> t == s && posted == None
    ensures Extends(s.history, t.history)
    ensures CanSend(s) ==> !t.loading && t.input == ""
    ensures CanSend(s) ==> |t.history| >= |s.history| + 2 && t.history[|s.history|] == Message(User, Trim(s.input))
    ensures CanSend(s) ==>
              && posted.Some?
              && posted.value.model == ModelName && posted.value.maxTokens == MaxTokens
              && posted.value.messages == s.history + [Message(User, Trim(s.input))]
  {
    if s.loading || Trim(s.input) == "" {
      t, posted := s, None;
      ExtendsRefl(s.history);
      return;
    }
    var userMessage := Trim(s.input);
    var sent := ChatState(s.history + [Message(User, userMessage)], true, "");
    posted := Some(Request(ModelName, MaxTokens, sent.history));
    t := AwaitReply(parse, sent, reply);
    SendExtends(parse, s, reply);
    SendSettles(parse, s, reply);
  }

  /** The `try` block after the request is posted, and its `catch`. */
  method AwaitReply(parse: string -> Option<Event>, sent: ChatState, reply: Reply) returns (t: ChatState)
    ensures t == Answer(parse, sent, reply)
  {
    match reply {
      case NetworkFailure(message) =>
        t := Fail(sent, message);
      case Response(status, statusText, body) =>
        if !Ok(status) {
          t := Fail(sent, ApiErrorPrefix + Decimal(status) + " " + statusText);
        } else {
          match body {
            case NullBody(error) =>
              t := Fail(sent, error);
            case Stream(chunks, failure) =>
              t := ReadBody(parse, sent, chunks, failure);
          }
        }
    }
  }

  /** The placeholder and the read loop of an ok response with a body. */
  method ReadBody(parse: string -> Option<Event>, sent: ChatState, chunks: seq<string>, failure: Option<string>)
    returns (t: ChatState)
    ensures t == Streamed(parse, sent, chunks, failure)
  {
    var target := |sent.history|;
    t := ChatState(sent.history + [Message(Assistant, "")], false, sent.input);
    var content, _ := ReadStream(parse, t.history[target].content, chunks);
    t := t.(history := t.history[target := Message(Assistant, content)]);
    if failure.Some? {
      t := Fail(t, failure.value);
    }
  }

  // ---------------------------------------------------------------------
  // Lemmas
  // ---------------------------------------------------------------------

  lemma ExtendsRefl(h: seq<Message>)
    ensures Extends(h, h)
  {
    forall i | 0 <= i < |h|
      ensures StartsWith(h[i].content, h[i].content)
    {
      assert h[i].content[..|h[i].content|] == h[i].content;
    }
  }

  lemma ExtendsTrans(a: seq<Message>, b: seq<Message>, c: seq<Message>)
    requires Extends(a, b) && Extends(b, c)
    ensures Extends(a, c)
  {
    forall i | 0 <= i < |a|
      ensures StartsWith(c[i].content, a[i].content)
    {
      var x, y, z := a[i].content, b[i].content, c[i].content;
      assert z[..|x|] == z[..|y|][..|x|];
    }
  }

  /** A send changes nothing exactly when the guard refuses it. */
  lemma SendGuard(parse: string -> Option<Event>, s: ChatState, reply: Reply)
    ensures Send(parse, s, reply) == s <==> !CanSend(s)
  {
    if CanSend(s) {
      assert |Send(parse, s, reply).history| > |s.history|;
    }
  }

  /** A second press of the button while the first send is pending does
      nothing. */
  lemma SubmitOnce(s: ChatState)
    requires CanSend(s)
    ensures !CanSend(Submit(s))
    ensures Submit(s).history[|s.history|] == Message(User, Trim(s.input))
    ensures Trim(Submit(s).history[|s.history|].content) == Submit(s).history[|s.history|].content
    ensures Submit(s).history[|s.history|].content != ""
  {
    TrimIdempotent(s.input);
  }

  /** Every send leaves the earlier conversation in place: messages are only
      appended and contents only grow. */
  lemma SendExtends(parse: string -> Option<Event>, s: ChatState, reply: Reply)
    ensures Extends(s.history, Send(parse, s, reply).history)
  {
    if !CanSend(s) {
      ExtendsRefl(s.history);
    } else {
      var sent := Submit(s);
      AnswerExtends(parse, sent, reply);
      ExtendsTrans(s.history, sent.history, Answer(parse, sent, reply).history);
    }
  }

  lemma AnswerExtends(parse: string -> Option<Event>, sent: ChatState, reply: Reply)
    ensures Extends(sent.history, Answer(parse, sent, reply).history)
  {
    if reply.Response? && Ok(reply.status) && reply.body.Stream? {
      var placed := Open(sent);
      var read := Deliver(placed, |sent.history|, Concat(Feed(parse, "", reply.body.chunks).deltas));
      ExtendsTrans(sent.history, placed.history, read.history);
      if reply.body.failure.Some? {
        ExtendsTrans(sent.history, read.history, Fail(read, reply.body.failure.value).history);
      }
    }
  }

  /** The text the placeholder receives is the deltas of the whole body read
      at once from an empty buffer. */
  lemma StreamedText(parse: string -> Option<Event>, chunks: seq<string>)
    ensures Concat(Feed(parse, "", chunks).deltas) == Concat(Step(parse, "", Concat(chunks)).deltas)
  {
    FeedIsStepOfConcat(parse, "", chunks);
  }

  /** Reading an ok body appends the placeholder, filled with the deltas of
      the whole body, and then the read error if there was one; the client
      is idle again and the input is untouched. */
  lemma StreamedOutcome(parse: string -> Option<Event>, sent: ChatState, chunks: seq<string>,
                        failure: Option<string>)
    ensures var t := Streamed(parse, sent, chunks, failure);
            && !t.loading && t.input == sent.input
            && t.history == sent.history + [Message(Assistant, Concat(Step(parse, "", Concat(chunks)).deltas))]
                            + (if failure.Some? then [Message(Assistant, ErrorPrefix + failure.value)] else [])
  {
    var text := Concat(Feed(parse, "", chunks).deltas);
    var read := Deliver(Open(sent), |sent.history|, text);
    StreamedText(parse, chunks);
    assert "" + text == text;
    assert read.history == sent.history + [Message(Assistant, text)];
  }

  /** A rejected `fetch` appends the user message and `Error: ` followed by
      the rejection's message, and the client is idle with an empty box. */
  lemma SendNetworkFailure(parse: string -> Option<Event>, s: ChatState, message: string)
    requires CanSend(s)
    ensures Send(parse, s, NetworkFailure(message))
         == ChatState(s.history + [Message(User, Trim(s.input)), Message(Assistant, ErrorPrefix + message)], false, "")
  {
    FailAfterSubmit(parse, s, message);
  }

  /** A response that is not ok appends the user message and
      `Error: API Error: <status> <statusText>`; its body is never read. */
  lemma SendRejected(parse: string -> Option<Event>, s: ChatState, status: nat, statusText: string, body: Body)
    requires CanSend(s)
    requires !Ok(status)
    ensures Send(parse, s, Response(status, statusText, body))
         == ChatState(s.history + [Message(User, Trim(s.input)),
                                   Message(Assistant, ErrorPrefix + ApiErrorPrefix + Decimal(status) + " " + statusText)],
                      false, "")
  {
    var d := Decimal(status);
    FailAfterSubmit(parse, s, HttpErrorMessage(status, statusText));
    AppendAssoc(ErrorPrefix, ApiErrorPrefix + d + " ", statusText);
    AppendAssoc(ErrorPrefix, ApiErrorPrefix + d, " ");
    AppendAssoc(ErrorPrefix, ApiErrorPrefix, d);
  }

  /** An ok response without a body (`getReader` on a null body throws)
      appends the user message and the error, and no placeholder. */
  lemma SendNoBody(parse: string -> Option<Event>, s: ChatState, status: nat, statusText: string, error: string)
    requires CanSend(s)
    requires Ok(status)
    ensures Send(parse, s, Response(status, statusText, NullBody(error)))
         == ChatState(s.history + [Message(User, Trim(s.input)), Message(Assistant, ErrorPrefix + error)], false, "")
  {
    FailAfterSubmit(parse, s, error);
  }

  /** An error right after the user message is taken. */
  lemma FailAfterSubmit(parse: string -> Option<Event>, s: ChatState, message: string)
    requires CanSend(s)
    ensures Fail(Submit(s), message)
         == ChatState(s.history + [Message(User, Trim(s.input)), Message(Assistant, ErrorPrefix + message)], false, "")
  {
    assert s.history + [Message(User, Trim(s.input))] + [Message(Assistant, ErrorPrefix + message)]
        == s.history + [Message(User, Trim(s.input)), Message(Assistant, ErrorPrefix + message)];
  }

  /** An ok response with a body appends the user message and an assistant
      message that holds the deltas of the whole body read at once, so it
      does not depend on how the body was cut into chunks; a read error after
      the chunks appends an error message after it. */
  lemma SendStreamed(parse: string -> Option<Event>, s: ChatState, status: nat, statusText: string,
                     chunks: seq<string>, failure: Option<string>)
    requires CanSend(s)
    requires Ok(status)
    ensures var streamed := Message(Assistant, Concat(Step(parse, "", Concat(chunks)).deltas));
            Send(parse, s, Response(status, statusText, Stream(chunks, failure)))
            == ChatState(s.history + [Message(User, Trim(s.input)), streamed]
                         + (if failure.Some? then [Message(Assistant, ErrorPrefix + failure.value)] else []),
                         false, "")
  {
    var sent := Submit(s);
    var streamed := Message(Assistant, Concat(Step(parse, "", Concat(chunks)).deltas));
    var tail := if failure.Some? then [Message(Assistant, ErrorPrefix + failure.value)] else [];
    StreamedOutcome(parse, sent, chunks, failure);
    assert Send(parse, s, Response(status, statusText, Stream(chunks, failure))) == Streamed(parse, sent, chunks, failure);
    assert sent.history + [streamed] + tail == s.history + [Message(User, Trim(s.input)), streamed] + tail;
  }

  /** A completed send leaves the client idle with an empty input box, and
      its first new message is the trimmed input followed by an assistant
      message. */
  lemma SendSettles(parse: string -> Option<Event>, s: ChatState, reply: Reply)
    requires CanSend(s)
    ensures var t := Send(parse, s, reply);
            && !t.loading && t.input == ""
            && |t.history| >= |s.history| + 2
            && t.history[|s.history|] == Message(User, Trim(s.input))
            && t.history[|s.history| + 1].role == Assistant
  {
    match reply {
      case NetworkFailure(message) =>
        SendNetworkFailure(parse, s, message);
      case Response(status, statusText, body) =>
        if !Ok(status) {
          SendRejected(parse, s, status, statusText, body);
        } else {
          match body {
            case NullBody(error) =>
              SendNoBody(parse, s, status, statusText, error);
            case Stream(chunks, failure) =>
              SendStreamed(parse, s, status, statusText, chunks, failure);
          }
        }
    }
  }

  /** The loading flag is cleared as soon as the placeholder is appended, so
      a message typed while the reply streams is sent, and lands after the
      placeholder; the stream goes on writing into the placeholder. */
  lemma SendWhileStreaming(s: ChatState, next: string, text: string)
    requires CanSend(s)
    requires Trim(next) != ""
    ensures var placed := Open(Submit(s));
            var typed := placed.(input := next);
            && CanSend(typed)
            && Deliver(Submit(typed), |s.history| + 1, text).history
               == s.history + [Message(User, Trim(s.input)), Message(Assistant, text), Message(User, Trim(next))]
  {
    var placed := Open(Submit(s));
    var typed := placed.(input := next);
    var h := Deliver(Submit(typed), |s.history| + 1, text).history;
    assert h[|s.history| + 1].content == "" + text;
  }
}
