/**
 * The signup assistant's chat panel (src/components/auth/AIAssistant.tsx):
 * its transcript, the send guard, and the `streamChat` reader that turns
 * the response body into one growing assistant message.
 *
 * The panel's React state (`messages`, `input`, `isLoading`) is the class
 * `AssistantPanel`; the locals of one `streamChat` call (`textBuffer` and
 * `assistantContent`) are the class `StreamDecoder`, whose `Push` is the
 * inner `while` loop and is proved against `SseStream.Pass`.
 */
module AiAssistant {
  import opened Wrappers
  import opened JsText
  import opened SseStream
  import opened SeqLemmas

  datatype Role = User | Assistant

  /** `interface Message` (lines 6-9). */
  datatype Message = Message(role: Role, content: string)

  /** The reply shown when the request or the read fails (line 117). */
  const Apology: string := "Desculpe, ocorreu um erro. Por favor, tente novamente."

  /** The fallback toast text when the error carries no message (lines 61 and 114). */
  const ConnectError: string := "Erro ao conectar com o assistente"

  /** The toast text when the response has no body (line 64). */
  const NoBody: string := "No response body"

  /**
   * The state updater inside `updateAssistant` (lines 72-78): if the last
   * message is the assistant's, its content is replaced (`prev.map` over the
   * last index); otherwise a new assistant message is appended.
   */
  function WithAssistantReply(prev: seq<Message>, content: string): (r: seq<Message>)
    ensures |r| == if prev != [] && prev[|prev| - 1].role == Assistant then |prev| else |prev| + 1
    ensures prev != [] ==> r[..|prev| - 1] == prev[..|prev| - 1]
    ensures r[|r| - 1] == Message(Assistant, content)
    ensures |r| > |prev| ==> r[..|prev|] == prev
  {
    if prev != [] && prev[|prev| - 1].role == Assistant then
      seq(|prev|, i requires 0 <= i < |prev| =>
        if i == |prev| - 1 then prev[i].(content := content) else prev[i])
    else
      prev + [Message(Assistant, content)]
  }

  /** A later reply replaces an earlier one: only the newest accumulated text stays visible. */
  lemma ReplyReplacesReply(prev: seq<Message>, a: string, b: string)
    ensures WithAssistantReply(WithAssistantReply(prev, a), b) == WithAssistantReply(prev, b)
  {
    var ra := WithAssistantReply(prev, a);
    var rb := WithAssistantReply(ra, b);
    var r := WithAssistantReply(prev, b);
    assert |rb| == |r|;
    forall i | 0 <= i < |r| ensures rb[i] == r[i] {
      if i < |prev| - 1 {
        assert rb[i] == rb[..|ra| - 1][i] == ra[..|prev| - 1][i] == prev[..|prev| - 1][i];
        assert r[i] == r[..|prev| - 1][i];
      } else if i == |r| - 1 {
      } else {
        assert i == |prev| - 1 && |r| == |prev| + 1;
        assert r[i] == r[..|prev|][i] == prev[i];
        assert rb[i] == rb[..|ra| - 1][i] == ra[i] == ra[..|prev|][i];
      }
    }
  }

  /** The transcript after `updateAssistant` was called with each of `replies`, in order. */
  function Replies(prev: seq<Message>, replies: seq<string>): seq<Message>
    decreases |replies|
  {
    if replies == [] then prev
    else WithAssistantReply(Replies(prev, replies[..|replies| - 1]), replies[|replies| - 1])
  }

  /** However many updates a stream produces, the transcript ends with one assistant message holding the last of them. */
  lemma {:induction false} RepliesCollapse(prev: seq<Message>, replies: seq<string>)
    requires replies != []
    ensures Replies(prev, replies) == WithAssistantReply(prev, replies[|replies| - 1])
    decreases |replies|
  {
    var init := replies[..|replies| - 1];
    if init != [] {
      RepliesCollapse(prev, init);
      assert init[|init| - 1] == replies[|replies| - 2];
      ReplyReplacesReply(prev, init[|init| - 1], replies[|replies| - 1]);
    }
  }

  /** Updates made in two batches are the updates of both, in order. */
  lemma {:induction false} RepliesAppend(prev: seq<Message>, a: seq<string>, b: seq<string>)
    ensures Replies(prev, a + b) == Replies(Replies(prev, a), b)
    decreases |b|
  {
    if b == [] {
      assert a + b == a;
    } else {
      assert (a + b)[..|a + b| - 1] == a + b[..|b| - 1];
      assert (a + b)[|a + b| - 1] == b[|b| - 1];
      RepliesAppend(prev, a, b[..|b| - 1]);
    }
  }

  /** The transcript a stream leaves: one assistant message with the accumulated text, if anything arrived. */
  function Transcript(prev: seq<Message>, emits: seq<string>, acc: string): seq<Message> {
    if emits == [] then prev else WithAssistantReply(prev, acc)
  }

  /** Applying a stream's updates one by one leaves exactly the transcript that shows its accumulated text. */
  lemma StreamTranscript(prev: seq<Message>, emits: seq<string>, acc: string)
    requires acc == Latest([], emits)
    ensures Replies(prev, emits) == Transcript(prev, emits, acc)
  {
    if emits != [] {
      RepliesCollapse(prev, emits);
    }
  }

  /**
   * `messageText || input.trim()` (line 124): a quick action's text is used
   * as it is unless it is empty; otherwise the typed input, trimmed.
   */
  function SendText(messageText: Option<string>, input: string): (text: string)
    ensures messageText.Some? && messageText.value != [] ==> text == messageText.value
    ensures (messageText.None? || messageText.value == []) ==> text == Trim(input)
  {
    match messageText
    case Some(t) => if t != [] then t else Trim(input)
    case None => Trim(input)
  }

  /** Typed input made only of white space is never sent. */
  lemma BlankInputIsNotSent(input: string)
    requires forall k :: 0 <= k < |input| ==> IsWhitespace(input[k])
    ensures SendText(None, input) == []
  {
    TrimEmptyIff(input);
  }

  /** How the request ended, as far as the panel can observe it. */
  datatype Response =
    | HttpError(errorField: Option<string>)       // `!response.ok`; the `error` field of the JSON body, if any
    | MissingBody                                  // `!response.body`
    | Streamed(chunks: seq<string>, readFailure: Option<string>)
      // the decoded chunks in order; then either the end of the body or a read error with its message

  /** `errorData.error || "Erro ao conectar com o assistente"` (line 61). */
  function HttpErrorText(errorField: Option<string>): (t: string)
    ensures t != []
    ensures errorField.Some? && errorField.value != [] ==> t == errorField.value
    ensures errorField.None? || errorField.value == [] ==> t == ConnectError
  {
    match errorField
    case Some(e) => if e != [] then e else ConnectError
    case None => ConnectError
  }

  class AssistantPanel {
    var messages: seq<Message>
    var input: string
    var isLoading: bool

    /** The initial state (lines 19-21). */
    constructor ()
      ensures messages == [] && input == [] && !isLoading
    {
      messages := [];
      input := [];
      isLoading := false;
    }

    /** `updateAssistant(content)` (lines 70-79): show `content` as the current assistant reply. */
    method UpdateAssistant(content: string)
      modifies this
      ensures messages == WithAssistantReply(old(messages), content)
      ensures input == old(input) && isLoading == old(isLoading)
    {
      messages := WithAssistantReply(messages, content);
    }

    /**
     * The synchronous part of `handleSend` (lines 123-133) and the first
     * statement of `streamChat` (line 46): an empty text, or a request still
     * in flight, is ignored; otherwise the user's message is appended, the
     * input cleared, and the panel waits for the reply. `request` is the
     * transcript sent to the assistant.
     */
    method Send(messageText: Option<string>) returns (started: bool, request: seq<Message>)
      modifies this
      ensures var text := SendText(messageText, old(input));
              started <==> text != [] && !old(isLoading)
      ensures started ==> messages == old(messages) + [Message(User, SendText(messageText, old(input)))] &&
                          request == messages && input == [] && isLoading
      ensures !started ==> messages == old(messages) && input == old(input) &&
                           isLoading == old(isLoading) && request == []
    {
      var text := SendText(messageText, input);
      if text == [] || isLoading {
        return false, [];
      }
      messages := messages + [Message(User, text)];
      input := [];
      isLoading := true;
      started, request := true, messages;
    }

    /**
     * The rest of `streamChat` (lines 48-121): read the response, letting the
     * decoder update the assistant's reply as content arrives; on any error
     * append the apology and report the toast text; in every case stop
     * loading.
     */
    method Receive(parse: Parser, response: Response) returns (toast: Option<string>)
      modifies this
      ensures !isLoading && input == old(input)
      ensures response.HttpError? ==>
                toast == Some(HttpErrorText(response.errorField)) &&
                messages == old(messages) + [Message(Assistant, Apology)]
      ensures response.MissingBody? ==>
                toast == Some(NoBody) && messages == old(messages) + [Message(Assistant, Apology)]
      ensures response.Streamed? ==>
                var f := Feed(parse, response.chunks, [], []);
                var shown := Transcript(old(messages), f.emits, f.acc);
                match response.readFailure
                case None => toast == None && messages == shown
                case Some(reason) => toast == Some(reason) && messages == shown + [Message(Assistant, Apology)]
    {
      match response {
        case HttpError(errorField) =>
          toast := Some(HttpErrorText(errorField));
          messages := messages + [Message(Assistant, Apology)];
        case MissingBody =>
          toast := Some(NoBody);
          messages := messages + [Message(Assistant, Apology)];
        case Streamed(chunks, readFailure) =>
          ghost var m0 := messages;
          var decoder := new StreamDecoder();
          ghost var emitted: seq<string> := [];
          var k := 0;
          while k < |chunks|
            invariant 0 <= k <= |chunks|
            invariant input == old(input)
            invariant messages == Replies(m0, emitted)
            invariant var f := Feed(parse, chunks[k..], decoder.buffer, decoder.content);
                      Feed(parse, chunks, [], []) == FeedResult(f.buffer, f.acc, emitted + f.emits)
          {
            ghost var r := Pass(parse, decoder.buffer + chunks[k], decoder.content);
            ghost var f := Feed(parse, chunks[k + 1..], r.buffer, r.acc);
            assert chunks[k..][0] == chunks[k] && chunks[k..][1..] == chunks[k + 1..];
            decoder.Push(parse, chunks[k], this);
            RepliesAppend(m0, emitted, r.emits);
            AppendAssoc(emitted, r.emits, f.emits);
            emitted := emitted + r.emits;
            k := k + 1;
          }
          ghost var f := Feed(parse, chunks, [], []);
          AppendEmpty(emitted);
          FeedGrows(parse, chunks, [], []);
          StreamTranscript(m0, f.emits, f.acc);
          toast := None;
          if readFailure.Some? {
            toast := readFailure;
            messages := messages + [Message(Assistant, Apology)];
          }
      }
      isLoading := false;
    }
  }

  /** The locals of one `streamChat` call: the undecoded text and the accumulated reply. */
  class StreamDecoder {
    var buffer: string
    var content: string

    /** `let assistantContent = ""` and `let textBuffer = ""` (lines 47 and 68). */
    constructor ()
      ensures buffer == [] && content == []
    {
      buffer := [];
      content := [];
    }

    /**
     * The read loop's handling of one chunk (lines 84-109): append it and
     * read complete lines until none is left, `[DONE]` is seen, or a payload
     * fails to parse. Every non-empty content extends the reply and is shown
     * in `panel` at once.
     */
    method Push(parse: Parser, chunk: string, panel: AssistantPanel)
      modifies this, panel
      ensures var r := Pass(parse, old(buffer) + chunk, old(content));
              buffer == r.buffer && content == r.acc &&
              panel.messages == Replies(old(panel.messages), r.emits)
      ensures panel.input == old(panel.input) && panel.isLoading == old(panel.isLoading)
    {
      buffer := buffer + chunk;
      ghost var target := Pass(parse, buffer, content);
      ghost var m0 := panel.messages;
      ghost var emitted: seq<string> := [];
      AppendEmpty(target.emits);
      while IndexOf(buffer, '\n') != -1
        invariant panel.input == old(panel.input) && panel.isLoading == old(panel.isLoading)
        invariant panel.messages == Replies(m0, emitted)
        invariant PassContinues(parse, buffer, content, emitted, target)
        decreases |buffer|
      {
        ghost var before, acc := buffer, content;
        var line := NextLine();
        var finished := HandleLine(parse, line, panel);
        ContinuesOnLine(parse, before, acc, emitted, target);
        if finished {
          return;
        }
        RepliesAppend(m0, emitted, Sent(acc, Added(parse, line)));
        emitted := emitted + Sent(acc, Added(parse, line));
      }
      ContinuesAtEnd(parse, buffer, content, emitted, target);
    }

    /** Lines 87-90: cut the first complete line off the buffer and drop its carriage return. */
    method NextLine() returns (line: string)
      requires IndexOf(buffer, '\n') != -1
      modifies this
      ensures var i := IndexOf(old(buffer), '\n');
              line == StripCR(old(buffer)[..i]) && buffer == old(buffer)[i + 1..]
      ensures content == old(content) && |buffer| < |old(buffer)|
    {
      var newlineIndex := IndexOf(buffer, '\n');
      line := buffer[..newlineIndex];
      buffer := buffer[newlineIndex + 1..];
      if EndsWith(line, "\r") {
        line := line[..|line| - 1];
      }
    }

    /**
     * Lines 92-107: what the loop does with one line. Comments, blank lines
     * and other fields are passed over; `[DONE]` ends the pass; a payload
     * that does not parse goes back in front of the buffer and ends the
     * pass; a parsed payload's non-empty content is appended and shown.
     */
    method HandleLine(parse: Parser, line: string, panel: AssistantPanel) returns (finished: bool)
      modifies this, panel
      ensures finished <==> LineAction(parse, line) == Finish || LineAction(parse, line) == Rewind
      ensures buffer == if LineAction(parse, line) == Rewind then line + "\n" + old(buffer) else old(buffer)
      ensures content == old(content) + Added(parse, line)
      ensures panel.messages == Replies(old(panel.messages), Sent(old(content), Added(parse, line)))
      ensures panel.input == old(panel.input) && panel.isLoading == old(panel.isLoading)
    {
      finished := false;
      AppendEmpty(content);
      match Classify(line) {
        case Comment | Blank | OtherField =>
        case Terminator =>
          finished := true;
        case Data(jsonStr) =>
          var parsed := parse(jsonStr);
          if parsed.ParseFail? {
            buffer := line + "\n" + buffer;
            finished := true;
          } else {
            var fragment := Fragment(parsed);
            if fragment != [] {
              content := content + fragment;
              panel.UpdateAssistant(content);
              assert [content][..0] == [];
            }
          }
      }
    }
  }
}
