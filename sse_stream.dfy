/**
 * The line protocol that the chat panel's `streamChat` reads from the
 * assistant's response body (src/components/auth/AIAssistant.tsx:81-110),
 * stated as functions on values. It is a simplified subset of the event
 * stream format of the WHATWG HTML Living Standard (section 9.2.6,
 * "Interpreting an event stream"): only `data: ` lines (with the space)
 * carry anything, blank lines never dispatch, and a payload is decoded as
 * soon as its line is complete.
 *
 * `Pass` is one run of the inner `while` loop over the text buffer and
 * `Feed` the outer read loop over a sequence of already-decoded chunks.
 * `Contents`, `Tail` and `WellFormed` are an independent, line-by-line
 * reading of a whole stream, against which `Feed` is proved.
 */
module SseStream {
  import opened Wrappers
  import opened JsText
  import opened SeqLemmas

  /**
   * What `JSON.parse(payload)` followed by `parsed.choices?.[0]?.delta?.content`
   * produces: either an exception inside the `try` (a syntax error, or a
   * payload that parses to `null`), or the content field, which may be absent.
   */
  datatype ParseResult = ParseFail | Parsed(content: Option<string>)

  /** The JSON decoding is not modelled; every operation takes it as a given function. */
  type Parser = string -> ParseResult

  /** How a line (already without its trailing carriage return) is treated. */
  datatype LineKind = Comment | Blank | OtherField | Terminator | Data(payload: string)

  const DataPrefix: string := "data: "
  const DoneSentinel: string := "[DONE]"

  /** `if (line.endsWith("\r")) line = line.slice(0, -1)` */
  function StripCR(raw: string): (line: string)
    ensures StartsWith(raw, line) && |raw| - 1 <= |line|
    ensures EndsWith(raw, "\r") <==> |line| == |raw| - 1
  {
    if EndsWith(raw, "\r") then raw[..|raw| - 1] else raw
  }

  /** Lines 92-96: comment or blank, a field other than `data: `, the `[DONE]` sentinel, or a payload. */
  function Classify(line: string): LineKind {
    if StartsWith(line, ":") then Comment
    else if Trim(line) == [] then Blank
    else if !StartsWith(line, DataPrefix) then OtherField
    else
      var payload := Trim(line[|DataPrefix|..]);
      if payload == DoneSentinel then Terminator else Data(payload)
  }

  /** The fragment a parsed payload adds: `if (content)` skips an absent and an empty content. */
  function Fragment(r: ParseResult): string {
    match r
    case Parsed(Some(c)) => c
    case _ => []
  }

  /** What the decoder does with one complete line, already without its carriage return. */
  datatype Action = Skip | Finish | Rewind | Append(fragment: string)

  /**
   * Lines 92-107: comments, blank lines and other fields are skipped,
   * `[DONE]` finishes the pass, a payload that does not parse is put back,
   * and a parsed payload contributes its content (possibly none).
   */
  function LineAction(parse: Parser, line: string): Action {
    match Classify(line)
    case Terminator => Finish
    case Data(p) => if parse(p).ParseFail? then Rewind else Append(Fragment(parse(p)))
    case _ => Skip
  }

  /** Why a pass over the buffer ended. */
  datatype Stop = NoNewline | SawDone | Rewound

  /** The buffer and accumulated text after a pass, and the strings handed to the sink, in order. */
  datatype PassResult = PassResult(buffer: string, acc: string, emits: seq<string>, stop: Stop)

  /** `s` is `t` followed by at least one more character. */
  predicate StrictlyExtends(s: string, t: string) {
    |t| < |s| && s[..|t|] == t
  }

  /** Each string handed to the sink strictly extends the one before, the first extending `acc`. */
  predicate Grows(acc: string, emits: seq<string>)
    decreases |emits|
  {
    emits == [] || (StrictlyExtends(emits[0], acc) && Grows(emits[0], emits[1..]))
  }

  /** The accumulated text after the sink calls `emits`, starting from `acc`. */
  function Latest(acc: string, emits: seq<string>): string {
    if emits == [] then acc else emits[|emits| - 1]
  }

  /**
   * One run of the inner loop (lines 86-109): cut the buffer at its first
   * line feed, drop one trailing carriage return, skip comments, blank lines
   * and other fields, stop at `[DONE]` keeping the rest, and otherwise parse
   * the payload; a parse failure puts the line back in front of the buffer
   * and stops.
   */
  function Pass(parse: Parser, buf: string, acc: string): PassResult
    decreases |buf|
  {
    var i := IndexOf(buf, '\n');
    if i == -1 then PassResult(buf, acc, [], NoNewline)
    else
      var line := StripCR(buf[..i]);
      var rest := buf[i + 1..];
      match LineAction(parse, line)
      case Finish => PassResult(rest, acc, [], SawDone)
      case Rewind => PassResult(line + "\n" + rest, acc, [], Rewound)
      case Skip => Pass(parse, rest, acc)
      case Append(c) =>
        if c == [] then Pass(parse, rest, acc)
        else
          var r := Pass(parse, rest, acc + c);
          PassResult(r.buffer, r.acc, [acc + c] + r.emits, r.stop)
  }

  /** Each string a pass hands to the sink strictly extends the one before, and the last is the accumulated text. */
  lemma {:induction false} PassGrows(parse: Parser, buf: string, acc: string)
    ensures var r := Pass(parse, buf, acc);
            Grows(acc, r.emits) && r.acc == Latest(acc, r.emits)
    decreases |buf|
  {
    var i := IndexOf(buf, '\n');
    if i != -1 {
      var r := Pass(parse, buf, acc);
      var line := StripCR(buf[..i]);
      var c := Added(parse, line);
      AppendEmpty(r.emits);
      AppendEmpty(acc);
      ContinuesOnLine(parse, buf, acc, [], r);
      if LineAction(parse, line) != Finish && LineAction(parse, line) != Rewind {
        var n := Pass(parse, buf[i + 1..], acc + c);
        PassGrows(parse, buf[i + 1..], acc + c);
        AppendEmpty(Sent(acc, c));
        GrowsSent(acc, c, n.emits);
      }
    }
  }

  /** Sending the extended text, if anything was added, keeps the sink arguments growing. */
  lemma GrowsSent(acc: string, c: string, emits: seq<string>)
    requires Grows(acc + c, emits)
    ensures Grows(acc, Sent(acc, c) + emits) && Latest(acc, Sent(acc, c) + emits) == Latest(acc + c, emits)
  {
    if c == [] {
      AppendEmpty(acc);
      AppendEmpty(emits);
    } else {
      var e := [acc + c] + emits;
      assert e[0] == acc + c && e[1..] == emits;
      assert StrictlyExtends(acc + c, acc);
    }
  }

  /** The buffer, accumulated text and sink calls after a sequence of chunks. */
  datatype FeedResult = FeedResult(buffer: string, acc: string, emits: seq<string>)

  lemma {:induction false} GrowsAppend(acc: string, e1: seq<string>, e2: seq<string>)
    requires Grows(acc, e1) && Grows(Latest(acc, e1), e2)
    ensures Grows(acc, e1 + e2) && Latest(acc, e1 + e2) == Latest(Latest(acc, e1), e2)
    decreases |e1|
  {
    if e1 == [] {
      assert e1 + e2 == e2;
    } else {
      assert Latest(acc, e1) == Latest(e1[0], e1[1..]);
      GrowsAppend(e1[0], e1[1..], e2);
      assert (e1 + e2)[0] == e1[0];
      assert (e1 + e2)[1..] == e1[1..] + e2;
      assert Latest(acc, e1 + e2) == Latest(e1[0], e1[1..] + e2);
    }
  }

  /**
   * The outer read loop (lines 81-84): each chunk is appended to the buffer
   * and followed by one pass. A pass that stopped at `[DONE]` or at a parse
   * failure does not end the loop; the next chunk starts a new pass.
   */
  function Feed(parse: Parser, chunks: seq<string>, buf: string, acc: string): FeedResult
    decreases |chunks|
  {
    if chunks == [] then FeedResult(buf, acc, [])
    else
      var r := Pass(parse, buf + chunks[0], acc);
      var f := Feed(parse, chunks[1..], r.buffer, r.acc);
      FeedResult(f.buffer, f.acc, r.emits + f.emits)
  }

  /** Over a whole stream too, each sink argument strictly extends the one before, and the last is the accumulated text. */
  lemma {:induction false} FeedGrows(parse: Parser, chunks: seq<string>, buf: string, acc: string)
    ensures var f := Feed(parse, chunks, buf, acc);
            Grows(acc, f.emits) && f.acc == Latest(acc, f.emits)
    decreases |chunks|
  {
    if chunks != [] {
      var r := Pass(parse, buf + chunks[0], acc);
      PassGrows(parse, buf + chunks[0], acc);
      FeedGrows(parse, chunks[1..], r.buffer, r.acc);
      GrowsAppend(acc, r.emits, Feed(parse, chunks[1..], r.buffer, r.acc).emits);
    }
  }

  /** Successive sink arguments are prefix-extensions of one another and of the starting text. */
  lemma {:induction false} GrowsMeansPrefixes(acc: string, emits: seq<string>)
    requires Grows(acc, emits)
    ensures forall j :: 0 <= j < |emits| ==> StrictlyExtends(emits[j], acc)
    ensures forall i, j :: 0 <= i < j < |emits| ==> StrictlyExtends(emits[j], emits[i])
    decreases |emits|
  {
    if emits != [] {
      GrowsMeansPrefixes(emits[0], emits[1..]);
      forall j | 0 < j < |emits| ensures StrictlyExtends(emits[j], acc) {
        assert emits[j] == emits[1..][j - 1];
        assert emits[j][..|acc|] == emits[j][..|emits[0]|][..|acc|];
      }
      forall i, j | 0 <= i < j < |emits| ensures StrictlyExtends(emits[j], emits[i]) {
        assert emits[j] == emits[1..][j - 1];
        if i > 0 {
          assert emits[i] == emits[1..][i - 1];
        }
      }
    }
  }

  /** The first line of `raw + "\n" + rest` is `raw`, and cutting it off leaves `rest`. */
  lemma CutAtNewline(raw: string, rest: string)
    requires '\n' !in raw
    ensures var buf := raw + "\n" + rest;
            IndexOf(buf, '\n') == |raw| && buf[..|raw|] == raw && buf[|raw| + 1..] == rest
  {
    IndexOfFirst(raw, '\n', rest);
    assert raw + "\n" + rest == raw + ['\n'] + rest;
  }

  // ---------------------------------------------------------------------
  // One line at a time: what a pass does with the first complete line.
  // ---------------------------------------------------------------------

  /** A comment, blank line or field other than `data: ` is consumed with no other effect. */
  lemma PassSkipsLine(parse: Parser, raw: string, rest: string, acc: string)
    requires '\n' !in raw
    requires Classify(StripCR(raw)).Comment? || Classify(StripCR(raw)).Blank? ||
             Classify(StripCR(raw)).OtherField?
    ensures Pass(parse, raw + "\n" + rest, acc) == Pass(parse, rest, acc)
  {
    CutAtNewline(raw, rest);
  }

  /** `data: [DONE]` is consumed and ends the pass; the rest of the buffer is kept, unread. */
  lemma PassStopsAtDone(parse: Parser, raw: string, rest: string, acc: string)
    requires '\n' !in raw && Classify(StripCR(raw)).Terminator?
    ensures Pass(parse, raw + "\n" + rest, acc) == PassResult(rest, acc, [], SawDone)
  {
    CutAtNewline(raw, rest);
  }

  /**
   * `[DONE]` does not end the stream: the lines after it stay in the buffer
   * and are read as soon as the next chunk arrives, as if the sentinel line
   * had never been sent and the rest had come with that chunk.
   */
  lemma DoneOnlyDelaysTheRest(parse: Parser, done: string, rest: string, chunks: seq<string>, acc: string)
    requires '\n' !in done && Classify(StripCR(done)).Terminator?
    requires chunks != []
    ensures Feed(parse, [done + "\n" + rest] + chunks, [], acc) == Feed(parse, [rest + chunks[0]] + chunks[1..], [], acc)
  {
    var first := done + "\n" + rest;
    assert ([first] + chunks)[0] == first && ([first] + chunks)[1..] == chunks;
    assert ([rest + chunks[0]] + chunks[1..])[0] == rest + chunks[0];
    assert ([rest + chunks[0]] + chunks[1..])[1..] == chunks[1..];
    AppendEmpty(first);
    AppendEmpty(rest + chunks[0]);
    PassStopsAtDone(parse, done, rest, acc);
    var r := Pass(parse, rest + chunks[0], acc);
    var f := Feed(parse, chunks[1..], r.buffer, r.acc);
    AppendEmpty(r.emits + f.emits);
  }

  /** A payload that does not parse goes back in front of the buffer, without its carriage return, and ends the pass. */
  lemma PassRewindsOnParseFailure(parse: Parser, raw: string, rest: string, acc: string)
    requires '\n' !in raw && Classify(StripCR(raw)).Data?
    requires parse(Classify(StripCR(raw)).payload).ParseFail?
    ensures Pass(parse, raw + "\n" + rest, acc) ==
            PassResult(StripCR(raw) + "\n" + rest, acc, [], Rewound)
  {
    CutAtNewline(raw, rest);
  }

  /** A non-empty content is appended and the whole accumulated text goes to the sink; an empty or absent one changes nothing. */
  lemma PassAppendsContent(parse: Parser, raw: string, rest: string, acc: string, c: string)
    requires '\n' !in raw && LineAction(parse, StripCR(raw)) == Append(c)
    ensures var r := Pass(parse, rest, acc + c);
            Pass(parse, raw + "\n" + rest, acc) ==
              if c == [] then Pass(parse, rest, acc) else PassResult(r.buffer, r.acc, [acc + c] + r.emits, r.stop)
  {
    CutAtNewline(raw, rest);
  }

  /**
   * What a pass does with the first complete line of the buffer: `[DONE]`
   * ends it, an unparseable payload rewinds, and any other line is read
   * (adding its content, if any) before the pass goes on with the rest.
   */
  lemma PassUnfold(parse: Parser, buf: string, acc: string)
    requires IndexOf(buf, '\n') != -1
    ensures var i := IndexOf(buf, '\n');
            var raw, rest := buf[..i], buf[i + 1..];
            var r := Pass(parse, buf, acc);
            var n := Pass(parse, rest, acc + Added(parse, StripCR(raw)));
            match LineAction(parse, StripCR(raw))
            case Finish => r == PassResult(rest, acc, [], SawDone)
            case Rewind => r == PassResult(StripCR(raw) + "\n" + rest, acc, [], Rewound)
            case _ => r.buffer == n.buffer && r.acc == n.acc && r.stop == n.stop
  {
    AppendEmpty(acc);
  }

  /**
   * A pass over `buf` from `acc`, after the sink calls `emitted`, ends as
   * `target`: the loop invariant of a pass run one line at a time.
   */
  predicate PassContinues(parse: Parser, buf: string, acc: string, emitted: seq<string>, target: PassResult) {
    var p := Pass(parse, buf, acc);
    target == PassResult(p.buffer, p.acc, emitted + p.emits, p.stop)
  }

  /** A line that adds nothing and does not stop the pass is consumed with no other effect. */
  lemma ContinuesOnSkip(parse: Parser, buf: string, acc: string, emitted: seq<string>, target: PassResult)
    requires IndexOf(buf, '\n') != -1 && PassContinues(parse, buf, acc, emitted, target)
    requires var a := LineAction(parse, StripCR(buf[..IndexOf(buf, '\n')]));
             a == Skip || a == Append([])
    ensures PassContinues(parse, buf[IndexOf(buf, '\n') + 1..], acc, emitted, target)
  {
  }

  /** A line with a non-empty content extends the text and hands it to the sink before the pass goes on. */
  lemma ContinuesOnAppend(parse: Parser, buf: string, acc: string, emitted: seq<string>, target: PassResult, c: string)
    requires IndexOf(buf, '\n') != -1 && c != [] && PassContinues(parse, buf, acc, emitted, target)
    requires LineAction(parse, StripCR(buf[..IndexOf(buf, '\n')])) == Append(c)
    ensures PassContinues(parse, buf[IndexOf(buf, '\n') + 1..], acc + c, emitted + [acc + c], target)
  {
    var r := Pass(parse, buf[IndexOf(buf, '\n') + 1..], acc + c);
    AppendAssoc(emitted, [acc + c], r.emits);
  }

  /** `[DONE]` ends the pass: what is left after the line is the final buffer. */
  lemma ContinuesOnDone(parse: Parser, buf: string, acc: string, emitted: seq<string>, target: PassResult)
    requires IndexOf(buf, '\n') != -1 && PassContinues(parse, buf, acc, emitted, target)
    requires LineAction(parse, StripCR(buf[..IndexOf(buf, '\n')])) == Finish
    ensures target == PassResult(buf[IndexOf(buf, '\n') + 1..], acc, emitted, SawDone)
  {
    AppendEmpty(emitted);
  }

  /** A payload that does not parse ends the pass with its line put back in front of the rest. */
  lemma ContinuesOnRewind(parse: Parser, buf: string, acc: string, emitted: seq<string>, target: PassResult)
    requires IndexOf(buf, '\n') != -1 && PassContinues(parse, buf, acc, emitted, target)
    requires LineAction(parse, StripCR(buf[..IndexOf(buf, '\n')])) == Rewind
    ensures var i := IndexOf(buf, '\n');
            target == PassResult(StripCR(buf[..i]) + "\n" + buf[i + 1..], acc, emitted, Rewound)
  {
    AppendEmpty(emitted);
  }

  /** Without a line feed the pass ends at once: the buffer is the final one. */
  lemma ContinuesAtEnd(parse: Parser, buf: string, acc: string, emitted: seq<string>, target: PassResult)
    requires IndexOf(buf, '\n') == -1 && PassContinues(parse, buf, acc, emitted, target)
    ensures target == PassResult(buf, acc, emitted, NoNewline)
  {
    AppendEmpty(emitted);
  }

  /** The content one line (already without its carriage return) adds. */
  function Added(parse: Parser, line: string): string {
    match LineAction(parse, line)
    case Append(c) => c
    case _ => []
  }

  /** The sink calls made after adding `c` to `acc`: none for an empty content. */
  function Sent(acc: string, c: string): seq<string> {
    if c == [] then [] else [acc + c]
  }

  /**
   * The first line of the buffer, one step of the loop invariant:
   * `[DONE]` and a rewind end the pass where the invariant says, and any
   * other line leaves the invariant holding for the rest of the buffer.
   */
  lemma ContinuesOnLine(parse: Parser, buf: string, acc: string, emitted: seq<string>, target: PassResult)
    requires IndexOf(buf, '\n') != -1 && PassContinues(parse, buf, acc, emitted, target)
    ensures var i := IndexOf(buf, '\n');
            var line, rest := StripCR(buf[..i]), buf[i + 1..];
            var c := Added(parse, line);
            match LineAction(parse, line)
            case Finish => target == PassResult(rest, acc + c, emitted, SawDone)
            case Rewind => target == PassResult(line + "\n" + rest, acc + c, emitted, Rewound)
            case _ => PassContinues(parse, rest, acc + c, emitted + Sent(acc, c), target)
  {
    var i := IndexOf(buf, '\n');
    var line := StripCR(buf[..i]);
    AppendEmpty(acc);
    AppendEmpty(emitted);
    match LineAction(parse, line)
    case Finish =>
      ContinuesOnDone(parse, buf, acc, emitted, target);
    case Rewind =>
      ContinuesOnRewind(parse, buf, acc, emitted, target);
    case Skip =>
      ContinuesOnSkip(parse, buf, acc, emitted, target);
    case Append(c) =>
      if c == [] {
        ContinuesOnSkip(parse, buf, acc, emitted, target);
      } else {
        ContinuesOnAppend(parse, buf, acc, emitted, target, c);
      }
  }

  lemma EndsWithDrop(s: string, k: nat, t: string)
    requires k <= |s| && EndsWith(s[k..], t)
    ensures EndsWith(s, t)
  {
    assert s[|s| - |t|..] == s[k..][|s[k..]| - |t|..];
  }

  /** A pass ends for want of a line feed only when none is left; otherwise it keeps an end part of the buffer, unless it rewound. */
  lemma {:induction false} PassLeavesSuffix(parse: Parser, buf: string, acc: string)
    ensures var r := Pass(parse, buf, acc);
            (r.stop == NoNewline ==> '\n' !in r.buffer) &&
            (r.stop != Rewound ==> EndsWith(buf, r.buffer))
    decreases |buf|
  {
    var i := IndexOf(buf, '\n');
    if i == -1 {
      IndexOfFindsFirst(buf, '\n');
    } else {
      var rest := buf[i + 1..];
      var a := LineAction(parse, StripCR(buf[..i]));
      PassUnfold(parse, buf, acc);
      if a == Finish {
        EndsWithDrop(buf, i + 1, rest);
      } else if a != Rewind {
        var n := Pass(parse, rest, acc + Added(parse, StripCR(buf[..i])));
        PassLeavesSuffix(parse, rest, acc + Added(parse, StripCR(buf[..i])));
        if n.stop != Rewound {
          EndsWithDrop(buf, i + 1, n.buffer);
        }
      }
    }
  }

  // ---------------------------------------------------------------------
  // A whole stream read line by line, and the chunking theorem.
  // ---------------------------------------------------------------------

  /** The complete lines of `s` (each without its line feed), in order. */
  function Lines(s: string): seq<string>
    decreases |s|
  {
    var i := IndexOf(s, '\n');
    if i == -1 then [] else [s[..i]] + Lines(s[i + 1..])
  }

  /** The text after the last line feed of `s`: its unterminated last line. */
  function Tail(s: string): string
    decreases |s|
  {
    var i := IndexOf(s, '\n');
    if i == -1 then s else Tail(s[i + 1..])
  }

  /** The tail holds no line feed and is an end part of the string. */
  lemma {:induction false} TailIsLastLine(s: string)
    ensures '\n' !in Tail(s) && EndsWith(s, Tail(s))
    decreases |s|
  {
    var i := IndexOf(s, '\n');
    IndexOfFindsFirst(s, '\n');
    if i != -1 {
      TailIsLastLine(s[i + 1..]);
    }
  }

  /** The concatenated contents of a sequence of complete lines. */
  function ContentsOf(parse: Parser, ls: seq<string>): string
    decreases |ls|
  {
    if ls == [] then [] else Added(parse, StripCR(ls[0])) + ContentsOf(parse, ls[1..])
  }

  /** The concatenated contents of all complete lines of `s`. */
  function Contents(parse: Parser, s: string): string {
    ContentsOf(parse, Lines(s))
  }

  /**
   * The sink calls a line-by-line reading of complete lines makes, starting
   * from the text `acc`: one call with the whole new text for each line
   * whose content is non-empty.
   */
  function EmitsOf(parse: Parser, ls: seq<string>, acc: string): seq<string>
    decreases |ls|
  {
    if ls == [] then []
    else
      var c := Added(parse, StripCR(ls[0]));
      Sent(acc, c) + EmitsOf(parse, ls[1..], acc + c)
  }

  /**
   * Every line is one the decoder reads past: a payload that parses, or a
   * line it skips; `[DONE]` only as the last line.
   */
  predicate LinesOk(parse: Parser, ls: seq<string>)
    decreases |ls|
  {
    ls == [] ||
    match LineAction(parse, StripCR(ls[0]))
    case Finish => |ls| == 1
    case Rewind => false
    case _ => LinesOk(parse, ls[1..])
  }

  /** Every complete line of `s` is one the decoder reads past, and `[DONE]` can only be the last. */
  predicate WellFormed(parse: Parser, s: string) {
    LinesOk(parse, Lines(s))
  }

  /** A string with no complete line is all tail. */
  lemma NoLine(s: string)
    requires IndexOf(s, '\n') == -1
    ensures Lines(s) == [] && Tail(s) == s
  {
  }

  /** Unfolding at the first line feed. */
  lemma LinesCons(s: string)
    requires IndexOf(s, '\n') != -1
    ensures var i := IndexOf(s, '\n');
            Lines(s) == [s[..i]] + Lines(s[i + 1..]) && Tail(s) == Tail(s[i + 1..])
  {
  }

  /** Cutting the first line off `s + c`, when `s` has a line feed, leaves the rest of `s` followed by `c`. */
  lemma FirstLineOfAppend(s: string, c: string)
    requires IndexOf(s, '\n') != -1
    ensures var i := IndexOf(s, '\n');
            Lines(s + c) == [s[..i]] + Lines(s[i + 1..] + c) && Tail(s + c) == Tail(s[i + 1..] + c)
  {
    IndexOfAppend(s, '\n', c);
  }

  /** Text appended to a stream continues its unterminated last line. */
  lemma {:induction false} LinesAppend(s: string, c: string)
    ensures Lines(s + c) == Lines(s) + Lines(Tail(s) + c)
    ensures Tail(s + c) == Tail(Tail(s) + c)
    decreases |s|
  {
    var i := IndexOf(s, '\n');
    if i != -1 {
      var rest := s[i + 1..];
      FirstLineOfAppend(s, c);
      LinesAppend(rest, c);
      LinesCons(s);
      ConsAssoc(s[..i], Lines(rest), Lines(Tail(rest) + c));
    } else {
      NoLine(s);
      assert [] + Lines(s + c) == Lines(s + c);
    }
  }

  /** The complete lines of `raw + "\n" + rest` are `raw` followed by those of `rest`. */
  lemma FirstLine(raw: string, rest: string)
    requires '\n' !in raw
    ensures var s := raw + "\n" + rest;
            Lines(s) == [raw] + Lines(rest) && Tail(s) == Tail(rest)
  {
    CutAtNewline(raw, rest);
  }

  lemma {:induction false} ContentsOfConcat(parse: Parser, a: seq<string>, b: seq<string>)
    ensures ContentsOf(parse, a + b) == ContentsOf(parse, a) + ContentsOf(parse, b)
    decreases |a|
  {
    if a == [] {
      assert a + b == b;
    } else {
      ContentsOfCons(parse, a[0], a[1..] + b);
      ConsAssoc(a[0], a[1..], b);
      assert [a[0]] + a[1..] == a;
      ContentsOfConcat(parse, a[1..], b);
    }
  }

  /** The sink calls of two runs of lines: the second run starts from the text the first one left. */
  lemma {:induction false} EmitsOfConcat(parse: Parser, a: seq<string>, b: seq<string>, acc: string)
    ensures EmitsOf(parse, a + b, acc) == EmitsOf(parse, a, acc) + EmitsOf(parse, b, acc + ContentsOf(parse, a))
    decreases |a|
  {
    if a == [] {
      assert a + b == b;
      AppendEmpty(acc);
    } else {
      var c := Added(parse, StripCR(a[0]));
      assert (a + b)[0] == a[0] && (a + b)[1..] == a[1..] + b;
      EmitsOfConcat(parse, a[1..], b, acc + c);
      AppendAssoc(acc, c, ContentsOf(parse, a[1..]));
      AppendAssoc(Sent(acc, c), EmitsOf(parse, a[1..], acc + c),
                  EmitsOf(parse, b, acc + c + ContentsOf(parse, a[1..])));
    }
  }

  lemma ContentsOfCons(parse: Parser, x: string, ls: seq<string>)
    ensures ContentsOf(parse, [x] + ls) == Added(parse, StripCR(x)) + ContentsOf(parse, ls)
  {
    assert ([x] + ls)[1..] == ls;
  }

  lemma LinesOkCons(parse: Parser, x: string, ls: seq<string>)
    ensures LinesOk(parse, [x] + ls) <==>
            match LineAction(parse, StripCR(x))
            case Finish => ls == []
            case Rewind => false
            case _ => LinesOk(parse, ls)
  {
    assert ([x] + ls)[0] == x;
    assert ([x] + ls)[1..] == ls;
  }

  /** Both parts of a well-formed sequence of lines are well-formed. */
  lemma {:induction false} LinesOkConcat(parse: Parser, a: seq<string>, b: seq<string>)
    requires LinesOk(parse, a + b)
    ensures LinesOk(parse, a) && LinesOk(parse, b)
    decreases |a|
  {
    if a == [] {
      assert a + b == b;
    } else {
      ConsAssoc(a[0], a[1..], b);
      assert [a[0]] + a[1..] == a;
      LinesOkCons(parse, a[0], a[1..] + b);
      LinesOkCons(parse, a[0], a[1..]);
      if !LineAction(parse, StripCR(a[0])).Finish? {
        LinesOkConcat(parse, a[1..], b);
      }
    }
  }

  /** Removing a skipped line from well-formed lines leaves them well-formed. */
  lemma {:induction false} SkipKeepsLinesOk(parse: Parser, a: seq<string>, raw: string, b: seq<string>)
    requires LineAction(parse, StripCR(raw)) == Skip
    requires LinesOk(parse, a + ([raw] + b))
    ensures LinesOk(parse, a + b)
    decreases |a|
  {
    if a == [] {
      AppendEmpty([raw] + b);
      AppendEmpty(b);
      LinesOkCons(parse, raw, b);
    } else {
      ConsAssoc(a[0], a[1..], [raw] + b);
      ConsAssoc(a[0], a[1..], b);
      assert [a[0]] + a[1..] == a;
      LinesOkCons(parse, a[0], a[1..] + ([raw] + b));
      LinesOkCons(parse, a[0], a[1..] + b);
      if !LineAction(parse, StripCR(a[0])).Finish? {
        SkipKeepsLinesOk(parse, a[1..], raw, b);
      }
    }
  }

  /** The line-by-line reading, unfolded at the first complete line. */
  lemma ReadFirstLine(parse: Parser, buf: string)
    requires IndexOf(buf, '\n') != -1
    ensures var i := IndexOf(buf, '\n');
            var rest := buf[i + 1..];
            Tail(buf) == Tail(rest) &&
            Contents(parse, buf) == Added(parse, StripCR(buf[..i])) + Contents(parse, rest) &&
            (WellFormed(parse, buf) <==>
              match LineAction(parse, StripCR(buf[..i]))
              case Finish => Lines(rest) == []
              case Rewind => false
              case _ => WellFormed(parse, rest))
  {
    var i := IndexOf(buf, '\n');
    LinesCons(buf);
    ContentsOfCons(parse, buf[..i], Lines(buf[i + 1..]));
    LinesOkCons(parse, buf[..i], Lines(buf[i + 1..]));
  }

  /** A pass over `buf` reads every complete line and keeps exactly the unterminated rest. */
  predicate ReadsAll(parse: Parser, buf: string, acc: string) {
    var r := Pass(parse, buf, acc);
    r.buffer == Tail(buf) && r.acc == acc + Contents(parse, buf) && r.stop != Rewound
  }

  /** A buffer without a complete line is read entirely: nothing is added and all of it is kept. */
  lemma ReadsNoLine(parse: Parser, buf: string, acc: string)
    requires IndexOf(buf, '\n') == -1
    ensures ReadsAll(parse, buf, acc)
  {
    NoLine(buf);
    AppendEmpty(acc);
  }

  /** A well-formed buffer whose first line is `[DONE]`: the pass stops there, having read everything. */
  lemma PassReadsDone(parse: Parser, buf: string, acc: string)
    requires IndexOf(buf, '\n') != -1 && WellFormed(parse, buf)
    requires LineAction(parse, StripCR(buf[..IndexOf(buf, '\n')])).Finish?
    ensures ReadsAll(parse, buf, acc)
  {
    var i := IndexOf(buf, '\n');
    ReadFirstLine(parse, buf);
    PassUnfold(parse, buf, acc);
    NoLineLeft(parse, buf[i + 1..]);
    AppendEmpty(acc);
  }

  /** A first line that is read: if the pass reads the rest entirely, it reads the whole buffer entirely. */
  lemma PassReadsLine(parse: Parser, buf: string, acc: string)
    requires IndexOf(buf, '\n') != -1 && WellFormed(parse, buf)
    requires !LineAction(parse, StripCR(buf[..IndexOf(buf, '\n')])).Finish?
    requires var i := IndexOf(buf, '\n');
             ReadsAll(parse, buf[i + 1..], acc + Added(parse, StripCR(buf[..i])))
    ensures ReadsAll(parse, buf, acc)
  {
    var i := IndexOf(buf, '\n');
    ReadFirstLine(parse, buf);
    PassUnfold(parse, buf, acc);
    AppendAssoc(acc, Added(parse, StripCR(buf[..i])), Contents(parse, buf[i + 1..]));
  }

  /**
   * The first line of a well-formed buffer: the rest is well-formed, and
   * reading the rest entirely (after adding the line's content) means
   * reading the whole buffer entirely.
   */
  lemma PassReadsFirst(parse: Parser, buf: string, acc: string)
    requires IndexOf(buf, '\n') != -1 && WellFormed(parse, buf)
    ensures var i := IndexOf(buf, '\n');
            var rest, c := buf[i + 1..], Added(parse, StripCR(buf[..i]));
            WellFormed(parse, rest) && (ReadsAll(parse, rest, acc + c) ==> ReadsAll(parse, buf, acc))
  {
    var i := IndexOf(buf, '\n');
    ReadFirstLine(parse, buf);
    if LineAction(parse, StripCR(buf[..i])).Finish? {
      NoLineLeft(parse, buf[i + 1..]);
      PassReadsDone(parse, buf, acc);
    } else if ReadsAll(parse, buf[i + 1..], acc + Added(parse, StripCR(buf[..i]))) {
      PassReadsLine(parse, buf, acc);
    }
  }

  /** On a well-formed buffer a pass reads every complete line and keeps exactly the unterminated rest. */
  lemma {:induction false} PassReadsWellFormed(parse: Parser, buf: string, acc: string)
    requires WellFormed(parse, buf)
    ensures ReadsAll(parse, buf, acc)
    decreases |buf|
  {
    var i := IndexOf(buf, '\n');
    if i == -1 {
      ReadsNoLine(parse, buf, acc);
    } else {
      PassReadsFirst(parse, buf, acc);
      PassReadsWellFormed(parse, buf[i + 1..], acc + Added(parse, StripCR(buf[..i])));
    }
  }

  /** On a well-formed buffer a pass makes exactly the sink calls of the line-by-line reading of its complete lines. */
  lemma {:induction false} PassEmitsWellFormed(parse: Parser, buf: string, acc: string)
    requires WellFormed(parse, buf)
    ensures Pass(parse, buf, acc).emits == EmitsOf(parse, Lines(buf), acc)
    decreases |buf|
  {
    var i := IndexOf(buf, '\n');
    if i == -1 {
      NoLine(buf);
    } else {
      var rest, line := buf[i + 1..], StripCR(buf[..i]);
      var c := Added(parse, line);
      ReadFirstLine(parse, buf);
      LinesCons(buf);
      var ls := [buf[..i]] + Lines(rest);
      assert ls[0] == buf[..i] && ls[1..] == Lines(rest);
      AppendEmpty(acc);
      match LineAction(parse, line)
      case Finish =>
        assert EmitsOf(parse, Lines(rest), acc + c) == [];
      case Rewind =>
      case Skip =>
        PassEmitsWellFormed(parse, rest, acc + c);
      case Append(_) =>
        PassEmitsWellFormed(parse, rest, acc + c);
    }
  }

  /** A string without complete lines is all tail and holds nothing to read. */
  lemma NoLineLeft(parse: Parser, s: string)
    requires Lines(s) == []
    ensures Tail(s) == s && Contents(parse, s) == []
  {
  }

  lemma JoinChunks(x: string, xs: seq<string>)
    ensures Join([x] + xs, []) == x + Join(xs, [])
  {
    if xs != [] {
      JoinCons(x, xs, []);
      AppendEmpty(x);
    }
  }

  /** Appending more text to a well-formed stream: the lines and contents split at the old tail. */
  lemma ReadAppend(parse: Parser, s: string, more: string)
    requires WellFormed(parse, s + more)
    ensures WellFormed(parse, s) && WellFormed(parse, Tail(s) + more)
    ensures Tail(s + more) == Tail(Tail(s) + more)
    ensures Contents(parse, s + more) == Contents(parse, s) + Contents(parse, Tail(s) + more)
  {
    LinesAppend(s, more);
    LinesOkConcat(parse, Lines(s), Lines(Tail(s) + more));
    ContentsOfConcat(parse, Lines(s), Lines(Tail(s) + more));
  }

  /**
   * Reading a well-formed stream chunk by chunk, from a buffer holding at
   * most a partial line, leaves exactly the stream's unterminated last line
   * in the buffer and appends exactly the contents of its complete lines.
   */
  lemma {:induction false} FeedReadsWellFormed(parse: Parser, chunks: seq<string>, buf: string, acc: string)
    requires WellFormed(parse, buf + Join(chunks, []))
    requires Lines(buf) == []
    ensures var f := Feed(parse, chunks, buf, acc);
            f.buffer == Tail(buf + Join(chunks, [])) &&
            f.acc == acc + Contents(parse, buf + Join(chunks, []))
    decreases |chunks|
  {
    if chunks == [] {
      AppendEmpty(buf);
      NoLineLeft(parse, buf);
      AppendEmpty(acc);
    } else {
      var c0, cs := chunks[0], chunks[1..];
      assert [c0] + cs == chunks;
      JoinChunks(c0, cs);
      var more := Join(cs, []);
      var s := buf + c0;
      assert buf + Join(chunks, []) == s + more;
      ReadAppend(parse, s, more);
      PassReadsWellFormed(parse, s, acc);
      var r := Pass(parse, s, acc);
      TailHasNoLines(s);
      FeedReadsWellFormed(parse, cs, r.buffer, r.acc);
      AppendAssoc(acc, Contents(parse, s), Contents(parse, Tail(s) + more));
    }
  }

  /**
   * Reading a well-formed stream chunk by chunk, from a buffer holding at
   * most a partial line, makes exactly the sink calls of the line-by-line
   * reading of the whole stream.
   */
  lemma {:induction false} FeedEmitsWellFormed(parse: Parser, chunks: seq<string>, buf: string, acc: string)
    requires WellFormed(parse, buf + Join(chunks, []))
    requires Lines(buf) == []
    ensures Feed(parse, chunks, buf, acc).emits == EmitsOf(parse, Lines(buf + Join(chunks, [])), acc)
    decreases |chunks|
  {
    if chunks == [] {
      AppendEmpty(buf);
    } else {
      var c0, cs := chunks[0], chunks[1..];
      assert [c0] + cs == chunks;
      JoinChunks(c0, cs);
      var more := Join(cs, []);
      var s := buf + c0;
      assert buf + Join(chunks, []) == s + more;
      ReadAppend(parse, s, more);
      PassReadsWellFormed(parse, s, acc);
      PassEmitsWellFormed(parse, s, acc);
      var r := Pass(parse, s, acc);
      TailHasNoLines(s);
      FeedEmitsWellFormed(parse, cs, r.buffer, r.acc);
      LinesAppend(s, more);
      EmitsOfConcat(parse, Lines(s), Lines(Tail(s) + more), acc);
    }
  }

  /** The tail has no complete line. */
  lemma TailHasNoLines(s: string)
    ensures Lines(Tail(s)) == []
  {
    TailIsLastLine(s);
    IndexOfFindsFirst(Tail(s), '\n');
  }

  /**
   * When every data line parses and `[DONE]` can only be the last complete
   * line, how the stream is cut into chunks does not matter: the sink gets
   * the same calls with the same texts, the same text is accumulated and
   * the same partial line is left as when it arrives in one chunk.
   */
  lemma ChunkingDoesNotMatter(parse: Parser, chunks: seq<string>, acc: string)
    requires WellFormed(parse, Join(chunks, []))
    ensures var whole := Feed(parse, [Join(chunks, [])], [], acc);
            var parts := Feed(parse, chunks, [], acc);
            parts.emits == whole.emits && parts.acc == whole.acc && parts.buffer == whole.buffer
  {
    var s := Join(chunks, []);
    assert [] + s == s;
    FeedReadsWellFormed(parse, chunks, [], acc);
    FeedEmitsWellFormed(parse, chunks, [], acc);
    assert Join([s], []) == s;
    FeedReadsWellFormed(parse, [s], [], acc);
    FeedEmitsWellFormed(parse, [s], [], acc);
  }

  /**
   * Inserting a comment, a blank line or another field between complete
   * lines leaves the accumulated text as it was, and removing one from a
   * well-formed stream keeps it well-formed.
   */
  lemma SkippedLineIsInvisible(parse: Parser, before: string, raw: string, after: string)
    requires Tail(before) == []
    requires '\n' !in raw
    requires LineAction(parse, StripCR(raw)) == Skip
    ensures Lines(before + raw + "\n" + after) == Lines(before) + [raw] + Lines(after)
    ensures Contents(parse, before + raw + "\n" + after) == Contents(parse, before + after)
    ensures WellFormed(parse, before + raw + "\n" + after) ==> WellFormed(parse, before + after)
  {
    var a, b := Lines(before), Lines(after);
    SkippedLineLines(before, raw, after);
    AppendAssoc(a, [raw], b);
    SkippedLineContents(parse, a, raw, b);
    if WellFormed(parse, before + raw + "\n" + after) {
      SkipKeepsLinesOk(parse, a, raw, b);
    }
  }

  /** How the lines of the stream split around a complete line placed after a tail-less prefix. */
  lemma SkippedLineLines(before: string, raw: string, after: string)
    requires Tail(before) == []
    requires '\n' !in raw
    ensures Lines(before + raw + "\n" + after) == Lines(before) + [raw] + Lines(after)
    ensures Lines(before + after) == Lines(before) + Lines(after)
  {
    var line := raw + "\n" + after;
    assert before + raw + "\n" + after == before + line;
    LinesAppend(before, line);
    LinesAppend(before, after);
    AppendEmpty(line);
    AppendEmpty(after);
    FirstLine(raw, after);
    AppendAssoc(Lines(before), [raw], Lines(after));
  }

  /** A skipped line contributes nothing to the contents. */
  lemma SkippedLineContents(parse: Parser, a: seq<string>, raw: string, b: seq<string>)
    requires LineAction(parse, StripCR(raw)) == Skip
    ensures ContentsOf(parse, a + ([raw] + b)) == ContentsOf(parse, a + b)
  {
    ContentsOfConcat(parse, a, [raw] + b);
    ContentsOfConcat(parse, a, b);
    ContentsOfCons(parse, raw, b);
    AppendEmpty(ContentsOf(parse, b));
  }

  // ---------------------------------------------------------------------
  // The rewind never recovers.
  // ---------------------------------------------------------------------

  /** The buffer's first complete line is a `data: ` line whose payload does not parse. */
  predicate Stalled(parse: Parser, buf: string) {
    var i := IndexOf(buf, '\n');
    i != -1 && LineAction(parse, StripCR(buf[..i])) == Rewind
  }

  /** Dropping a second carriage return leaves a data line's payload as it was (`trim` removes it anyway). */
  lemma ClassifyStripAgain(line: string)
    requires Classify(line).Data?
    ensures Classify(StripCR(line)) == Classify(line)
  {
    if EndsWith(line, "\r") {
      var shorter := line[..|line| - 1];
      assert line[|line| - 1] == '\r';
      assert |line| > |DataPrefix| by {
        assert line[..|DataPrefix|] == DataPrefix;
      }
      assert StartsWith(shorter, DataPrefix) by {
        assert shorter[..|DataPrefix|] == line[..|DataPrefix|];
      }
      assert shorter[0] == 'd';
      TrimKeepsFirst(shorter);
      assert line[|DataPrefix|..] == shorter[|DataPrefix|..] + ['\r'];
      TrimIgnoresTrailingWhitespace(shorter[|DataPrefix|..], '\r');
    }
  }

  /** The line a rewind puts back is again read as the same unparseable data line. */
  lemma RewoundLineIsStalled(parse: Parser, line: string, rest: string)
    requires '\n' !in line && LineAction(parse, line) == Rewind
    ensures Stalled(parse, line + "\n" + rest)
  {
    CutAtNewline(line, rest);
    ClassifyStripAgain(line);
  }

  /** A first line that rewinds is put back in front of the buffer, where it stalls. */
  lemma FirstLineStalls(parse: Parser, buf: string, acc: string)
    requires IndexOf(buf, '\n') != -1
    requires LineAction(parse, StripCR(buf[..IndexOf(buf, '\n')])) == Rewind
    ensures Stalled(parse, Pass(parse, buf, acc).buffer)
  {
    var i := IndexOf(buf, '\n');
    var raw := buf[..i];
    var line := StripCR(raw);
    PassUnfold(parse, buf, acc);
    IndexOfFindsFirst(buf, '\n');
    assert '\n' !in line by {
      assert raw[..|line|] == line;
    }
    RewoundLineIsStalled(parse, line, buf[i + 1..]);
  }

  /** A pass that ends with a rewind leaves the buffer starting with the same unparseable line. */
  lemma {:induction false} RewindLeavesStall(parse: Parser, buf: string, acc: string)
    requires Pass(parse, buf, acc).stop == Rewound
    ensures Stalled(parse, Pass(parse, buf, acc).buffer)
    decreases |buf|
  {
    var i := IndexOf(buf, '\n');
    PassUnfold(parse, buf, acc);
    if LineAction(parse, StripCR(buf[..i])) == Rewind {
      FirstLineStalls(parse, buf, acc);
    } else {
      RewindLeavesStall(parse, buf[i + 1..], acc + Added(parse, StripCR(buf[..i])));
    }
  }

  /**
   * Once stalled, every later chunk is appended behind the same line, the
   * pass rewinds at it again, and nothing more is ever accumulated: the
   * retry that the rewind is meant to allow can never succeed, because the
   * line it retries is already complete.
   */
  lemma StalledPassIsStuck(parse: Parser, buf: string, chunk: string, acc: string)
    requires Stalled(parse, buf)
    ensures var r := Pass(parse, buf + chunk, acc);
            r.acc == acc && r.emits == [] && r.stop == Rewound && Stalled(parse, r.buffer)
  {
    IndexOfAppend(buf, '\n', chunk);
    RewindLeavesStall(parse, buf + chunk, acc);
  }

  /** A stalled decoder accumulates nothing more, whatever chunks follow. */
  lemma {:induction false} StalledFeedIsStuck(parse: Parser, chunks: seq<string>, buf: string, acc: string)
    requires Stalled(parse, buf)
    ensures Feed(parse, chunks, buf, acc).acc == acc && Feed(parse, chunks, buf, acc).emits == []
    decreases |chunks|
  {
    if chunks != [] {
      StalledPassIsStuck(parse, buf, chunks[0], acc);
      var r := Pass(parse, buf + chunks[0], acc);
      StalledFeedIsStuck(parse, chunks[1..], r.buffer, acc);
    }
  }
}
