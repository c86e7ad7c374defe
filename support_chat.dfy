/** The support chat panel (src/components/SupportChat.tsx): the incremental decoder of the
    newline-delimited `data: ` event stream inside `streamChat`, and the message list that
    `sendMessage` and `streamChat` maintain. */
module SupportChat {
  import opened Common
  import opened Text

  /** What `JSON.parse(payload)` followed by the lookup `choices[0].delta.content` yields: a parse
      failure, or the content when it is a present string (`None` when it is absent). */
  datatype ParseResult = Fail | Ok(content: Option<string>)

  /** JSON parsing with the content lookup, taken as an arbitrary deterministic function. */
  type Parser = string -> ParseResult

  const DataPrefix: string := "data: "
  const DoneSentinel: string := "[DONE]"

  /** The classification both passes of the decoder apply to a carriage-return-stripped line. */
  datatype Frame = Ignored | Done | Malformed | Delta(content: Option<string>)

  /** Drops one trailing carriage return (`line.endsWith('\r')`). */
  function StripCR(line: string): (r: string)
    ensures |line| > 0 && line[|line| - 1] == '\r' ==> line == r + ['\r']
    ensures !(|line| > 0 && line[|line| - 1] == '\r') ==> r == line
  {
    if |line| > 0 && line[|line| - 1] == '\r' then line[..|line| - 1] else line
  }

  /** Comment and blank lines and lines without the `data: ` prefix are ignored; the payload is the
      trimmed text after the prefix; `[DONE]` is the sentinel; anything else goes to the parser. */
  function Classify(parse: Parser, line: string): Frame
  {
    if StartsWith(line, ":") || Trim(line) == "" then Ignored
    else if !StartsWith(line, DataPrefix) then Ignored
    else
      var payload := Trim(line[|DataPrefix|..]);
      if payload == DoneSentinel then Done
      else match parse(payload)
        case Fail => Malformed
        case Ok(content) => Delta(content)
  }

  /** The text a single line of the stream adds to the reply. */
  function LineDelta(parse: Parser, raw: string): string
  {
    match Classify(parse, StripCR(raw))
    case Delta(Some(c)) => c
    case _ => ""
  }

  /** The in-order concatenation of what each line adds. */
  function Deltas(parse: Parser, lines: seq<string>): string
  {
    if lines == [] then "" else LineDelta(parse, lines[0]) + Deltas(parse, lines[1..])
  }

  /** The reply a whole stream text produces: what every `\n`-separated line of it adds, the
      unterminated last segment included. */
  function Emitted(parse: Parser, text: string): string
  {
    Deltas(parse, Split(text, '\n'))
  }

  /** The stream text delivered as a sequence of decoded chunks. */
  function Concat(chunks: seq<string>): string
  {
    if chunks == [] then "" else Concat(chunks[..|chunks| - 1]) + chunks[|chunks| - 1]
  }

  /** The complete (newline-terminated) lines of a text. */
  function Complete(text: string): seq<string>
  {
    var lines := Split(text, '\n');
    lines[..|lines| - 1]
  }

  /** The unterminated last segment of a text: what follows its last newline. */
  function Partial(text: string): (tail: string)
    ensures '\n' !in tail
  {
    var lines := Split(text, '\n');
    SplitPiecesLackSeparator(text, '\n');
    lines[|lines| - 1]
  }

  /** What the complete lines of a text add to the reply; later text cannot change it. */
  function Settled(parse: Parser, text: string): string
  {
    Deltas(parse, Complete(text))
  }

  /** Decoder state `(after, shown')` is as good as `(before, shown)`: whatever text still arrives,
      both end with the same reply (see `AgreesFinal` and `AgreesExtend`). */
  ghost predicate Agrees(parse: Parser, before: string, shown: string, after: string, shown': string)
  {
    shown + Settled(parse, before) == shown' + Settled(parse, after) && Partial(before) == Partial(after)
  }

  /** A line emits text exactly when it is a `data: ` frame whose trimmed payload is not `[DONE]`
      and parses to a non-empty content string; the text is then that string. */
  lemma LineDeltaEmits(parse: Parser, raw: string)
    ensures var line := StripCR(raw);
            LineDelta(parse, raw) != "" <==>
              StartsWith(line, DataPrefix) &&
              var payload := Trim(line[|DataPrefix|..]);
              payload != DoneSentinel && parse(payload).Ok? && parse(payload).content.Some? &&
              parse(payload).content.value != ""
    ensures var line := StripCR(raw);
            LineDelta(parse, raw) != "" ==>
              StartsWith(line, DataPrefix) &&
              parse(Trim(line[|DataPrefix|..])) == Ok(Some(LineDelta(parse, raw)))
  {
    var line := StripCR(raw);
    LineDeltaCases(parse, raw, line);
    if StartsWith(line, DataPrefix) {
      DataLineNotBlank(line);
    }
  }

  /** A `data: ` line is neither a comment nor blank. */
  lemma DataLineNotBlank(line: string)
    requires StartsWith(line, DataPrefix)
    ensures !StartsWith(line, ":") && Trim(line) != ""
  {
    assert line[0] == DataPrefix[0] == 'd';
    assert !AllWhitespace(line);
  }

  /** Text appended to a buffer only extends its unterminated segment: the lines completed so far
      are kept, and the new lines come from that segment followed by the new text. */
  lemma {:induction false} SplitAppend(text: string, t: string)
    ensures Split(text + t, '\n') == Complete(text) + Split(Partial(text) + t, '\n')
    decreases |text|
  {
    var i := IndexOf(text, '\n');
    if i == -1 {
      NoNewlineAppend(text, t);
    } else {
      var line, rest := text[..i], text[i + 1..];
      FirstLineCut(text, i, t);
      SplitAppend(rest, t);
      ConsAssoc(line, Complete(rest), Split(Partial(rest) + t, '\n'));
    }
  }

  /** Cutting the first line off a text, with or without more text after it. */
  lemma FirstLineCut(text: string, i: int, t: string)
    requires i == IndexOf(text, '\n') && i != -1
    ensures Complete(text) == [text[..i]] + Complete(text[i + 1..]) && Partial(text) == Partial(text[i + 1..])
    ensures Split(text + t, '\n') == [text[..i]] + Split(text[i + 1..] + t, '\n')
  {
    FirstLineOfText(text, i);
    FirstLineOfExtended(text, i, t);
  }

  lemma FirstLineOfText(text: string, i: int)
    requires i == IndexOf(text, '\n') && i != -1
    ensures Complete(text) == [text[..i]] + Complete(text[i + 1..]) && Partial(text) == Partial(text[i + 1..])
  {
    var line, rest := text[..i], text[i + 1..];
    var lines, restLines := Split(text, '\n'), Split(rest, '\n');
    assert lines == [line] + restLines;
    LinesOfCons(line, restLines);
    assert Complete(text) == lines[..|lines| - 1] && Partial(text) == lines[|lines| - 1];
    assert Complete(rest) == restLines[..|restLines| - 1] && Partial(rest) == restLines[|restLines| - 1];
  }

  lemma FirstLineOfExtended(text: string, i: int, t: string)
    requires i == IndexOf(text, '\n') && i != -1
    ensures Split(text + t, '\n') == [text[..i]] + Split(text[i + 1..] + t, '\n')
  {
    ConsLine(text, i, t);
    SplitFirst(text[..i], '\n', text[i + 1..] + t);
  }

  lemma NoNewlineAppend(text: string, t: string)
    requires IndexOf(text, '\n') == -1
    ensures Split(text + t, '\n') == Complete(text) + Split(Partial(text) + t, '\n')
  {
    assert Split(text, '\n') == [text];
    assert Complete(text) == [] && Partial(text) == text;
  }

  lemma ConsLine(text: string, i: int, t: string)
    requires 0 <= i < |text| && text[i] == '\n'
    ensures text + t == text[..i] + "\n" + (text[i + 1..] + t)
  {
  }

  lemma LinesOfCons(line: string, lines: seq<string>)
    requires |lines| >= 1
    ensures var all := [line] + lines;
            all[..|all| - 1] == [line] + lines[..|lines| - 1] && all[|all| - 1] == lines[|lines| - 1]
  {
  }

  lemma LastOfAppend<T>(a: seq<T>, b: seq<T>)
    requires |b| >= 1
    ensures var all := a + b;
            all[..|all| - 1] == a + b[..|b| - 1] && all[|all| - 1] == b[|b| - 1]
  {
    var all := a + b;
    assert forall k :: 0 <= k < |a| ==> all[k] == a[k];
    assert forall k :: |a| <= k < |all| ==> all[k] == b[k - |a|];
  }

  lemma ConsAssoc(line: string, a: seq<string>, b: seq<string>)
    ensures [line] + (a + b) == ([line] + a) + b
  {
  }

  /** Cutting the first line off a buffer settles that line's delta and leaves the rest. */
  lemma SettledFirstLine(parse: Parser, line: string, rest: string)
    requires '\n' !in line
    ensures Settled(parse, line + "\n" + rest) == LineDelta(parse, line) + Settled(parse, rest)
    ensures Partial(line + "\n" + rest) == Partial(rest)
  {
    SplitFirst(line, '\n', rest);
    assert Complete(line + "\n" + rest) == [line] + Complete(rest);
  }

  /** Appending text to a buffer settles what its unterminated segment and the new text complete. */
  lemma SettledAppend(parse: Parser, text: string, t: string)
    ensures Settled(parse, text + t) == Settled(parse, text) + Settled(parse, Partial(text) + t)
    ensures Partial(text + t) == Partial(Partial(text) + t)
  {
    CompleteAppend(text, t);
    DeltasAppend(parse, Complete(text), Complete(Partial(text) + t));
  }

  /** Appending text to a buffer completes the lines of its unterminated segment and the new text. */
  lemma CompleteAppend(text: string, t: string)
    ensures Complete(text + t) == Complete(text) + Complete(Partial(text) + t)
    ensures Partial(text + t) == Partial(Partial(text) + t)
  {
    SplitAppend(text, t);
    LastOfAppend(Complete(text), Split(Partial(text) + t, '\n'));
  }

  /** The whole reply of a text is what its complete lines settle plus what its last segment adds. */
  lemma EmittedIsSettledPlusPartial(parse: Parser, text: string)
    ensures Emitted(parse, text) == Settled(parse, text) + LineDelta(parse, Partial(text))
  {
    var lines := Split(text, '\n');
    assert lines == Complete(text) + [Partial(text)];
    DeltasAppend(parse, Complete(text), [Partial(text)]);
  }

  /** Agreeing decoder states produce the same reply once the stream ends. */
  lemma AgreesFinal(parse: Parser, before: string, shown: string, after: string, shown': string)
    requires Agrees(parse, before, shown, after, shown')
    ensures shown + Emitted(parse, before) == shown' + Emitted(parse, after)
  {
    EmittedIsSettledPlusPartial(parse, before);
    EmittedIsSettledPlusPartial(parse, after);
    AppendBoth(shown, Settled(parse, before), shown', Settled(parse, after), LineDelta(parse, Partial(before)));
  }

  /** Equal strings stay equal when the same text is appended to both. */
  lemma AppendBoth(a: string, b: string, c: string, d: string, e: string)
    requires a + b == c + d
    ensures a + (b + e) == c + (d + e)
  {
    assert a + (b + e) == (a + b) + e;
    assert c + (d + e) == (c + d) + e;
  }

  /** A malformed line stays malformed once its trailing carriage return is stripped again, so the
      line the decoder puts back emits nothing, as the original did. */
  lemma RebufferedLineEmitsNothing(parse: Parser, raw: string)
    requires Classify(parse, StripCR(raw)) == Malformed
    ensures LineDelta(parse, StripCR(raw)) == "" && LineDelta(parse, raw) == ""
  {
    var l1 := StripCR(raw);
    var l2 := StripCR(l1);
    if l2 != l1 {
      MalformedWithoutCR(parse, l2);
    }
  }

  /** A trailing carriage return cannot be what makes a data frame malformed. */
  lemma MalformedWithoutCR(parse: Parser, line: string)
    requires Classify(parse, line + ['\r']) == Malformed
    ensures Classify(parse, line) == Malformed
  {
    var l1 := line + ['\r'];
    assert StartsWith(l1, DataPrefix);
    DataPrefixKept(line);
    TrimIgnoresTrailingWhitespace(line[|DataPrefix|..], '\r');
  }

  lemma DataPrefixKept(line: string)
    requires StartsWith(line + ['\r'], DataPrefix)
    ensures StartsWith(line, DataPrefix) && !StartsWith(line, ":") && Trim(line) != ""
    ensures (line + ['\r'])[|DataPrefix|..] == line[|DataPrefix|..] + ['\r']
  {
    var l1 := line + ['\r'];
    assert l1[|DataPrefix| - 1] == ' ';
    assert |line| >= |DataPrefix|;
    assert line[..|DataPrefix|] == l1[..|DataPrefix|];
    assert line[0] == 'd';
    assert !IsWhitespace(line[0]);
  }

  lemma {:induction false} DeltasAppend(parse: Parser, a: seq<string>, b: seq<string>)
    ensures Deltas(parse, a + b) == Deltas(parse, a) + Deltas(parse, b)
  {
    if a == [] {
      assert a + b == b;
    } else {
      assert (a + b)[1..] == a[1..] + b;
      DeltasAppend(parse, a[1..], b);
    }
  }

  /** A buffer holding only whitespace emits nothing, which is why the final flush may skip it. */
  lemma WhitespaceEmitsNothing(parse: Parser, text: string)
    requires AllWhitespace(text)
    ensures Emitted(parse, text) == ""
  {
    var lines := Split(text, '\n');
    SplitAllWhitespace(text, '\n');
    BlankLinesEmitNothing(parse, lines);
  }

  lemma {:induction false} BlankLinesEmitNothing(parse: Parser, lines: seq<string>)
    requires forall k :: 0 <= k < |lines| ==> AllWhitespace(lines[k])
    ensures Deltas(parse, lines) == ""
  {
    if lines != [] {
      var line := StripCR(lines[0]);
      assert AllWhitespace(line) by {
        forall i | 0 <= i < |line| ensures IsWhitespace(line[i]) {
          assert line[i] == lines[0][i];
        }
      }
      BlankLinesEmitNothing(parse, lines[1..]);
    }
  }

  /** Appending the same text to both sides keeps two decoder states in agreement. */
  lemma AgreesExtend(parse: Parser, before: string, shown: string, after: string, shown': string, chunk: string)
    requires Agrees(parse, before, shown, after, shown')
    ensures Agrees(parse, before + chunk, shown, after + chunk, shown')
  {
    SettledAppend(parse, before, chunk);
    SettledAppend(parse, after, chunk);
    AppendBoth(shown, Settled(parse, before), shown', Settled(parse, after), Settled(parse, Partial(before) + chunk));
  }

  /** What a line adds, by the cases the decoder tests in turn. */
  lemma LineDeltaCases(parse: Parser, raw: string, line: string)
    requires line == StripCR(raw)
    ensures StartsWith(line, ":") || Trim(line) == "" || !StartsWith(line, DataPrefix) ==>
              LineDelta(parse, raw) == ""
    ensures !StartsWith(line, ":") && Trim(line) != "" && StartsWith(line, DataPrefix) ==>
              var payload := Trim(line[|DataPrefix|..]);
              LineDelta(parse, raw) ==
                if payload == DoneSentinel then ""
                else match parse(payload)
                  case Ok(Some(c)) => c
                  case _ => ""
  {
  }

  /** Cutting a complete line off the decoder buffer and appending what it adds keeps agreement. */
  lemma AgreesCutLine(parse: Parser, buffer0: string, shown0: string, before: string, shown: string,
                      raw: string, rest: string)
    requires Agrees(parse, buffer0, shown0, before, shown)
    requires '\n' !in raw && before == raw + "\n" + rest
    ensures Agrees(parse, buffer0, shown0, rest, shown + LineDelta(parse, raw))
  {
    SettledFirstLine(parse, raw, rest);
    AppendAssoc(shown, LineDelta(parse, raw), Settled(parse, rest));
  }

  /** Putting a malformed line back in front of the rest of the buffer keeps agreement. */
  lemma AgreesRebuffer(parse: Parser, buffer0: string, shown0: string, before: string, shown: string,
                       raw: string, rest: string)
    requires Agrees(parse, buffer0, shown0, before, shown)
    requires '\n' !in raw && before == raw + "\n" + rest
    requires Classify(parse, StripCR(raw)) == Malformed
    ensures Agrees(parse, buffer0, shown0, StripCR(raw) + "\n" + rest, shown)
  {
    RebufferedLineEmitsNothing(parse, raw);
    SettledFirstLine(parse, raw, rest);
    SettledFirstLine(parse, StripCR(raw), rest);
  }

  lemma AppendAssoc(a: string, b: string, c: string)
    ensures a + (b + c) == (a + b) + c
  {
  }

  /** A string is the text before a newline, the newline and the text after it. */
  lemma CutAt(s: string, i: int)
    requires 0 <= i < |s| && s[i] == '\n' && '\n' !in s[..i]
    ensures s == s[..i] + "\n" + s[i + 1..] && '\n' !in s[..i]
  {
  }

  /** The inner loop of `streamChat` (lines 79-106): cuts complete lines off the front of the
      buffer and appends their content, stopping early at `[DONE]` or at a line that does not parse,
      which it puts back in front of the buffer. */
  method DrainLines(parse: Parser, textBuffer: string, assistantContent: string)
    returns (rest: string, content: string)
    ensures Agrees(parse, textBuffer, assistantContent, rest, content)
  {
    rest, content := textBuffer, assistantContent;
    var newlineIndex := IndexOf(rest, '\n');
    while newlineIndex != -1
      invariant newlineIndex == IndexOf(rest, '\n')
      invariant Agrees(parse, textBuffer, assistantContent, rest, content)
      decreases |rest|
    {
      var line := rest[..newlineIndex];
      ghost var before, raw, content0 := rest, line, content;
      rest := rest[newlineIndex + 1..];
      CutAt(before, newlineIndex);
      ghost var delta := LineDelta(parse, raw);
      LineDeltaCases(parse, raw, StripCR(raw));

      line := StripCR(line);
      if StartsWith(line, ":") || Trim(line) == "" {
        assert delta == "";
      } else if !StartsWith(line, DataPrefix) {
        assert delta == "";
      } else {
        var jsonStr := Trim(line[|DataPrefix|..]);
        if jsonStr == DoneSentinel {
          assert delta == "";
          AgreesCutLine(parse, textBuffer, assistantContent, before, content, raw, rest);
          assert content + delta == content;
          break;
        }
        match parse(jsonStr)
        case Ok(c) =>
          if c.Some? && c.value != "" {
            assert delta == c.value;
            content := content + c.value;
          } else {
            assert delta == "";
          }
        case Fail =>
          AgreesRebuffer(parse, textBuffer, assistantContent, before, content, raw, rest);
          rest := line + "\n" + rest;
          break;
      }
      AgreesCutLine(parse, textBuffer, assistantContent, before, content0, raw, rest);
      assert content == content0 + delta;
      newlineIndex := IndexOf(rest, '\n');
    }
  }

  /** The final flush of `streamChat` (lines 110-131): every line left in the buffer, terminated or
      not, is classified once more; lines that do not parse are dropped. */
  method FlushBuffer(parse: Parser, textBuffer: string, assistantContent: string)
    returns (content: string)
    ensures content == assistantContent + Emitted(parse, textBuffer)
  {
    content := assistantContent;
    if Trim(textBuffer) != "" {
      var lines := Split(textBuffer, '\n');
      for k := 0 to |lines|
        invariant content == assistantContent + Deltas(parse, lines[..k])
      {
        var delta := FlushLine(parse, lines[k]);
        content := content + delta;
        DeltasSnoc(parse, lines, k);
        AppendAssoc(assistantContent, Deltas(parse, lines[..k]), delta);
      }
      TakeAll(lines);
    } else {
      WhitespaceEmitsNothing(parse, textBuffer);
    }
  }

  /** One line of the final flush (lines 113-129): the content it adds, or nothing for a blank,
      comment, non-data, `[DONE]` or unparsable line. */
  method FlushLine(parse: Parser, line: string) returns (delta: string)
    ensures delta == LineDelta(parse, line)
  {
    LineDeltaCases(parse, line, StripCR(line));
    delta := "";
    if line != "" {
      var raw := StripCR(line);
      if StartsWith(raw, ":") || Trim(raw) == "" {
      } else if !StartsWith(raw, DataPrefix) {
      } else {
        var jsonStr := Trim(raw[|DataPrefix|..]);
        if jsonStr != DoneSentinel {
          match parse(jsonStr)
          case Ok(c) =>
            if c.Some? && c.value != "" {
              delta := c.value;
            }
          case Fail =>
        }
      }
    }
  }

  lemma DeltasSnoc(parse: Parser, lines: seq<string>, k: int)
    requires 0 <= k < |lines|
    ensures Deltas(parse, lines[..k + 1]) == Deltas(parse, lines[..k]) + LineDelta(parse, lines[k])
  {
    assert lines[..k + 1] == lines[..k] + [lines[k]];
    DeltasAppend(parse, lines[..k], [lines[k]]);
  }

  /** Two decoder states that agree with a third agree with each other. */
  lemma AgreesTrans(parse: Parser, a: string, sa: string, b: string, sb: string, c: string, sc: string)
    requires Agrees(parse, a, sa, b, sb) && Agrees(parse, b, sb, c, sc)
    ensures Agrees(parse, a, sa, c, sc)
  {
  }

  lemma ConcatSnoc(chunks: seq<string>, i: int)
    requires 0 <= i < |chunks|
    ensures Concat(chunks[..i + 1]) == Concat(chunks[..i]) + chunks[i]
  {
    assert chunks[..i + 1][..i] == chunks[..i];
  }

  /** A decoder state that agrees with the fresh decoder fed `text` has shown a prefix of the
      reply to `text`, and flushing its buffer completes that reply. */
  lemma DecodedSoFar(parse: Parser, text: string, buffer: string, shown: string)
    requires Agrees(parse, text, "", buffer, shown)
    ensures shown <= Emitted(parse, text)
    ensures shown + Emitted(parse, buffer) == Emitted(parse, text)
  {
    AgreesFinal(parse, text, "", buffer, shown);
    assert "" + Emitted(parse, text) == Emitted(parse, text);
  }

  datatype Role = User | Assistant

  datatype Message = Message(role: Role, content: string)

  /** How the chat endpoint answers: refused (`!response.ok || !response.body`, with the `error` field
      of its JSON body if any), or a body delivering chunks, after which the reader either reports the
      end of the stream or fails with a message. */
  datatype Reply = Refused(errorField: Option<string>) | Streamed(chunks: seq<string>, readFailure: Option<string>)

  const ConnectFailure: string := "Failed to connect. Please try again."

  /** The message `streamChat` throws for a refused request. */
  function RefusalMessage(errorField: Option<string>): (msg: string)
    ensures msg != ""
    ensures errorField.Some? && errorField.value != "" ==> msg == errorField.value
    ensures errorField.None? || errorField.value == "" ==> msg == ConnectFailure
  {
    if errorField.Some? && errorField.value != "" then errorField.value else ConnectFailure
  }

  /** The list with its last message replaced, as the decoder's `setMessages` updates do. */
  function ReplaceLast(messages: seq<Message>, m: Message): (r: seq<Message>)
    requires messages != []
    ensures |r| == |messages| && r[..|r| - 1] == messages[..|messages| - 1] && r[|r| - 1] == m
  {
    messages[..|messages| - 1] + [m]
  }

  lemma SnocParts(prefix: seq<Message>, s: seq<Message>)
    requires |s| == |prefix| + 1 && s[..|prefix|] == prefix
    ensures s == prefix + [s[|prefix|]]
  {
  }

  predicate HasContent(m: Message)
  {
    m.content != ""
  }

  /** The text `sendMessage` sends: the explicit text when it is non-empty, else the trimmed input. */
  function SubmittedText(messageText: Option<string>, input: string): (text: string)
    ensures messageText.Some? && messageText.value != "" ==> text == messageText.value
    ensures (messageText.None? || messageText.value == "") ==> text == Trim(input)
    ensures text == "" <==> (messageText.None? || messageText.value == "") && AllWhitespace(input)
  {
    if messageText.Some? && messageText.value != "" then messageText.value else Trim(input)
  }

  class ChatPanel {
    var messages: seq<Message>
    var input: string
    var isLoading: bool
    var error: Option<string>

    constructor ()
      ensures messages == [] && input == "" && !isLoading && error == None
    {
      messages, input, isLoading, error := [], "", false, None;
    }

    /** Typing into the text area. */
    method SetInput(text: string)
      modifies this`input
      ensures input == text
    {
      input := text;
    }

    /** `streamChat` (lines 45-132): adds an empty assistant message and decodes the stream into it. */
    method StreamChat(parse: Parser, reply: Reply) returns (failure: Option<string>)
      modifies this`messages, this`error
      ensures error == None
      ensures reply.Refused? ==> messages == old(messages) && failure == Some(RefusalMessage(reply.errorField))
      ensures reply.Streamed? && reply.readFailure.None? ==>
                failure == None &&
                messages == old(messages) + [Message(Assistant, Emitted(parse, Concat(reply.chunks)))]
      ensures reply.Streamed? && reply.readFailure.Some? ==>
                failure == reply.readFailure &&
                |messages| == |old(messages)| + 1 && messages[..|old(messages)|] == old(messages) &&
                messages[|old(messages)|].role == Assistant &&
                messages[|old(messages)|].content <= Emitted(parse, Concat(reply.chunks))
    {
      error := None;
      if reply.Refused? {
        failure := Some(RefusalMessage(reply.errorField));
        return;
      }
      var chunks := reply.chunks;
      var textBuffer := "";
      var assistantContent := "";
      messages := messages + [Message(Assistant, "")];
      ghost var consumed := "";
      var i := 0;
      while i < |chunks|
        invariant 0 <= i <= |chunks|
        invariant consumed == Concat(chunks[..i])
        invariant Agrees(parse, consumed, "", textBuffer, assistantContent)
        invariant messages == old(messages) + [Message(Assistant, assistantContent)]
        invariant error == None
      {
        AgreesExtend(parse, consumed, "", textBuffer, assistantContent, chunks[i]);
        ConcatSnoc(chunks, i);
        textBuffer := textBuffer + chunks[i];
        consumed := consumed + chunks[i];
        ghost var buffer0, content0 := textBuffer, assistantContent;
        textBuffer, assistantContent := DrainLines(parse, textBuffer, assistantContent);
        AgreesTrans(parse, consumed, "", buffer0, content0, textBuffer, assistantContent);
        messages := ReplaceLast(messages, Message(Assistant, assistantContent));
        i := i + 1;
      }
      assert chunks[..i] == chunks;
      DecodedSoFar(parse, consumed, textBuffer, assistantContent);
      if reply.readFailure.Some? {
        failure := reply.readFailure;
        return;
      }
      assistantContent := FlushBuffer(parse, textBuffer, assistantContent);
      messages := ReplaceLast(messages, Message(Assistant, assistantContent));
      failure := None;
    }

    /** `sendMessage` up to its `await` (lines 134-143): ignored for an empty text or while a reply
        is loading; otherwise appends the user's message, clears the input and starts loading. */
    method SendMessage(messageText: Option<string>) returns (sent: bool)
      modifies this`messages, this`input, this`isLoading
      ensures sent == (SubmittedText(messageText, old(input)) != "" && !old(isLoading))
      ensures !sent ==> messages == old(messages) && input == old(input) && isLoading == old(isLoading)
      ensures sent ==> messages == old(messages) + [Message(User, SubmittedText(messageText, old(input)))] &&
                       input == "" && isLoading
    {
      var text := SubmittedText(messageText, input);
      if text == "" || isLoading {
        return false;
      }
      messages := messages + [Message(User, text)];
      input := "";
      isLoading := true;
      sent := true;
    }

    /** The rest of `sendMessage` (lines 145-153): streams the reply; on a failure records the error
        and removes every message whose content is empty; loading ends either way. */
    method ReceiveReply(parse: Parser, reply: Reply)
      requires isLoading
      modifies this`messages, this`error, this`isLoading
      ensures !isLoading
      ensures reply.Streamed? && reply.readFailure.None? ==>
                error == None &&
                messages == old(messages) + [Message(Assistant, Emitted(parse, Concat(reply.chunks)))]
      ensures reply.Refused? ==>
                error == Some(RefusalMessage(reply.errorField)) && messages == Filter(old(messages), HasContent)
      ensures reply.Streamed? && reply.readFailure.Some? ==>
                error == reply.readFailure &&
                exists shown :: shown <= Emitted(parse, Concat(reply.chunks)) &&
                                messages == Filter(old(messages) + [Message(Assistant, shown)], HasContent)
    {
      var failure := StreamChat(parse, reply);
      if failure.Some? {
        error := failure;
        ghost var streamed := messages;
        messages := Filter(messages, HasContent);
        if reply.Streamed? {
          ghost var shown := streamed[|old(messages)|].content;
          SnocParts(old(messages), streamed);
          assert shown <= Emitted(parse, Concat(reply.chunks));
        }
      }
      isLoading := false;
    }
  }
}
