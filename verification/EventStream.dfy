/** internal/mcpserver/pull.go: `jsonRPCMessages`, which splits a streamable-HTTP body, against the framing
    of section 9.2.6 of the WHATWG HTML standard. A character stands for one byte. */
module EventStream {
  import opened Text

  /** The scanner's token limit: a longer line ends the scan. */
  const MAX_LINE := 16 * 1024 * 1024

  function DropCR(line: string): string {
    if line != "" && line[|line| - 1] == '\r' then line[..|line| - 1] else line
  }

  /** `bufio.ScanLines` under the limit. */
  function Lines(body: string): seq<string>
    decreases |body|
  {
    if body == "" then []
    else
      match Cut(body, '\n')
      case None => if |body| >= MAX_LINE then [] else [DropCR(body)]
      case Some((line, rest)) =>
        CutSplits(body, '\n');
        if |line| >= MAX_LINE then [] else [DropCR(line)] + Lines(rest)
  }

  function Join(parts: seq<string>): string {
    if parts == [] then "" else if |parts| == 1 then parts[0] else parts[0] + "\n" + Join(parts[1..])
  }

  const DATA := "data:"

  function Payload(line: string): string
    requires DATA <= line
  {
    var rest := line[|DATA|..];
    if rest != "" && rest[0] == ' ' then rest[1..] else rest
  }

  function Flush(event: seq<string>): seq<string> { if event == [] then [] else [Join(event)] }

  function Collect(lines: seq<string>, event: seq<string>): seq<string>
    decreases |lines|
  {
    if lines == [] then Flush(event)
    else if lines[0] == "" then Flush(event) + Collect(lines[1..], [])
    else if DATA <= lines[0] then Collect(lines[1..], event + [Payload(lines[0])])
    else Collect(lines[1..], event)
  }

  function Messages(body: string): seq<string> {
    var trimmed := TrimSpace(body);
    if trimmed != "" && trimmed[0] == '{' then [trimmed] else Collect(Lines(body), [])
  }

  method JsonRPCMessages(body: string) returns (out: seq<string>)
    ensures out == Messages(body)
  {
    var trimmed := TrimSpace(body);
    if |trimmed| > 0 && trimmed[0] == '{' {
      return [trimmed];
    }
    out := [];
    var event: seq<string> := [];
    var lines, i := Lines(body), 0;
    assert lines[0..] == lines;
    while i < |lines|
      invariant 0 <= i <= |lines|
      invariant out + Collect(lines[i..], event) == Collect(lines, [])
    {
      var line := lines[i];
      assert lines[i..][1..] == lines[i + 1..];
      if line == "" {
        assert out + (Flush(event) + Collect(lines[i + 1..], [])) == out + Flush(event) + Collect(lines[i + 1..], []);
        if |event| > 0 {
          out := out + [Join(event)];
          event := [];
        }
      } else if DATA <= line {
        event := event + [Payload(line)];
      }
      i := i + 1;
    }
    assert lines[|lines|..] == [];
    if |event| > 0 { out := out + [Join(event)]; }
  }

  // ---------------------------------------------------------------- any body

  lemma {:induction false} LineScans(line: string, tail: string)
    requires '\n' !in line && |line| < MAX_LINE
    ensures Lines(line + "\n" + tail) == [DropCR(line)] + Lines(tail)
  {
    CutAtFirst(line, '\n', tail);
    assert line + ['\n'] + tail == line + "\n" + tail;
  }

  lemma {:induction false} LastLineScans(line: string)
    requires '\n' !in line && |line| < MAX_LINE
    ensures Lines(line) == if line == "" then [] else [DropCR(line)]
  {
    CutSplits(line, '\n');
  }

  /** A line at the limit ends the scan, with all that follows it. */
  lemma {:induction false} LongLineEndsScan(line: string, tail: string)
    requires '\n' !in line && |line| >= 16_777_216
    ensures Lines(line) == [] && Lines(line + "\n" + tail) == []
  {
    CutSplits(line, '\n');
    CutAtFirst(line, '\n', tail);
    assert line + ['\n'] + tail == line + "\n" + tail;
  }

  lemma CarriageReturnDropped(line: string)
    ensures DropCR(line + "\r") == line
    ensures line == "" || line[|line| - 1] != '\r' ==> DropCR(line) == line
  {
    assert (line + "\r")[..|line|] == line;
  }

  /** A field value loses one leading space, and no more. */
  lemma OneSpaceDropped(value: string)
    ensures DATA == "data:" && Payload(DATA + " " + value) == value
    ensures value == "" || value[0] != ' ' ==> Payload(DATA + value) == value
  {
    assert (DATA + " " + value)[|DATA|..] == " " + value && (" " + value)[1..] == value;
    assert (DATA + value)[|DATA|..] == value;
  }

  ghost predicate NoBlank(lines: seq<string>) { forall i :: 0 <= i < |lines| ==> lines[i] != "" }

  /** Lines as blocks with one blank line between each two. */
  function Unblocked(blocks: seq<seq<string>>): seq<string>
    requires blocks != []
  {
    if |blocks| == 1 then blocks[0] else blocks[0] + [""] + Unblocked(blocks[1..])
  }

  function Blocks(lines: seq<string>): (blocks: seq<seq<string>>)
    ensures blocks != []
  {
    if lines == [] then [[]]
    else
      var rest := Blocks(lines[1..]);
      if lines[0] == "" then [[]] + rest else [[lines[0]] + rest[0]] + rest[1..]
  }

  /** Every list of lines is its blocks, blank lines between them. */
  lemma {:induction false} LinesAreBlocks(lines: seq<string>)
    ensures Unblocked(Blocks(lines)) == lines
    ensures forall i :: 0 <= i < |Blocks(lines)| ==> NoBlank(Blocks(lines)[i])
  {
    if lines != [] {
      var rest := Blocks(lines[1..]);
      LinesAreBlocks(lines[1..]);
      assert lines == [lines[0]] + lines[1..];
      if lines[0] == "" {
        assert ([[]] + rest)[1..] == rest && [] + [""] + Unblocked(rest) == [""] + Unblocked(rest);
      } else {
        var first := [lines[0]] + rest[0];
        assert ([first] + rest[1..])[1..] == rest[1..];
        if |rest| > 1 { assert first + [""] + Unblocked(rest[1..]) == [lines[0]] + (rest[0] + [""] + Unblocked(rest[1..])); }
      }
    }
  }

  /** The values of a block's `data` fields, in order; other fields and comments say nothing. */
  function DataOf(block: seq<string>): seq<string> {
    if block == [] then [] else (if "data:" <= block[0] then [Payload(block[0])] else []) + DataOf(block[1..])
  }

  /** One message for each block with data in it: its values, joined by newlines. */
  function MessagesOf(blocks: seq<seq<string>>): seq<string> {
    if blocks == [] then []
    else (if DataOf(blocks[0]) == [] then [] else [Join(DataOf(blocks[0]))]) + MessagesOf(blocks[1..])
  }

  lemma {:induction false} BlockCollects(block: seq<string>, rest: seq<string>, event: seq<string>)
    requires NoBlank(block)
    ensures Collect(block + rest, event) == Collect(rest, event + DataOf(block))
    decreases |block|
  {
    if block == [] {
      assert block + rest == rest && event + [] == event;
    } else {
      assert (block + rest)[1..] == block[1..] + rest;
      var more := if DATA <= block[0] then [Payload(block[0])] else [];
      BlockCollects(block[1..], rest, event + more);
      assert event + more + DataOf(block[1..]) == event + (more + DataOf(block[1..]));
      assert event + [] == event;
    }
  }

  lemma {:induction false} BlocksCollect(blocks: seq<seq<string>>)
    requires blocks != [] && forall i :: 0 <= i < |blocks| ==> NoBlank(blocks[i])
    ensures Collect(Unblocked(blocks), []) == MessagesOf(blocks)
    decreases |blocks|
  {
    var data := DataOf(blocks[0]);
    assert [] + data == data;
    if |blocks| == 1 {
      assert blocks[1..] == [] && blocks[0] + [] == blocks[0];
      BlockCollects(blocks[0], [], []);
    } else {
      var rest := Unblocked(blocks[1..]);
      assert blocks[0] + [""] + rest == blocks[0] + ([""] + rest) && ([""] + rest)[1..] == rest;
      BlockCollects(blocks[0], [""] + rest, []);
      assert forall i :: 0 <= i < |blocks[1..]| ==> blocks[1..][i] == blocks[i + 1];
      BlocksCollect(blocks[1..]);
    }
  }

  /** Any body: one that starts with an opening brace is one message, trimmed; any other gives one message
      for each block of its lines that has data, the last block included when nothing ends it. */
  lemma {:induction false} MessagesAreBlocks(body: string)
    ensures Messages(body) ==
      if TrimSpace(body) != "" && TrimSpace(body)[0] == '{' then [TrimSpace(body)] else MessagesOf(Blocks(Lines(body)))
  {
    LinesAreBlocks(Lines(body));
    BlocksCollect(Blocks(Lines(body)));
  }

  // ---------------------------------------------------------------- framing

  function Split(message: string): (parts: seq<string>)
    ensures |parts| > 0
    decreases |message|
  {
    match Cut(message, '\n')
    case None => [message]
    case Some((line, rest)) =>
      CutSplits(message, '\n');
      [line] + Split(rest)
  }

  function FrameLines(parts: seq<string>): string {
    if parts == [] then "\n" else DATA + " " + parts[0] + "\n" + FrameLines(parts[1..])
  }

  function Frame(messages: seq<string>): string {
    if messages == [] then "" else FrameLines(Split(messages[0])) + Frame(messages[1..])
  }

  ghost predicate LineFree(parts: seq<string>) {
    forall i :: 0 <= i < |parts| ==> '\n' !in parts[i]
  }

  /** Every framed line stays under the scanner's limit. */
  ghost predicate Fits(parts: seq<string>) {
    forall i :: 0 <= i < |parts| ==> |DATA| + 1 + |parts[i]| < 16_777_216
  }

  lemma {:induction false} SplitJoins(message: string)
    ensures Join(Split(message)) == message && LineFree(Split(message))
    decreases |message|
  {
    CutSplits(message, '\n');
    if '\n' in message {
      var (line, rest) := Cut(message, '\n').value;
      SplitJoins(rest);
      assert Split(message)[1..] == Split(rest);
      assert message == line + "\n" + rest;
    }
  }

  function Stripped(parts: seq<string>): seq<string> {
    if parts == [] then [] else [DropCR(parts[0])] + Stripped(parts[1..])
  }

  lemma {:induction false} DataLineScans(part: string, tail: string)
    requires '\n' !in part && |DATA| + 1 + |part| < MAX_LINE
    ensures Lines(DATA + " " + part + "\n" + tail) == [DATA + " " + DropCR(part)] + Lines(tail)
  {
    var line := DATA + " " + part;
    assert '\n' !in line;
    CutAtFirst(line, '\n', tail);
    assert line + ['\n'] + tail == DATA + " " + part + "\n" + tail;
    if part != "" && part[|part| - 1] == '\r' {
      assert line[|line| - 1] == '\r' && line[..|line| - 1] == DATA + " " + part[..|part| - 1];
    } else {
      assert line[|line| - 1] == if part == "" then ' ' else part[|part| - 1];
      assert DropCR(line) == line;
    }
  }

  lemma {:induction false} BlankLineScans(tail: string)
    ensures Lines("\n" + tail) == [""] + Lines(tail)
  {
    CutAtFirst("", '\n', tail);
    assert "" + ['\n'] + tail == "\n" + tail;
  }

  lemma {:induction false} DataLineCollects(part: string, lines: seq<string>, event: seq<string>)
    ensures Collect([DATA + " " + part] + lines, event) == Collect(lines, event + [part])
  {
    var line := DATA + " " + part;
    assert line[|DATA|..] == " " + part && (" " + part)[1..] == part;
    assert ([line] + lines)[1..] == lines;
    assert line[..|DATA|] == DATA;
  }

  /** One framed message comes back as its lines, each less a trailing carriage return. */
  lemma {:induction false} FramedLinesCollect(parts: seq<string>, tail: string, event: seq<string>)
    requires LineFree(parts) && Fits(parts) && (event != [] || parts != [])
    ensures Collect(Lines(FrameLines(parts) + tail), event)
         == [Join(event + Stripped(parts))] + Collect(Lines(tail), [])
    decreases |parts|
  {
    if parts == [] {
      BlankLineScans(tail);
      assert ([""] + Lines(tail))[1..] == Lines(tail);
      assert event + Stripped(parts) == event;
    } else {
      var part, rest := parts[0], parts[1..];
      assert forall i :: 0 <= i < |rest| ==> rest[i] == parts[i + 1];
      var more := FrameLines(rest) + tail;
      assert FrameLines(parts) + tail == DATA + " " + part + "\n" + more;
      DataLineScans(part, more);
      DataLineCollects(DropCR(part), Lines(more), event);
      FramedLinesCollect(rest, tail, event + [DropCR(part)]);
      assert event + [DropCR(part)] + Stripped(rest) == event + Stripped(parts);
    }
  }

  ghost predicate AllFit(messages: seq<string>) {
    forall i :: 0 <= i < |messages| ==> Fits(Split(messages[i]))
  }

  function Received(messages: seq<string>): seq<string> {
    if messages == [] then [] else [Join(Stripped(Split(messages[0])))] + Received(messages[1..])
  }

  lemma {:induction false} FramesCollect(messages: seq<string>)
    requires AllFit(messages)
    ensures Collect(Lines(Frame(messages)), []) == Received(messages)
    decreases |messages|
  {
    if messages != [] {
      var parts, tail := Split(messages[0]), Frame(messages[1..]);
      SplitJoins(messages[0]);
      assert forall i :: 0 <= i < |messages[1..]| ==> messages[1..][i] == messages[i + 1];
      FramedLinesCollect(parts, tail, []);
      assert [] + Stripped(parts) == Stripped(parts);
      FramesCollect(messages[1..]);
    }
  }

  lemma {:induction false} FrameIsNotJson(messages: seq<string>)
    ensures TrimSpace(Frame(messages)) == "" || TrimSpace(Frame(messages))[0] != '{'
  {
    var body := Frame(messages);
    if messages != [] {
      assert body[0] == 'd';
      assert TrimLeft(body) == body;
      TrimRightKeeps(body);
    }
  }

  // ---------------------------------------------------------------- the round trip

  predicate EndsInCR(line: string) { line != "" && line[|line| - 1] == '\r' }

  lemma {:induction false} StrippingShortens(parts: seq<string>)
    ensures |Stripped(parts)| == |parts|
    ensures |Join(Stripped(parts))| <= |Join(parts)|
    ensures |Join(Stripped(parts))| == |Join(parts)| <==> forall i :: 0 <= i < |parts| ==> !EndsInCR(parts[i])
    ensures (forall i :: 0 <= i < |parts| ==> !EndsInCR(parts[i])) ==> Stripped(parts) == parts
  {
    if parts != [] {
      StrippingShortens(parts[1..]);
      assert forall i :: 0 < i < |parts| ==> parts[i] == parts[1..][i - 1];
      assert Stripped(parts)[1..] == Stripped(parts[1..]);
    }
  }

  /** No line of the message ends in a carriage return. */
  ghost predicate CRClean(message: string) {
    forall i :: 0 <= i < |Split(message)| ==> !EndsInCR(Split(message)[i])
  }

  lemma {:induction false} ReceivedIff(message: string)
    ensures Join(Stripped(Split(message))) == message <==> CRClean(message)
  {
    SplitJoins(message);
    StrippingShortens(Split(message));
  }

  lemma {:induction false} AllReceivedIff(messages: seq<string>)
    ensures Received(messages) == messages <==> forall i :: 0 <= i < |messages| ==> CRClean(messages[i])
  {
    if messages != [] {
      ReceivedIff(messages[0]);
      AllReceivedIff(messages[1..]);
      assert forall i :: 0 < i < |messages| ==> messages[i] == messages[1..][i - 1];
      assert messages == [messages[0]] + messages[1..];
    }
  }

  /** Framing any messages whose lines fit the scanner and splitting the body gives the same messages,
      multi-line, empty and leading-space ones included, exactly when none of their lines ends in a
      carriage return. */
  lemma {:induction false} SseRoundTripIff(messages: seq<string>)
    requires AllFit(messages)
    ensures Messages(Frame(messages)) == messages <==> forall i :: 0 <= i < |messages| ==> CRClean(messages[i])
  {
    FrameIsNotJson(messages);
    FramesCollect(messages);
    AllReceivedIff(messages);
  }

  lemma {:induction false} SplitMembers(message: string, i: nat, c: char)
    requires i < |Split(message)| && c in Split(message)[i]
    ensures c in message
    decreases |message|
  {
    CutSplits(message, '\n');
    if '\n' in message {
      var (line, rest) := Cut(message, '\n').value;
      if i > 0 { SplitMembers(rest, i - 1, c); }
    }
  }

  /** Messages free of carriage returns, as the standard's line endings require, always come back. */
  lemma {:induction false} CRFreeMessagesRoundTrip(messages: seq<string>)
    requires AllFit(messages) && forall i :: 0 <= i < |messages| ==> '\r' !in messages[i]
    ensures Messages(Frame(messages)) == messages
  {
    SseRoundTripIff(messages);
    forall i, j | 0 <= i < |messages| && 0 <= j < |Split(messages[i])|
      ensures !EndsInCR(Split(messages[i])[j])
    {
      var part := Split(messages[i])[j];
      if part != "" && part[|part| - 1] == '\r' {
        SplitMembers(messages[i], j, '\r');
        assert false;
      }
    }
  }
}
