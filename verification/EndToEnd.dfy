/**
 From the upstream's lines to the viewer's: whatever the relay's schedule and wherever the text is
 cut into chunks, the viewer holds the last lines the relay was given, in order, and stops on the
 terminal event. `ReadBackExactlyWhenItFits` says for which frames this can be relied on.
 */
module EndToEnd {
  import opened Prelude
  import opened Wire
  import opened Reader
  import opened Chunking
  import opened EventStreamStandard
  import opened Relay
  import opened LogViewer

  const TIME_LIMIT_MESSAGE := "stream time limit reached; reconnect to continue"

  /** The payload of a frame as the relay is given it. */
  function Payload(f: Frame): string {
    match f
    case Data(line) => line
    case Keepalive => ""
    case EndOfLog => ""
    case TimeLimit => TIME_LIMIT_MESSAGE
    case Error(message) => message
  }

  function Render(f: Frame): string {
    match f
    case Data(line) => DataFrame(line)
    case Keepalive => KEEPALIVE_FRAME
    case EndOfLog => EventFrame("end", "")
    case TimeLimit => EventFrame("end", TIME_LIMIT_MESSAGE)
    case Error(message) => EventFrame("error", message)
  }

  function WireText(frames: seq<Frame>): string {
    if frames == [] then "" else Render(frames[0]) + WireText(frames[1..])
  }

  function TerminalName(f: Frame): string {
    if f.Error? then "error" else "end"
  }

  /** What the reader keeps of an escaped payload. */
  function Kept(payload: string, caps: Caps): string {
    Capped(EscapeLine(payload), caps)
  }

  /** The event a frame carries; keepalives carry none. */
  function FrameEvents(f: Frame, caps: Caps): seq<SseEvent> {
    match f
    case Data(line) => [SseEvent("message", Kept(line, caps))]
    case Keepalive => []
    case _ => [SseEvent(TerminalName(f), Kept(Payload(f), caps))]
  }

  function AllEvents(frames: seq<Frame>, caps: Caps): seq<SseEvent> {
    if frames == [] then [] else FrameEvents(frames[0], caps) + AllEvents(frames[1..], caps)
  }

  function DataBlock(payload: string): string {
    "data: " + EscapeLine(payload)
  }

  function EventBlock(name: string, payload: string): string {
    "event: " + name + "\n" + DataBlock(payload)
  }

  /** A frame without its blank line. */
  function Block(f: Frame): string {
    match f
    case Data(_) => DataBlock(Payload(f))
    case Keepalive => ": keepalive"
    case _ => EventBlock(TerminalName(f), Payload(f))
  }

  /** Every frame, without its blank line, is shorter than the pending cap. */
  predicate Fits(frames: seq<Frame>, caps: Caps) {
    forall i :: 0 <= i < |frames| ==> |Block(frames[i])| < caps.pending
  }

  /** What the viewer shows of a line: all of it, or a cut and the marker. */
  function Shown(line: string, caps: Caps): string {
    UnescapeLine(Kept(line, caps))
  }

  function AllShown(lines: seq<string>, caps: Caps): seq<string> {
    if lines == [] then []
    else AllShown(lines[..|lines| - 1], caps) + [Shown(lines[|lines| - 1], caps)]
  }

  // ----- one frame -----

  /** Text between blank lines, without CR. */
  predicate Framed(block: string) {
    '\r' !in block && Unbroken(block)
  }

  lemma Glue(a: string, x: string)
    ensures a + "\ndata: " + x + "\n\n" == a + "\n" + ("data: " + x) + "\n\n"
  {
    assert "\ndata: " == "\n" + "data: ";
  }

  lemma RenderIsBlock(f: Frame)
    ensures Render(f) == Block(f) + "\n\n"
  {
    match f
    case Data(_) =>
    case Keepalive => assert ": keepalive\n\n" == ": keepalive" + "\n\n";
    case EndOfLog => Glue("event: " + "end", EscapeLine(""));
    case TimeLimit => Glue("event: " + "end", EscapeLine(TIME_LIMIT_MESSAGE));
    case Error(message) => Glue("event: " + "error", EscapeLine(message));
  }

  lemma UnbrokenTwoLines(a: string, b: string)
    requires NoBreaks(a) && NoBreaks(b) && b != ""
    ensures Unbroken(a + "\n" + b)
  {
    var s := a + "\n" + b + "\n";
    forall k | 0 <= k < |s| ensures !BlankAt(s, k) {
      if k == |a| { assert s[k + 1] == b[0]; }
    }
    BreakIsFirst(s, |s|);
  }

  lemma UnbrokenOneLine(a: string)
    requires NoBreaks(a)
    ensures Unbroken(a)
  {
    BreakIsFirst(a + "\n", |a| + 1);
  }

  lemma DataBlockFramed(payload: string)
    ensures NoBreaks(DataBlock(payload)) && Framed(DataBlock(payload))
  {
    EscapeHasNoBreaks(payload);
    UnbrokenOneLine(DataBlock(payload));
  }

  lemma EventBlockFramed(name: string, payload: string)
    requires NoBreaks(name)
    ensures Framed(EventBlock(name, payload))
  {
    DataBlockFramed(payload);
    UnbrokenTwoLines("event: " + name, DataBlock(payload));
  }

  lemma BlockFramed(f: Frame)
    ensures Framed(Block(f))
  {
    match f
    case Data(line) => DataBlockFramed(line);
    case Keepalive => UnbrokenOneLine(": keepalive");
    case _ => EventBlockFramed(TerminalName(f), Payload(f));
  }

  lemma ClassifyDataLine(x: string)
    ensures Classify("data: " + x) == DataField(x)
  {
    ClassifyData(" " + x);
    assert "data:" + (" " + x) == "data: " + x && (" " + x)[1..] == x;
  }

  lemma ClassifyDataBlock(payload: string)
    ensures Classify(DataBlock(payload)) == DataField(EscapeLine(payload))
  {
    ClassifyDataLine(EscapeLine(payload));
  }

  lemma ClassifyEventLine(name: string)
    ensures Classify("event: " + name) == EventField(name)
  {
    FindColon("event", " " + name);
    var line := "event" + ":" + (" " + name);
    assert "event: " + name == line;
    assert line[..5] == "event" && line[6..] == " " + name;
    assert (" " + name)[1..] == name;
  }

  lemma ParseEventBlock(name: string, payload: string, caps: Caps)
    requires NoBreaks(name)
    ensures ParseBlock(EventBlock(name, payload), caps) == Some(SseEvent(name, Kept(payload, caps)))
  {
    var head, tail := "event: " + name, DataBlock(payload);
    DataBlockFramed(payload);
    ClassifyEventLine(name);
    ClassifyDataBlock(payload);
    ParseTwoLines(head, tail, EventBlock(name, payload), name, EscapeLine(payload), caps);
  }

  lemma ParseTwoLines(head: string, tail: string, block: string, name: string, x: string, caps: Caps)
    requires block == head + "\n" + tail && NoBreaks(head) && NoBreaks(tail)
    requires Classify(head) == EventField(name) && Classify(tail) == DataField(x)
    ensures ParseBlock(block, caps) == Some(SseEvent(name, Capped(x, caps)))
  {
    SplitAppend(head, tail);
    SplitLine(head);
    SplitLine(tail);
    TwoFields(head, tail, name, x);
    JoinOne(x);
  }

  lemma JoinOne(x: string)
    ensures Join([x]) == x
  {
  }

  lemma TwoFields(head: string, tail: string, name: string, value: string)
    requires Classify(head) == EventField(name) && Classify(tail) == DataField(value)
    ensures EventName([head] + [tail]) == name && DataValues([head] + [tail]) == [value]
  {
    var lines := [head] + [tail];
    assert lines[..1] == [head] && [head][..0] == [];
    assert DataValues([]) == [];
    assert DataValues([head]) == [] + [];
  }

  lemma ParseDataBlock(payload: string, caps: Caps)
    ensures ParseBlock(DataBlock(payload), caps) == Some(SseEvent("message", Kept(payload, caps)))
  {
    DataBlockFramed(payload);
    ClassifyDataBlock(payload);
    ParseOneLine(DataBlock(payload), caps);
  }

  lemma ParseComment(line: string, caps: Caps)
    requires line != "" && line[0] == ':' && '\n' !in line
    ensures ParseBlock(line, caps) == None
  {
    ParseOneLine(line, caps);
  }

  lemma TerminalNames(f: Frame)
    requires Terminal(f)
    ensures TerminalName(f) == "end" || TerminalName(f) == "error"
  {
  }

  lemma NameIsPlain(name: string)
    requires name == "end" || name == "error"
    ensures NoBreaks(name) && name != ""
  {
  }

  lemma ParseTerminal(name: string, payload: string, caps: Caps)
    requires name == "end" || name == "error"
    ensures ParseBlock(EventBlock(name, payload), caps) == Some(SseEvent(name, Kept(payload, caps)))
  {
    NameIsPlain(name);
    ParseEventBlock(name, payload, caps);
  }

  /** Each frame is read back as its event. */
  lemma ParseFrame(f: Frame, caps: Caps)
    ensures Events(ParseBlock(Block(f), caps)) == FrameEvents(f, caps)
  {
    match f
    case Data(line) => ParseDataBlock(line, caps);
    case Keepalive => ParseComment(Block(f), caps);
    case _ =>
      TerminalNames(f);
      ParseTerminal(TerminalName(f), Payload(f), caps);
  }

  // ----- the whole text -----

  function FrameBlocks(frames: seq<Frame>): seq<string> {
    if frames == [] then [] else [Block(frames[0])] + FrameBlocks(frames[1..])
  }

  lemma FramedBlocks(block: string, rest: string)
    requires Framed(block)
    ensures Blocks(block + "\n\n" + rest) == [block] + Blocks(rest)
    ensures Rest(block + "\n\n" + rest) == Rest(rest)
  {
    OneBlock(block, block + "\n\n");
    BlocksAppend(block + "\n\n", rest);
    assert "" + rest == rest;
  }

  lemma {:induction false} WireTextBlocks(frames: seq<Frame>)
    ensures '\r' !in WireText(frames)
    ensures Blocks(WireText(frames)) == FrameBlocks(frames) && Rest(WireText(frames)) == ""
  {
    if frames == [] {
      RestOfUnbroken("");
    } else {
      WireTextBlocks(frames[1..]);
      BlockFramed(frames[0]);
      RenderIsBlock(frames[0]);
      FramedBlocks(Block(frames[0]), WireText(frames[1..]));
    }
  }

  lemma {:induction false} ParseFrames(frames: seq<Frame>, caps: Caps)
    ensures ParseAll(FrameBlocks(frames), caps) == AllEvents(frames, caps)
  {
    if frames == [] {
    } else {
      ParseFrames(frames[1..], caps);
      ParseFrame(frames[0], caps);
      assert FrameBlocks(frames)[1..] == FrameBlocks(frames[1..]);
    }
  }

  lemma {:induction false} FrameBlocksShort(frames: seq<Frame>, caps: Caps)
    requires Fits(frames, caps)
    ensures ShortBlocks(FrameBlocks(frames), caps)
  {
    if frames == [] {
    } else {
      assert Fits(frames[1..], caps);
      FrameBlocksShort(frames[1..], caps);
    }
  }

  lemma WireTextCalm(frames: seq<Frame>, caps: Caps)
    requires Fits(frames, caps)
    ensures Calm(WireText(frames), caps)
    ensures EventsIn(WireText(frames), caps) == AllEvents(frames, caps)
  {
    var text := WireText(frames);
    WireTextBlocks(frames);
    NormaliseIdentity(text);
    assert !EndsWithCr(text);
    FrameBlocksShort(frames, caps);
    ParseFrames(frames, caps);
    EmptyBlock(caps);
  }

  /** Read in any chunks, the text of the frames gives back their events. */
  lemma FramesRoundTrip(frames: seq<Frame>, chunks: seq<string>, caps: Caps)
    requires Fits(frames, caps) && Concat(chunks) == WireText(frames)
    ensures Run("", chunks, caps) == AllEvents(frames, caps)
  {
    WireTextCalm(frames, caps);
    ChunkingsAgree(chunks, chunks, caps);
  }

  // ----- read by the standard -----

  lemma PlainFrame(f: Frame, caps: Caps)
    ensures |EscapeLine(Payload(f))| <= caps.event ==> Plain(Block(f), caps)
  {
    if |EscapeLine(Payload(f))| > caps.event { return; }
    match f
    case Data(line) => PlainDataBlock(line, caps);
    case Keepalive => PlainComment(Block(f), caps);
    case _ =>
      TerminalNames(f);
      PlainTerminal(TerminalName(f), Payload(f), caps);
  }

  lemma PlainDataBlock(payload: string, caps: Caps)
    requires |EscapeLine(payload)| <= caps.event
    ensures Plain(DataBlock(payload), caps)
  {
    DataBlockFramed(payload);
    ClassifyDataBlock(payload);
    PlainDataLine(DataBlock(payload), EscapeLine(payload), caps);
  }

  lemma PlainDataLine(line: string, value: string, caps: Caps)
    requires '\n' !in line && Classify(line) == DataField(value) && |value| <= caps.event
    ensures Plain(line, caps)
  {
    SplitLine(line);
    assert [line][..0] == [];
    assert EventName([]) == "message" && DataValues([]) == [];
    assert [] + [value] == [value];
  }

  lemma PlainComment(line: string, caps: Caps)
    requires line != "" && line[0] == ':' && '\n' !in line
    ensures Plain(line, caps)
  {
    SplitLine(line);
    assert [line][..0] == [];
  }

  lemma PlainTerminal(name: string, payload: string, caps: Caps)
    requires name == "end" || name == "error"
    requires |EscapeLine(payload)| <= caps.event
    ensures Plain(EventBlock(name, payload), caps)
  {
    NameIsPlain(name);
    PlainEventBlock(name, payload, caps);
  }

  lemma PlainEventBlock(name: string, payload: string, caps: Caps)
    requires NoBreaks(name) && name != "" && |EscapeLine(payload)| <= caps.event
    ensures Plain(EventBlock(name, payload), caps)
  {
    var head, tail := "event: " + name, DataBlock(payload);
    DataBlockFramed(payload);
    SplitAppend(head, tail);
    SplitLine(head);
    SplitLine(tail);
    ClassifyEventLine(name);
    ClassifyDataBlock(payload);
    TwoFields(head, tail, name, EscapeLine(payload));
  }

  predicate Short(frames: seq<Frame>, caps: Caps) {
    forall i :: 0 <= i < |frames| ==> |EscapeLine(Payload(frames[i]))| <= caps.event
  }

  /** With caps apart by more than a field name, as the reader's are, short payloads fit. */
  lemma ShortFits(frames: seq<Frame>, caps: Caps)
    requires Short(frames, caps) && caps.event + 20 <= caps.pending
    ensures Fits(frames, caps)
  {
    forall i | 0 <= i < |frames| ensures |Block(frames[i])| < caps.pending {
      BlockLength(frames[i]);
    }
  }

  lemma BlockLength(f: Frame)
    ensures |Block(f)| <= |EscapeLine(Payload(f))| + 19
  {
    assert |TerminalName(f)| <= 5;
  }

  lemma {:induction false} FrameBlocksPlain(frames: seq<Frame>, caps: Caps)
    requires Short(frames, caps)
    ensures AllPlain(FrameBlocks(frames), caps)
  {
    if frames == [] {
    } else {
      assert Short(frames[1..], caps);
      FrameBlocksPlain(frames[1..], caps);
      PlainFrame(frames[0], caps);
      PlainCons(Block(frames[0]), FrameBlocks(frames[1..]), caps);
    }
  }

  lemma PlainCons(block: string, later: seq<string>, caps: Caps)
    requires Plain(block, caps) && AllPlain(later, caps)
    ensures AllPlain([block] + later, caps)
  {
  }

  /** The relay's output means the same to any reader of the standard: the escaped payloads as
      events, the keepalives as nothing. */
  lemma WireTextIsStandard(frames: seq<Frame>, caps: Caps)
    requires Short(frames, caps)
    ensures StandardEvents(WireText(frames)) == AllEvents(frames, caps)
  {
    WireTextBlocks(frames);
    FrameBlocksPlain(frames, caps);
    PlainTextIsStandard(WireText(frames), FrameBlocks(frames), caps);
    ParseFrames(frames, caps);
  }

  lemma PlainTextIsStandard(text: string, blocks: seq<string>, caps: Caps)
    requires '\r' !in text && Blocks(text) == blocks && Rest(text) == "" && AllPlain(blocks, caps)
    ensures StandardEvents(text) == ParseAll(blocks, caps)
  {
    NormaliseIdentity(text);
    StandardByBlocks(text);
    BlocksAreUnbroken(text);
    SameEventsExactly(blocks, [], caps);
    assert ParseAll(blocks, caps) + [] == ParseAll(blocks, caps);
  }

  // ----- frames past the pending cap -----

  lemma {:induction false} LeadingBlank(lines: seq<string>)
    ensures EventName([""] + lines) == EventName(lines) && DataValues([""] + lines) == DataValues(lines)
  {
    var all := [""] + lines;
    if lines == [] {
      assert all[..0] == [];
    } else {
      assert all[..|all| - 1] == [""] + lines[..|lines| - 1];
      LeadingBlank(lines[..|lines| - 1]);
    }
  }

  /** The newline that a cut leaves in front of a block changes nothing. */
  lemma ParseAfterNewline(block: string, caps: Caps)
    ensures ParseBlock("\n" + block, caps) == ParseBlock(block, caps)
  {
    SplitAppend("", block);
    assert "" + "\n" + block == "\n" + block && Split("") == [""];
    LeadingBlank(Split(block));
  }

  lemma FramedAfterNewline(block: string)
    requires Framed(block) && block != "" && block[0] != '\n'
    ensures Framed("\n" + block)
  {
    var s := "\n" + block + "\n";
    forall k | 0 <= k < |s| ensures !BlankAt(s, k) {
      if k > 0 { assert !BlankAt(block + "\n", k - 1); }
    }
    BreakIsFirst(s, |s|);
  }

  lemma BlockStarts(f: Frame)
    ensures Block(f) != "" && Block(f)[0] != '\n'
  {
  }

  /** What is left of the text after the first newline of a blank line is read as if from its frame on. */
  lemma AfterCut(later: seq<Frame>, text: string, caps: Caps)
    requires text == "\n" + WireText(later) && caps.pending >= 1
    ensures Run("", [text], caps) == AllEvents(later, caps)
  {
    WireTextBlocks(later);
    FeedWithoutCr(text, caps);
    LastChunk("", text, caps);
    if later == [] {
      LoneNewline(text, caps);
    } else {
      LaterText(later[0], later[1..], "\n" + Block(later[0]), text);
      LaterEvents(later[0], later[1..], "\n" + Block(later[0]), caps);
      NoTail(caps);
    }
  }

  lemma LoneNewline(text: string, caps: Caps)
    requires text == "\n"
    ensures Blocks(text) == [] && Rest(text) == text && Events(ParseBlock(Ready(text), caps)) == []
  {
    BreakIsFirst(text, 1);
    RestOfUnbroken(text);
    NormaliseIdentity(text);
    ParseAfterNewline("", caps);
    assert "\n" + "" == text;
    EmptyBlock(caps);
  }

  lemma LaterEvents(f: Frame, later: seq<Frame>, first: string, caps: Caps)
    requires first == "\n" + Block(f)
    ensures ParseAll([first] + FrameBlocks(later), caps) == FrameEvents(f, caps) + AllEvents(later, caps)
  {
    ParseFirst(first, FrameBlocks(later), caps);
    ParseAfterNewline(Block(f), caps);
    ParseFrame(f, caps);
    ParseFrames(later, caps);
  }

  lemma LaterText(f: Frame, later: seq<Frame>, first: string, text: string)
    requires first == "\n" + Block(f) && text == "\n" + (Render(f) + WireText(later))
    ensures Blocks(text) == [first] + FrameBlocks(later) && Rest(text) == ""
  {
    RenderIsBlock(f);
    BlockFramed(f);
    BlockStarts(f);
    FramedAfterNewline(Block(f));
    WireTextBlocks(later);
    AfterNewline(Block(f), WireText(later));
    FramedBlocks(first, WireText(later));
  }

  lemma AfterNewline(block: string, rest: string)
    ensures "\n" + (block + "\n\n" + rest) == "\n" + block + "\n\n" + rest
  {
  }

  /** Up to just before the last newline of a frame past the pending cap. */
  lemma UpToCut(front: seq<Frame>, f: Frame, text: string, pending: string, caps: Caps)
    requires pending == Block(f) + "\n"
    ensures text == WireText(front) + pending && |pending| > caps.pending ==>
              var fed := Feed("", text, caps);
              fed.events == AllEvents(front, caps) + CutEvents(pending, caps) && fed.buffer == ""
  {
    if text != WireText(front) + pending || |pending| <= caps.pending { return; }
    WireTextBlocks(front);
    BlockFramed(f);
    BlocksAppend(WireText(front), pending);
    assert "" + pending == pending;
    RestOfUnbroken(pending);
    assert Blocks(text) == FrameBlocks(front);
    ParseFrames(front, caps);
    FeedWithoutCr(text, caps);
  }

  lemma {:induction false} AllEventsJoin(a: seq<Frame>, b: seq<Frame>, caps: Caps)
    ensures AllEvents(a + b, caps) == AllEvents(a, caps) + AllEvents(b, caps)
  {
    if a == [] {
      assert a + b == b;
    } else {
      assert (a + b)[1..] == a[1..] + b;
      AllEventsJoin(a[1..], b, caps);
      Regroup(FrameEvents(a[0], caps), AllEvents(a[1..], caps), AllEvents(b, caps));
    }
  }

  lemma {:induction false} AllTextJoin(a: seq<Frame>, b: seq<Frame>)
    ensures WireText(a + b) == WireText(a) + WireText(b)
  {
    if a == [] {
      assert a + b == b;
    } else {
      assert (a + b)[1..] == a[1..] + b;
      AllTextJoin(a[1..], b);
      Regroup(Render(a[0]), WireText(a[1..]), WireText(b));
    }
  }

  lemma KeptLong(payload: string, caps: Caps)
    requires |EscapeLine(payload)| > caps.event
    ensures |Kept(payload, caps)| == caps.event + |TRUNCATED_MARKER|
  {
  }

  /** A frame past the cap carries an event whose data is cut at the event cap. */
  lemma PastCapIsLong(f: Frame, payload: string, caps: Caps)
    requires payload == Payload(f) && |Block(f)| >= caps.pending && caps.event + 20 <= caps.pending
    ensures |FrameEvents(f, caps)| == 1 && |FrameEvents(f, caps)[0].data| == caps.event + |TRUNCATED_MARKER|
  {
    BlockLength(f);
    KeptLong(payload, caps);
    if f == Keepalive { KeepaliveFits(caps); }
  }

  lemma KeepaliveFits(caps: Caps)
    requires caps.event + 20 <= caps.pending
    ensures |Block(Keepalive)| < caps.pending
  {
    assert |": keepalive"| == 11;
  }

  lemma SidesCancel<T>(a: seq<T>, x: seq<T>, y: seq<T>, b: seq<T>)
    requires a + x + b == a + y + b
    ensures x == y
  {
    assert |x| == |y|;
    assert (a + x + b)[|a|..|a| + |x|] == x;
    assert (a + y + b)[|a|..|a| + |y|] == y;
  }

  lemma CutText(front: string, block: string, later: string)
    ensures (front + (block + "\n")) + ("\n" + later) == front + (block + "\n\n") + later
  {
  }

  lemma CutChunks(front: seq<Frame>, f: Frame, later: seq<Frame>, head: string, tail: string)
    requires head == WireText(front) + (Block(f) + "\n") && tail == "\n" + WireText(later)
    ensures Concat([head, tail]) == WireText(front + [f] + later)
  {
    AllTextJoin(front, [f]);
    AllTextJoin(front + [f], later);
    OneText(f);
    RenderIsBlock(f);
    ConcatTwo(head, tail);
    CutText(WireText(front), Block(f), WireText(later));
  }

  /** What the reader makes of the text cut before the last newline of a frame past the cap. */
  lemma CutEventsAre(front: seq<Frame>, f: Frame, later: seq<Frame>, head: string, tail: string, caps: Caps)
    ensures |Block(f)| >= caps.pending >= 1 &&
            head == WireText(front) + (Block(f) + "\n") && tail == "\n" + WireText(later) ==>
              Run("", [head, tail], caps)
              == AllEvents(front, caps) + CutEvents(Block(f) + "\n", caps) + AllEvents(later, caps)
  {
    if |Block(f)| >= caps.pending >= 1 && head == WireText(front) + (Block(f) + "\n") && tail == "\n" + WireText(later) {
      UpToCut(front, f, head, Block(f) + "\n", caps);
      RunTwo(head, tail, caps);
      AfterCut(later, tail, caps);
    }
  }

  lemma CutDiffers(f: Frame, pending: string, caps: Caps)
    requires pending == Block(f) + "\n" && |Block(f)| >= caps.pending && caps.event + 20 <= caps.pending
    ensures CutEvents(pending, caps) != FrameEvents(f, caps)
  {
    PastCapIsLong(f, Payload(f), caps);
    CutDataShort(pending, caps);
  }

  /** Cut before the last newline of a frame past the cap, the text gives other events. */
  lemma CutLosesFrame(frames: seq<Frame>, front: seq<Frame>, f: Frame, later: seq<Frame>, caps: Caps)
    returns (chunks: seq<string>)
    requires frames == front + [f] + later
    requires |Block(f)| >= caps.pending && caps.event + 20 <= caps.pending
    ensures Concat(chunks) == WireText(frames) && Run("", chunks, caps) != AllEvents(frames, caps)
  {
    var head, tail := WireText(front) + (Block(f) + "\n"), "\n" + WireText(later);
    chunks := [head, tail];
    CutChunks(front, f, later, head, tail);
    CutEventsAre(front, f, later, head, tail, caps);
    CutDiffers(f, Block(f) + "\n", caps);
    AllEventsJoin(front, [f], caps);
    AllEventsJoin(front + [f], later, caps);
    AllOne(f, caps);
    NotSame(AllEvents(front, caps), CutEvents(Block(f) + "\n", caps), FrameEvents(f, caps), AllEvents(later, caps));
  }

  lemma NotSame<T>(a: seq<T>, x: seq<T>, y: seq<T>, b: seq<T>)
    requires x != y
    ensures a + x + b != a + y + b
  {
    if a + x + b == a + y + b { SidesCancel(a, x, y, b); }
  }

  lemma AllOne(f: Frame, caps: Caps)
    ensures AllEvents([f], caps) == FrameEvents(f, caps)
  {
    assert [f][1..] == [];
    assert FrameEvents(f, caps) + AllEvents([], caps) == FrameEvents(f, caps);
  }

  lemma OneText(f: Frame)
    ensures WireText([f]) == Render(f)
  {
    assert [f][1..] == [];
    assert Render(f) + WireText([]) == Render(f);
  }

  lemma ConcatTwo(a: string, b: string)
    ensures Concat([a, b]) == a + b
  {
    assert [a, b][1..] == [b] && [b][1..] == [];
    assert Concat([b]) == b + Concat([]);
  }

  lemma RunTwo(a: string, b: string, caps: Caps)
    requires Feed("", a, caps).buffer == ""
    ensures Run("", [a, b], caps) == Feed("", a, caps).events + Run("", [b], caps)
  {
    assert [a, b][1..] == [b];
  }

  lemma FirstUnfit(frames: seq<Frame>, caps: Caps) returns (i: nat)
    requires !Fits(frames, caps)
    ensures i < |frames| && |Block(frames[i])| >= caps.pending
  {
    i :| 0 <= i < |frames| && !(|Block(frames[i])| < caps.pending);
  }

  lemma SplitAt<T>(s: seq<T>, i: nat)
    requires i < |s|
    ensures s == s[..i] + [s[i]] + s[i + 1..]
  {
  }

  lemma SomeChunksLose(frames: seq<Frame>, caps: Caps) returns (chunks: seq<string>)
    ensures !Fits(frames, caps) && caps.event + 20 <= caps.pending ==>
              Concat(chunks) == WireText(frames) && Run("", chunks, caps) != AllEvents(frames, caps)
  {
    chunks := [];
    if Fits(frames, caps) || caps.event + 20 > caps.pending { return; }
    var i := FirstUnfit(frames, caps);
    SplitAt(frames, i);
    chunks := CutLosesFrame(frames, frames[..i], frames[i], frames[i + 1..], caps);
  }

  /** The relay's output is read back under every chunking exactly if every frame, without its
      blank line, is shorter than the pending cap. */
  lemma ReadBackExactlyWhenItFits(frames: seq<Frame>, caps: Caps)
    requires caps.event + 20 <= caps.pending
    ensures (forall chunks :: Concat(chunks) == WireText(frames) ==> Run("", chunks, caps) == AllEvents(frames, caps))
       <==> Fits(frames, caps)
  {
    if Fits(frames, caps) {
      forall chunks | Concat(chunks) == WireText(frames) ensures Run("", chunks, caps) == AllEvents(frames, caps) {
        FramesRoundTrip(frames, chunks, caps);
      }
    } else {
      var chunks := SomeChunksLose(frames, caps);
      assert Concat(chunks) == WireText(frames);
    }
  }

  // ----- what is shown when the cap fires -----

  lemma CutOfData(x: string, n: nat)
    requires n >= 6 && |x| + 6 >= n
    ensures ("data: " + x)[..n] == "data: " + x[..n - 6]
  {
  }

  lemma ParseDataLine(x: string, caps: Caps)
    requires NoBreaks(x) && |x| <= caps.event
    ensures ParseBlock("data: " + x, caps) == Some(SseEvent("message", x))
  {
    ClassifyDataLine(x);
    assert NoBreaks("data: " + x);
    ParseOneLine("data: " + x, caps);
  }

  /** The cut of pending text that starts a data line. */
  lemma CutDataIs(x: string, pending: string, caps: Caps)
    requires caps.event >= 6 && |pending| > caps.event && NoBreaks(x)
    requires |x| + 6 >= caps.event && ("data: " + x)[..caps.event] == pending[..caps.event]
    ensures CutEvents(pending, caps) == [SseEvent("message", x[..caps.event - 6] + TRUNCATED_MARKER)]
  {
    CutOfData(x, caps.event);
    ParseDataLine(x[..caps.event - 6], caps);
  }

  /** A data line that fills the pending cap shows its beginning, to the event cap, and the marker. */
  lemma LongLineShows(x: string, chunk: string, caps: Caps)
    requires chunk == "data: " + x && NoBreaks(x)
    requires 6 <= caps.event <= caps.pending < |chunk|
    ensures Run("", [chunk], caps) == [SseEvent("message", x[..caps.event - 6] + TRUNCATED_MARKER)]
  {
    assert NoBreaks(chunk);
    FeedWithoutCr(chunk, caps);
    UnbrokenLine(chunk);
    RestOfUnbroken(chunk);
    CutDataIs(x, chunk, caps);
    LastChunk("", chunk, caps);
    NoTail(caps);
  }

  lemma PartOf(x: string, escaped: string, n: nat)
    requires x <= escaped && NoBreaks(escaped) && n <= |x|
    ensures NoBreaks(x) && x[..n] == escaped[..n]
  {
    assert forall i :: 0 <= i < |x| ==> x[i] == escaped[i];
  }

  /** Of an escaped line that is the prefix of the line whose escape fills the cut, or all but one
      character of it and then a stray backslash, and the marker. */
  lemma LongLineShowsPrefix(line: string, x: string, chunk: string, caps: Caps) returns (j: nat)
    requires x <= EscapeLine(line) && chunk == "data: " + x && 6 <= caps.event <= caps.pending < |chunk|
    ensures j <= |line|
    ensures var events := Run("", [chunk], caps);
            && |events| == 1 && events[0].event == "message"
            && var shown := UnescapeLine(events[0].data);
               || (shown == line[..j] + TRUNCATED_MARKER && |EscapeLine(line[..j])| == caps.event - 6)
               || (shown == line[..j] + "\\" + TRUNCATED_MARKER && |EscapeLine(line[..j])| == caps.event - 7)
  {
    EscapeHasNoBreaks(line);
    PartOf(x, EscapeLine(line), caps.event - 6);
    LongLineShows(x, chunk, caps);
    j := CutLineShowsPrefix(line, caps.event - 6);
  }

  /** The text before the data of a terminal frame. */
  function Head(name: string): string {
    "event: " + name + "\n" + "data: "
  }

  lemma ParseTypedCut(name: string, x: string, caps: Caps)
    requires NoBreaks(name) && NoBreaks(x) && |x| <= caps.event
    ensures ParseBlock(Head(name) + x, caps) == Some(SseEvent(name, x))
  {
    var head, tail := "event: " + name, "data: " + x;
    assert Head(name) + x == head + "\n" + tail;
    assert NoBreaks(head) && NoBreaks(tail);
    ClassifyEventLine(name);
    ClassifyDataLine(x);
    ParseTwoLines(head, tail, Head(name) + x, name, x, caps);
  }

  /** The same for a terminal frame: its type is kept. */
  lemma CutTypedIs(name: string, x: string, pending: string, n: nat, caps: Caps)
    requires NoBreaks(name) && NoBreaks(x) && n == |Head(name)| && n <= caps.event < |pending| && |x| + n >= caps.event
    requires (Head(name) + x)[..caps.event] == pending[..caps.event]
    ensures CutEvents(pending, caps) == [SseEvent(name, x[..caps.event - n] + TRUNCATED_MARKER)]
  {
    assert (Head(name) + x)[..caps.event] == Head(name) + x[..caps.event - n];
    ParseTypedCut(name, x[..caps.event - n], caps);
  }

  /** A frame past the pending cap, cut before its last newline, in the middle of others: the others
      are read as they are, and it shows the beginning of its payload, under its own type. */
  lemma CutFrameShows(front: seq<Frame>, line: string, later: seq<Frame>, head: string, tail: string, caps: Caps)
    requires |DataBlock(line)| >= caps.pending >= caps.event >= 6
    requires head == WireText(front) + (DataBlock(line) + "\n") && tail == "\n" + WireText(later)
    ensures Run("", [head, tail], caps)
         == AllEvents(front, caps)
            + [SseEvent("message", EscapeLine(line)[..caps.event - 6] + TRUNCATED_MARKER)]
            + AllEvents(later, caps)
  {
    CutEventsAre(front, Data(line), later, head, tail, caps);
    EscapeHasNoBreaks(line);
    assert (DataBlock(line) + "\n")[..caps.event] == DataBlock(line)[..caps.event];
    CutDataIs(EscapeLine(line), DataBlock(line) + "\n", caps);
  }

  lemma CutErrorShows(front: seq<Frame>, message: string, later: seq<Frame>, head: string, tail: string, caps: Caps)
    requires |EventBlock("error", message)| >= caps.pending >= caps.event >= 19
    requires head == WireText(front) + (EventBlock("error", message) + "\n") && tail == "\n" + WireText(later)
    ensures Run("", [head, tail], caps)
         == AllEvents(front, caps)
            + [SseEvent("error", EscapeLine(message)[..caps.event - 19] + TRUNCATED_MARKER)]
            + AllEvents(later, caps)
  {
    CutEventsAre(front, Error(message), later, head, tail, caps);
    CutErrorIs(message, EscapeLine(message), EventBlock("error", message), caps);
  }

  lemma CutErrorIs(message: string, escaped: string, block: string, caps: Caps)
    requires escaped == EscapeLine(message) && block == EventBlock("error", message) && |block| >= caps.event >= 19
    ensures CutEvents(block + "\n", caps) == [SseEvent("error", escaped[..caps.event - 19] + TRUNCATED_MARKER)]
  {
    EscapeHasNoBreaks(message);
    NameIsPlain("error");
    assert |Head("error")| == 19;
    assert block == Head("error") + escaped;
    assert (block + "\n")[..caps.event] == block[..caps.event];
    CutTypedIs("error", escaped, block + "\n", 19, caps);
  }

  // ----- the viewer -----

  function PhaseOf(frames: seq<Frame>, caps: Caps): Phase {
    if frames == [] then Streaming
    else match frames[|frames| - 1]
      case Data(_) => Streaming
      case Keepalive => Streaming
      case Error(message) => Failed(if Kept(message, caps) == "" then "stream failed" else Kept(message, caps))
      case _ => Ended
  }

  predicate OnlyLastTerminal(frames: seq<Frame>) {
    forall i :: 0 <= i < |frames| - 1 ==> !Terminal(frames[i])
  }

  lemma {:induction false} ConsumeAppend(lines: seq<string>, a: seq<SseEvent>, b: seq<SseEvent>, max: nat)
    requires max > 0 && Consume(lines, a, max).phase == Streaming
    ensures Consume(lines, a + b, max) == Consume(Consume(lines, a, max).lines, b, max)
    decreases |a|
  {
    if a == [] {
      assert a + b == b;
    } else {
      assert (a + b)[1..] == a[1..] + b;
      ConsumeAppend(Append(lines, UnescapeLine(a[0].data), max), a[1..], b, max);
    }
  }

  lemma {:induction false} AllEventsSnoc(frames: seq<Frame>, f: Frame, caps: Caps)
    ensures AllEvents(frames + [f], caps) == AllEvents(frames, caps) + FrameEvents(f, caps)
  {
    if frames == [] {
      assert frames + [f] == [f] && [f][1..] == [];
    } else {
      assert (frames + [f])[1..] == frames[1..] + [f];
      AllEventsSnoc(frames[1..], f, caps);
    }
  }

  lemma {:induction false} ConsumeFrames(frames: seq<Frame>, caps: Caps, max: nat)
    requires max > 0 && OnlyLastTerminal(frames)
    ensures Consume([], AllEvents(frames, caps), max)
         == View(LastLines(AllShown(DataLines(frames), caps), max), PhaseOf(frames, caps))
    decreases |frames|
  {
    if frames == [] {
    } else {
      var n := |frames| - 1;
      var front, f := frames[..n], frames[n];
      assert frames == front + [f];
      assert front != [] ==> !Terminal(front[n - 1]) by {
        if front != [] { assert front[n - 1] == frames[n - 1]; }
      }
      ConsumeFrames(front, caps, max);
      AllEventsSnoc(front, f, caps);
      ConsumeAppend([], AllEvents(front, caps), FrameEvents(f, caps), max);
      ConsumeOne(DataLines(front), f, caps, max);
    }
  }

  lemma ConsumeOne(lines: seq<string>, f: Frame, caps: Caps, max: nat)
    requires max > 0
    ensures Consume(LastLines(AllShown(lines, caps), max), FrameEvents(f, caps), max)
         == View(LastLines(AllShown(lines + (if f.Data? then [f.line] else []), caps), max), PhaseOf([f], caps))
  {
    if f.Data? {
      assert (lines + [f.line])[..|lines|] == lines;
      AppendKeepsLast(AllShown(lines, caps), Shown(f.line, caps), max);
      assert FrameEvents(f, caps)[1..] == [];
    } else {
      assert lines + [] == lines;
    }
  }

  // ----- what is shown of a line -----

  /** Characters that escaping leaves alone. */
  predicate NeedsNoEscape(s: string) {
    forall i :: 0 <= i < |s| ==> s[i] != '\\' && s[i] != '\r' && s[i] != '\n'
  }

  lemma {:induction false} EscapeLonger(s: string)
    ensures |EscapeEach(s)| >= |s|
    ensures EscapeEach(s) == s <==> NeedsNoEscape(s)
    ensures |EscapeEach(s)| == |s| ==> NeedsNoEscape(s)
  {
    if s != "" {
      EscapeLonger(s[1..]);
      assert s == [s[0]] + s[1..];
      assert NeedsNoEscape(s) <==> NeedsNoEscape([s[0]]) && NeedsNoEscape(s[1..]);
    }
  }

  predicate AllBackslashes(s: string) {
    forall i :: 0 <= i < |s| ==> s[i] == '\\'
  }

  /** Characters that need no escape, then nothing but backslashes. */
  predicate PlainThenBackslashes(s: string) {
    && (forall i :: 0 <= i < |s| ==> s[i] != '\r' && s[i] != '\n')
    && (forall i, j :: 0 <= i < j < |s| && s[i] == '\\' ==> s[j] == '\\')
  }

  lemma {:induction false} EscapedBackslashes(s: string, k: nat)
    requires k <= |s| && AllBackslashes(s[..k])
    ensures |EscapeEach(s)| >= 2 * k && AllBackslashes(EscapeEach(s)[..2 * k])
  {
    if k > 0 {
      assert s[..k][0] == '\\';
      assert s[1..][..k - 1] == s[..k][1..];
      EscapedBackslashes(s[1..], k - 1);
      assert EscapeEach(s)[..2 * k] == "\\\\" + EscapeEach(s[1..])[..2 * k - 2];
    }
  }

  lemma {:induction false} BackslashesReach(s: string, n: nat, k: nat)
    requires 0 < k <= n <= |s| <= |EscapeEach(s)| && AllBackslashes(s[..k]) && EscapeEach(s)[..n] == s[..n]
    ensures AllBackslashes(s[..n])
    decreases n - k
  {
    if k < n {
      EscapedBackslashes(s, k);
      assert EscapeEach(s)[..n][k] == EscapeEach(s)[..2 * k][k] == '\\';
      assert s[k] == s[..n][k] == '\\';
      BackslashesReach(s, n, k + 1);
    }
  }

  /** A cut escape is the cut string itself exactly for plain characters and then backslashes. */
  lemma {:induction false} CutIsItself(s: string, n: nat)
    requires n <= |s|
    ensures |EscapeEach(s)| >= |s|
    ensures EscapeEach(s)[..n] == s[..n] <==> PlainThenBackslashes(s[..n])
  {
    EscapeLonger(s);
    if n > 0 {
      var c, later := s[0], s[1..];
      if c == '\\' {
        if EscapeEach(s)[..n] == s[..n] { BackslashesReach(s, n, 1); }
        if PlainThenBackslashes(s[..n]) { BackslashesOnly(s, n); }
      } else if c == '\r' || c == '\n' {
        assert EscapeEach(s)[..n][0] == '\\' && s[..n][0] == c;
      } else {
        CutIsItself(later, n - 1);
        assert s[..n] == [c] + later[..n - 1];
        assert EscapeEach(s)[..n] == [c] + EscapeEach(later)[..n - 1];
        PlainThenCons(c, later[..n - 1]);
        ConsEqual(c, EscapeEach(later)[..n - 1], later[..n - 1]);
      }
    }
  }

  lemma BackslashesOnly(s: string, n: nat)
    requires 0 < n <= |s| && s[0] == '\\' && PlainThenBackslashes(s[..n]) && |EscapeEach(s)| >= n
    ensures EscapeEach(s)[..n] == s[..n]
  {
    assert s[..n][0] == '\\';
    assert AllBackslashes(s[..n]);
    EscapedBackslashes(s, n);
    forall i | 0 <= i < n ensures EscapeEach(s)[i] == s[i] {
      assert EscapeEach(s)[..2 * n][i] == '\\' && s[..n][i] == '\\';
    }
  }

  lemma PlainThenCons(c: char, s: string)
    requires c != '\\' && c != '\r' && c != '\n'
    ensures PlainThenBackslashes([c] + s) <==> PlainThenBackslashes(s)
  {
    var all := [c] + s;
    assert forall i :: 0 <= i < |s| ==> s[i] == all[i + 1];
  }

  lemma ConsEqual(c: char, a: string, b: string)
    ensures [c] + a == [c] + b <==> a == b
  {
    if [c] + a == [c] + b {
      assert a == ([c] + a)[1..] && b == ([c] + b)[1..];
    }
  }

  /** A message that is what its own cut would look like. */
  predicate LooksCut(message: string, caps: Caps) {
    && |message| == caps.event + |TRUNCATED_MARKER|
    && message[caps.event..] == TRUNCATED_MARKER
    && PlainThenBackslashes(message[..caps.event])
  }

  lemma OwnCut(message: string, escaped: string, marker: string, n: nat)
    requires n <= |message| <= |escaped|
    ensures message == escaped[..n] + marker <==>
              |message| == n + |marker| && message[n..] == marker && escaped[..n] == message[..n]
  {
    assert message == message[..n] + message[n..];
    if message == escaped[..n] + marker {
      assert message[..n] == escaped[..n] && message[n..] == marker;
    }
  }

  /** An error is shown as it came, escapes and all: its detail is the message exactly if it fits
      and needs no escape, or if it looks cut already. */
  lemma DetailIsMessage(message: string, caps: Caps)
    requires message != ""
    ensures PhaseOf([Error(message)], caps) == Failed(message) <==>
              if |EscapeLine(message)| <= caps.event then NeedsNoEscape(message) else LooksCut(message, caps)
  {
    EscapeIsPerCharacter(message);
    EscapeLonger(message);
    if |EscapeLine(message)| > caps.event {
      LongDetail(message, caps);
    }
  }

  lemma LongDetail(message: string, caps: Caps)
    requires |EscapeLine(message)| > caps.event
    ensures message == EscapeLine(message)[..caps.event] + TRUNCATED_MARKER <==> LooksCut(message, caps)
  {
    EscapeIsPerCharacter(message);
    EscapeLonger(message);
    if caps.event <= |message| {
      OwnCut(message, EscapeLine(message), TRUNCATED_MARKER, caps.event);
      CutIsItself(message, caps.event);
    }
  }

  /** A backslash is shown twice. */
  lemma DetailCanDiffer()
    ensures PhaseOf([Error("\\")], SOURCE_CAPS) == Failed("\\\\")
  {
    EscapeOne('\\');
    assert "\\" == ['\\'];
  }

  /** A line that fits is shown as it was. */
  lemma ShownWhole(line: string, caps: Caps)
    requires |EscapeLine(line)| <= caps.event
    ensures Shown(line, caps) == line
  {
    UnescapeInvertsEscape(line);
  }

  /** A longer line is shown as the prefix whose escape fills the cap, or all but one character of it
      and then a stray backslash, and the marker. */
  lemma ShownCut(line: string, caps: Caps) returns (j: nat)
    requires |EscapeLine(line)| > caps.event
    ensures j <= |line|
    ensures || (Shown(line, caps) == line[..j] + TRUNCATED_MARKER && |EscapeLine(line[..j])| == caps.event)
            || (Shown(line, caps) == line[..j] + "\\" + TRUNCATED_MARKER && |EscapeLine(line[..j])| == caps.event - 1)
  {
    j := CutLineShowsPrefix(line, caps.event);
  }

  /** Each frame as it is read on its own, in any chunks: a line, an error and the time limit escaped
      and cut at the cap, the end of the log without data. */
  lemma FrameReadAs(f: Frame, chunks: seq<string>, caps: Caps)
    requires Concat(chunks) == Render(f) && |Block(f)| < caps.pending
    ensures var escaped := EscapeLine(match f
              case Data(line) => line
              case Error(message) => message
              case TimeLimit => TIME_LIMIT_MESSAGE
              case _ => "");
            var kept := if |escaped| <= caps.event then escaped else escaped[..caps.event] + TRUNCATED_MARKER;
            Run("", chunks, caps) == match f
              case Data(_) => [SseEvent("message", kept)]
              case Keepalive => []
              case EndOfLog => [SseEvent("end", "")]
              case TimeLimit => [SseEvent("end", kept)]
              case Error(_) => [SseEvent("error", kept)]
  {
    OneText(f);
    AllOne(f, caps);
    FramesRoundTrip([f], chunks, caps);
  }

  lemma {:induction false} AllShownWhole(lines: seq<string>, caps: Caps)
    requires forall i :: 0 <= i < |lines| ==> |EscapeLine(lines[i])| <= caps.event
    ensures AllShown(lines, caps) == lines
  {
    if lines == [] {
    } else {
      AllShownWhole(lines[..|lines| - 1], caps);
      ShownWhole(lines[|lines| - 1], caps);
    }
  }

  // ----- main results -----

  /** At any moment of any schedule, read in any chunks: the viewer shows the last lines relayed. */
  lemma ViewerFollowsRelay(c: Config, schedule: seq<Event>, s: State, chunks: seq<string>, caps: Caps, max: nat)
    requires Reachable(c, schedule, s)
    requires Fits(s.frames, caps) && Concat(chunks) == WireText(s.frames) && max > 0
    ensures Consume([], Run("", chunks, caps), max)
         == View(LastLines(AllShown(DataLines(s.frames), caps), max), PhaseOf(s.frames, caps))
    ensures DataLines(s.frames) <= s.pulled
  {
    RelaySafety(c, schedule, s);
    FramesRoundTrip(s.frames, chunks, caps);
    ConsumeFrames(s.frames, caps, max);
  }

  lemma KeptSomething(message: string, caps: Caps)
    requires message != ""
    ensures Kept(message, caps) != ""
  {
    EscapeIsPerCharacter(message);
    EscapeLonger(message);
  }

  lemma PhaseIsTold(frames: seq<Frame>, n: nat, caps: Caps)
    requires |frames| == n + 1 && Terminal(frames[n])
    requires frames[n].Error? ==> frames[n].message != ""
    ensures PhaseOf(frames, caps) == if frames[n].Error? then Failed(Kept(frames[n].message, caps)) else Ended
  {
    if frames[n].Error? { KeptSomething(frames[n].message, caps); }
  }

  /** The viewer stops as the upstream did: ended if it ended, failed with its message if it failed;
      and at the time limit it stops as ended. */
  lemma ViewerTellsWhy(c: Config, schedule: seq<Event>, s: State, chunks: seq<string>, caps: Caps, max: nat)
    requires Reachable(c, schedule, s)
    requires Fits(s.frames, caps) && Concat(chunks) == WireText(s.frames) && max > 0
    requires s.frames != [] && Terminal(s.frames[|s.frames| - 1])
    ensures var phase := Consume([], Run("", chunks, caps), max).phase;
            if s.frames[|s.frames| - 1] == TimeLimit then phase == Ended && s.now >= c.Deadline()
            else if UpstreamEnds in schedule then phase == Ended
            else exists why, shown :: UpstreamFails(why) in schedule && Tells(shown, why)
                                      && phase == Failed(Capped(EscapeLine(shown), caps))
  {
    var last := s.frames[|s.frames| - 1];
    ViewerFollowsRelay(c, schedule, s, chunks, caps, max);
    TerminalTellsWhy(c, schedule, s);
    assert last in s.frames;
    if last.Error? {
      var why :| UpstreamFails(why) in schedule && last.message == if why == "" then "stream failed" else why;
      assert Tells(last.message, why);
    }
    PhaseIsTold(s.frames, |s.frames| - 1, caps);
  }

  /** Once the upstream is over: the last lines of the whole log, as they were, and the viewer has
      stopped on the terminal event, ended or failed as the upstream. */
  lemma EndToEndFidelity(c: Config, schedule: seq<Event>, s: State, chunks: seq<string>, caps: Caps, max: nat)
    requires Reachable(c, schedule, s)
    requires Fits(s.frames, caps) && Concat(chunks) == WireText(s.frames) && max > 0
    requires forall i :: 0 <= i < |s.pulled| ==> |EscapeLine(s.pulled[i])| <= caps.event
    requires s.frames != [] && (s.frames[|s.frames| - 1] == EndOfLog || s.frames[|s.frames| - 1].Error?)
    ensures var view := Consume([], Run("", chunks, caps), max);
            view.lines == LastLines(s.pulled, max) && view.phase != Streaming
            && (view.phase == Ended <==> UpstreamEnds in schedule)
  {
    RelaySafety(c, schedule, s);
    ViewerFollowsRelay(c, schedule, s, chunks, caps, max);
    ViewerTellsWhy(c, schedule, s, chunks, caps, max);
    AllShownWhole(s.pulled, caps);
  }

  lemma {:induction false} ShortLines(frames: seq<Frame>, caps: Caps)
    requires Short(frames, caps)
    ensures forall line :: line in DataLines(frames) ==> |EscapeLine(line)| <= caps.event
  {
    if frames == [] {
    } else {
      var n := |frames| - 1;
      ShortLines(frames[..n], caps);
      assert frames[n].Data? ==> Payload(frames[n]) == frames[n].line;
    }
  }

  /** With the caps and the window of the viewer as they are: if no escaped line or message is
      longer than the event cap, the viewer ends on exactly the last lines of the log. */
  lemma EndToEndAsShipped(c: Config, schedule: seq<Event>, s: State, chunks: seq<string>)
    requires Reachable(c, schedule, s)
    requires Short(s.frames, SOURCE_CAPS) && Concat(chunks) == WireText(s.frames)
    requires s.frames != [] && (s.frames[|s.frames| - 1] == EndOfLog || s.frames[|s.frames| - 1].Error?)
    ensures var view := Consume([], Run("", chunks, SOURCE_CAPS), MAX_LINES);
            view.lines == LastLines(s.pulled, MAX_LINES) && view.phase != Streaming
            && (view.phase == Ended <==> UpstreamEnds in schedule)
  {
    ShortFits(s.frames, SOURCE_CAPS);
    RelaySafety(c, schedule, s);
    ShortLines(s.frames, SOURCE_CAPS);
    EndToEndFidelity(c, schedule, s, chunks, SOURCE_CAPS, MAX_LINES);
  }
}
