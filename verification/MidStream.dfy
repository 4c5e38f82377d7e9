/**
 The viewer on any part of the relay's text, also one that stops in the middle of a frame: what it
 shows while the stream is open, and what a clean end there adds.
 */
module MidStream {
  import opened Prelude
  import opened Wire
  import opened Reader
  import opened Chunking
  import opened EventStreamStandard
  import opened Relay
  import opened LogViewer
  import opened EndToEnd

  // ----- in the middle of a frame -----

  /** Some of a frame's text, not all. */
  predicate MidFrame(partial: string, f: Frame) {
    partial <= Render(f) && |partial| < |Render(f)|
  }

  lemma PartialIsUnbroken(partial: string, block: string)
    requires Framed(block) && partial <= block + "\n"
    ensures '\r' !in partial && NextBreak(partial) == |partial|
  {
    forall k | 0 <= k < |partial| ensures !BlankAt(partial, k) {
      assert !BlankAt(block + "\n", k);
    }
    BreakIsFirst(partial, |partial|);
    assert forall c :: c in partial ==> c in block + "\n";
  }

  lemma MidFramePrefix(partial: string, f: Frame)
    ensures MidFrame(partial, f) ==> partial <= Block(f) + "\n"
  {
    RenderIsBlock(f);
    assert Block(f) + "\n\n" == Block(f) + "\n" + "\n";
  }

  lemma MidFrameBlocks(front: seq<Frame>, f: Frame, partial: string, text: string)
    requires MidFrame(partial, f) && text == WireText(front) + partial
    ensures '\r' !in text && Blocks(text) == FrameBlocks(front) && Rest(text) == partial
  {
    MidFramePrefix(partial, f);
    BlockFramed(f);
    PartialIsUnbroken(partial, Block(f));
    WireTextBlocks(front);
    BlocksAppend(WireText(front), partial);
    assert "" + partial == partial;
    RestOfUnbroken(partial);
  }

  /** Cut in the middle of a frame: while the stream is open the reader has yielded the events of
      the whole frames; if it ends there, one for what it has of the last is added. */
  lemma CutOff(front: seq<Frame>, f: Frame, partial: string, chunks: seq<string>, caps: Caps)
    requires MidFrame(partial, f) && Concat(chunks) == WireText(front) + partial
    requires Fits(front, caps) && |Block(f)| < caps.pending
    ensures Yielded("", chunks, caps) == AllEvents(front, caps)
    ensures Run("", chunks, caps) == AllEvents(front, caps) + Events(ParseBlock(partial, caps))
  {
    var text := WireText(front) + partial;
    MidFrameBlocks(front, f, partial, text);
    MidFramePrefix(partial, f);
    NormaliseIdentity(text);
    assert !EndsWithCr(text);
    FrameBlocksShort(front, caps);
    ParseFrames(front, caps);
    SilentExactlyWhenCalm(text, caps);
    ChunkingsAgree(chunks, chunks, caps);
    OpenStream(chunks, caps);
  }

  lemma AfterFirst(first: string, rest: string, text: string)
    requires text <= first + rest && |text| >= |first|
    ensures text == first + text[|first|..] && text[|first|..] <= rest
  {
    assert text[..|first|] == (first + rest)[..|first|] == first;
    assert (first + rest)[|first|..] == rest;
  }

  lemma FrontText(frames: seq<Frame>, m: nat)
    requires m < |frames|
    ensures WireText(frames[..m + 1]) == Render(frames[0]) + WireText(frames[1..][..m])
  {
    assert frames[..m + 1][1..] == frames[1..][..m];
  }

  /** Which whole frames a prefix of the text holds. */
  lemma {:induction false} WholeFrames(frames: seq<Frame>, text: string) returns (n: nat, partial: string)
    requires text <= WireText(frames)
    ensures n <= |frames| && text == WireText(frames[..n]) + partial
    ensures if n == |frames| then partial == "" else MidFrame(partial, frames[n])
  {
    if frames == [] {
      n, partial := 0, "";
    } else {
      var first := Render(frames[0]);
      if |text| < |first| {
        n, partial := 0, text;
        assert frames[..0] == [] && text == WireText(frames)[..|text|] == first[..|text|];
      } else {
        var later := text[|first|..];
        AfterFirst(first, WireText(frames[1..]), text);
        var m, rest := WholeFrames(frames[1..], later);
        n, partial := m + 1, rest;
        FrontText(frames, m);
        Regroup(first, WireText(frames[1..][..m]), rest);
      }
    }
  }

  lemma FitsFront(frames: seq<Frame>, n: nat, caps: Caps)
    requires Fits(frames, caps) && n <= |frames|
    ensures Fits(frames[..n], caps)
  {
  }

  lemma FrontKeepsOrder(frames: seq<Frame>, n: nat)
    requires (forall i :: 0 <= i < |frames| && Terminal(frames[i]) ==> i == |frames| - 1) && n <= |frames|
    ensures OnlyLastTerminal(frames[..n])
  {
  }

  /** At any moment, after any part of the relay's text in any chunks: while the stream is open the
      viewer shows the lines of the whole frames it has, no more and no less. */
  lemma ViewerMidStream(c: Config, schedule: seq<Event>, s: State, text: string, chunks: seq<string>, caps: Caps, max: nat)
    returns (n: nat, partial: string)
    requires Reachable(c, schedule, s) && max > 0
    requires Fits(s.frames, caps) && text <= WireText(s.frames) && Concat(chunks) == text
    ensures n <= |s.frames| && text == WireText(s.frames[..n]) + partial
    ensures if n == |s.frames| then partial == "" else MidFrame(partial, s.frames[n])
    ensures Consume([], Yielded("", chunks, caps), max)
         == View(LastLines(AllShown(DataLines(s.frames[..n]), caps), max), PhaseOf(s.frames[..n], caps))
    ensures Run("", chunks, caps) == AllEvents(s.frames[..n], caps) + Events(ParseBlock(partial, caps))
  {
    n, partial := WholeFrames(s.frames, text);
    RelaySafety(c, schedule, s);
    FrontKeepsOrder(s.frames, n);
    FitsFront(s.frames, n, caps);
    ConsumeFrames(s.frames[..n], caps, max);
    if n < |s.frames| {
      CutOff(s.frames[..n], s.frames[n], partial, chunks, caps);
    } else {
      WholeText(s.frames[..n], chunks, caps);
    }
  }

  lemma WholeText(frames: seq<Frame>, chunks: seq<string>, caps: Caps)
    requires Fits(frames, caps) && Concat(chunks) == WireText(frames) + ""
    ensures Yielded("", chunks, caps) == AllEvents(frames, caps)
    ensures Run("", chunks, caps) == AllEvents(frames, caps) + Events(ParseBlock("", caps))
  {
    assert WireText(frames) + "" == WireText(frames);
    FramesRoundTrip(frames, chunks, caps);
    WireTextCalm(frames, caps);
    WireTextBlocks(frames);
    NormaliseIdentity(WireText(frames));
    assert !EndsWithCr(WireText(frames));
    SilentExactlyWhenCalm(WireText(frames), caps);
    OpenStream(chunks, caps);
    ParseFrames(frames, caps);
    EmptyBlock(caps);
    assert AllEvents(frames, caps) + [] == AllEvents(frames, caps);
  }

  /** A prefix of a line, perhaps with half an escape, perhaps cut and marked. */
  predicate ShowsPrefix(shown: string, line: string, j: nat) {
    j <= |line| &&
    (shown == line[..j] || shown == line[..j] + "\\" ||
     shown == line[..j] + TRUNCATED_MARKER || shown == line[..j] + "\\" + TRUNCATED_MARKER)
  }

  lemma UnescapeCut(line: string, k: nat) returns (j: nat)
    requires k <= |EscapeLine(line)|
    ensures j <= |line|
    ensures UnescapeLine(EscapeLine(line)[..k]) == line[..j] || UnescapeLine(EscapeLine(line)[..k]) == line[..j] + "\\"
  {
    j := CutSplitsOneSequence(line, k);
    UnescapeInvertsEscape(line[..j]);
    UnescapeAfterEscape(line[..j], "\\");
    assert UnescapeLine("\\") == "\\" by { UnescapeLone(); }
  }

  lemma UnescapeLone()
    ensures UnescapeLine("\\") == "\\"
  {
    assert "\\"[1..] == "" && "\\" == ['\\'];
  }

  lemma CutValueShown(line: string, k: nat, caps: Caps) returns (j: nat)
    requires k <= |EscapeLine(line)|
    ensures ShowsPrefix(UnescapeLine(Capped(EscapeLine(line)[..k], caps)), line, j)
  {
    if k > caps.event {
      j := CutLineShowsPrefix(line, caps.event);
      assert EscapeLine(line)[..k][..caps.event] == EscapeLine(line)[..caps.event];
    } else {
      j := UnescapeCut(line, k);
    }
  }

  lemma ShortNames(partial: string)
    requires |partial| < 4 && ':' !in partial
    ensures Classify(partial) == Ignored
  {
    assert Find(partial, ':') == |partial|;
    assert partial[..|partial|] == partial;
  }

  lemma BareName(partial: string)
    requires partial == "data"
    ensures Classify(partial) == DataField("")
  {
    var colon := Find(partial, ':');
    assert colon == 4;
    assert partial[..colon] == "data";
  }

  lemma PartialField(escaped: string, k: nat)
    requires 5 <= k <= |escaped| + 6
    ensures Classify(("data: " + escaped)[..k]) == DataField(escaped[..if k == 5 then 0 else k - 6])
  {
    var block := "data: " + escaped;
    if k == 5 {
      assert block[..5] == "data:" + "";
      ClassifyData("");
    } else {
      assert block[..k] == "data:" + (" " + escaped[..k - 6]);
      ClassifyData(" " + escaped[..k - 6]);
      assert (" " + escaped[..k - 6])[1..] == escaped[..k - 6];
    }
  }

  lemma PartialOfLine(partial: string, value: string, caps: Caps)
    requires '\n' !in partial && Classify(partial) == DataField(value)
    ensures ParseBlock(partial, caps) == Some(SseEvent("message", Capped(value, caps)))
  {
    ParseOneLine(partial, caps);
  }

  /** What the part of a data frame means to the reader: nothing within the field's name, and from
      there on what there is of the escaped line. */
  lemma PartialData(line: string, partial: string, caps: Caps)
    requires MidFrame(partial, Data(line))
    ensures ParseBlock(partial, caps)
         == if |partial| < 4 then None
            else Some(SseEvent("message", Capped(EscapeLine(line)[..Received(partial, line)], caps)))
  {
    var escaped, block := EscapeLine(line), DataBlock(line);
    MidFramePrefix(partial, Data(line));
    DataBlockFramed(line);
    if |partial| > |block| {
      assert partial == block + "\n";
      ParseIgnoresTrailingNewline(block, caps);
      ParseDataBlock(line, caps);
      assert escaped[..|escaped|] == escaped;
    } else {
      PartOfBlock(partial, block, escaped, caps);
    }
  }

  /** Characters of the escaped line that have arrived. */
  function Received(partial: string, line: string): (n: nat)
    ensures n <= |EscapeLine(line)|
  {
    if |partial| < 6 then 0 else if |partial| - 6 > |EscapeLine(line)| then |EscapeLine(line)| else |partial| - 6
  }

  lemma PartOfBlock(partial: string, block: string, escaped: string, caps: Caps)
    requires block == "data: " + escaped && NoBreaks(block) && partial <= block
    ensures ParseBlock(partial, caps)
         == if |partial| < 4 then None
            else Some(SseEvent("message", Capped(escaped[..if |partial| < 6 then 0 else |partial| - 6], caps)))
  {
    assert partial == block[..|partial|];
    assert '\n' !in partial;
    if |partial| < 4 {
      assert ':' !in partial;
      ShortNames(partial);
      ParseOneLine(partial, caps);
    } else if |partial| == 4 {
      assert partial == "data";
      BareName(partial);
      PartialOfLine(partial, "", caps);
      assert escaped[..0] == "";
    } else {
      PartialField(escaped, |partial|);
      PartialOfLine(partial, escaped[..if |partial| == 5 then 0 else |partial| - 6], caps);
    }
  }

  /** A stream that ends in a data frame adds nothing to the view, or a prefix of the line. */
  lemma CutOffShowsPrefix(line: string, partial: string, caps: Caps) returns (j: nat)
    requires MidFrame(partial, Data(line))
    ensures j <= |line|
    ensures |partial| < 4 ==> ParseBlock(partial, caps) == None
    ensures |partial| >= 4 ==>
              && ParseBlock(partial, caps).Some? && ParseBlock(partial, caps).value.event == "message"
              && ShowsPrefix(UnescapeLine(ParseBlock(partial, caps).value.data), line, j)
  {
    PartialData(line, partial, caps);
    j := CutValueShown(line, Received(partial, line), caps);
  }
}
