/**
 The reader against the line-by-line interpreter of section 9.2.6 of the WHATWG HTML Standard.

 Greedy splitting at blank lines and parsing block by block give the events of the standard for
 every block that is `Plain`, and for no other block; at the end of the stream the reader adds
 the event of the unterminated rest, which the standard discards. `ReaderIsStandardExactly` says
 for which streams the two agree.
 */
module EventStreamStandard {
  import opened Prelude
  import opened Wire
  import opened Reader
  import opened Chunking

  // ----- the standard -----

  /** The interpreter: events dispatched so far, data buffer, event type buffer. */
  datatype Interpreter = Interpreter(events: seq<SseEvent>, data: string, event: string) {
    function Dispatch(): Interpreter {
      if data == "" then Interpreter(events, "", "")
      else
        var name := if event == "" then "message" else event;
        Interpreter(events + [SseEvent(name, data[..|data| - 1])], "", "")
    }

    function Process(field: string, value: string): Interpreter {
      if field == "event" then this.(event := value)
      else if field == "data" then this.(data := data + value + "\n")
      else this
    }

    function Line(line: string): Interpreter {
      if line == "" then Dispatch()
      else if line[0] == ':' then this
      else if ':' in line then
        var colon := Find(line, ':');
        var value := line[colon + 1..];
        Process(line[..colon], if value != "" && value[0] == ' ' then value[1..] else value)
      else Process(line, "")
    }
  }

  const START := Interpreter([], "", "")

  function Interpret(start: Interpreter, lines: seq<string>): Interpreter {
    if lines == [] then start
    else Interpret(start, lines[..|lines| - 1]).Line(lines[|lines| - 1])
  }

  predicate Terminator(c: char) {
    c == '\r' || c == '\n'
  }

  function LineEnd(text: string, k: nat): (n: nat)
    requires k <= |text|
    ensures k <= n <= |text| && (n < |text| ==> Terminator(text[n]))
    ensures forall j :: k <= j < n ==> !Terminator(text[j])
    decreases |text| - k
  {
    if k == |text| || Terminator(text[k]) then k else LineEnd(text, k + 1)
  }

  /** Length of the first line, without its terminator. */
  function FirstLine(text: string): (n: nat)
    ensures n <= |text| && (n < |text| ==> Terminator(text[n]))
    ensures '\r' !in text[..n] && '\n' !in text[..n]
  {
    LineEnd(text, 0)
  }

  /** The lines that end in CRLF, LF or CR. */
  function Lines(text: string): seq<string> {
    var n := FirstLine(text);
    if n == |text| then []
    else
      var next := if text[n] == '\r' && n + 1 < |text| && text[n + 1] == '\n' then n + 2 else n + 1;
      [text[..n]] + Lines(text[next..])
  }

  /** What the standard dispatches; a block without its blank line is discarded. */
  function StandardEvents(text: string): seq<SseEvent> {
    Interpret(START, Lines(text)).events
  }

  // ----- lines of the normalised text -----

  function Terminated(text: string): seq<string> {
    Split(text)[..|Split(text)| - 1]
  }

  lemma LineTaken(text: string, n: nat, width: nat)
    requires n == FirstLine(text) < |text| && width == UnitWidth(text[n..])
    ensures Lines(text) == [text[..n]] + Lines(text[n + width..])
  {
  }

  lemma {:induction false} LinesAreTerminatedParts(text: string)
    ensures Lines(text) == Terminated(Normalise(text))
    decreases |text|
  {
    var n := FirstLine(text);
    if n == |text| {
      assert text[..n] == text;
      NormaliseIdentity(text);
      SplitLine(text);
    } else {
      var width := UnitWidth(text[n..]);
      var rest := text[n + width..];
      LinesAreTerminatedParts(rest);
      LineTaken(text, n, width);
      NormaliseFirst(text, n, width);
      TerminatedLine(text[..n], Normalise(rest));
    }
  }

  lemma NormaliseFirst(text: string, n: nat, width: nat)
    requires n == FirstLine(text) < |text| && width == UnitWidth(text[n..])
    ensures Normalise(text) == text[..n] + "\n" + Normalise(text[n + width..])
  {
    NormaliseLine(text[..n], text[n..], width);
    TakeAndDrop(text, n, width);
  }

  lemma TakeAndDrop(text: string, n: nat, width: nat)
    requires n + width <= |text|
    ensures text[..n] + text[n..] == text && text[n..][width..] == text[n + width..]
  {
  }

  lemma TerminatedLine(line: string, rest: string)
    requires '\n' !in line
    ensures Terminated(line + "\n" + rest) == [line] + Terminated(rest)
  {
    SplitAppend(line, rest);
    SplitLine(line);
  }

  lemma NormaliseLine(line: string, tail: string, width: nat)
    requires '\r' !in line && tail != "" && Terminator(tail[0]) && width == UnitWidth(tail)
    ensures Normalise(line + tail) == line + "\n" + Normalise(tail[width..])
  {
    NormaliseAppend(line, tail);
    NormaliseIdentity(line);
    NormaliseTerminator(tail, width);
  }

  lemma NormaliseTerminator(tail: string, width: nat)
    requires tail != "" && Terminator(tail[0]) && width == UnitWidth(tail)
    ensures Normalise(tail) == "\n" + Normalise(tail[width..])
  {
  }

  // ----- one block -----

  lemma {:induction false} InterpretAppend(start: Interpreter, a: seq<string>, b: seq<string>)
    ensures Interpret(start, a + b) == Interpret(Interpret(start, a), b)
    decreases |b|
  {
    if b == [] {
      assert a + b == a;
    } else {
      assert (a + b)[..|a + b| - 1] == a + b[..|b| - 1];
      InterpretAppend(start, a, b[..|b| - 1]);
    }
  }

  function Ended(values: seq<string>): string {
    if values == [] then "" else Ended(values[..|values| - 1]) + values[|values| - 1] + "\n"
  }

  lemma {:induction false} EndedCons(value: string, values: seq<string>)
    ensures Ended([value] + values) == value + "\n" + Ended(values)
  {
    var all := [value] + values;
    if values == [] {
      assert all[..0] == [];
    } else {
      assert all[..|all| - 1] == [value] + values[..|values| - 1];
      EndedCons(value, values[..|values| - 1]);
    }
  }

  lemma {:induction false} EndedIsJoin(values: seq<string>)
    requires values != []
    ensures Ended(values) == Join(values) + "\n"
  {
    assert values == [values[0]] + values[1..];
    EndedCons(values[0], values[1..]);
    if |values| > 1 {
      EndedIsJoin(values[1..]);
    }
  }

  /** The last event field, if any: the reader's default is "message", the standard's is empty. */
  function LastEvent(lines: seq<string>): Option<string> {
    if lines == [] then None
    else
      match Classify(lines[|lines| - 1])
      case EventField(v) => Some(v)
      case _ => LastEvent(lines[..|lines| - 1])
  }

  lemma {:induction false} NameFromLastEvent(lines: seq<string>)
    ensures EventName(lines) == if LastEvent(lines) == None then "message" else LastEvent(lines).value
  {
    if lines != [] {
      NameFromLastEvent(lines[..|lines| - 1]);
    }
  }

  lemma LineIsField(p: Interpreter, line: string)
    requires line != ""
    ensures p.Line(line) == match Classify(line)
                            case Ignored => p
                            case EventField(v) => p.(event := v)
                            case DataField(v) => p.(data := p.data + v + "\n")
  {
    var colon := Find(line, ':');
    if colon == |line| {
      assert line[..colon] == line;
    }
  }

  /** Empty lines only in front. */
  predicate OnlyLeadingBlank(lines: seq<string>) {
    forall i :: 0 < i < |lines| ==> lines[i] != ""
  }

  lemma {:induction false} InterpretFields(events: seq<SseEvent>, lines: seq<string>)
    requires OnlyLeadingBlank(lines)
    ensures Interpret(Interpreter(events, "", ""), lines)
         == Interpreter(events, Ended(DataValues(lines)), if LastEvent(lines) == None then "" else LastEvent(lines).value)
  {
    if lines == [] {
    } else {
      var n := |lines| - 1;
      var front := lines[..n];
      InterpretFields(events, front);
      var p := Interpret(Interpreter(events, "", ""), front);
      if lines[n] == "" {
        assert front == [];
      } else {
        LineIsField(p, lines[n]);
        var after := DataValues(lines);
        if Classify(lines[n]).DataField? {
          assert after[..|after| - 1] == DataValues(front);
        } else {
          assert after == DataValues(front);
        }
      }
    }
  }

  /** The event the standard dispatches for a block and its blank line. */
  function BlockEvents(block: string): seq<SseEvent> {
    Interpret(START, Split(block) + [""]).events
  }

  /** What a producer must keep to: data in every typed block, no empty type, no visible cut. */
  predicate Plain(block: string, caps: Caps) {
    var data, name := DataValues(Split(block)), EventName(Split(block));
    if data == [] then name == "message"
    else name != "" && (|Join(data)| > caps.event ==> Join(data) == Join(data)[..caps.event] + TRUNCATED_MARKER)
  }

  /** Where greedy splitting found a block, blank lines can only lead. */
  predicate Unbroken(block: string) {
    NextBreak(block + "\n") == |block| + 1
  }

  lemma UnbrokenTail(s: string)
    requires s != "" && NextBreak(s) == |s|
    ensures NextBreak(s[1..]) == |s| - 1
  {
    forall k | 0 <= k < |s| - 1 ensures !BlankAt(s[1..], k) {
      assert !BlankAt(s, k + 1);
    }
    BreakIsFirst(s[1..], |s| - 1);
  }

  lemma UnbrokenHasOnlyLeadingBlank(block: string)
    requires Unbroken(block)
    ensures OnlyLeadingBlank(Split(block))
  {
    TerminatedHasOnlyLeadingBlank(block + "\n");
    SplitAppend(block, "");
    assert block + "\n" + "" == block + "\n";
    assert Terminated(block + "\n") == Split(block);
  }

  lemma {:induction false} TerminatedHasOnlyLeadingBlank(text: string)
    requires NextBreak(text) == |text|
    ensures OnlyLeadingBlank(Terminated(text))
  {
    if text != "" {
      UnbrokenTail(text);
      TerminatedHasOnlyLeadingBlank(text[1..]);
      assert !BlankAt(text, 0);
      var rest := Split(text[1..]);
      if text[0] == '\n' {
        assert Terminated(text) == [""] + Terminated(text[1..]);
        assert |rest| > 1 ==> rest[0] != "";
      } else if |rest| > 1 {
        assert Terminated(text) == [[text[0]] + rest[0]] + Terminated(text[1..])[1..];
      }
    }
  }

  lemma InterpretBlock(events: seq<SseEvent>, block: string)
    requires Unbroken(block)
    ensures Interpret(Interpreter(events, "", ""), Split(block) + [""])
         == Interpreter(events + BlockEvents(block), "", "")
  {
    var lines := Split(block);
    UnbrokenHasOnlyLeadingBlank(block);
    InterpretFields(events, lines);
    InterpretFields([], lines);
    assert (lines + [""])[..|lines|] == lines;
  }

  function StandardName(lines: seq<string>): string {
    if LastEvent(lines) == None || LastEvent(lines).value == "" then "message" else LastEvent(lines).value
  }

  /** The standard's event of a block: none without data, else the joined data under its type. */
  lemma BlockEventsAre(block: string)
    requires Unbroken(block)
    ensures var lines := Split(block);
            BlockEvents(block) == if DataValues(lines) == [] then []
                                  else [SseEvent(StandardName(lines), Join(DataValues(lines)))]
  {
    var lines := Split(block);
    var data := DataValues(lines);
    UnbrokenHasOnlyLeadingBlank(block);
    InterpretFields([], lines);
    assert (lines + [""])[..|lines|] == lines;
    if data != [] {
      EndedIsJoin(data);
      assert (Join(data) + "\n")[..|Join(data)|] == Join(data);
    }
  }

  /** A block gives the standard's event exactly when it is plain. */
  lemma BlockAgreesExactlyWhenPlain(block: string, caps: Caps)
    requires Unbroken(block)
    ensures Events(ParseBlock(block, caps)) == BlockEvents(block) <==> Plain(block, caps)
  {
    BlockEventsAre(block);
    NameFromLastEvent(Split(block));
  }

  // ----- a whole stream -----

  predicate AllPlain(blocks: seq<string>, caps: Caps) {
    forall i :: 0 <= i < |blocks| ==> Plain(blocks[i], caps)
  }

  lemma {:induction false} NoBlankLineNoEvent(events: seq<SseEvent>, text: string)
    requires NextBreak(text) == |text|
    ensures Interpret(Interpreter(events, "", ""), Terminated(text)).events == events
  {
    TerminatedHasOnlyLeadingBlank(text);
    InterpretFields(events, Terminated(text));
  }

  lemma TerminatedBlock(block: string, rest: string)
    ensures Terminated(block + "\n\n" + rest) == Split(block) + [""] + Terminated(rest)
  {
    assert block + "\n\n" + rest == block + "\n" + ("" + "\n" + rest);
    SplitAppend(block, "" + "\n" + rest);
    SplitAppend("", rest);
  }

  lemma UnbrokenBefore(text: string)
    requires NextBreak(text) < |text|
    ensures Unbroken(text[..NextBreak(text)])
  {
    var i := NextBreak(text);
    var s := text[..i] + "\n";
    forall k | 0 <= k < |s| ensures !BlankAt(s, k) {
      assert k < i ==> !BlankAt(text, k);
    }
    BreakIsFirst(s, |s|);
  }

  /** The standard's run over a text that starts with a block and its blank line. */
  lemma InterpretFirst(events: seq<SseEvent>, block: string, rest: string)
    requires Unbroken(block)
    ensures Interpret(Interpreter(events, "", ""), Terminated(block + "\n\n" + rest))
         == Interpret(Interpreter(events + BlockEvents(block), "", ""), Terminated(rest))
  {
    TerminatedBlock(block, rest);
    InterpretAppend(Interpreter(events, "", ""), Split(block) + [""], Terminated(rest));
    InterpretBlock(events, block);
  }

  lemma SplitAtBreak(text: string, i: nat)
    requires i == NextBreak(text) < |text|
    ensures text == text[..i] + "\n\n" + text[i + 2..]
  {
    assert text[i..i + 2] == "\n\n";
  }

  function StandardAll(blocks: seq<string>): seq<SseEvent> {
    if blocks == [] then [] else BlockEvents(blocks[0]) + StandardAll(blocks[1..])
  }

  lemma StandardFirst(block: string, later: seq<string>)
    ensures StandardAll([block] + later) == BlockEvents(block) + StandardAll(later)
  {
    assert ([block] + later)[1..] == later;
  }

  /** The interpreter, line by line, dispatches the events of the blocks one after the other. */
  lemma {:induction false} InterpretBlocks(events: seq<SseEvent>, text: string)
    ensures Interpret(Interpreter(events, "", ""), Terminated(text)).events == events + StandardAll(Blocks(text))
    decreases |text|
  {
    var i := NextBreak(text);
    if i == |text| {
      NoBlankLineNoEvent(events, text);
      RestOfUnbroken(text);
    } else {
      var block, rest := text[..i], text[i + 2..];
      InterpretBlocks(events + BlockEvents(block), rest);
      UnbrokenBefore(text);
      InterpretFirst(events, block, rest);
      SplitAtBreak(text, i);
      BlockTaken(text, i);
      StandardFirst(block, Blocks(rest));
      Regroup(events, BlockEvents(block), StandardAll(Blocks(rest)));
    }
  }

  lemma StandardByBlocks(text: string)
    ensures StandardEvents(text) == StandardAll(Blocks(Normalise(text)))
  {
    LinesAreTerminatedParts(text);
    InterpretBlocks([], Normalise(text));
    assert [] + StandardAll(Blocks(Normalise(text))) == StandardAll(Blocks(Normalise(text)));
  }

  predicate AllUnbroken(blocks: seq<string>) {
    forall i :: 0 <= i < |blocks| ==> Unbroken(blocks[i])
  }

  lemma UnbrokenCons(block: string, later: seq<string>)
    requires Unbroken(block) && AllUnbroken(later)
    ensures AllUnbroken([block] + later)
  {
  }

  lemma {:induction false} BlocksAreUnbroken(text: string)
    ensures AllUnbroken(Blocks(text))
    decreases |text|
  {
    var i := NextBreak(text);
    if i < |text| {
      UnbrokenBefore(text);
      BlockTaken(text, i);
      BlocksAreUnbroken(text[i + 2..]);
      UnbrokenCons(text[..i], Blocks(text[i + 2..]));
    }
  }

  /** The standard never dispatches more for a block than the reader. */
  lemma BlockEventsFewer(block: string, caps: Caps)
    requires Unbroken(block)
    ensures |BlockEvents(block)| <= |Events(ParseBlock(block, caps))|
  {
    BlockEventsAre(block);
  }

  lemma {:induction false} FewerEvents(blocks: seq<string>, caps: Caps)
    requires AllUnbroken(blocks)
    ensures |StandardAll(blocks)| <= |ParseAll(blocks, caps)|
  {
    if blocks != [] {
      assert AllUnbroken(blocks[1..]);
      FewerEvents(blocks[1..], caps);
      BlockEventsFewer(blocks[0], caps);
    }
  }

  lemma HeadsAgree<T>(a: seq<T>, x: seq<T>, b: seq<T>, y: seq<T>)
    requires |b| <= |a| && |y| <= |x|
    ensures a + x == b + y <==> a == b && x == y
  {
    if a + x == b + y {
      assert |a| == |b|;
      assert a == (a + x)[..|a|] && b == (b + y)[..|b|];
      assert x == (a + x)[|a|..] && y == (b + y)[|b|..];
    }
  }

  lemma PlainSplit(block: string, later: seq<string>, caps: Caps)
    ensures AllPlain([block] + later, caps) <==> Plain(block, caps) && AllPlain(later, caps)
  {
    var all := [block] + later;
    assert all[0] == block;
    assert forall k :: 0 <= k < |later| ==> later[k] == all[k + 1];
  }

  /** The events of the blocks and whatever follows are the standard's exactly when every block is
      plain and nothing follows. */
  lemma {:induction false} SameEventsExactly(blocks: seq<string>, tail: seq<SseEvent>, caps: Caps)
    requires AllUnbroken(blocks)
    ensures ParseAll(blocks, caps) + tail == StandardAll(blocks) <==> AllPlain(blocks, caps) && tail == []
  {
    if blocks == [] {
    } else {
      var block, later := blocks[0], blocks[1..];
      var mine, standard := Events(ParseBlock(block, caps)), BlockEvents(block);
      assert blocks == [block] + later;
      assert AllUnbroken(later);
      SameEventsExactly(later, tail, caps);
      FewerEvents(later, caps);
      BlockEventsFewer(block, caps);
      BlockAgreesExactlyWhenPlain(block, caps);
      PlainSplit(block, later, caps);
      Regroup(mine, ParseAll(later, caps), tail);
      HeadsAgree(mine, ParseAll(later, caps) + tail, standard, StandardAll(later));
    }
  }

  /** Reading by blocks is the standard plus the unterminated rest. */
  lemma ReaderRefinesStandard(text: string, caps: Caps)
    requires AllPlain(Blocks(Normalise(text)), caps)
    ensures EventsIn(text, caps) == StandardEvents(text) + Events(ParseBlock(Rest(Normalise(text)), caps))
  {
    var blocks := Blocks(Normalise(text));
    StandardByBlocks(text);
    BlocksAreUnbroken(Normalise(text));
    SameEventsExactly(blocks, [], caps);
    assert ParseAll(blocks, caps) + [] == ParseAll(blocks, caps);
  }

  /** The reader, fed a calm text in any chunks, agrees with the standard exactly when every block
      is plain and the unterminated rest holds no event. */
  lemma ReaderIsStandardExactly(chunks: seq<string>, caps: Caps)
    requires Calm(Concat(chunks), caps)
    ensures var text := Normalise(Concat(chunks));
            Run("", chunks, caps) == StandardEvents(Concat(chunks))
            <==> AllPlain(Blocks(text), caps) && ParseBlock(Rest(text), caps) == None
  {
    var text := Normalise(Concat(chunks));
    ChunkingsAgree(chunks, chunks, caps);
    StandardByBlocks(Concat(chunks));
    BlocksAreUnbroken(text);
    SameEventsExactly(Blocks(text), Events(ParseBlock(Rest(text), caps)), caps);
  }

  /** The tail the standard discards: a data line cut off by the end of the stream. */
  lemma TailIsEmitted(rest: string, caps: Caps)
    requires NoBreaks(rest) && |rest| + 5 <= caps.pending
    ensures Run("", ["data:" + rest], caps) != StandardEvents("data:" + rest)
  {
    NoTerminator("data:" + rest);
    TailEvent(rest, "data:" + rest, caps);
  }

  lemma TailEvent(rest: string, text: string, caps: Caps)
    requires NoBreaks(rest) && |text| <= caps.pending && text == "data:" + rest
    ensures Run("", [text], caps) != []
  {
    ClassifyData(rest);
    LineAsTail(text, Classify(text).value, caps);
  }

  lemma LineAsTail(line: string, value: string, caps: Caps)
    requires NoBreaks(line) && |line| <= caps.pending && Classify(line) == DataField(value)
    ensures Run("", [line], caps) == [SseEvent("message", Capped(value, caps))]
  {
    FeedWithoutCr(line, caps);
    UnbrokenLine(line);
    RestOfUnbroken(line);
    LastChunk("", line, caps);
    NormaliseIdentity(line);
    assert !EndsWithCr(line);
    ParseOneLine(line, caps);
  }

  lemma NoTerminator(text: string)
    requires NoBreaks(text)
    ensures StandardEvents(text) == []
  {
    assert FirstLine(text) == |text|;
  }
}
