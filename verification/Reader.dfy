/**
 The event reader of the log viewer, over text that arrives in chunks.

 `ParseBlockLoop` and `ReadEvents` are the loops of the reader, proved against the functions
 `ParseBlock` and `Run`. About those functions: `RunIgnoresChunking` shows that where the
 stream was cut does not matter as long as the pending cap stays silent, `SilentExactlyWhenCalm`
 says for which texts it stays silent under every chunking, and `DataStaysShort` bounds what one
 event can hold. `ReadBackExactlyWhenItFits` is exact for what the relay prints.
 */
module Reader {
  import opened Prelude
  import opened Wire

  datatype SseEvent = SseEvent(event: string, data: string)

  /** The two caps: characters kept of one event, characters pending without a terminator. */
  datatype Caps = Caps(event: nat, pending: nat)

  const SOURCE_CAPS := Caps(64 * 1024, 1024 * 1024)

  // ----- string primitives -----

  /** Splits at every '\n'; always at least one part. */
  function Split(s: string): (parts: seq<string>)
    ensures |parts| >= 1
  {
    if s == "" then [""]
    else
      var rest := Split(s[1..]);
      if s[0] == '\n' then [""] + rest else [[s[0]] + rest[0]] + rest[1..]
  }

  function Join(parts: seq<string>): string {
    if parts == [] then ""
    else if |parts| == 1 then parts[0]
    else parts[0] + "\n" + Join(parts[1..])
  }

  /** Index of the first c, or the length of s. */
  function Find(s: string, c: char): (i: nat)
    ensures i <= |s| && c !in s[..i]
    ensures i < |s| ==> s[i] == c
  {
    if s == "" || s[0] == c then 0 else 1 + Find(s[1..], c)
  }

  // ----- one block -----

  datatype Field = Ignored | EventField(value: string) | DataField(value: string)

  function Classify(line: string): Field {
    if line == "" || line[0] == ':' then Ignored
    else
      var colon := Find(line, ':');
      var name := line[..colon];
      var raw := if colon == |line| then "" else line[colon + 1..];
      var value := if raw != "" && raw[0] == ' ' then raw[1..] else raw;
      if name == "event" then EventField(value)
      else if name == "data" then DataField(value)
      else Ignored
  }

  /** The last event field wins; without one the name is "message". */
  function EventName(lines: seq<string>): string {
    if lines == [] then "message"
    else
      match Classify(lines[|lines| - 1])
      case EventField(v) => v
      case _ => EventName(lines[..|lines| - 1])
  }

  /** The data fields in order. */
  function DataValues(lines: seq<string>): seq<string> {
    if lines == [] then []
    else
      DataValues(lines[..|lines| - 1]) +
      match Classify(lines[|lines| - 1])
      case DataField(v) => [v]
      case _ => []
  }

  function Capped(joined: string, caps: Caps): string {
    if |joined| > caps.event then joined[..caps.event] + TRUNCATED_MARKER else joined
  }

  function ParseBlock(block: string, caps: Caps): Option<SseEvent> {
    var lines := Split(block);
    var data := DataValues(lines);
    if data == [] && EventName(lines) == "message" then None
    else Some(SseEvent(EventName(lines), Capped(Join(data), caps)))
  }

  /** The loop over the lines of a block. */
  method ParseBlockLoop(block: string, caps: Caps) returns (parsed: Option<SseEvent>)
    ensures parsed == ParseBlock(block, caps)
  {
    var event := "message";
    var data: seq<string> := [];
    var lines := Split(block);
    for i := 0 to |lines|
      invariant event == EventName(lines[..i])
      invariant data == DataValues(lines[..i])
    {
      assert lines[..i + 1][..i] == lines[..i];
      var line := lines[i];
      if line == "" || line[0] == ':' { continue; }
      var colon := Find(line, ':');
      var field := if colon == |line| then line else line[..colon];
      var value := if colon == |line| then "" else line[colon + 1..];
      if value != "" && value[0] == ' ' { value := value[1..]; }
      assert field == line[..colon];
      if field == "event" { event := value; }
      else if field == "data" { data := data + [value]; }
    }
    assert lines[..|lines|] == lines;
    if data == [] && event == "message" { return None; }
    var joined := Join(data);
    if |joined| > caps.event { joined := joined[..caps.event] + TRUNCATED_MARKER; }
    return Some(SseEvent(event, joined));
  }

  // ----- line terminators and blank lines -----

  /** A CRLF pair is one unit, every other character another. */
  function UnitWidth(s: string): (n: nat)
    requires s != ""
    ensures 1 <= n <= |s|
  {
    if s[0] == '\r' && |s| > 1 && s[1] == '\n' then 2 else 1
  }

  /** Every CRLF and every lone CR becomes one LF. */
  function Normalise(s: string): string {
    if s == "" then ""
    else [if s[0] == '\r' then '\n' else s[0]] + Normalise(s[UnitWidth(s)..])
  }

  predicate EndsWithCr(s: string) {
    s != "" && s[|s| - 1] == '\r'
  }

  /** A trailing CR is held back: it may be the first half of a pair. */
  function Held(s: string): string {
    if EndsWithCr(s) then "\r" else ""
  }

  function Body(s: string): string {
    if EndsWithCr(s) then s[..|s| - 1] else s
  }

  function Ready(s: string): string {
    Normalise(Body(s))
  }

  /** Two newlines in a row: the line between them is blank. */
  predicate BlankAt(s: string, k: nat) {
    k + 1 < |s| && s[k] == '\n' && s[k + 1] == '\n'
  }

  function BreakFrom(s: string, k: nat): (i: nat)
    requires k <= |s|
    ensures k <= i <= |s| && (i < |s| ==> BlankAt(s, i))
    ensures forall j :: k <= j < i ==> !BlankAt(s, j)
    decreases |s| - k
  {
    if k == |s| || BlankAt(s, k) then k else BreakFrom(s, k + 1)
  }

  /** Index of the first blank line, or the length of s. */
  function NextBreak(s: string): (i: nat)
    ensures i <= |s| && (i < |s| ==> BlankAt(s, i))
    ensures forall j :: 0 <= j < i ==> !BlankAt(s, j)
  {
    BreakFrom(s, 0)
  }

  /** The blocks that greedy splitting at blank lines takes off the front. */
  function Blocks(s: string): seq<string> {
    var i := NextBreak(s);
    if i == |s| then [] else [s[..i]] + Blocks(s[i + 2..])
  }

  /** What greedy splitting leaves in the buffer. */
  function Rest(s: string): string {
    var i := NextBreak(s);
    if i == |s| then s else Rest(s[i + 2..])
  }

  // ----- the reader -----

  function Events(parsed: Option<SseEvent>): seq<SseEvent> {
    match parsed case None => [] case Some(e) => [e]
  }

  function ParseAll(blocks: seq<string>, caps: Caps): seq<SseEvent> {
    if blocks == [] then [] else Events(ParseBlock(blocks[0], caps)) + ParseAll(blocks[1..], caps)
  }

  /** What the reader emits when the pending cap fires. */
  function CutEvents(pending: string, caps: Caps): seq<SseEvent> {
    var cut := if |pending| > caps.event then pending[..caps.event] else pending;
    match ParseBlock(cut, caps)
    case None => []
    case Some(e) => [SseEvent(e.event, e.data + TRUNCATED_MARKER)]
  }

  datatype Fed = Fed(events: seq<SseEvent>, buffer: string, capped: bool)

  /** One chunk: normalise, take the complete blocks, guard the pending text. */
  function Feed(buffer: string, chunk: string, caps: Caps): Fed {
    var text := buffer + chunk;
    var rest := Rest(Ready(text));
    var events := ParseAll(Blocks(Ready(text)), caps);
    if |rest| > caps.pending then Fed(events + CutEvents(rest, caps), Held(text), true)
    else Fed(events, rest + Held(text), false)
  }

  /** The whole run over the chunks left, ending with the unterminated tail. */
  function Run(buffer: string, chunks: seq<string>, caps: Caps): seq<SseEvent>
    decreases |chunks|
  {
    if chunks == [] then Events(ParseBlock(Ready(buffer), caps))
    else
      var fed := Feed(buffer, chunks[0], caps);
      fed.events + Run(fed.buffer, chunks[1..], caps)
  }

  lemma TakeFirst(s: string, caps: Caps)
    requires NextBreak(s) < |s|
    ensures var i := NextBreak(s);
            ParseAll(Blocks(s), caps) == Events(ParseBlock(s[..i], caps)) + ParseAll(Blocks(s[i + 2..]), caps)
  {
    var i := NextBreak(s);
    BlockTaken(s, i);
    ParseFirst(s[..i], Blocks(s[i + 2..]), caps);
  }

  lemma BlockTaken(s: string, i: nat)
    requires i == NextBreak(s) < |s|
    ensures Blocks(s) == [s[..i]] + Blocks(s[i + 2..])
    ensures Rest(s) == Rest(s[i + 2..])
  {
  }

  lemma ParseFirst(block: string, later: seq<string>, caps: Caps)
    ensures ParseAll([block] + later, caps) == Events(ParseBlock(block, caps)) + ParseAll(later, caps)
  {
    assert ([block] + later)[1..] == later;
  }

  datatype Taken = Taken(events: seq<SseEvent>, buffer: string)

  /** The blocks taken one by one off the front of the buffer. */
  function Take(events: seq<SseEvent>, buffer: string, caps: Caps): Taken
    decreases |buffer|
  {
    var i := NextBreak(buffer);
    if i == |buffer| then Taken(events, buffer)
    else Take(events + Events(ParseBlock(buffer[..i], caps)), buffer[i + 2..], caps)
  }

  lemma {:induction false} TakeIsParseAll(events: seq<SseEvent>, buffer: string, caps: Caps)
    ensures Take(events, buffer, caps) == Taken(events + ParseAll(Blocks(buffer), caps), Rest(buffer))
    decreases |buffer|
  {
    var i := NextBreak(buffer);
    if i < |buffer| {
      var taken, later := Events(ParseBlock(buffer[..i], caps)), buffer[i + 2..];
      TakeIsParseAll(events + taken, later, caps);
      TakeFirst(buffer, caps);
      BlockTaken(buffer, i);
      Regroup(events, taken, ParseAll(Blocks(later), caps));
    }
  }

  lemma TakeFromStart(buffer: string, caps: Caps)
    ensures Take([], buffer, caps) == Taken(ParseAll(Blocks(buffer), caps), Rest(buffer))
  {
    TakeIsParseAll([], buffer, caps);
    assert [] + ParseAll(Blocks(buffer), caps) == ParseAll(Blocks(buffer), caps);
  }

  /** The inner loop of the reader: takes the complete blocks off the buffer. */
  method TakeBlocks(text: string, caps: Caps) returns (events: seq<SseEvent>, buffer: string)
    ensures Taken(events, buffer) == Take([], text, caps)
  {
    events, buffer := [], text;
    var split := NextBreak(buffer);
    while split < |buffer|
      invariant split == NextBreak(buffer)
      invariant Take(events, buffer, caps) == Take([], text, caps)
      decreases |buffer|
    {
      var parsed := ParseBlockLoop(buffer[..split], caps);
      buffer := buffer[split + 2..];
      if parsed.Some? { events := events + [parsed.value]; } else { assert events + Events(parsed) == events; }
      split := NextBreak(buffer);
    }
  }

  /** The guard on pending text: past the cap, emit what there is, cut, and drop the rest. */
  method GuardPending(rest: string, caps: Caps) returns (events: seq<SseEvent>, buffer: string)
    ensures events == if |rest| > caps.pending then CutEvents(rest, caps) else []
    ensures buffer == if |rest| > caps.pending then "" else rest
  {
    events, buffer := [], rest;
    if |buffer| > caps.pending {
      var parsed := ParseBlockLoop(if |buffer| > caps.event then buffer[..caps.event] else buffer, caps);
      buffer := "";
      if parsed.Some? {
        events := [SseEvent(parsed.value.event, parsed.value.data + TRUNCATED_MARKER)];
      }
    }
  }

  lemma FeedParts(buffer: string, chunk: string, caps: Caps)
    ensures var fed, ready := Feed(buffer, chunk, caps), Ready(buffer + chunk);
            && fed.events == ParseAll(Blocks(ready), caps) + (if fed.capped then CutEvents(Rest(ready), caps) else [])
            && fed.buffer == (if fed.capped then "" else Rest(ready)) + Held(buffer + chunk)
            && (fed.capped <==> |Rest(ready)| > caps.pending)
  {
  }

  lemma RunStep(buffer: string, chunks: seq<string>, n: nat, caps: Caps)
    requires n < |chunks|
    ensures var fed := Feed(buffer, chunks[n], caps);
            Run(buffer, chunks[n..], caps) == fed.events + Run(fed.buffer, chunks[n + 1..], caps)
  {
    assert chunks[n..][1..] == chunks[n + 1..];
  }

  /** One chunk: normalised, its complete blocks taken, the pending text guarded. */
  method ReadChunk(buffer: string, chunk: string, caps: Caps) returns (events: seq<SseEvent>, pending: string)
    ensures var fed := Feed(buffer, chunk, caps); events == fed.events && pending == fed.buffer
  {
    var text := buffer + chunk;
    var taken, rest := TakeBlocks(Ready(text), caps);
    TakeFromStart(Ready(text), caps);
    var cut, kept := GuardPending(rest, caps);
    FeedParts(buffer, chunk, caps);
    events, pending := taken + cut, kept + Held(text);
  }

  /** The outer loop of the reader, over the chunks of the body. */
  method ReadEvents(chunks: seq<string>, caps: Caps) returns (events: seq<SseEvent>)
    ensures events == Run("", chunks, caps)
  {
    events := [];
    var buffer := "";
    for n := 0 to |chunks|
      invariant events + Run(buffer, chunks[n..], caps) == Run("", chunks, caps)
    {
      var read, pending := ReadChunk(buffer, chunks[n], caps);
      RunStep(buffer, chunks, n, caps);
      Regroup(events, read, Run(pending, chunks[n + 1..], caps));
      events, buffer := events + read, pending;
    }
    var tail := ParseBlockLoop(Ready(buffer), caps);
    assert chunks[|chunks|..] == [];
    if tail.Some? { events := events + [tail.value]; }
  }
}
