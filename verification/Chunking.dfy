/**
 Where the stream is cut does not matter: the events depend on the concatenated text alone.
 This holds for every chunking in which the pending cap stays silent, and the cap stays silent
 under every chunking of a text exactly when the text is `Calm`.
 */
module Chunking {
  import opened Prelude
  import opened Wire
  import opened Reader

  function Concat(chunks: seq<string>): string {
    if chunks == [] then "" else chunks[0] + Concat(chunks[1..])
  }

  /** The events of a whole text: its blocks, then what is left at the end. */
  function EventsIn(text: string, caps: Caps): seq<SseEvent> {
    ParseAll(Blocks(Normalise(text)), caps) + Events(ParseBlock(Rest(Normalise(text)), caps))
  }

  /** The pending cap never fires while the chunks are read. */
  predicate Silent(buffer: string, chunks: seq<string>, caps: Caps)
    decreases |chunks|
  {
    chunks == [] ||
    (!Feed(buffer, chunks[0], caps).capped && Silent(Feed(buffer, chunks[0], caps).buffer, chunks[1..], caps))
  }

  /** Every block is shorter than the pending cap and the unterminated rest is within it. */
  predicate Calm(text: string, caps: Caps) {
    ShortBlocks(Blocks(Ready(text)), caps) && |Rest(Ready(text))| <= caps.pending
  }

  predicate ShortBlocks(blocks: seq<string>, caps: Caps) {
    forall i :: 0 <= i < |blocks| ==> |blocks[i]| < caps.pending
  }

  // ----- normalising -----

  lemma {:induction false} NormaliseHasNoCr(s: string)
    ensures '\r' !in Normalise(s)
  {
    if s != "" {
      NormaliseHasNoCr(s[UnitWidth(s)..]);
    }
  }

  lemma {:induction false} NormaliseIdentity(s: string)
    requires '\r' !in s
    ensures Normalise(s) == s
  {
    if s == "" {
    } else {
      NormaliseIdentity(s[1..]);
      assert s == [s[0]] + s[1..];
    }
  }

  /** Normalising distributes wherever no CRLF pair is cut. */
  lemma {:induction false} NormaliseAppend(a: string, b: string)
    requires !(EndsWithCr(a) && b != "" && b[0] == '\n')
    ensures Normalise(a + b) == Normalise(a) + Normalise(b)
    decreases |a|
  {
    if a == "" {
      assert a + b == b;
    } else {
      var n := UnitWidth(a);
      assert UnitWidth(a + b) == n;
      assert (a + b)[n..] == a[n..] + b;
      NormaliseAppend(a[n..], b);
      Regroup([if a[0] == '\r' then '\n' else a[0]], Normalise(a[n..]), Normalise(b));
    }
  }

  // ----- greedy splitting -----

  lemma {:induction false} BlocksAppend(s: string, t: string)
    ensures Blocks(s + t) == Blocks(s) + Blocks(Rest(s) + t)
    ensures Rest(s + t) == Rest(Rest(s) + t)
    decreases |s|
  {
    var i := NextBreak(s);
    if i < |s| {
      var later := s[i + 2..];
      BlocksAppend(later, t);
      BreakStays(s, t);
      assert (s + t)[..i] == s[..i];
      assert (s + t)[i + 2..] == later + t;
      BlockTaken(s, i);
      BlockTaken(s + t, i);
      Regroup([s[..i]], Blocks(later), Blocks(Rest(later) + t));
    } else {
      RestOfUnbroken(s);
    }
  }

  lemma BreakIsFirst(s: string, i: nat)
    requires i <= |s| && (i < |s| ==> BlankAt(s, i))
    requires forall k :: 0 <= k < i ==> !BlankAt(s, k)
    ensures NextBreak(s) == i
  {
  }

  lemma BreakStays(s: string, t: string)
    requires NextBreak(s) < |s|
    ensures NextBreak(s + t) == NextBreak(s)
  {
    var i := NextBreak(s);
    forall k | 0 <= k < i ensures !BlankAt(s + t, k) {
      assert !BlankAt(s, k);
    }
    BreakIsFirst(s + t, i);
  }

  lemma {:induction false} RestHasNoBreak(s: string)
    ensures NextBreak(Rest(s)) == |Rest(s)|
    ensures forall c :: c in Rest(s) ==> c in s
    decreases |s|
  {
    var i := NextBreak(s);
    if i < |s| {
      RestHasNoBreak(s[i + 2..]);
    }
  }

  lemma RestOfUnbroken(s: string)
    requires NextBreak(s) == |s|
    ensures Blocks(s) == [] && Rest(s) == s
  {
  }

  lemma {:induction false} ParseAllAppend(a: seq<string>, b: seq<string>, caps: Caps)
    ensures ParseAll(a + b, caps) == ParseAll(a, caps) + ParseAll(b, caps)
  {
    if a == [] {
      assert a + b == b;
    } else {
      assert (a + b)[1..] == a[1..] + b;
      ParseAllAppend(a[1..], b, caps);
    }
  }

  // ----- the buffer after any prefix -----

  /** What the reader holds after a prefix in which the cap stayed silent. */
  function Pending(text: string): string {
    Rest(Ready(text)) + Held(text)
  }

  /** The events emitted after such a prefix, and those its unterminated rest would add. */
  function Emitted(text: string, caps: Caps): seq<SseEvent> {
    ParseAll(Blocks(Ready(text)), caps)
  }

  function TailEvents(text: string, caps: Caps): seq<SseEvent> {
    Events(ParseBlock(Rest(Ready(text)), caps))
  }

  lemma BodyHeld(s: string)
    ensures s == Body(s) + Held(s)
  {
  }

  lemma ReadyGrows(text: string, chunk: string)
    ensures Ready(text + chunk) == Ready(text) + Ready(Held(text) + chunk)
    ensures Held(text + chunk) == Held(Held(text) + chunk)
  {
    var y := Held(text) + chunk;
    BodyHeld(text);
    assert text + chunk == Body(text) + y;
    if y != "" {
      assert Body(text + chunk) == Body(text) + Body(y);
      NormaliseAppend(Body(text), Body(y));
    } else {
      assert Body(text) + y == text;
      assert Ready(y) == "";
    }
  }

  lemma ReadyOfBuffer(p: string, y: string)
    requires '\r' !in p
    ensures Ready(p + y) == p + Ready(y)
    ensures Held(p + y) == Held(y)
  {
    NormaliseIdentity(p);
    if y == "" {
      assert p + y == p;
      assert Ready(y) == "";
    } else {
      BodyOfAppend(p, y);
      NormaliseAppend(p, Body(y));
    }
  }

  lemma BodyOfAppend(p: string, y: string)
    requires y != ""
    ensures Body(p + y) == p + Body(y) && Held(p + y) == Held(y)
  {
    assert (p + y)[|p + y| - 1] == y[|y| - 1];
  }

  lemma PendingHasNoCr(text: string)
    ensures '\r' !in Rest(Ready(text))
  {
    NormaliseHasNoCr(Body(text));
    RestHasNoBreak(Ready(text));
  }

  /** One chunk takes the state of a prefix to the state of the longer prefix. */
  lemma FeedAdvances(text: string, chunk: string, caps: Caps)
    ensures var fed := Feed(Pending(text), chunk, caps);
            && (fed.capped <==> |Rest(Ready(text + chunk))| > caps.pending)
            && (!fed.capped ==>
                 && fed.buffer == Pending(text + chunk)
                 && Emitted(text, caps) + fed.events == Emitted(text + chunk, caps))
  {
    var r, p, y := Ready(text), Rest(Ready(text)), Held(text) + chunk;
    PendingHasNoCr(text);
    assert Pending(text) + chunk == p + y;
    ReadyOfBuffer(p, y);
    ReadyGrows(text, chunk);
    BlocksAppend(r, Ready(y));
    ParseAllAppend(Blocks(r), Blocks(p + Ready(y)), caps);
    FeedParts(Pending(text), chunk, caps);
  }

  lemma {:induction false} RunFrom(text: string, chunks: seq<string>, whole: string, caps: Caps)
    requires whole == text + Concat(chunks)
    requires Silent(Pending(text), chunks, caps)
    ensures Emitted(text, caps) + Run(Pending(text), chunks, caps) == Emitted(whole, caps) + TailEvents(whole, caps)
    decreases |chunks|
  {
    if chunks == [] {
      assert whole == text;
      RunEnds(text, caps);
    } else {
      ConcatStep(text, chunks);
      RunFromStep(text, chunks, caps);
      RunFrom(text + chunks[0], chunks[1..], whole, caps);
    }
  }

  lemma ConcatStep(text: string, chunks: seq<string>)
    requires chunks != []
    ensures text + Concat(chunks) == (text + chunks[0]) + Concat(chunks[1..])
  {
  }

  lemma RunFromStep(text: string, chunks: seq<string>, caps: Caps)
    requires chunks != [] && Silent(Pending(text), chunks, caps)
    ensures Emitted(text, caps) + Run(Pending(text), chunks, caps)
         == Emitted(text + chunks[0], caps) + Run(Pending(text + chunks[0]), chunks[1..], caps)
    ensures Silent(Pending(text + chunks[0]), chunks[1..], caps)
  {
    var fed := Feed(Pending(text), chunks[0], caps);
    FeedAdvances(text, chunks[0], caps);
    RunStep(Pending(text), chunks, 0, caps);
    assert chunks[0..] == chunks;
    Regroup(Emitted(text, caps), fed.events, Run(fed.buffer, chunks[1..], caps));
  }

  lemma RunEnds(text: string, caps: Caps)
    ensures Run(Pending(text), [], caps) == TailEvents(text, caps)
  {
    ReadyPending(text);
  }

  lemma ReadyPending(text: string)
    ensures Ready(Pending(text)) == Rest(Ready(text))
  {
    PendingHasNoCr(text);
    ReadyOfBuffer(Rest(Ready(text)), Held(text));
    assert Body(Held(text)) == "";
  }

  // ----- the held CR at the end of the stream -----

  lemma ParseIgnoresTrailingNewline(block: string, caps: Caps)
    ensures ParseBlock(block + "\n", caps) == ParseBlock(block, caps)
  {
    SplitAppend(block, "");
    assert block + "\n" + "" == block + "\n";
    assert Split("") == [""];
    IgnoredAtEnd(Split(block), "");
  }

  lemma IgnoredAtEnd(lines: seq<string>, line: string)
    requires Classify(line) == Ignored
    ensures DataValues(lines + [line]) == DataValues(lines)
    ensures EventName(lines + [line]) == EventName(lines)
  {
    assert (lines + [line])[..|lines|] == lines;
  }

  lemma {:induction false} SplitAppend(a: string, b: string)
    ensures Split(a + "\n" + b) == Split(a) + Split(b)
  {
    if a == "" {
      assert ("\n" + b)[1..] == b;
      assert a + "\n" + b == "\n" + b;
    } else {
      assert (a + "\n" + b)[1..] == a[1..] + "\n" + b;
      SplitAppend(a[1..], b);
    }
  }

  /** A newline that completes a blank line moves the block out of the rest. */
  lemma NewlineCompletes(text: string, block: string)
    requires Rest(text) == block + "\n"
    ensures Blocks(text + "\n") == Blocks(text) + [block] && Rest(text + "\n") == ""
  {
    BlocksAppend(text, "\n");
    RestHasNoBreak(text);
    Regroup(block, "\n", "\n");
    OneBlock(block, Rest(text) + "\n");
  }

  /** Any other newline stays in the rest. */
  lemma NewlineStays(text: string)
    requires var rest := Rest(text); rest == "" || rest[|rest| - 1] != '\n'
    ensures Blocks(text + "\n") == Blocks(text) && Rest(text + "\n") == Rest(text) + "\n"
  {
    BlocksAppend(text, "\n");
    RestHasNoBreak(text);
    NoBreakAfter(Rest(text));
    RestOfUnbroken(Rest(text) + "\n");
  }

  lemma CompletedAtEnd(blocks: seq<string>, block: string, caps: Caps)
    ensures ParseAll(blocks, caps) + Events(ParseBlock(block + "\n", caps))
         == ParseAll(blocks + [block], caps) + Events(ParseBlock("", caps))
  {
    ParseIgnoresTrailingNewline(block, caps);
    ParseAllAppend(blocks, [block], caps);
    ParseAllOne(block, caps);
    EmptyBlock(caps);
  }

  /** A newline at the end of normalised text changes no event. */
  lemma NewlineAtEnd(text: string, caps: Caps)
    ensures ParseAll(Blocks(text), caps) + Events(ParseBlock(Rest(text), caps))
         == ParseAll(Blocks(text + "\n"), caps) + Events(ParseBlock(Rest(text + "\n"), caps))
  {
    var rest := Rest(text);
    if rest != "" && rest[|rest| - 1] == '\n' {
      var block := rest[..|rest| - 1];
      assert rest == block + "\n";
      NewlineCompletes(text, block);
      CompletedAtEnd(Blocks(text), block, caps);
    } else {
      NewlineStays(text);
      ParseIgnoresTrailingNewline(rest, caps);
    }
  }

  lemma OneBlock(block: string, s: string)
    requires s == block + "\n\n" && NextBreak(block + "\n") == |block| + 1
    ensures Blocks(s) == [block] && Rest(s) == ""
  {
    BreakAtEnd(block);
    BlockTaken(s, |block|);
    assert s[..|block|] == block;
    assert s[|block| + 2..] == "";
    RestOfUnbroken("");
  }

  lemma BreakAtEnd(block: string)
    requires NextBreak(block + "\n") == |block| + 1
    ensures NextBreak(block + "\n\n") == |block|
  {
    var s := block + "\n\n";
    forall k | 0 <= k < |block| ensures !BlankAt(s, k) {
      assert !BlankAt(block + "\n", k);
    }
    BreakIsFirst(s, |block|);
  }

  /** Dropping the held CR at the end changes no event. */
  lemma HeldCrAtEnd(text: string, caps: Caps)
    ensures Emitted(text, caps) + TailEvents(text, caps) == EventsIn(text, caps)
  {
    if EndsWithCr(text) {
      assert text == Body(text) + "\r";
      NormaliseAppend(Body(text), "\r");
      assert Normalise("\r") == "\n";
      NewlineAtEnd(Ready(text), caps);
    }
  }

  lemma EmptyBlock(caps: Caps)
    ensures ParseBlock("", caps) == None
  {
    assert Split("") == [""];
    assert Classify("") == Ignored;
    assert [""][..0] == [];
  }

  lemma NoBreakAfter(s: string)
    requires NextBreak(s) == |s|
    requires s == "" || s[|s| - 1] != '\n'
    ensures NextBreak(s + "\n") == |s + "\n"|
  {
    forall k | 0 <= k < |s + "\n"| ensures !BlankAt(s + "\n", k) {
      assert k < |s| ==> !BlankAt(s, k);
    }
    BreakIsFirst(s + "\n", |s + "\n"|);
  }

  // ----- main results -----

  /** While the cap is silent the events depend only on the concatenated text. */
  lemma RunIgnoresChunking(chunks: seq<string>, caps: Caps)
    requires Silent("", chunks, caps)
    ensures Run("", chunks, caps) == EventsIn(Concat(chunks), caps)
  {
    assert Pending("") == "";
    assert "" + Concat(chunks) == Concat(chunks);
    RunFrom("", chunks, Concat(chunks), caps);
    assert Blocks(Ready("")) == [];
    HeldCrAtEnd(Concat(chunks), caps);
  }

  // ----- while the stream is open -----

  /** The events yielded so far, without the one the end of the stream may add. */
  function Yielded(buffer: string, chunks: seq<string>, caps: Caps): seq<SseEvent>
    decreases |chunks|
  {
    if chunks == [] then []
    else
      var fed := Feed(buffer, chunks[0], caps);
      fed.events + Yielded(fed.buffer, chunks[1..], caps)
  }

  lemma YieldedStep(text: string, chunks: seq<string>, caps: Caps)
    requires chunks != [] && Silent(Pending(text), chunks, caps)
    ensures Emitted(text, caps) + Yielded(Pending(text), chunks, caps)
         == Emitted(text + chunks[0], caps) + Yielded(Pending(text + chunks[0]), chunks[1..], caps)
  {
    var fed := Feed(Pending(text), chunks[0], caps);
    FeedAdvances(text, chunks[0], caps);
    Regroup(Emitted(text, caps), fed.events, Yielded(fed.buffer, chunks[1..], caps));
  }

  lemma {:induction false} YieldedFrom(text: string, chunks: seq<string>, whole: string, caps: Caps)
    requires whole == text + Concat(chunks)
    requires Silent(Pending(text), chunks, caps)
    ensures Emitted(text, caps) + Yielded(Pending(text), chunks, caps) == Emitted(whole, caps)
    decreases |chunks|
  {
    if chunks == [] {
      assert whole == text;
    } else {
      ConcatStep(text, chunks);
      RunFromStep(text, chunks, caps);
      YieldedStep(text, chunks, caps);
      YieldedFrom(text + chunks[0], chunks[1..], whole, caps);
    }
  }

  /** While the cap is silent, what has been yielded is the complete blocks of what has arrived. */
  lemma OpenStream(chunks: seq<string>, caps: Caps)
    requires Silent("", chunks, caps)
    ensures Yielded("", chunks, caps) == Emitted(Concat(chunks), caps)
  {
    assert Pending("") == "";
    assert "" + Concat(chunks) == Concat(chunks);
    YieldedFrom("", chunks, Concat(chunks), caps);
    assert Blocks(Ready("")) == [];
  }

  // ----- when the cap is silent under every chunking -----

  lemma BreakNotBefore(p: string, x: string)
    requires NextBreak(p) == |p|
    ensures NextBreak(p + x) + 1 >= |p|
  {
    var i := NextBreak(p + x);
    assert i + 1 < |p| ==> BlankAt(p, i);
  }

  /** In a calm text the reader never holds more than the cap, whatever the prefix. */
  lemma CalmPrefix(text: string, more: string, caps: Caps)
    requires Calm(text + more, caps)
    ensures |Rest(Ready(text))| <= caps.pending
  {
    var p, x := Rest(Ready(text)), Ready(Held(text) + more);
    ReadyGrows(text, more);
    BlocksAppend(Ready(text), x);
    RestHasNoBreak(Ready(text));
    BreakNotBefore(p, x);
    var i := NextBreak(p + x);
    if i < |p + x| {
      BlockTaken(p + x, i);
      assert Blocks(Ready(text + more))[|Blocks(Ready(text))|] == (p + x)[..i];
    } else {
      RestOfUnbroken(p + x);
    }
  }

  lemma {:induction false} CalmMeansSilent(text: string, chunks: seq<string>, whole: string, caps: Caps)
    requires whole == text + Concat(chunks) && Calm(whole, caps)
    ensures Silent(Pending(text), chunks, caps)
    decreases |chunks|
  {
    if chunks != [] {
      ConcatStep(text, chunks);
      CalmPrefix(text + chunks[0], Concat(chunks[1..]), caps);
      FeedAdvances(text, chunks[0], caps);
      CalmMeansSilent(text + chunks[0], chunks[1..], whole, caps);
    }
  }

  /** The finest chunking. */
  function Singles(text: string): (chunks: seq<string>)
    ensures Concat(chunks) == text
  {
    if text == "" then [] else [[text[0]]] + Singles(text[1..])
  }

  /** Up to two characters, the second no newline, complete at most the block that was pending. */
  lemma FewCharactersCompleteOneBlock(p: string, x: string)
    requires NextBreak(p) == |p|
    requires |x| <= 1 || (|x| == 2 && x[1] != '\n')
    ensures Blocks(p + x) == [] || (p != "" && Blocks(p + x) == [p[..|p| - 1]])
  {
    BreakNotBefore(p, x);
    var i := NextBreak(p + x);
    if i < |p + x| {
      BlockTaken(p + x, i);
      assert i == |p| - 1;
      assert (p + x)[..i] == p[..i];
      RestOfUnbroken((p + x)[i + 2..]);
    }
  }

  /** One more character completes at most one block, and that block was pending before. */
  lemma CalmGrows(text: string, c: char, caps: Caps)
    requires Calm(text, caps) && |Rest(Ready(text + [c]))| <= caps.pending
    ensures Calm(text + [c], caps)
  {
    var p, x := Rest(Ready(text)), Ready(Held(text) + [c]);
    ReadyGrows(text, [c]);
    ReadyOfOne(Held(text), c);
    BlocksAppend(Ready(text), x);
    RestHasNoBreak(Ready(text));
    FewCharactersCompleteOneBlock(p, x);
  }

  lemma ReadyOfOne(held: string, c: char)
    requires held == "" || held == "\r"
    ensures var x := Ready(held + [c]);
            |x| <= 1 || (|x| == 2 && x[1] != '\n')
  {
    var y := held + [c];
    if held == "\r" && c != '\r' && c != '\n' {
      assert Body(y) == y && y[1..] == [c];
      assert Normalise([c]) == [c] + Normalise("");
    } else if held == "\r" && c == '\r' {
      assert Body(y) == "\r";
      assert Normalise("\r") == "\n";
    } else if held == "\r" {
      assert Body(y) == y && y[2..] == "";
      assert Normalise(y) == "\n" + Normalise("");
    } else if c == '\r' {
      assert Body(y) == "";
    } else {
      assert y == [c] && Body(y) == y;
      assert Normalise(y) == [c] + Normalise("");
    }
  }

  lemma SilentStep(text: string, chunks: seq<string>, caps: Caps)
    requires chunks != [] && Silent(Pending(text), chunks, caps)
    ensures |Rest(Ready(text + chunks[0]))| <= caps.pending
    ensures Silent(Pending(text + chunks[0]), chunks[1..], caps)
  {
    FeedAdvances(text, chunks[0], caps);
  }

  lemma SinglesStep(text: string, more: string)
    requires more != ""
    ensures Singles(more) == [[more[0]]] + Singles(more[1..])
    ensures Singles(more)[0] == [more[0]] && Singles(more)[1..] == Singles(more[1..])
    ensures text + [more[0]] + more[1..] == text + more
  {
  }

  lemma {:induction false} SilentSinglesMeansCalm(text: string, more: string, whole: string, caps: Caps)
    requires whole == text + more && Calm(text, caps)
    requires Silent(Pending(text), Singles(more), caps)
    ensures Calm(whole, caps)
    decreases |more|
  {
    if more == "" {
      assert whole == text;
    } else {
      SinglesStep(text, more);
      SilentStep(text, Singles(more), caps);
      CalmGrows(text, more[0], caps);
      SilentSinglesMeansCalm(text + [more[0]], more[1..], whole, caps);
    }
  }

  lemma StartsEmpty(text: string, caps: Caps)
    ensures Pending("") == "" && Calm("", caps) && "" + text == text
  {
    assert Ready("") == "";
    RestOfUnbroken("");
  }

  /** The cap stays silent under every chunking exactly for the calm texts. */
  lemma SilentExactlyWhenCalm(text: string, caps: Caps)
    ensures Calm(text, caps) <==> forall chunks :: Concat(chunks) == text ==> Silent("", chunks, caps)
  {
    StartsEmpty(text, caps);
    if Calm(text, caps) {
      forall chunks | Concat(chunks) == text ensures Silent("", chunks, caps) {
        CalmMeansSilent("", chunks, text, caps);
      }
    } else {
      var fine := Singles(text);
      assert Concat(fine) == text;
      if Silent("", fine, caps) {
        SilentSinglesMeansCalm("", text, text, caps);
      }
    }
  }

  /** Any two chunkings of a calm text give the same events. */
  lemma ChunkingsAgree(a: seq<string>, b: seq<string>, caps: Caps)
    requires Concat(a) == Concat(b) && Calm(Concat(a), caps)
    ensures Run("", a, caps) == Run("", b, caps) == EventsIn(Concat(a), caps)
  {
    SilentExactlyWhenCalm(Concat(a), caps);
    RunIgnoresChunking(a, caps);
    RunIgnoresChunking(b, caps);
  }

  // ----- how long an event can be -----

  /** Characters of the parts, one separator after each. */
  function Total(parts: seq<string>): nat {
    if parts == [] then 0 else Total(parts[..|parts| - 1]) + |parts[|parts| - 1]| + 1
  }

  lemma {:induction false} TotalCons(part: string, parts: seq<string>)
    ensures Total([part] + parts) == |part| + 1 + Total(parts)
  {
    var all := [part] + parts;
    if parts == [] {
      assert all[..0] == [];
    } else {
      assert all[..|all| - 1] == [part] + parts[..|parts| - 1];
      TotalCons(part, parts[..|parts| - 1]);
    }
  }

  lemma {:induction false} TotalSplit(s: string)
    ensures Total(Split(s)) == |s| + 1
  {
    if s == "" {
      assert [""][..0] == [];
    } else {
      TotalSplit(s[1..]);
      var rest := Split(s[1..]);
      if s[0] == '\n' {
        TotalCons("", rest);
      } else {
        TotalCons(rest[0], rest[1..]);
        assert rest == [rest[0]] + rest[1..];
        TotalCons([s[0]] + rest[0], rest[1..]);
      }
    }
  }

  lemma {:induction false} TotalJoin(parts: seq<string>)
    requires parts != []
    ensures |Join(parts)| + 1 == Total(parts)
  {
    assert parts == [parts[0]] + parts[1..];
    TotalCons(parts[0], parts[1..]);
    if |parts| == 1 {
      assert Total(parts[1..]) == 0;
    } else {
      TotalJoin(parts[1..]);
    }
  }

  lemma {:induction false} TotalData(lines: seq<string>)
    ensures Total(DataValues(lines)) + (if DataValues(lines) == [] then 0 else 4) <= Total(lines)
  {
    if lines == [] {
    } else {
      var n := |lines| - 1;
      TotalData(lines[..n]);
      var before, after := DataValues(lines[..n]), DataValues(lines);
      if Classify(lines[n]).DataField? {
        assert |Classify(lines[n]).value| + 4 <= |lines[n]|;
        assert after == before + [Classify(lines[n]).value];
        assert after[..|before|] == before;
      } else {
        assert after == before;
      }
    }
  }

  /** The joined data of a block is shorter than the block, which also spells the field name. */
  lemma DataShorterThanBlock(block: string)
    requires DataValues(Split(block)) != []
    ensures |Join(DataValues(Split(block)))| + 4 <= |block|
  {
    TotalSplit(block);
    TotalData(Split(block));
    TotalJoin(DataValues(Split(block)));
  }

  predicate ShortData(events: seq<SseEvent>, caps: Caps) {
    forall i :: 0 <= i < |events| ==> |events[i].data| <= caps.event + |TRUNCATED_MARKER|
  }

  lemma {:induction false} ParseAllShort(blocks: seq<string>, caps: Caps)
    ensures ShortData(ParseAll(blocks, caps), caps)
  {
    if blocks != [] {
      ParseAllShort(blocks[1..], caps);
      TailShort(blocks[0], caps);
      ShortAppend(Events(ParseBlock(blocks[0], caps)), ParseAll(blocks[1..], caps), caps);
    }
  }

  lemma CutEventsShort(pending: string, caps: Caps)
    ensures ShortData(CutEvents(pending, caps), caps)
  {
    var cut := if |pending| > caps.event then pending[..caps.event] else pending;
    if DataValues(Split(cut)) != [] {
      DataShorterThanBlock(cut);
    }
  }

  lemma ShortAppend(a: seq<SseEvent>, b: seq<SseEvent>, caps: Caps)
    requires ShortData(a, caps) && ShortData(b, caps)
    ensures ShortData(a + b, caps)
  {
  }

  /** Whatever arrives, in whatever chunks, no event holds more than the event cap and the marker. */
  lemma {:induction false} DataStaysShort(buffer: string, chunks: seq<string>, caps: Caps)
    ensures ShortData(Run(buffer, chunks, caps), caps)
    decreases |chunks|
  {
    if chunks == [] {
      TailShort(Ready(buffer), caps);
    } else {
      var fed := Feed(buffer, chunks[0], caps);
      FeedShort(buffer, chunks[0], caps);
      DataStaysShort(fed.buffer, chunks[1..], caps);
      ShortAppend(fed.events, Run(fed.buffer, chunks[1..], caps), caps);
    }
  }

  lemma TailShort(block: string, caps: Caps)
    ensures ShortData(Events(ParseBlock(block, caps)), caps)
  {
  }

  lemma FeedShort(buffer: string, chunk: string, caps: Caps)
    ensures ShortData(Feed(buffer, chunk, caps).events, caps)
  {
    var ready := Ready(buffer + chunk);
    FeedParts(buffer, chunk, caps);
    ParseAllShort(Blocks(ready), caps);
    CutEventsShort(Rest(ready), caps);
    ShortAppend(ParseAll(Blocks(ready), caps), CutEvents(Rest(ready), caps), caps);
  }

  // ----- beyond the calm texts -----

  lemma UnbrokenLine(s: string)
    requires '\n' !in s
    ensures NextBreak(s) == |s| && NextBreak(s + "\n\n") == |s|
  {
    assert forall k :: 0 <= k < |s| ==> s[k] in s;
    BreakIsFirst(s, |s|);
    BreakIsFirst(s + "\n\n", |s|);
  }

  lemma {:induction false} SplitLine(s: string)
    requires '\n' !in s
    ensures Split(s) == [s]
  {
    if s != "" {
      SplitLine(s[1..]);
      assert s == [s[0]] + s[1..];
    }
  }

  lemma FeedWithoutCr(chunk: string, caps: Caps)
    requires '\r' !in chunk
    ensures var fed := Feed("", chunk, caps);
            && fed.events == ParseAll(Blocks(chunk), caps) + (if fed.capped then CutEvents(Rest(chunk), caps) else [])
            && fed.buffer == (if fed.capped then "" else Rest(chunk))
            && (fed.capped <==> |Rest(chunk)| > caps.pending)
  {
    assert "" + chunk == chunk;
    NormaliseIdentity(chunk);
    assert !EndsWithCr(chunk);
    FeedParts("", chunk, caps);
  }

  lemma {:induction false} FindColon(name: string, rest: string)
    requires ':' !in name
    ensures Find(name + ":" + rest, ':') == |name|
  {
    if name == "" {
      assert name + ":" + rest == ":" + rest;
    } else {
      assert (name + ":" + rest)[1..] == name[1..] + ":" + rest;
      FindColon(name[1..], rest);
    }
  }

  lemma ClassifyData(rest: string)
    ensures Classify("data:" + rest) == DataField(if rest != "" && rest[0] == ' ' then rest[1..] else rest)
  {
    FindColon("data", rest);
    assert "data" + ":" + rest == "data:" + rest;
    assert ("data:" + rest)[..4] == "data";
    assert ("data:" + rest)[5..] == rest;
  }

  lemma ParseOneLine(line: string, caps: Caps)
    requires '\n' !in line
    ensures match Classify(line)
            case DataField(v) => ParseBlock(line, caps) == Some(SseEvent("message", Capped(v, caps)))
            case EventField(v) => ParseBlock(line, caps) == if v == "message" then None else Some(SseEvent(v, ""))
            case Ignored => ParseBlock(line, caps) == None
  {
    SplitLine(line);
    assert [line][..0] == [];
    assert EventName([]) == "message" && DataValues([]) == [];
  }

  lemma {:induction false} LastChunk(buffer: string, chunk: string, caps: Caps)
    ensures Run(buffer, [chunk], caps)
         == Feed(buffer, chunk, caps).events + Events(ParseBlock(Ready(Feed(buffer, chunk, caps).buffer), caps))
  {
    RunStep(buffer, [chunk], 0, caps);
    assert [chunk][0..] == [chunk] && [chunk][1..] == [];
  }

  lemma NoTail(caps: Caps)
    ensures Events(ParseBlock(Ready(""), caps)) == []
  {
    assert Ready("") == "";
    EmptyBlock(caps);
  }

  lemma ParseAllOne(block: string, caps: Caps)
    ensures ParseAll([block], caps) == Events(ParseBlock(block, caps))
  {
    assert [block][1..] == [];
    assert ParseAll([block], caps) == Events(ParseBlock(block, caps)) + ParseAll([], caps);
  }

  /** What the cap cuts off is shorter than what an over-long event keeps. */
  lemma CutDataShort(pending: string, caps: Caps)
    requires |pending| > caps.event
    ensures var events := CutEvents(pending, caps);
            events != [] ==> |events[0].data| < caps.event + |TRUNCATED_MARKER|
  {
    var cut := pending[..caps.event];
    if cut == "" {
      EmptyBlock(caps);
    } else if DataValues(Split(cut)) != [] {
      DataShorterThanBlock(cut);
    }
  }
}
