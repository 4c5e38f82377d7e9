/**
 The viewer's window of lines and its consumption of events.
 */
module LogViewer {
  import opened Wire
  import opened Reader

  const MAX_LINES := 5000

  /** What the connection left behind: still streaming (to be reconnected), ended, or failed. */
  datatype Phase = Streaming | Ended | Failed(detail: string)

  datatype View = View(lines: seq<string>, phase: Phase)

  function Append(prev: seq<string>, line: string, max: nat): seq<string>
    requires max > 0
  {
    (if |prev| >= max then prev[|prev| - max + 1..] else prev) + [line]
  }

  /** Events are consumed until a terminal one. */
  function Consume(lines: seq<string>, events: seq<SseEvent>, max: nat): View
    requires max > 0
    decreases |events|
  {
    if events == [] then View(lines, Streaming)
    else if events[0].event == "end" then View(lines, Ended)
    else if events[0].event == "error" then
      View(lines, Failed(if events[0].data == "" then "stream failed" else events[0].data))
    else Consume(Append(lines, UnescapeLine(events[0].data), max), events[1..], max)
  }

  method ConsumeLoop(shown: seq<string>, events: seq<SseEvent>, max: nat) returns (view: View)
    requires max > 0
    ensures view == Consume(shown, events, max)
  {
    var lines := shown;
    for i := 0 to |events|
      invariant Consume(lines, events[i..], max) == Consume(shown, events, max)
    {
      var event := events[i];
      assert events[i..][1..] == events[i + 1..];
      if event.event == "end" { return View(lines, Ended); }
      if event.event == "error" {
        return View(lines, Failed(if event.data == "" then "stream failed" else event.data));
      }
      lines := Append(lines, UnescapeLine(event.data), max);
    }
    return View(lines, Streaming);
  }

  /** The last max of all lines, in order. */
  function LastLines(all: seq<string>, max: nat): seq<string> {
    if |all| <= max then all else all[|all| - max..]
  }

  lemma AppendKeepsLast(all: seq<string>, line: string, max: nat)
    requires max > 0
    ensures Append(LastLines(all, max), line, max) == LastLines(all + [line], max)
  {
  }

  predicate IsTerminal(e: SseEvent) {
    e.event == "end" || e.event == "error"
  }

  /** What a terminal event leaves. */
  function PhaseAfter(e: SseEvent): Phase {
    if e.event == "end" then Ended else Failed(if e.data == "" then "stream failed" else e.data)
  }

  function LinesOf(events: seq<SseEvent>): (lines: seq<string>)
    ensures |lines| == |events|
    ensures forall i :: 0 <= i < |lines| ==> lines[i] == UnescapeLine(events[i].data)
  {
    seq(|events|, i requires 0 <= i < |events| => UnescapeLine(events[i].data))
  }

  lemma WindowOfLines(shown: seq<string>, first: string, later: seq<string>, max: nat)
    requires max > 0
    ensures LastLines(Append(LastLines(shown, max), first, max) + later, max) == LastLines(shown + ([first] + later), max)
  {
    var all := shown + ([first] + later);
    AppendKeepsLast(shown, first, max);
    assert all == (shown + [first]) + later;
    LastOfLast(shown + [first], later, max);
  }

  lemma LastOfLast(a: seq<string>, b: seq<string>, max: nat)
    ensures LastLines(LastLines(a, max) + b, max) == LastLines(a + b, max)
  {
  }

  /** Everything before the first terminal event is shown, its last lines; that event decides the
      phase; nothing after it matters. */
  lemma {:induction false} ConsumeExactly(shown: seq<string>, events: seq<SseEvent>, max: nat) returns (n: nat)
    requires max > 0 && |shown| <= max
    ensures n <= |events| && forall i :: 0 <= i < n ==> !IsTerminal(events[i])
    ensures n < |events| ==> IsTerminal(events[n])
    ensures Consume(shown, events, max)
         == View(LastLines(shown + LinesOf(events[..n]), max), if n == |events| then Streaming else PhaseAfter(events[n]))
    decreases |events|
  {
    if events == [] || IsTerminal(events[0]) {
      n := 0;
      assert shown + LinesOf(events[..0]) == shown;
    } else {
      var first := UnescapeLine(events[0].data);
      var next := Append(shown, first, max);
      var m := ConsumeExactly(next, events[1..], max);
      n := m + 1;
      assert LastLines(shown, max) == shown;
      assert LinesOf(events[..n]) == [first] + LinesOf(events[1..][..m]);
      WindowOfLines(shown, first, LinesOf(events[1..][..m]), max);
    }
  }
}
