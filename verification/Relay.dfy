/**
 The relay between the container's log and the client: a pump that fills a bounded queue, a
 consumer that turns items into frames with keepalives and a deadline, and a client that may
 leave at any time. Every interleaving is a run of `Step`.

 `RelaySafety` and `RelayTiming` hold in every reachable state, `NothingAfterDeadline` and
 `EndsAfterDeadline` of every step out of one.
 */
module Relay {
  import opened Prelude

  datatype Item = Line(text: string) | End | Failure(message: string)

  datatype Frame = Data(line: string) | Keepalive | EndOfLog | TimeLimit | Error(message: string)

  /** Waiting for the upstream, holding an item until the queue has room, or done. */
  datatype Pump = Reading | Putting(item: Item) | Done

  /** At the head of the loop, waiting on the queue, holding an item, timed out, or finished. */
  datatype Consumer = Checking | Waiting(until: real) | Holding(item: Item) | Expired | Finished

  datatype Config = Config(capacity: nat, keepalive: real, start: real, maxSeconds: real) {
    function Deadline(): real { start + maxSeconds }
  }

  datatype State = State(
    pulled: seq<string>,   // lines the upstream has yielded
    pump: Pump,
    queue: seq<Item>,
    consumer: Consumer,
    frames: seq<Frame>,    // frames yielded to the client
    now: real,
    closed: nat)           // calls of on_close

  datatype Event =
    | Pull(line: string) | UpstreamEnds | UpstreamFails(message: string) | Put
    | Check | Dequeue | Deliver | Timeout | Recheck
    | Leave
    | Tick(dt: real)

  function Init(c: Config): State {
    State([], Reading, [], Checking, [], c.start, 0)
  }

  function FrameOf(item: Item): Frame {
    match item
    case Line(text) => Data(text)
    case End => EndOfLog
    case Failure(message) => Error(if message == "" then "stream failed" else message)
  }

  function Close(s: State): State {
    s.(consumer := Finished, closed := s.closed + 1)
  }

  /** One step of one party; None when the event cannot happen in s. */
  function Step(c: Config, s: State, e: Event): Option<State> {
    match e
    // the pump, until the consumer cancels it
    case Pull(line) =>
      if s.pump != Reading || s.consumer == Finished then None
      else Some(s.(pump := Putting(Line(line)), pulled := s.pulled + [line]))
    case UpstreamEnds =>
      if s.pump != Reading || s.consumer == Finished then None else Some(s.(pump := Putting(End)))
    case UpstreamFails(message) =>
      if s.pump != Reading || s.consumer == Finished then None else Some(s.(pump := Putting(Failure(message))))
    case Put =>
      if !s.pump.Putting? || s.consumer == Finished || |s.queue| >= c.capacity then None
      else Some(s.(pump := if s.pump.item.Line? then Reading else Done, queue := s.queue + [s.pump.item]))
    // the consumer
    case Check =>
      if s.consumer != Checking then None
      else if c.Deadline() - s.now <= 0.0 then Some(Close(s.(frames := s.frames + [TimeLimit])))
      else Some(s.(consumer := Waiting(s.now + Min(c.keepalive, c.Deadline() - s.now))))
    case Dequeue =>
      if !s.consumer.Waiting? || s.queue == [] || s.now > s.consumer.until then None
      else Some(s.(consumer := Holding(s.queue[0]), queue := s.queue[1..]))
    case Deliver =>
      if !s.consumer.Holding? then None
      else
        var delivered := s.(frames := s.frames + [FrameOf(s.consumer.item)]);
        Some(if s.consumer.item.Line? then delivered.(consumer := Checking) else Close(delivered))
    case Timeout =>
      if !s.consumer.Waiting? || s.now < s.consumer.until then None else Some(s.(consumer := Expired))
    case Recheck =>
      if s.consumer != Expired then None
      else if c.Deadline() - s.now > 0.0 then Some(s.(consumer := Checking, frames := s.frames + [Keepalive]))
      else Some(s.(consumer := Checking))
    // the client leaves; time passes
    case Leave => if s.consumer == Finished then None else Some(Close(s))
    case Tick(dt) => if dt < 0.0 then None else Some(s.(now := s.now + dt))
  }

  function After(c: Config, s: State, events: seq<Event>): Option<State>
    decreases |events|
  {
    if events == [] then Some(s)
    else match Step(c, s, events[0])
      case None => None
      case Some(t) => After(c, t, events[1..])
  }

  // ----- what the frames and the items in flight carry -----

  function DataLines(frames: seq<Frame>): seq<string> {
    if frames == [] then []
    else
      DataLines(frames[..|frames| - 1]) +
      (if frames[|frames| - 1].Data? then [frames[|frames| - 1].line] else [])
  }

  function Keepalives(frames: seq<Frame>): nat {
    if frames == [] then 0
    else Keepalives(frames[..|frames| - 1]) + (if frames[|frames| - 1] == Keepalive then 1 else 0)
  }

  predicate Terminal(f: Frame) {
    f == EndOfLog || f == TimeLimit || f.Error?
  }

  /** Items taken from the upstream that are not yet frames, oldest first. */
  function InFlight(s: State): seq<Item> {
    (if s.consumer.Holding? then [s.consumer.item] else []) + s.queue +
    (if s.pump.Putting? then [s.pump.item] else [])
  }

  function LinesOf(items: seq<Item>): seq<string> {
    if items == [] then []
    else (if items[0].Line? then [items[0].text] else []) + LinesOf(items[1..])
  }

  lemma {:induction false} LinesOfAppend(a: seq<Item>, b: seq<Item>)
    ensures LinesOf(a + b) == LinesOf(a) + LinesOf(b)
  {
    if a == [] {
      assert a + b == b;
    } else {
      assert (a + b)[1..] == a[1..] + b;
      LinesOfAppend(a[1..], b);
    }
  }

  lemma LinesOfOne(item: Item)
    ensures LinesOf([item]) == if item.Line? then [item.text] else []
  {
    assert [item][1..] == [];
  }

  lemma LinesOfFirst(item: Item, items: seq<Item>)
    requires item.Line?
    ensures LinesOf([item] + items) == [item.text] + LinesOf(items)
  {
    assert ([item] + items)[1..] == items;
  }

  lemma IntervalAdded(frames: seq<Frame>, f: Frame, keepalive: real)
    ensures Intervals(frames + [f], keepalive) == Intervals(frames, keepalive) + (if f == Keepalive then keepalive else 0.0)
  {
    assert (frames + [f])[..|frames|] == frames;
  }

  lemma FrameAdded(frames: seq<Frame>, f: Frame)
    ensures DataLines(frames + [f]) == DataLines(frames) + (if f.Data? then [f.line] else [])
    ensures Keepalives(frames + [f]) == Keepalives(frames) + (if f == Keepalive then 1 else 0)
  {
    assert (frames + [f])[..|frames|] == frames;
  }

  // ----- the invariant -----

  /** A terminal item is the last one, and it is there exactly once the upstream is over. */
  predicate OrderedItems(s: State) {
    var items := InFlight(s);
    && (forall i :: 0 <= i < |items| - 1 ==> items[i].Line?)
    && (items != [] && s.pump == Reading ==> items[|items| - 1].Line?)
    && (s.pump == Done ==> items != [] && !items[|items| - 1].Line?)
  }

  /** Nothing is lost or repeated: frames and items in flight spell the lines pulled. */
  predicate Conserved(s: State) {
    DataLines(s.frames) + LinesOf(InFlight(s)) == s.pulled
  }

  predicate TerminalLast(s: State) {
    && (forall i :: 0 <= i < |s.frames| - 1 ==> !Terminal(s.frames[i]))
    && (s.frames != [] && Terminal(s.frames[|s.frames| - 1]) ==> s.consumer == Finished)
  }

  /** The part of the invariant that survives the end. */
  predicate Delivered(c: Config, s: State) {
    && DataLines(s.frames) <= s.pulled
    && |s.pulled| <= |DataLines(s.frames)| + c.capacity + 2
    && (s.frames != [] && (s.frames[|s.frames| - 1] == EndOfLog || s.frames[|s.frames| - 1].Error?)
        ==> DataLines(s.frames) == s.pulled)
  }

  predicate Safe(c: Config, s: State) {
    && |s.queue| <= c.capacity
    && TerminalLast(s)
    && Delivered(c, s)
    && (s.consumer != Finished ==> OrderedItems(s) && Conserved(s))
    && s.closed == (if s.consumer == Finished then 1 else 0)
  }

  /** The time the keepalives stand for: one interval each. */
  function Intervals(frames: seq<Frame>, keepalive: real): real {
    if frames == [] then 0.0
    else Intervals(frames[..|frames| - 1], keepalive) + (if frames[|frames| - 1] == Keepalive then keepalive else 0.0)
  }

  lemma {:induction false} IntervalsCount(frames: seq<Frame>, keepalive: real)
    ensures Intervals(frames, keepalive) == Keepalives(frames) as real * keepalive
  {
    if frames != [] {
      var n := Keepalives(frames[..|frames| - 1]);
      IntervalsCount(frames[..|frames| - 1], keepalive);
      assert (n + 1) as real * keepalive == n as real * keepalive + keepalive;
    }
  }

  function Spent(c: Config, s: State): real {
    Intervals(s.frames, c.keepalive)
  }

  /** Every keepalive has used up its interval. */
  predicate OnTime(c: Config, s: State) {
    && s.now >= c.start
    && (Keepalives(s.frames) > 0 ==> Spent(c, s) < c.maxSeconds)
    && (s.consumer != Finished ==> Spent(c, s) <= s.now - c.start)
    && (s.consumer.Waiting? ==>
          && s.consumer.until <= c.Deadline()
          && (s.consumer.until == c.Deadline() || Spent(c, s) + c.keepalive <= s.consumer.until - c.start))
    && (s.consumer == Expired ==> s.now >= c.Deadline() || Spent(c, s) + c.keepalive <= s.now - c.start)
  }

  lemma {:induction false} FewLines(items: seq<Item>)
    ensures |LinesOf(items)| <= |items|
  {
    if items != [] {
      FewLines(items[1..]);
    }
  }

  lemma DeliveredWhileRunning(c: Config, s: State)
    requires Conserved(s) && |s.queue| <= c.capacity
    requires s.frames != [] ==> s.frames[|s.frames| - 1] != EndOfLog && !s.frames[|s.frames| - 1].Error?
    ensures Delivered(c, s)
  {
    FewLines(InFlight(s));
  }

  /** The upstream yields or ends: one more item in flight. */
  lemma SafeTaken(c: Config, s: State, item: Item)
    requires Safe(c, s) && s.consumer != Finished && s.pump == Reading
    ensures var lines := if item.Line? then [item.text] else [];
            Safe(c, s.(pump := Putting(item), pulled := s.pulled + lines))
  {
    var lines := if item.Line? then [item.text] else [];
    var t := s.(pump := Putting(item), pulled := s.pulled + lines);
    var items := InFlight(s);
    assert InFlight(t) == items + [item];
    LinesOfAppend(items, [item]);
    LinesOfOne(item);
    assert forall i :: 0 <= i < |items| ==> items[i].Line?;
    DeliveredWhileRunning(c, t);
  }

  /** An item moves on without a frame: into the queue, or from the queue to the consumer. */
  lemma SafeMoved(c: Config, s: State, t: State)
    requires Safe(c, s) && s.consumer != Finished && t.consumer != Finished
    requires InFlight(t) == InFlight(s) && |t.queue| <= c.capacity
    requires t.frames == s.frames && t.pulled == s.pulled && t.closed == s.closed
    requires (t.pump == Reading) <==> (s.pump == Reading || (s.pump.Putting? && s.pump.item.Line? && t.pump != s.pump))
    requires (t.pump == Done) <==> (s.pump == Done || (s.pump.Putting? && !s.pump.item.Line? && t.pump != s.pump))
    ensures Safe(c, t)
  {
    var items := InFlight(s);
    if s.pump.Putting? {
      assert items[|items| - 1] == s.pump.item;
    }
  }

  lemma SafeKeepalive(c: Config, s: State)
    requires Safe(c, s) && s.consumer == Expired
    ensures Safe(c, s.(consumer := Checking, frames := s.frames + [Keepalive]))
  {
    FrameAdded(s.frames, Keepalive);
    assert InFlight(s.(consumer := Checking, frames := s.frames + [Keepalive])) == InFlight(s);
  }

  lemma SafeClosed(c: Config, s: State, last: seq<Frame>)
    requires Safe(c, s) && s.consumer != Finished && last <= [TimeLimit]
    ensures Safe(c, Close(s.(frames := s.frames + last)))
  {
    if last == [] {
      assert s.frames + last == s.frames;
    } else {
      assert last == [TimeLimit];
      FrameAdded(s.frames, TimeLimit);
    }
  }

  lemma SafeLineDelivered(c: Config, s: State)
    requires Safe(c, s) && s.consumer.Holding? && s.consumer.item.Line?
    ensures Safe(c, s.(frames := s.frames + [FrameOf(s.consumer.item)], consumer := Checking))
  {
    var t, item := s.(frames := s.frames + [FrameOf(s.consumer.item)], consumer := Checking), s.consumer.item;
    var items, later := InFlight(s), InFlight(t);
    FrameAdded(s.frames, FrameOf(item));
    assert items == [item] + later;
    OrderedTail(s, t);
    LinesOfFirst(item, later);
    DeliveredWhileRunning(c, t);
  }

  lemma OrderedTail(s: State, t: State)
    requires OrderedItems(s) && s.consumer.Holding? && s.consumer.item.Line?
    requires t.pump == s.pump && InFlight(s) == [s.consumer.item] + InFlight(t)
    ensures OrderedItems(t)
  {
    var items, later := InFlight(s), InFlight(t);
    assert forall i :: 0 <= i < |later| ==> later[i] == items[i + 1];
  }

  lemma SafeTerminalDelivered(c: Config, s: State)
    requires Safe(c, s) && s.consumer.Holding? && !s.consumer.item.Line?
    ensures Safe(c, Close(s.(frames := s.frames + [FrameOf(s.consumer.item)])))
  {
    var item, items := s.consumer.item, InFlight(s);
    FrameAdded(s.frames, FrameOf(item));
    assert items[0] == item;
    assert |items| == 1;
    assert LinesOf(items) == LinesOf(items[1..]);
    assert LinesOf(items[1..]) == [];
  }

  lemma SafePumpStep(c: Config, s: State, e: Event)
    requires Safe(c, s) && Step(c, s, e).Some?
    requires e.Pull? || e.UpstreamEnds? || e.UpstreamFails? || e.Put?
    ensures Safe(c, Step(c, s, e).value)
  {
    match e
    case Pull(line) => SafeTaken(c, s, Line(line));
    case UpstreamEnds => SafeTakenLast(c, s, End);
    case UpstreamFails(message) => SafeTakenLast(c, s, Failure(message));
    case Put =>
      var t := Step(c, s, Put).value;
      assert InFlight(t) == InFlight(s);
      SafeMoved(c, s, t);
  }

  lemma SafeQuietStep(c: Config, s: State, t: State)
    requires Safe(c, s) && s.consumer != Finished && t.consumer != Finished
    requires t == s.(consumer := t.consumer, now := t.now)
    requires t.consumer == s.consumer || (!t.consumer.Holding? && !s.consumer.Holding?)
    ensures Safe(c, t)
  {
    assert InFlight(t) == InFlight(s);
    SafeMoved(c, s, t);
  }

  lemma SafeDequeue(c: Config, s: State)
    requires Safe(c, s) && s.consumer.Waiting? && s.queue != []
    ensures Safe(c, s.(consumer := Holding(s.queue[0]), queue := s.queue[1..]))
  {
    var t := s.(consumer := Holding(s.queue[0]), queue := s.queue[1..]);
    assert s.queue == [s.queue[0]] + s.queue[1..];
    assert InFlight(t) == InFlight(s);
    SafeMoved(c, s, t);
  }

  lemma SafeStep(c: Config, s: State, e: Event)
    requires Safe(c, s) && Step(c, s, e).Some?
    ensures Safe(c, Step(c, s, e).value)
  {
    var t := Step(c, s, e).value;
    match e
    case Check =>
      if c.Deadline() - s.now <= 0.0 { SafeClosed(c, s, [TimeLimit]); } else { SafeQuietStep(c, s, t); }
    case Dequeue => SafeDequeue(c, s);
    case Deliver =>
      if s.consumer.item.Line? { SafeLineDelivered(c, s); } else { SafeTerminalDelivered(c, s); }
    case Timeout => SafeQuietStep(c, s, t);
    case Recheck =>
      if c.Deadline() - s.now > 0.0 { SafeKeepalive(c, s); } else { SafeQuietStep(c, s, t); }
    case Leave =>
      assert s.frames + [] == s.frames;
      SafeClosed(c, s, []);
    case Tick(dt) =>
      if s.consumer != Finished { SafeQuietStep(c, s, t); }
    case _ => SafePumpStep(c, s, e);
  }

  lemma SafeTakenLast(c: Config, s: State, item: Item)
    requires Safe(c, s) && s.consumer != Finished && s.pump == Reading && !item.Line?
    ensures Safe(c, s.(pump := Putting(item)))
  {
    SafeTaken(c, s, item);
    assert s.pulled + [] == s.pulled;
  }

  lemma OnTimeKept(c: Config, s: State, t: State)
    requires OnTime(c, s) && t.now >= s.now
    requires Keepalives(t.frames) == Keepalives(s.frames) && Spent(c, t) == Spent(c, s)
    requires t.consumer == s.consumer || t.consumer == Checking || t.consumer == Finished || t.consumer.Holding?
    requires s.consumer == Finished ==> t.consumer == Finished
    ensures OnTime(c, t)
  {
  }

  lemma OnTimeFrame(c: Config, s: State, f: Frame, t: State)
    requires OnTime(c, s) && s.consumer != Finished && f != Keepalive
    requires t.frames == s.frames + [f] && t.now == s.now && (t.consumer == Checking || t.consumer == Finished)
    ensures OnTime(c, t)
  {
    FrameAdded(s.frames, f);
    IntervalAdded(s.frames, f, c.keepalive);
    OnTimeKept(c, s, t);
  }

  lemma OnTimeRecheck(c: Config, s: State)
    requires OnTime(c, s) && s.consumer == Expired && c.Deadline() - s.now > 0.0
    ensures OnTime(c, s.(consumer := Checking, frames := s.frames + [Keepalive]))
  {
    FrameAdded(s.frames, Keepalive);
    IntervalAdded(s.frames, Keepalive, c.keepalive);
  }

  lemma OnTimeStep(c: Config, s: State, e: Event)
    requires OnTime(c, s) && Step(c, s, e).Some?
    ensures OnTime(c, Step(c, s, e).value)
  {
    var t := Step(c, s, e).value;
    match e
    case Check =>
      if c.Deadline() - s.now <= 0.0 { OnTimeFrame(c, s, TimeLimit, t); }
    case Deliver => OnTimeFrame(c, s, FrameOf(s.consumer.item), t);
    case Recheck =>
      if c.Deadline() - s.now > 0.0 { OnTimeRecheck(c, s); }
    case _ =>
  }

  lemma {:induction false} InvariantRun(c: Config, s: State, events: seq<Event>)
    requires Safe(c, s) && OnTime(c, s) && After(c, s, events).Some?
    ensures Safe(c, After(c, s, events).value) && OnTime(c, After(c, s, events).value)
    decreases |events|
  {
    if events == [] {
    } else {
      SafeStep(c, s, events[0]);
      OnTimeStep(c, s, events[0]);
      InvariantRun(c, Step(c, s, events[0]).value, events[1..]);
    }
  }

  predicate Reachable(c: Config, events: seq<Event>, s: State) {
    After(c, Init(c), events) == Some(s)
  }

  lemma Invariant(c: Config, events: seq<Event>, s: State)
    requires Reachable(c, events, s)
    ensures Safe(c, s) && OnTime(c, s)
  {
    InvariantRun(c, Init(c), events);
  }

  // ----- main results -----

  /** In every schedule: an in-order prefix of the upstream, at most one terminal frame and that
      one last, an upstream terminal only after every line, bounded read-ahead, one close. */
  lemma RelaySafety(c: Config, events: seq<Event>, s: State)
    requires Reachable(c, events, s)
    ensures DataLines(s.frames) <= s.pulled
    ensures forall i :: 0 <= i < |s.frames| && Terminal(s.frames[i]) ==> i == |s.frames| - 1
    ensures forall i :: 0 <= i < |s.frames| && (s.frames[i] == EndOfLog || s.frames[i].Error?)
                        ==> DataLines(s.frames) == s.pulled
    ensures |s.pulled| - |DataLines(s.frames)| <= c.capacity + 2
    ensures s.closed == if s.consumer == Finished then 1 else 0
    ensures s.frames != [] && Terminal(s.frames[|s.frames| - 1]) ==> s.consumer == Finished
  {
    Invariant(c, events, s);
    forall i | 0 <= i < |s.frames| && Terminal(s.frames[i]) ensures i == |s.frames| - 1 {
      if i < |s.frames| - 1 { assert false; }
    }
  }

  /** The keepalives together took less than the stream limit. */
  lemma RelayTiming(c: Config, events: seq<Event>, s: State)
    requires Reachable(c, events, s)
    ensures Keepalives(s.frames) > 0 ==> Keepalives(s.frames) as real * c.keepalive < c.maxSeconds
  {
    Invariant(c, events, s);
    IntervalsCount(s.frames, c.keepalive);
  }

  /** A step adds at most one frame, and a keepalive only before the deadline. */
  lemma FramesGrow(c: Config, s: State, e: Event) returns (added: seq<Frame>)
    requires Step(c, s, e).Some?
    ensures Step(c, s, e).value.frames == s.frames + added && |added| <= 1
    ensures added == [Keepalive] ==> s.now < c.Deadline()
  {
    added := match e
      case Check => if c.Deadline() - s.now <= 0.0 then [TimeLimit] else []
      case Deliver => [FrameOf(s.consumer.item)]
      case Recheck => if c.Deadline() - s.now > 0.0 then [Keepalive] else []
      case _ => [];
    assert s.frames + [] == s.frames;
  }

  lemma KeepaliveCounted(frames: seq<Frame>, added: seq<Frame>)
    requires |added| <= 1
    ensures Keepalives(frames + added) > Keepalives(frames) ==> added == [Keepalive]
  {
    if added == [] {
      assert frames + added == frames;
    } else {
      FrameAdded(frames, added[0]);
      assert added == [added[0]];
    }
  }

  /** No line is dequeued and no keepalive sent after the deadline. */
  lemma NothingAfterDeadline(c: Config, events: seq<Event>, s: State, e: Event)
    requires Reachable(c, events, s) && Step(c, s, e).Some?
    ensures e == Dequeue ==> s.now <= c.Deadline()
    ensures Keepalives(Step(c, s, e).value.frames) > Keepalives(s.frames) ==> s.now < c.Deadline()
  {
    Invariant(c, events, s);
    var added := FramesGrow(c, s, e);
    KeepaliveCounted(s.frames, added);
  }

  /** Steps the consumer still takes once the deadline has passed. */
  function StepsLeft(consumer: Consumer): nat {
    match consumer
    case Finished => 0
    case Checking => 1
    case Holding(_) => 2
    case Expired => 2
    case Waiting(_) => 3
  }

  predicate ConsumerEvent(e: Event) {
    e == Check || e == Dequeue || e == Deliver || e == Timeout || e == Recheck
  }

  /** Past the deadline the consumer can always take a step. */
  lemma NotStuckAfterDeadline(c: Config, events: seq<Event>, s: State)
    requires Reachable(c, events, s) && s.now >= c.Deadline() && s.consumer != Finished
    ensures exists f :: ConsumerEvent(f) && Step(c, s, f).Some?
  {
    Invariant(c, events, s);
    var f := match s.consumer
      case Checking => Check
      case Waiting(_) => Timeout
      case Holding(_) => Deliver
      case _ => Recheck;
    assert ConsumerEvent(f) && Step(c, s, f).Some?;
  }

  /** Past the deadline each step of the consumer brings it nearer to the end and no step of the
      others takes it back. */
  lemma EndsAfterDeadline(c: Config, events: seq<Event>, s: State, e: Event)
    requires Reachable(c, events, s) && s.now >= c.Deadline() && Step(c, s, e).Some?
    ensures var t := Step(c, s, e).value;
            && t.now >= c.Deadline()
            && StepsLeft(t.consumer) <= StepsLeft(s.consumer)
            && (ConsumerEvent(e) ==> StepsLeft(t.consumer) < StepsLeft(s.consumer))
  {
    Invariant(c, events, s);
  }

  // ----- what the last frame says -----

  predicate UpstreamOver(e: Event) {
    e.UpstreamEnds? || e.UpstreamFails?
  }

  /** The message of a failure as the client gets it. */
  predicate Tells(shown: string, why: string) {
    shown == if why == "" then "stream failed" else why
  }

  /** The item is what the upstream gave. */
  ghost predicate ItemTold(past: seq<Event>, item: Item) {
    match item
    case Line(_) => true
    case End => UpstreamEnds in past
    case Failure(why) => UpstreamFails(why) in past
  }

  /** The frame says what happened. */
  ghost predicate FrameTold(c: Config, past: seq<Event>, f: Frame, now: real) {
    match f
    case EndOfLog => UpstreamEnds in past
    case Error(shown) => exists why :: UpstreamFails(why) in past && Tells(shown, why)
    case TimeLimit => now >= c.Deadline()
    case _ => true
  }

  /** The upstream is over at most once, and the pump reads on only while it is not. */
  predicate OverOnce(past: seq<Event>, s: State) {
    && (s.pump == Reading || (s.pump.Putting? && s.pump.item.Line?) ==>
          forall i :: 0 <= i < |past| ==> !UpstreamOver(past[i]))
    && (forall i, j :: 0 <= i < j < |past| ==> !(UpstreamOver(past[i]) && UpstreamOver(past[j])))
  }

  ghost predicate Told(c: Config, past: seq<Event>, s: State) {
    && OverOnce(past, s)
    && (s.pump.Putting? ==> ItemTold(past, s.pump.item))
    && (forall i :: 0 <= i < |s.queue| ==> ItemTold(past, s.queue[i]))
    && (s.consumer.Holding? ==> ItemTold(past, s.consumer.item))
    && (forall i :: 0 <= i < |s.frames| ==> FrameTold(c, past, s.frames[i], s.now))
    && (s.consumer == Finished && Leave !in past ==> s.frames != [] && Terminal(s.frames[|s.frames| - 1]))
  }

  lemma ItemStaysTold(past: seq<Event>, e: Event, item: Item)
    requires ItemTold(past, item)
    ensures ItemTold(past + [e], item)
  {
  }

  lemma FrameStaysTold(c: Config, past: seq<Event>, e: Event, f: Frame, now: real, later: real)
    requires FrameTold(c, past, f, now) && now <= later
    ensures FrameTold(c, past + [e], f, later)
  {
    if f.Error? {
      var why :| UpstreamFails(why) in past && Tells(f.message, why);
      assert UpstreamFails(why) in past + [e];
    }
  }

  lemma ItemGivesFrame(c: Config, past: seq<Event>, item: Item, now: real)
    requires ItemTold(past, item)
    ensures FrameTold(c, past, FrameOf(item), now)
    ensures Terminal(FrameOf(item)) <==> !item.Line?
  {
    if item.Failure? { assert Tells(FrameOf(item).message, item.message); }
  }

  lemma FramesStayTold(c: Config, past: seq<Event>, e: Event, s: State)
    requires Told(c, past, s) && Step(c, s, e).Some?
    ensures var t := Step(c, s, e).value;
            forall i :: 0 <= i < |t.frames| ==> FrameTold(c, past + [e], t.frames[i], t.now)
  {
    var t := Step(c, s, e).value;
    forall i | 0 <= i < |t.frames| ensures FrameTold(c, past + [e], t.frames[i], t.now) {
      if i < |s.frames| {
        assert t.frames[i] == s.frames[i];
        FrameStaysTold(c, past, e, s.frames[i], s.now, t.now);
      } else if e == Deliver {
        ItemGivesFrame(c, past, s.consumer.item, s.now);
        FrameStaysTold(c, past, e, FrameOf(s.consumer.item), s.now, t.now);
      }
    }
  }

  lemma ItemsStayTold(c: Config, past: seq<Event>, e: Event, s: State)
    requires Told(c, past, s) && Step(c, s, e).Some?
    ensures var t := Step(c, s, e).value;
            && (t.pump.Putting? ==> ItemTold(past + [e], t.pump.item))
            && (forall i :: 0 <= i < |t.queue| ==> ItemTold(past + [e], t.queue[i]))
            && (t.consumer.Holding? ==> ItemTold(past + [e], t.consumer.item))
  {
    var t := Step(c, s, e).value;
    if s.pump.Putting? { ItemStaysTold(past, e, s.pump.item); }
    if s.consumer.Holding? { ItemStaysTold(past, e, s.consumer.item); }
    forall i | 0 <= i < |s.queue| ensures ItemTold(past + [e], s.queue[i]) {
      ItemStaysTold(past, e, s.queue[i]);
    }
  }

  lemma OverOnceStep(c: Config, past: seq<Event>, e: Event, s: State)
    requires OverOnce(past, s) && Step(c, s, e).Some?
    ensures OverOnce(past + [e], Step(c, s, e).value)
  {
    var all := past + [e];
    assert forall i :: 0 <= i < |all| ==> all[i] == if i < |past| then past[i] else e;
  }

  lemma FinishedTells(c: Config, past: seq<Event>, e: Event, s: State)
    requires Told(c, past, s) && Step(c, s, e).Some?
    ensures var t := Step(c, s, e).value;
            t.consumer == Finished && Leave !in past + [e] ==> t.frames != [] && Terminal(t.frames[|t.frames| - 1])
  {
    assert Leave in past || e == Leave ==> Leave in past + [e];
    if e == Deliver { ItemGivesFrame(c, past, s.consumer.item, s.now); }
  }

  lemma ToldStep(c: Config, past: seq<Event>, e: Event, s: State)
    requires Told(c, past, s) && Step(c, s, e).Some?
    ensures Told(c, past + [e], Step(c, s, e).value)
  {
    OverOnceStep(c, past, e, s);
    ItemsStayTold(c, past, e, s);
    FramesStayTold(c, past, e, s);
    FinishedTells(c, past, e, s);
  }

  lemma {:induction false} ToldRun(c: Config, past: seq<Event>, s: State, events: seq<Event>)
    requires Told(c, past, s) && After(c, s, events).Some?
    ensures Told(c, past + events, After(c, s, events).value)
    decreases |events|
  {
    if events == [] {
      assert past + events == past;
    } else {
      ToldStep(c, past, events[0], s);
      assert past + events == past + [events[0]] + events[1..];
      ToldRun(c, past + [events[0]], Step(c, s, events[0]).value, events[1..]);
    }
  }

  /** In every schedule a terminal frame says what happened: the end of the log that the upstream
      ended, an error that it failed and how, the time limit that the deadline has passed. */
  lemma TerminalTellsWhy(c: Config, events: seq<Event>, s: State)
    requires Reachable(c, events, s)
    ensures EndOfLog in s.frames ==> UpstreamEnds in events
    ensures forall shown :: Error(shown) in s.frames ==>
              exists why :: UpstreamFails(why) in events && shown == if why == "" then "stream failed" else why
    ensures TimeLimit in s.frames ==> s.now >= c.Deadline()
    ensures var last := if s.frames == [] then Keepalive else s.frames[|s.frames| - 1];
            Terminal(last) && last != TimeLimit ==> (last == EndOfLog <==> UpstreamEnds in events)
  {
    ToldRun(c, [], Init(c), events);
    assert [] + events == events;
    forall shown | Error(shown) in s.frames
      ensures exists why :: UpstreamFails(why) in events && shown == if why == "" then "stream failed" else why
      ensures UpstreamEnds !in events
    {
      var why := ErrorTold(c, events, s, shown);
    }
    if EndOfLog in s.frames { FrameIsTold(c, events, s, EndOfLog); }
    if TimeLimit in s.frames { FrameIsTold(c, events, s, TimeLimit); }
  }

  lemma FrameIsTold(c: Config, events: seq<Event>, s: State, f: Frame)
    requires Told(c, events, s) && f in s.frames
    ensures FrameTold(c, events, f, s.now)
  {
  }

  lemma ErrorTold(c: Config, events: seq<Event>, s: State, shown: string) returns (why: string)
    requires Told(c, events, s) && Error(shown) in s.frames
    ensures UpstreamFails(why) in events && Tells(shown, why) && UpstreamEnds !in events
  {
    FrameIsTold(c, events, s, Error(shown));
    why :| UpstreamFails(why) in events && Tells(shown, why);
    if UpstreamEnds in events { EndedAndFailed(events, s, why); }
  }

  lemma EndedAndFailed(events: seq<Event>, s: State, why: string)
    requires OverOnce(events, s) && UpstreamEnds in events
    ensures UpstreamFails(why) !in events
  {
    var i :| 0 <= i < |events| && events[i] == UpstreamEnds;
    if UpstreamFails(why) in events {
      var j :| 0 <= j < |events| && events[j] == UpstreamFails(why);
      assert UpstreamOver(events[i]) && UpstreamOver(events[j]);
    }
  }

  /** Unless the client left, a finished relay has told it why. */
  lemma EndIsTold(c: Config, events: seq<Event>, s: State)
    requires Reachable(c, events, s) && s.consumer == Finished && Leave !in events
    ensures s.frames != [] && Terminal(s.frames[|s.frames| - 1])
  {
    ToldRun(c, [], Init(c), events);
    assert [] + events == events;
  }

  /** The pump goes on as long as the queue has room and the relay is not finished, and what is first
      in the queue is the next frame, before the deadline. */
  lemma QueueGetsThrough(c: Config, s: State)
    requires s.consumer != Finished
    ensures s.pump == Reading ==> forall line :: Step(c, s, Pull(line)).Some?
    ensures s.pump.Putting? ==>
              (Step(c, s, Put).Some? <==> |s.queue| < c.capacity)
              && (|s.queue| < c.capacity ==> Step(c, s, Put).value.queue == s.queue + [s.pump.item])
    ensures s.consumer == Checking && s.queue != [] && s.now < c.Deadline() && c.keepalive >= 0.0 ==>
              var t := After(c, s, [Check, Dequeue, Deliver]);
              t.Some? && t.value.queue == s.queue[1..]
              && t.value.frames == s.frames + [match s.queue[0]
                   case Line(text) => Data(text)
                   case End => EndOfLog
                   case Failure(why) => Error(if why == "" then "stream failed" else why)]
  {
    if s.consumer == Checking && s.queue != [] && s.now < c.Deadline() && c.keepalive >= 0.0 {
      var s1 := s.(consumer := Waiting(s.now + Min(c.keepalive, c.Deadline() - s.now)));
      var s2 := s1.(consumer := Holding(s.queue[0]), queue := s.queue[1..]);
      AfterOne(c, s2, Deliver, []);
      AfterOne(c, s1, Dequeue, [Deliver] + []);
      AfterOne(c, s, Check, [Dequeue] + ([Deliver] + []));
      assert [Check] + ([Dequeue] + ([Deliver] + [])) == [Check, Dequeue, Deliver];
    }
  }

  lemma AfterOne(c: Config, s: State, e: Event, more: seq<Event>)
    requires Step(c, s, e).Some?
    ensures After(c, s, [e] + more) == After(c, Step(c, s, e).value, more)
  {
    assert ([e] + more)[1..] == more;
  }

  /** An idle client gets a keepalive after one interval, if that is before the deadline, and the
      time limit message at the deadline. */
  lemma IdleIsNotSilent(c: Config, s: State, dt: real)
    requires s.consumer == Checking
    ensures 0.0 <= c.keepalive <= dt && s.now + dt < c.Deadline() ==>
              var t := After(c, s, [Check, Tick(dt), Timeout, Recheck]);
              t.Some? && t.value.frames == s.frames + [Keepalive] && t.value.consumer == Checking
    ensures s.now >= c.Deadline() ==>
              var t := After(c, s, [Check]);
              t.Some? && t.value.frames == s.frames + [TimeLimit] && t.value.consumer == Finished
  {
    if s.now >= c.Deadline() {
      AfterOne(c, s, Check, []);
      assert [Check] + [] == [Check];
    } else if 0.0 <= c.keepalive <= dt && s.now + dt < c.Deadline() {
      var s1 := s.(consumer := Waiting(s.now + c.keepalive));
      var s2 := s1.(now := s.now + dt);
      var s3 := s2.(consumer := Expired);
      AfterOne(c, s3, Recheck, []);
      AfterOne(c, s2, Timeout, [Recheck] + []);
      AfterOne(c, s1, Tick(dt), [Timeout] + ([Recheck] + []));
      AfterOne(c, s, Check, [Tick(dt)] + ([Timeout] + ([Recheck] + [])));
      assert [Check] + ([Tick(dt)] + ([Timeout] + ([Recheck] + []))) == [Check, Tick(dt), Timeout, Recheck];
    }
  }
}
