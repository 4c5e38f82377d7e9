/**
 The body-limit middleware around an arbitrary application: it counts what the application
 receives, cuts it off past the limit, and answers 413 in its place unless a response has
 already started. The application is any trace of receives and sends.
 */
module BodyLimit {
  import opened Prelude

  datatype Incoming = RequestBody(size: nat) | Disconnect

  datatype Outgoing = Start(status: nat) | Body(content: string)

  /** What the application does: receive (with the message the server would hand over) or send. */
  datatype Action = Receive(message: Incoming) | Send(sent: Outgoing)

  const TOO_LARGE: seq<Outgoing> := [Start(413), Body("{\"error\": \"request body too large\"}")]

  /** The closures' variables, with what the application and the wire have seen. */
  datatype State = State(
    total: nat, over: bool, started: bool, taken: nat,
    delivered: seq<Incoming>, wire: seq<Outgoing>)

  const FRESH := State(0, false, false, 0, [], [])

  function Receiving(s: State, message: Incoming, max: nat): State {
    if s.over then s.(delivered := s.delivered + [Disconnect])
    else if message.RequestBody? && s.total + message.size > max then
      s.(total := s.total + message.size, over := true, taken := s.taken + 1, delivered := s.delivered + [Disconnect])
    else
      s.(total := s.total + (if message.RequestBody? then message.size else 0),
         taken := s.taken + 1, delivered := s.delivered + [message])
  }

  function Sending(s: State, message: Outgoing): State {
    if s.over && !s.started then s
    else s.(started := s.started || message.Start?, wire := s.wire + [message])
  }

  function Act(s: State, a: Action, max: nat): State {
    match a
    case Receive(message) => Receiving(s, message, max)
    case Send(message) => Sending(s, message)
  }

  function Acts(s: State, trace: seq<Action>, max: nat): State {
    if trace == [] then s else Act(Acts(s, trace[..|trace| - 1], max), trace[|trace| - 1], max)
  }

  /** What is on the wire at the end, whether the application saw the request at all, and whether
      its exception goes on. */
  datatype Result = Result(wire: seq<Outgoing>, ran: bool, raised: bool)

  function Handle(declared: Option<int>, trace: seq<Action>, raises: bool, max: nat): Result {
    if declared.Some? && declared.value > max then Result(TOO_LARGE, false, false)
    else
      var s := Acts(FRESH, trace, max);
      if s.over && !s.started then Result(s.wire + TOO_LARGE, true, false)
      else Result(s.wire, true, raises && !s.over)
  }

  class BodyLimitMiddleware {
    const maxBytes: nat
    var total: nat
    var over: bool
    var responseStarted: bool
    var taken: nat
    var delivered: seq<Incoming>
    var wire: seq<Outgoing>

    ghost function View(): State
      reads this
    {
      State(total, over, responseStarted, taken, delivered, wire)
    }

    constructor (maxBytes: nat)
      ensures this.maxBytes == maxBytes && View() == FRESH
    {
      this.maxBytes := maxBytes;
      total, over, responseStarted, taken, delivered, wire := 0, false, false, 0, [], [];
    }

    method CountingReceive(message: Incoming) returns (seen: Incoming)
      modifies this
      ensures View() == Receiving(old(View()), message, maxBytes)
      ensures delivered == old(delivered) + [seen]
    {
      seen := Disconnect;
      if !over {
        taken := taken + 1;
        seen := message;
        if message.RequestBody? {
          total := total + message.size;
          if total > maxBytes {
            over := true;
            seen := Disconnect;
          }
        }
      }
      delivered := delivered + [seen];
    }

    method TrackingSend(message: Outgoing)
      modifies this
      ensures View() == Sending(old(View()), message)
    {
      if over && !responseStarted { return; }
      if message.Start? { responseStarted := true; }
      wire := wire + [message];
    }

    method Call(declared: Option<int>, trace: seq<Action>, raises: bool) returns (result: Result)
      requires View() == FRESH
      modifies this
      ensures result == Handle(declared, trace, raises, maxBytes)
    {
      if declared.Some? && declared.value > maxBytes { return Result(TOO_LARGE, false, false); }
      for i := 0 to |trace|
        invariant View() == Acts(FRESH, trace[..i], maxBytes)
      {
        assert trace[..i + 1][..i] == trace[..i];
        match trace[i]
        case Receive(message) => var seen := CountingReceive(message);
        case Send(message) => TrackingSend(message);
      }
      assert trace[..|trace|] == trace;
      if over && !responseStarted { wire := wire + TOO_LARGE; }
      return Result(wire, true, raises && !over);
    }
  }

  // ----- what the trace asked for -----

  function Bytes(messages: seq<Incoming>): nat {
    if messages == [] then 0
    else
      Bytes(messages[..|messages| - 1]) +
      (if messages[|messages| - 1].RequestBody? then messages[|messages| - 1].size else 0)
  }

  function Received(trace: seq<Action>): seq<Incoming> {
    if trace == [] then []
    else
      Received(trace[..|trace| - 1]) +
      (if trace[|trace| - 1].Receive? then [trace[|trace| - 1].message] else [])
  }

  function Sent(trace: seq<Action>): seq<Outgoing> {
    if trace == [] then []
    else
      Sent(trace[..|trace| - 1]) +
      (if trace[|trace| - 1].Send? then [trace[|trace| - 1].sent] else [])
  }

  /** The trace up to the message that goes past the limit. */
  function UpToLimit(trace: seq<Action>, max: nat): seq<Action> {
    if trace == [] || Bytes(Received(trace)) <= max then trace
    else UpToLimit(trace[..|trace| - 1], max)
  }

  predicate Trips(trace: seq<Action>, max: nat) {
    Bytes(Received(trace)) > max
  }

  predicate HasStart(messages: seq<Outgoing>) {
    exists i :: 0 <= i < |messages| && messages[i].Start?
  }

  function Starts(messages: seq<Outgoing>): nat {
    if messages == [] then 0
    else Starts(messages[..|messages| - 1]) + (if messages[|messages| - 1].Start? then 1 else 0)
  }

  lemma BytesAdded(messages: seq<Incoming>, m: Incoming)
    ensures Bytes(messages + [m]) == Bytes(messages) + (if m.RequestBody? then m.size else 0)
  {
    assert (messages + [m])[..|messages|] == messages;
  }

  lemma StartsAdded(messages: seq<Outgoing>, m: Outgoing)
    ensures Starts(messages + [m]) == Starts(messages) + (if m.Start? then 1 else 0)
    ensures HasStart(messages + [m]) <==> HasStart(messages) || m.Start?
  {
    var all := messages + [m];
    assert all[..|messages|] == messages;
    assert all[|messages|] == m;
    if HasStart(messages) {
      var i :| 0 <= i < |messages| && messages[i].Start?;
      assert all[i].Start?;
    }
  }

  /** The whole state after a trace: transparent up to the limit, then cut off. */
  predicate Explained(trace: seq<Action>, s: State, max: nat) {
    var seen := UpToLimit(trace, max);
    && s.over == Trips(trace, max)
    && (!s.over ==> s.total == Bytes(Received(trace)) && s.delivered == Received(trace))
    && Bytes(s.delivered) <= max
    && s.taken == |Received(seen)| + (if s.over then 1 else 0)
    && s.started == HasStart(Sent(seen))
    && s.wire == if s.over && !HasStart(Sent(seen)) then Sent(seen) else Sent(trace)
  }

  lemma OneMore(trace: seq<Action>, a: Action, max: nat)
    ensures var all := trace + [a];
            && Received(all) == Received(trace) + (if a.Receive? then [a.message] else [])
            && Sent(all) == Sent(trace) + (if a.Send? then [a.sent] else [])
            && Bytes(Received(all))
               == Bytes(Received(trace)) + (if a.Receive? && a.message.RequestBody? then a.message.size else 0)
            && UpToLimit(all, max) == (if Trips(all, max) then UpToLimit(trace, max) else all)
            && (!Trips(trace, max) ==> UpToLimit(trace, max) == trace)
  {
    assert (trace + [a])[..|trace|] == trace;
    if a.Receive? { BytesAdded(Received(trace), a.message); } else { assert Received(trace) + [] == Received(trace); }
  }

  lemma ExplainedReceive(trace: seq<Action>, s: State, message: Incoming, max: nat)
    requires Explained(trace, s, max)
    ensures Explained(trace + [Receive(message)], Receiving(s, message, max), max)
  {
    OneMore(trace, Receive(message), max);
    BytesAdded(s.delivered, Disconnect);
    BytesAdded(s.delivered, message);
    assert Sent(trace) + [] == Sent(trace);
  }

  lemma ExplainedSend(trace: seq<Action>, s: State, message: Outgoing, max: nat)
    requires Explained(trace, s, max)
    ensures Explained(trace + [Send(message)], Sending(s, message), max)
  {
    OneMore(trace, Send(message), max);
    StartsAdded(Sent(trace), message);
    assert Received(trace) + [] == Received(trace);
  }

  lemma {:induction false} ActsExplained(trace: seq<Action>, max: nat)
    ensures Explained(trace, Acts(FRESH, trace, max), max)
  {
    if trace == [] {
      assert !HasStart(Sent(trace));
    } else {
      var front, a := trace[..|trace| - 1], trace[|trace| - 1];
      ActsExplained(front, max);
      assert trace == front + [a];
      match a
      case Receive(message) => ExplainedReceive(front, Acts(FRESH, front, max), message, max);
      case Send(message) => ExplainedSend(front, Acts(FRESH, front, max), message, max);
    }
  }

  // ----- main results -----

  /** The application never gets more than the limit, and once it is passed nothing more is
      taken from the server. */
  lemma NeverPastTheLimit(trace: seq<Action>, max: nat)
    ensures var s := Acts(FRESH, trace, max);
            && Bytes(s.delivered) <= max
            && (s.over <==> Trips(trace, max))
            && s.taken == |Received(UpToLimit(trace, max))| + (if Trips(trace, max) then 1 else 0)
  {
    ActsExplained(trace, max);
  }

  /** What the application gets in place of what it asked for. */
  predicate CutOff(asked: seq<Incoming>, got: seq<Incoming>, max: nat) {
    && |got| == |asked|
    && forall i :: 0 <= i < |asked| ==> got[i] == if Bytes(asked[..i + 1]) <= max then asked[i] else Disconnect
  }

  lemma CutOffOn(asked: seq<Incoming>, got: seq<Incoming>, m: Incoming, max: nat)
    requires CutOff(asked, got, max)
    ensures CutOff(asked + [m], got + [if Bytes(asked + [m]) <= max then m else Disconnect], max)
  {
    var all := asked + [m];
    assert all[..|all|] == all;
    forall i | 0 <= i < |asked| ensures all[i] == asked[i] && Bytes(all[..i + 1]) == Bytes(asked[..i + 1]) {
      assert all[..i + 1] == asked[..i + 1];
    }
  }

  lemma DeliveredOn(trace: seq<Action>, s: State, a: Action, max: nat)
    requires Explained(trace, s, max) && CutOff(Received(trace), s.delivered, max)
    ensures CutOff(Received(trace + [a]), Act(s, a, max).delivered, max)
  {
    OneMore(trace, a, max);
    match a
    case Receive(message) =>
      BytesAdded(Received(trace), message);
      CutOffOn(Received(trace), s.delivered, message, max);
    case Send(_) => assert Received(trace) + [] == Received(trace);
  }

  /** The application gets each message it asks for, as long as all so far are within the limit, and
      a disconnect in place of every later one. */
  lemma {:induction false} DeliveredExactly(trace: seq<Action>, max: nat)
    ensures CutOff(Received(trace), Acts(FRESH, trace, max).delivered, max)
  {
    if trace != [] {
      var front, a := trace[..|trace| - 1], trace[|trace| - 1];
      DeliveredExactly(front, max);
      ActsExplained(front, max);
      assert trace == front + [a];
      DeliveredOn(front, Acts(FRESH, front, max), a, max);
    }
  }

  /** Within the limit the middleware is transparent. */
  lemma TransparentWithinLimit(declared: Option<int>, trace: seq<Action>, raises: bool, max: nat)
    requires !Trips(trace, max) && (declared.Some? ==> declared.value <= max)
    ensures Handle(declared, trace, raises, max) == Result(Sent(trace), true, raises)
    ensures Acts(FRESH, trace, max).delivered == Received(trace)
  {
    ActsExplained(trace, max);
  }

  /** Past the limit before a response started: what was sent by then, one 413, no exception. */
  lemma RejectedBeforeStart(declared: Option<int>, trace: seq<Action>, raises: bool, max: nat)
    requires Trips(trace, max) && !HasStart(Sent(UpToLimit(trace, max))) && (declared.Some? ==> declared.value <= max)
    ensures Handle(declared, trace, raises, max) == Result(Sent(UpToLimit(trace, max)) + TOO_LARGE, true, false)
  {
    ActsExplained(trace, max);
  }

  /** Past the limit after a response started: the response goes out as sent, no exception. */
  lemma KeptAfterStart(declared: Option<int>, trace: seq<Action>, raises: bool, max: nat)
    requires Trips(trace, max) && HasStart(Sent(UpToLimit(trace, max))) && (declared.Some? ==> declared.value <= max)
    ensures Handle(declared, trace, raises, max) == Result(Sent(trace), true, false)
  {
    ActsExplained(trace, max);
  }

  /** A request declared too large is answered 413, and the application never sees it; any other is
      handed to it. */
  lemma DeclaredTooLarge(declared: Option<int>, trace: seq<Action>, raises: bool, max: nat)
    ensures var result := Handle(declared, trace, raises, max);
            && (result.ran <==> declared.None? || declared.value <= max)
            && (!result.ran ==>
                  !result.raised
                  && result.wire == [Start(413), Body("{\"error\": \"request body too large\"}")])
  {
  }

  /** An application keeps to the protocol when nothing goes out before its only start. */
  predicate KeepsProtocol(trace: seq<Action>) {
    Starts(Sent(trace)) <= 1 && (Sent(trace) != [] ==> Sent(trace)[0].Start?)
  }

  lemma {:induction false} SentUpToLimit(trace: seq<Action>, max: nat)
    ensures Sent(UpToLimit(trace, max)) <= Sent(trace)
  {
    if trace != [] && Trips(trace, max) {
      SentUpToLimit(trace[..|trace| - 1], max);
    }
  }

  lemma NoEarlySend(early: seq<Outgoing>, sent: seq<Outgoing>)
    requires early <= sent && (sent != [] ==> sent[0].Start?)
    ensures HasStart(early) || early == []
  {
    if early != [] { assert early[0] == sent[0]; }
  }

  /** Under a protocol-keeping application the wire is exactly one 413, if the request is declared too
      large or goes past the limit before a response started, and else exactly what was sent; there
      is never a second start. */
  lemma OneResponse(declared: Option<int>, trace: seq<Action>, raises: bool, max: nat)
    requires KeepsProtocol(trace)
    ensures var wire := Handle(declared, trace, raises, max).wire;
            && wire == (if (declared.Some? && declared.value > max)
                           || (Trips(trace, max) && !HasStart(Sent(UpToLimit(trace, max))))
                        then [Start(413), Body("{\"error\": \"request body too large\"}")]
                        else Sent(trace))
            && Starts(wire) <= 1
  {
    var early := Sent(UpToLimit(trace, max));
    TooLargeStartsOnce();
    if declared.Some? && declared.value > max {
    } else if !Trips(trace, max) {
      TransparentWithinLimit(declared, trace, raises, max);
    } else if HasStart(early) {
      KeptAfterStart(declared, trace, raises, max);
    } else {
      RejectedBeforeStart(declared, trace, raises, max);
      SentUpToLimit(trace, max);
      NoEarlySend(early, Sent(trace));
      assert early + TOO_LARGE == TOO_LARGE;
    }
  }

  lemma TooLargeStartsOnce()
    ensures Starts(TOO_LARGE) == 1
  {
    StartsAdded([], TOO_LARGE[0]);
    StartsAdded([TOO_LARGE[0]], TOO_LARGE[1]);
    assert TOO_LARGE == [TOO_LARGE[0]] + [TOO_LARGE[1]];
    assert [] + [TOO_LARGE[0]] == [TOO_LARGE[0]];
  }
}
