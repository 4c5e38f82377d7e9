/**
 One log-stream connection and its slot. The relay may never be started; if it is, it gives the
 slot back when it finishes or is closed. When the response ends it closes the relay and gives the
 slot back itself. Other connections use the slots meanwhile.
 */
module Connection {
  import opened Prelude
  import opened StreamSlots
  import Relay

  /** The relay if it was started, whether the response has ended, the calls of the callback, and
      the slots of all connections. */
  datatype Session = Session(relay: Option<Relay.State>, ended: bool, calls: nat, slots: Slots)

  datatype Happening = Start | Relays(event: Relay.Event) | End | Other(op: Op)

  function Begun(slots: Slots): Session {
    Session(None, false, 0, slots)
  }

  /** One call of the release callback. */
  function Called(s: Session, id: nat): Session {
    s.(calls := s.calls + 1, slots := Release(s.slots, id))
  }

  /** Closing the relay runs its cleanup, unless it was never started or has finished. */
  function Closed(s: Session, id: nat): Session {
    match s.relay
    case None => s
    case Some(r) => if r.consumer == Relay.Finished then s else Called(s.(relay := Some(Relay.Close(r))), id)
  }

  function Step(c: Relay.Config, id: nat, limits: Limits, s: Session, h: Happening): Option<Session> {
    match h
    case Start => if s.ended || s.relay.Some? then None else Some(s.(relay := Some(Relay.Init(c))))
    case Relays(event) =>
      if s.ended || s.relay.None? then None
      else (match Relay.Step(c, s.relay.value, event)
        case None => None
        case Some(t) =>
          var moved := s.(relay := Some(t));
          Some(if t.closed > s.relay.value.closed then Called(moved, id) else moved))
    case End => if s.ended then None else Some(Called(Closed(s, id), id).(ended := true))
    case Other(op) => if op == GiveBack(id) then None else Some(s.(slots := StreamSlots.Step(s.slots, op, limits)))
  }

  function After(c: Relay.Config, id: nat, limits: Limits, s: Session, run: seq<Happening>): Option<Session>
    decreases |run|
  {
    if run == [] then Some(s)
    else match Step(c, id, limits, s, run[0])
      case None => None
      case Some(t) => After(c, id, limits, t, run[1..])
  }

  function RelayCalls(s: Session): nat {
    if s.relay.Some? then s.relay.value.closed else 0
  }

  predicate Sound(c: Relay.Config, id: nat, s: Session) {
    && id < s.slots.next
    && (s.relay.Some? ==> Relay.Safe(c, s.relay.value))
    && (s.relay.Some? && s.ended ==> s.relay.value.consumer == Relay.Finished)
    && s.calls == RelayCalls(s) + (if s.ended then 1 else 0)
    && (s.calls > 0 ==> id !in s.slots.leases)
  }

  lemma RelayStep(c: Relay.Config, s: Relay.State, e: Relay.Event)
    requires Relay.Safe(c, s) && Relay.Step(c, s, e).Some?
    ensures var t := Relay.Step(c, s, e).value;
            Relay.Safe(c, t) && (t.closed == s.closed || t.closed == s.closed + 1)
  {
    Relay.SafeStep(c, s, e);
  }

  lemma RelayCloses(c: Relay.Config, s: Relay.State)
    requires Relay.Safe(c, s) && s.consumer != Relay.Finished
    ensures Relay.Safe(c, Relay.Close(s)) && s.closed == 0 && Relay.Close(s).closed == 1
  {
    Relay.SafeStep(c, s, Relay.Leave);
  }

  lemma RelayInit(c: Relay.Config)
    ensures Relay.Safe(c, Relay.Init(c)) && Relay.Init(c).closed == 0
  {
    Relay.Invariant(c, [], Relay.Init(c));
  }

  lemma SoundStep(c: Relay.Config, id: nat, limits: Limits, s: Session, h: Happening)
    requires Sound(c, id, s) && Step(c, id, limits, s, h).Some?
    ensures Sound(c, id, Step(c, id, limits, s, h).value)
  {
    match h
    case Start => RelayInit(c);
    case Relays(event) => RelayStep(c, s.relay.value, event);
    case End =>
      if s.relay.Some? && s.relay.value.consumer != Relay.Finished { RelayCloses(c, s.relay.value); }
    case Other(op) => StreamSlots.IdStep(s.slots, op, id, limits);
  }

  lemma {:induction false} SoundRun(c: Relay.Config, id: nat, limits: Limits, s: Session, run: seq<Happening>)
    requires Sound(c, id, s) && After(c, id, limits, s, run).Some?
    ensures Sound(c, id, After(c, id, limits, s, run).value)
    decreases |run|
  {
    if run == [] {
    } else {
      SoundStep(c, id, limits, s, run[0]);
      SoundRun(c, id, limits, Step(c, id, limits, s, run[0]).value, run[1..]);
    }
  }

  /** At any moment of any run: the callback has run once for a finished relay and once for an ended
      response. So over a whole connection it runs exactly once if and only if the relay was never
      started, and otherwise twice. */
  lemma CalledOnceExactly(c: Relay.Config, id: nat, limits: Limits, slots: Slots, run: seq<Happening>)
    requires id < slots.next && After(c, id, limits, Begun(slots), run).Some?
    ensures var s := After(c, id, limits, Begun(slots), run).value;
            if s.ended then s.calls == (if s.relay.None? then 1 else 2)
            else s.calls == (if s.relay.Some? && s.relay.value.consumer == Relay.Finished then 1 else 0)
  {
    SoundRun(c, id, limits, Begun(slots), run);
  }

  /** From the first call on the connection holds no slot, and no further call frees anything,
      whatever the other connections did in between. */
  lemma EndedConnectionHoldsNoSlot(c: Relay.Config, id: nat, limits: Limits, slots: Slots, run: seq<Happening>)
    requires id < slots.next && After(c, id, limits, Begun(slots), run).Some?
    ensures var s := After(c, id, limits, Begun(slots), run).value;
            s.ended || s.calls > 0 ==> id !in s.slots.leases && Called(s, id).slots == s.slots
  {
    SoundRun(c, id, limits, Begun(slots), run);
    var s := After(c, id, limits, Begun(slots), run).value;
    if s.ended || s.calls > 0 {
      assert s.slots.leases - {id} == s.slots.leases;
    }
  }

  /** A client that was gone before the first frame: one call. A relay that was started: two. */
  lemma OneCallAndTwo(c: Relay.Config, id: nat, limits: Limits, slots: Slots)
    ensures var s := After(c, id, limits, Begun(slots), [End]);
            s.Some? && s.value.ended && s.value.calls == 1
    ensures var s := After(c, id, limits, Begun(slots), [Start, End]);
            s.Some? && s.value.ended && s.value.calls == 2
  {
    assert [End][1..] == [] && [Start, End][1..] == [End];
  }
}
