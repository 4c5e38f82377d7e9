/**
 The allocator of log-stream slots: two caps, leases that expire, release callbacks that may be
 called again or late.

 The class keeps the live leases and throws expired ones away when a slot is next asked for.
 `LazyIsEager` compares it, over whole traces, with a ledger that keeps every unreleased lease
 and looks only at those not yet expired; `DecidedExactly` and `LedgerExactly` say whose streams
 a cap counts, `CapsHold` and `ReleasedStaysReleased` are the other promises over traces.
 */
module StreamSlots {
  import opened Prelude

  datatype Lease = Lease(key: string, client: string, started: real)

  datatype Limits = Limits(perKey: nat, perClient: nat, maxAge: real)

  datatype Grant = Granted(id: nat) | AgentFull | ClientFull

  /** The live leases by id, and the next id. */
  datatype Slots = Slots(leases: map<nat, Lease>, next: nat)

  const EMPTY := Slots(map[], 1)

  predicate Expired(lease: Lease, now: real, limits: Limits) {
    now - lease.started > limits.maxAge
  }

  predicate Matches(lease: Lease, key: string, client: Option<string>) {
    lease.key == key && (client.None? || lease.client == client.value)
  }

  function Matching(leases: map<nat, Lease>, key: string, client: Option<string>): set<nat> {
    set id | id in leases && Matches(leases[id], key, client)
  }

  function Open(leases: map<nat, Lease>, key: string, client: Option<string>): nat {
    |Matching(leases, key, client)|
  }

  function Live(leases: map<nat, Lease>, now: real, limits: Limits): map<nat, Lease> {
    map id | id in leases && !Expired(leases[id], now, limits) :: leases[id]
  }

  function Acquire(s: Slots, key: string, client: string, now: real, limits: Limits): (Slots, Grant) {
    var live := Live(s.leases, now, limits);
    if Open(live, key, None) >= limits.perKey then (Slots(live, s.next), AgentFull)
    else if Open(live, key, Some(client)) >= limits.perClient then (Slots(live, s.next), ClientFull)
    else (Slots(live[s.next := Lease(key, client, now)], s.next + 1), Granted(s.next))
  }

  function Release(s: Slots, id: nat): Slots {
    s.(leases := s.leases - {id})
  }

  lemma MatchingIs(leases: map<nat, Lease>, key: string, client: Option<string>)
    ensures Matching(leases, key, client)
         == set id | id in leases && leases[id].key == key && (client.None? || leases[id].client == client.value)
  {
  }

  lemma OneCounted(matching: set<nat>, ids: set<nat>, id: nat)
    requires id in ids
    ensures |matching - (ids - {id})| == |matching - ids| + (if id in matching then 1 else 0)
  {
    assert matching - (ids - {id}) == if id in matching then (matching - ids) + {id} else matching - ids;
  }

  class StreamSlotTable {
    const limits: Limits
    var leases: map<nat, Lease>
    var next: nat

    ghost function View(): Slots
      reads this
    {
      Slots(leases, next)
    }

    constructor (limits: Limits)
      ensures this.limits == limits && View() == EMPTY
    {
      this.limits := limits;
      leases := map[];
      next := 1;
    }

    method EvictExpired(now: real)
      modifies this`leases
      ensures leases == Live(old(leases), now, limits)
    {
      ghost var before := leases;
      var ids := leases.Keys;
      while ids != {}
        invariant ids <= leases.Keys <= before.Keys
        invariant forall id :: id in leases ==> leases[id] == before[id]
        invariant forall id :: id in leases && id !in ids ==> !Expired(before[id], now, limits)
        invariant forall id :: id in before && id !in leases ==> Expired(before[id], now, limits)
        decreases ids
      {
        var id :| id in ids;
        if now - leases[id].started > limits.maxAge { leases := leases - {id}; }
        ids := ids - {id};
      }
    }

    method CountOpen(key: string, client: Option<string>) returns (count: nat)
      ensures count == |set id | id in leases && leases[id].key == key
                             && (client.None? || leases[id].client == client.value)|
    {
      MatchingIs(leases, key, client);
      count := 0;
      var ids := leases.Keys;
      assert Matching(leases, key, client) - ids == {};
      while ids != {}
        invariant ids <= leases.Keys
        invariant count == |Matching(leases, key, client) - ids|
        decreases ids
      {
        var id :| id in ids;
        OneCounted(Matching(leases, key, client), ids, id);
        if leases[id].key == key && (client.None? || leases[id].client == client.value) {
          count := count + 1;
        }
        ids := ids - {id};
      }
      assert Matching(leases, key, client) - {} == Matching(leases, key, client);
    }

    method AcquireSlot(key: string, client: string, now: real) returns (grant: Grant)
      modifies this
      ensures (View(), grant) == Acquire(old(View()), key, client, now, limits)
    {
      EvictExpired(now);
      MatchingIs(leases, key, None);
      MatchingIs(leases, key, Some(client));
      var open := CountOpen(key, None);
      if open >= limits.perKey { return AgentFull; }
      open := CountOpen(key, Some(client));
      if open >= limits.perClient { return ClientFull; }
      grant := Granted(next);
      leases := leases[next := Lease(key, client, now)];
      next := next + 1;
    }

    /** The release callback of a grant. */
    method ReleaseSlot(id: nat)
      modifies this`leases
      ensures View() == Release(old(View()), id)
    {
      leases := leases - {id};
    }
  }

  // ----- traces -----

  datatype Op = Ask(key: string, client: string, now: real) | GiveBack(id: nat)

  function Step(s: Slots, op: Op, limits: Limits): Slots {
    match op
    case Ask(key, client, now) => Acquire(s, key, client, now, limits).0
    case GiveBack(id) => Release(s, id)
  }

  function After(ops: seq<Op>, limits: Limits): Slots {
    if ops == [] then EMPTY else Step(After(ops[..|ops| - 1], limits), ops[|ops| - 1], limits)
  }

  /** The clock read by the requests never goes back. */
  predicate Monotone(ops: seq<Op>) {
    forall i, j :: 0 <= i < j < |ops| && ops[i].Ask? && ops[j].Ask? ==> ops[i].now <= ops[j].now
  }

  /** The eager specification: every grant not given back, whatever its age. */
  function Ledger(ops: seq<Op>, limits: Limits): Slots {
    if ops == [] then EMPTY
    else
      var s, op := Ledger(ops[..|ops| - 1], limits), ops[|ops| - 1];
      match op
      case GiveBack(id) => s.(leases := s.leases - {id})
      case Ask(key, client, now) =>
        if EagerDecision(s, key, client, now, limits).Granted? then
          Slots(s.leases[s.next := Lease(key, client, now)], s.next + 1)
        else s
  }

  /** The leases of age at most the limit. */
  function Counted(leases: map<nat, Lease>, now: real, limits: Limits): map<nat, Lease> {
    map id | id in leases && now <= leases[id].started + limits.maxAge :: leases[id]
  }

  lemma CountedIsLive(leases: map<nat, Lease>, now: real, limits: Limits)
    ensures Counted(leases, now, limits) == Live(leases, now, limits)
  {
  }

  /** Decides on the unreleased leases of age at most the limit. */
  function EagerDecision(s: Slots, key: string, client: string, now: real, limits: Limits): Grant {
    var live := Counted(s.leases, now, limits);
    if Open(live, key, None) >= limits.perKey then AgentFull
    else if Open(live, key, Some(client)) >= limits.perClient then ClientFull
    else Granted(s.next)
  }

  predicate LaterThan(ops: seq<Op>, now: real) {
    forall i :: 0 <= i < |ops| && ops[i].Ask? ==> ops[i].now <= now
  }

  /** From any time on that no request preceded, the table and the ledger have the same live leases. */
  lemma {:induction false} SameLive(ops: seq<Op>, now: real, limits: Limits)
    requires Monotone(ops) && LaterThan(ops, now)
    ensures Live(After(ops, limits).leases, now, limits) == Live(Ledger(ops, limits).leases, now, limits)
    ensures After(ops, limits).next == Ledger(ops, limits).next
  {
    if ops == [] {
    } else {
      var front, op := ops[..|ops| - 1], ops[|ops| - 1];
      match op
      case GiveBack(id) =>
        SameLive(front, now, limits);
        var a, b := After(front, limits).leases, Ledger(front, limits).leases;
        LiveWithout(a, id, now, limits);
        LiveWithout(b, id, now, limits);
      case Ask(key, client, then_) =>
        assert LaterThan(front, then_) by {
          forall i | 0 <= i < |front| && front[i].Ask? ensures front[i].now <= then_ {
            assert ops[i].now <= ops[|ops| - 1].now;
          }
        }
        assert LaterThan(front, now);
        SameLive(front, then_, limits);
        SameLive(front, now, limits);
        LiveTwice(After(front, limits).leases, then_, now, limits);
        CountedIsLive(Ledger(front, limits).leases, then_, limits);
        var table, ledger, lease := After(front, limits), Ledger(front, limits), Lease(key, client, then_);
        LiveWith(Live(table.leases, then_, limits), table.next, lease, now, limits);
        LiveWith(ledger.leases, ledger.next, lease, now, limits);
    }
  }

  lemma LiveWithout(leases: map<nat, Lease>, id: nat, now: real, limits: Limits)
    ensures Live(leases - {id}, now, limits) == Live(leases, now, limits) - {id}
  {
  }

  lemma LiveTwice(leases: map<nat, Lease>, earlier: real, now: real, limits: Limits)
    requires earlier <= now
    ensures Live(Live(leases, earlier, limits), now, limits) == Live(leases, now, limits)
  {
  }

  lemma LiveWith(leases: map<nat, Lease>, id: nat, lease: Lease, now: real, limits: Limits)
    ensures Live(leases[id := lease], now, limits)
         == if Expired(lease, now, limits) then Live(leases, now, limits) - {id}
            else Live(leases, now, limits)[id := lease]
  {
  }

  /** Every request is decided as the ledger decides it. */
  lemma LazyIsEager(ops: seq<Op>, key: string, client: string, now: real, limits: Limits)
    requires Monotone(ops + [Ask(key, client, now)])
    ensures Acquire(After(ops, limits), key, client, now, limits).1
         == EagerDecision(Ledger(ops, limits), key, client, now, limits)
  {
    var all := ops + [Ask(key, client, now)];
    assert forall i :: 0 <= i < |ops| ==> all[i] == ops[i];
    assert Monotone(ops) by {
      forall i, j | 0 <= i < j < |ops| && ops[i].Ask? && ops[j].Ask? ensures ops[i].now <= ops[j].now {
        assert all[i].now <= all[j].now;
      }
    }
    assert LaterThan(ops, now) by {
      forall i | 0 <= i < |ops| && ops[i].Ask? ensures ops[i].now <= now {
        assert all[i].now <= all[|ops|].now;
      }
    }
    SameLive(ops, now, limits);
    CountedIsLive(Ledger(ops, limits).leases, now, limits);
  }

  // ----- caps -----

  function Cap(limits: Limits, client: Option<string>): nat {
    if client.None? then limits.perKey else limits.perClient
  }

  ghost predicate WithinCaps(leases: map<nat, Lease>, limits: Limits) {
    forall key: string, client: Option<string> :: Open(leases, key, client) <= Cap(limits, client)
  }

  lemma OpenShrinks(small: map<nat, Lease>, big: map<nat, Lease>, key: string, client: Option<string>)
    requires forall id :: id in small ==> id in big && small[id] == big[id]
    ensures Open(small, key, client) <= Open(big, key, client)
  {
    assert Matching(small, key, client) <= Matching(big, key, client);
    SubsetSize(Matching(small, key, client), Matching(big, key, client));
  }

  lemma SubsetSize(a: set<nat>, b: set<nat>)
    requires a <= b
    ensures |a| <= |b|
  {
    assert b == a + (b - a);
  }

  lemma OpenGrows(leases: map<nat, Lease>, id: nat, lease: Lease, key: string, client: Option<string>)
    requires id !in leases
    ensures Open(leases[id := lease], key, client)
         == Open(leases, key, client) + (if Matches(lease, key, client) then 1 else 0)
  {
    var before, after := Matching(leases, key, client), Matching(leases[id := lease], key, client);
    assert after == if Matches(lease, key, client) then before + {id} else before;
  }

  predicate IdsBelow(s: Slots) {
    forall id :: id in s.leases ==> id < s.next
  }

  lemma CapsStep(s: Slots, op: Op, limits: Limits)
    requires WithinCaps(s.leases, limits) && IdsBelow(s)
    ensures WithinCaps(Step(s, op, limits).leases, limits) && IdsBelow(Step(s, op, limits))
    ensures Step(s, op, limits).next >= s.next
  {
    var t := Step(s, op, limits);
    forall key: string, client: Option<string> ensures Open(t.leases, key, client) <= Cap(limits, client) {
      match op
      case GiveBack(id) =>
        OpenShrinks(t.leases, s.leases, key, client);
      case Ask(k, c, now) =>
        var live := Live(s.leases, now, limits);
        OpenShrinks(live, s.leases, key, client);
        OpenGrows(live, s.next, Lease(k, c, now), key, client);
    }
  }

  lemma {:induction false} HoldsAfter(ops: seq<Op>, limits: Limits)
    ensures WithinCaps(After(ops, limits).leases, limits)
    ensures IdsBelow(After(ops, limits))
  {
    if ops == [] {
      forall key: string, client: Option<string> ensures Open(EMPTY.leases, key, client) <= Cap(limits, client) {
        assert Matching(EMPTY.leases, key, client) == {};
      }
    } else {
      HoldsAfter(ops[..|ops| - 1], limits);
      CapsStep(After(ops[..|ops| - 1], limits), ops[|ops| - 1], limits);
    }
  }

  lemma OpenOfAgent(leases: map<nat, Lease>, key: string)
    ensures Open(leases, key, None) == |set id | id in leases && leases[id].key == key|
  {
    assert Matching(leases, key, None) == set id | id in leases && leases[id].key == key;
  }

  lemma OpenOfClient(leases: map<nat, Lease>, key: string, client: string)
    ensures Open(leases, key, Some(client))
         == |set id | id in leases && leases[id].key == key && leases[id].client == client|
  {
    assert Matching(leases, key, Some(client))
        == set id | id in leases && leases[id].key == key && leases[id].client == client;
  }

  /** After every trace, whatever its clock, no agent has more open streams than its cap, and no
      client more of an agent's than its own. */
  lemma CapsHold(ops: seq<Op>, key: string, client: string, limits: Limits)
    ensures var held := After(ops, limits).leases;
            && |set id | id in held && held[id].key == key| <= limits.perKey
            && |set id | id in held && held[id].key == key && held[id].client == client| <= limits.perClient
  {
    HoldsAfter(ops, limits);
    var held := After(ops, limits).leases;
    assert Open(held, key, None) <= limits.perKey && Open(held, key, Some(client)) <= limits.perClient;
    OpenOfAgent(held, key);
    OpenOfClient(held, key, client);
  }

  // ----- whose streams a cap counts -----

  /** A request is refused for its agent exactly if as many streams of that agent, granted, not
      given back and not too old, are open as the cap allows, and otherwise for its client exactly
      if as many of them are that client's as the client's cap allows. */
  lemma DecidedExactly(ops: seq<Op>, key: string, client: string, now: real, limits: Limits)
    requires Monotone(ops + [Ask(key, client, now)])
    ensures var grant, s := Acquire(After(ops, limits), key, client, now, limits).1, Ledger(ops, limits);
            var ofAgent := set id | id in s.leases && s.leases[id].key == key
                                 && now <= s.leases[id].started + limits.maxAge;
            var ofClient := set id | id in s.leases && s.leases[id].key == key && s.leases[id].client == client
                                  && now <= s.leases[id].started + limits.maxAge;
            && (grant.AgentFull? <==> |ofAgent| >= limits.perKey)
            && (grant.ClientFull? <==> |ofAgent| < limits.perKey && |ofClient| >= limits.perClient)
            && (grant.Granted? ==> grant.id == s.next)
  {
    LazyIsEager(ops, key, client, now, limits);
    var s := Ledger(ops, limits);
    var live := Counted(s.leases, now, limits);
    assert Matching(live, key, None)
        == set id | id in s.leases && s.leases[id].key == key && now <= s.leases[id].started + limits.maxAge;
    assert Matching(live, key, Some(client))
        == set id | id in s.leases && s.leases[id].key == key && s.leases[id].client == client
                  && now <= s.leases[id].started + limits.maxAge;
  }

  /** The request at `i` was granted the id. */
  predicate GrantedAt(ops: seq<Op>, i: nat, id: nat, limits: Limits)
    requires i < |ops|
  {
    ops[i].Ask? && Acquire(After(ops[..i], limits), ops[i].key, ops[i].client, ops[i].now, limits).1 == Granted(id)
  }

  predicate NotGivenBack(ops: seq<Op>, i: nat, id: nat) {
    forall j :: i < j < |ops| ==> ops[j] != GiveBack(id)
  }

  lemma GrantedBefore(front: seq<Op>, op: Op, i: nat, id: nat, limits: Limits)
    requires i < |front|
    ensures GrantedAt(front + [op], i, id, limits) <==> GrantedAt(front, i, id, limits)
    ensures NotGivenBack(front + [op], i, id) <==> NotGivenBack(front, i, id) && op != GiveBack(id)
  {
    var ops := front + [op];
    assert ops[..i] == front[..i];
    if NotGivenBack(ops, i, id) {
      assert ops[|front|] == op;
      forall j | i < j < |front| ensures front[j] != GiveBack(id) { assert ops[j] == front[j]; }
    }
  }

  lemma {:induction false} GrantedIsBelow(ops: seq<Op>, i: nat, id: nat, limits: Limits)
    requires i < |ops| && GrantedAt(ops, i, id, limits)
    ensures id < After(ops, limits).next
  {
    var n := |ops| - 1;
    assert ops == ops[..n] + [ops[n]];
    HoldsAfter(ops[..n], limits);
    CapsStep(After(ops[..n], limits), ops[n], limits);
    if i < n {
      GrantedBefore(ops[..n], ops[n], i, id, limits);
      GrantedIsBelow(ops[..n], i, id, limits);
    }
  }

  lemma MonotoneFront(ops: seq<Op>)
    requires Monotone(ops) && ops != []
    ensures Monotone(ops[..|ops| - 1])
  {
    var front := ops[..|ops| - 1];
    forall i, j | 0 <= i < j < |front| && front[i].Ask? && front[j].Ask? ensures front[i].now <= front[j].now {
      assert ops[i].now <= ops[j].now;
    }
  }

  lemma {:induction false} HeldIsGranted(ops: seq<Op>, id: nat, limits: Limits) returns (i: nat)
    requires Monotone(ops) && id in Ledger(ops, limits).leases
    ensures i < |ops| && GrantedAt(ops, i, id, limits) && NotGivenBack(ops, i, id)
  {
    var n := |ops| - 1;
    var front, op := ops[..n], ops[n];
    assert ops == front + [op];
    MonotoneFront(ops);
    if id in Ledger(front, limits).leases && op != GiveBack(id) {
      i := HeldIsGranted(front, id, limits);
      GrantedBefore(front, op, i, id, limits);
    } else {
      i := n;
      LazyIsEager(front, op.key, op.client, op.now, limits);
    }
  }

  lemma {:induction false} GrantedIsHeld(ops: seq<Op>, i: nat, id: nat, limits: Limits)
    requires Monotone(ops) && i < |ops| && GrantedAt(ops, i, id, limits) && NotGivenBack(ops, i, id)
    ensures id in Ledger(ops, limits).leases
    ensures Ledger(ops, limits).leases[id] == Lease(ops[i].key, ops[i].client, ops[i].now)
  {
    var n := |ops| - 1;
    var front, op := ops[..n], ops[n];
    assert ops == front + [op];
    MonotoneFront(ops);
    if op.Ask? { LazyIsEager(front, op.key, op.client, op.now, limits); }
    if i < n {
      GrantedBefore(front, op, i, id, limits);
      GrantedIsHeld(front, i, id, limits);
      GrantedIsBelow(front, i, id, limits);
    }
  }

  /** What the ledger holds: the ids granted by some request and not given back since, each with the
      agent, the client and the time of its request. */
  lemma LedgerExactly(ops: seq<Op>, id: nat, limits: Limits)
    requires Monotone(ops)
    ensures id in Ledger(ops, limits).leases
       <==> exists i :: 0 <= i < |ops| && GrantedAt(ops, i, id, limits) && NotGivenBack(ops, i, id)
    ensures forall i :: 0 <= i < |ops| && GrantedAt(ops, i, id, limits) && NotGivenBack(ops, i, id) ==>
              id in Ledger(ops, limits).leases
              && Ledger(ops, limits).leases[id] == Lease(ops[i].key, ops[i].client, ops[i].now)
  {
    if id in Ledger(ops, limits).leases { var i := HeldIsGranted(ops, id, limits); }
    forall i | 0 <= i < |ops| && GrantedAt(ops, i, id, limits) && NotGivenBack(ops, i, id)
      ensures id in Ledger(ops, limits).leases
      ensures Ledger(ops, limits).leases[id] == Lease(ops[i].key, ops[i].client, ops[i].now)
    {
      GrantedIsHeld(ops, i, id, limits);
    }
  }

  predicate SameOfAgent(a: map<nat, Lease>, b: map<nat, Lease>, key: string) {
    && (forall id :: id in a && a[id].key == key ==> id in b && b[id] == a[id])
    && (forall id :: id in b && b[id].key == key ==> id in a && a[id] == b[id])
  }

  /** Streams of other agents change no decision. */
  lemma OtherAgentsDoNotCount(s: Slots, t: Slots, key: string, client: string, now: real, limits: Limits)
    requires SameOfAgent(s.leases, t.leases, key) && s.next == t.next
    ensures Acquire(s, key, client, now, limits).1 == Acquire(t, key, client, now, limits).1
  {
    var a, b := Live(s.leases, now, limits), Live(t.leases, now, limits);
    assert Matching(a, key, None) == Matching(b, key, None);
    assert Matching(a, key, Some(client)) == Matching(b, key, Some(client));
  }

  predicate SameOfClient(a: map<nat, Lease>, b: map<nat, Lease>, key: string, client: string) {
    && (forall id :: id in a && a[id].key == key && a[id].client == client ==> id in b && b[id] == a[id])
    && (forall id :: id in b && b[id].key == key && b[id].client == client ==> id in a && a[id] == b[id])
  }

  /** Streams of other clients leave the client's own test as it is: only the agent's cap, where it is
      reached, can tell the two tables apart. */
  lemma OtherClientsFillOnlyTheAgent(s: Slots, t: Slots, key: string, client: string, now: real, limits: Limits)
    requires SameOfClient(s.leases, t.leases, key, client) && s.next == t.next
    ensures var a, b := Acquire(s, key, client, now, limits).1, Acquire(t, key, client, now, limits).1;
            a == b || a.AgentFull? || b.AgentFull?
  {
    var a, b := Live(s.leases, now, limits), Live(t.leases, now, limits);
    assert Matching(a, key, Some(client)) == Matching(b, key, Some(client));
  }

  // ----- releases -----

  lemma IdStep(s: Slots, op: Op, id: nat, limits: Limits)
    requires id < s.next
    ensures id < Step(s, op, limits).next
    ensures id !in s.leases ==> id !in Step(s, op, limits).leases
  {
  }

  /** An id below the next one that is not held is never held again. */
  lemma {:induction false} IdsAreNotReused(ops: seq<Op>, more: seq<Op>, id: nat, limits: Limits)
    requires id < After(ops, limits).next && id !in After(ops, limits).leases
    ensures id < After(ops + more, limits).next && id !in After(ops + more, limits).leases
    decreases |more|
  {
    if more == [] {
      assert ops + more == ops;
    } else {
      var n := |more| - 1;
      assert (ops + more)[..|ops + more| - 1] == ops + more[..n];
      IdsAreNotReused(ops, more[..n], id, limits);
      IdStep(After(ops + more[..n], limits), more[n], id, limits);
    }
  }

  /** After the first release of a granted id, every later call of the same callback changes
      nothing: repeated, or after any other traffic, it frees no one else's lease. */
  lemma ReleasedStaysReleased(ops: seq<Op>, more: seq<Op>, id: nat, limits: Limits)
    requires id < After(ops, limits).next
    ensures var s := After(ops + [GiveBack(id)] + more, limits);
            Release(s, id) == s
  {
    var released := ops + [GiveBack(id)];
    assert released[..|released| - 1] == ops;
    IdsAreNotReused(released, more, id, limits);
    var s := After(released + more, limits);
    assert s.leases - {id} == s.leases;
  }

  /** Whatever happened since the grant, the id of its callback names its own lease or nothing. */
  lemma {:induction false} ReleaseFreesOnlyItsOwn(ops: seq<Op>, key: string, client: string, now: real,
                                                      more: seq<Op>, id: nat, limits: Limits)
    requires Acquire(After(ops, limits), key, client, now, limits).1 == Granted(id)
    ensures var s := After(ops + [Ask(key, client, now)] + more, limits);
            id in s.leases ==> s.leases[id] == Lease(key, client, now)
    decreases |more|
  {
    var granted := ops + [Ask(key, client, now)];
    if more == [] {
      assert granted + more == granted && granted[..|granted| - 1] == ops;
    } else {
      var n := |more| - 1;
      assert (granted + more)[..|granted + more| - 1] == granted + more[..n];
      ReleaseFreesOnlyItsOwn(ops, key, client, now, more[..n], id, limits);
      GrantedBelowNext(ops, key, client, now, more[..n], id, limits);
    }
  }

  lemma {:induction false} GrantedBelowNext(ops: seq<Op>, key: string, client: string, now: real,
                                                      more: seq<Op>, id: nat, limits: Limits)
    requires Acquire(After(ops, limits), key, client, now, limits).1 == Granted(id)
    ensures id < After(ops + [Ask(key, client, now)] + more, limits).next
    decreases |more|
  {
    var granted := ops + [Ask(key, client, now)];
    if more == [] {
      assert granted + more == granted && granted[..|granted| - 1] == ops;
    } else {
      var n := |more| - 1;
      assert (granted + more)[..|granted + more| - 1] == granted + more[..n];
      GrantedBelowNext(ops, key, client, now, more[..n], id, limits);
      IdStep(After(granted + more[..n], limits), more[n], id, limits);
    }
  }
}
