/**
 One-shot registration tokens: provisioned, claimed in one transaction with the agent they
 create, expired on read.

 `RegistrationService` performs the transactions on its tables, with commit and rollback, and is
 proved against functions from a database to a database and an outcome. About traces of those:
 `ClaimedAtMostOnce`, `FinalStates`, `LinksAreExact` and `ExpiryIsInvisible`.
 A token hash is unique and stands for its token; rows are addressed by it.
 */
module Registrations {
  import opened Prelude

  datatype Status = Pending | Claimed | Expired

  datatype Registration = Registration(
    tag: string, status: Status, agent: Option<nat>, expiresAt: int, claimedAt: Option<int>)

  datatype Agent = Agent(name: string, url: string)

  datatype Db = Db(regs: map<string, Registration>, agents: map<nat, Agent>, nextAgent: nat)

  /** What the host sent; the two checks on its address are not modelled, only their outcome. */
  datatype Host = Host(name: string, safe: bool, urlValid: bool, url: string)

  datatype Op =
    | Provision(tag: string, token: string, renders: bool, ttl: int)
    | List
    | Delete(token: string)
    | ExpireStale
    | Lookup(token: string)
    | Register(token: string, host: Host)
    | AddAgent(agent: Agent)
    | RemoveAgent(id: nat)

  datatype Outcome =
    | Done
    | Rows(regs: map<string, Registration>)
    | NoLabel | NoCommand | Duplicate
    | NotFound | Gone
    | Registered(id: nat) | BadToken | BadHost | BadUrl | NameTaken

  predicate Claimable(db: Db, token: string, now: int) {
    token in db.regs && db.regs[token].status == Pending && db.regs[token].expiresAt > now
  }

  function ExpiredRow(row: Registration, now: int): Registration {
    if row.status == Pending && row.expiresAt <= now then row.(status := Expired) else row
  }

  function Expire(db: Db, now: int): Db {
    db.(regs := map token | token in db.regs :: ExpiredRow(db.regs[token], now))
  }

  predicate HasName(agents: map<nat, Agent>, name: string) {
    exists id :: id in agents && agents[id].name == name
  }

  function AgentName(tag: string, host: string): string {
    if tag != "" then tag else host
  }

  function RegisterTx(db: Db, token: string, host: Host, now: int): (Db, Outcome) {
    if !Claimable(db, token, now) then (db, BadToken)
    else if !host.safe then (db, BadHost)
    else if !host.urlValid then (db, BadUrl)
    else
      var row, id := db.regs[token], db.nextAgent;
      var agent := Agent(AgentName(row.tag, host.name), host.url);
      if HasName(db.agents, agent.name) then (db, NameTaken)
      else
        (Db(db.regs[token := row.(status := Claimed, claimedAt := Some(now), agent := Some(id))],
            db.agents[id := agent], id + 1),
         Registered(id))
  }

  function ProvisionTx(db: Db, tag: string, token: string, renders: bool, ttl: int, now: int): (Db, Outcome) {
    if tag == "" then (db, NoLabel)
    else
      var swept := Expire(db, now);
      if !renders then (swept, NoCommand)
      else if token in swept.regs then (swept, Duplicate)
      else (swept.(regs := swept.regs[token := Registration(tag, Pending, None, now + ttl, None)]), Done)
  }

  function LookupTx(db: Db, token: string, now: int): Outcome {
    if token !in db.regs then NotFound
    else if db.regs[token].status != Pending || db.regs[token].expiresAt <= now then Gone
    else Done
  }

  function Unlinked(row: Registration, id: nat): Registration {
    if row.agent == Some(id) then row.(agent := None) else row
  }

  function Apply(db: Db, op: Op, now: int): (Db, Outcome) {
    match op
    case Provision(tag, token, renders, ttl) => ProvisionTx(db, tag, token, renders, ttl, now)
    case List => (Expire(db, now), Rows(Expire(db, now).regs))
    case Delete(token) => if token in db.regs then (db.(regs := db.regs - {token}), Done) else (db, NotFound)
    case ExpireStale => (Expire(db, now), Done)
    case Lookup(token) => (db, LookupTx(db, token, now))
    case Register(token, host) => RegisterTx(db, token, host, now)
    case AddAgent(agent) =>
      if HasName(db.agents, agent.name) then (db, NameTaken)
      else (db.(agents := db.agents[db.nextAgent := agent], nextAgent := db.nextAgent + 1), Registered(db.nextAgent))
    case RemoveAgent(id) =>
      if id !in db.agents then (db, NotFound)
      else (db.(agents := db.agents - {id}, regs := map token | token in db.regs :: Unlinked(db.regs[token], id)), Done)
  }

  class RegistrationService {
    var regs: map<string, Registration>
    var agents: map<nat, Agent>
    var nextAgent: nat

    ghost function View(): Db
      reads this
    {
      Db(regs, agents, nextAgent)
    }

    method ExpirePending(now: int)
      modifies this`regs
      ensures View() == Expire(old(View()), now)
    {
      regs := map token | token in regs ::
        if regs[token].status == Pending && regs[token].expiresAt <= now then regs[token].(status := Expired)
        else regs[token];
    }

    /** Expire first, render the command before a usable token exists, then insert. */
    method NewRegistration(tag: string, token: string, renders: bool, ttl: int, now: int) returns (outcome: Outcome)
      modifies this`regs
      ensures (View(), outcome) == ProvisionTx(old(View()), tag, token, renders, ttl, now)
    {
      if tag == "" { return NoLabel; }
      ExpirePending(now);
      if !renders { return NoCommand; }
      if token in regs { return Duplicate; }
      regs := regs[token := Registration(tag, Pending, None, now + ttl, None)];
      return Done;
    }

    /** Claim, validate, insert and link, or roll everything back. */
    method Claim(token: string, host: Host, now: int) returns (outcome: Outcome)
      modifies this
      ensures (View(), outcome) == RegisterTx(old(View()), token, host, now)
    {
      var savedRegs, savedAgents, savedNext := regs, agents, nextAgent;
      if token !in regs || regs[token].status != Pending || regs[token].expiresAt <= now { return BadToken; }
      regs := regs[token := regs[token].(status := Claimed, claimedAt := Some(now))];
      var tag := regs[token].tag;
      if !host.safe {
        regs := savedRegs;
        return BadHost;
      }
      if !host.urlValid {
        regs := savedRegs;
        return BadUrl;
      }
      var name := if tag != "" then tag else host.name;
      var taken := HasName(agents, name);
      var id := nextAgent;
      agents := agents[id := Agent(name, host.url)];
      nextAgent := id + 1;
      regs := regs[token := regs[token].(agent := Some(id))];
      assert regs == savedRegs[token := regs[token]];
      if taken {
        regs, agents, nextAgent := savedRegs, savedAgents, savedNext;
        return NameTaken;
      }
      return Registered(id);
    }
  }

  // ----- traces -----

  datatype Timed = Timed(op: Op, now: int)

  const EMPTY := Db(map[], map[], 0)

  function After(db: Db, trace: seq<Timed>): Db
    decreases |trace|
  {
    if trace == [] then db else After(Apply(db, trace[0].op, trace[0].now).0, trace[1..])
  }

  /** The outcomes of everything but the expiry steps themselves. */
  function Outcomes(db: Db, trace: seq<Timed>): seq<Outcome>
    decreases |trace|
  {
    if trace == [] then []
    else
      var (next, outcome) := Apply(db, trace[0].op, trace[0].now);
      (if trace[0].op == ExpireStale then [] else [outcome]) + Outcomes(next, trace[1..])
  }

  function WithoutExpiry(trace: seq<Timed>): seq<Timed> {
    if trace == [] then []
    else (if trace[0].op == ExpireStale then [] else [trace[0]]) + WithoutExpiry(trace[1..])
  }

  predicate Monotone(from: int, trace: seq<Timed>)
    decreases |trace|
  {
    trace == [] || (from <= trace[0].now && Monotone(trace[0].now, trace[1..]))
  }

  // ----- expiry on read -----

  /** Two rows that differ at most in whether an expiry past its time has been written down. */
  predicate SameRow(a: Registration, b: Registration, now: int) {
    ExpiredRow(a, now) == ExpiredRow(b, now)
  }

  predicate Alike(a: Db, b: Db, now: int) {
    && a.regs.Keys == b.regs.Keys
    && (forall token :: token in a.regs ==> SameRow(a.regs[token], b.regs[token], now))
    && a.agents == b.agents && a.nextAgent == b.nextAgent
  }

  lemma AlikeLater(a: Db, b: Db, now: int, later: int)
    requires Alike(a, b, now) && now <= later
    ensures Alike(a, b, later)
  {
    forall token | token in a.regs ensures SameRow(a.regs[token], b.regs[token], later) {
      assert SameRow(a.regs[token], b.regs[token], now);
    }
  }

  lemma AlikeExpired(a: Db, b: Db, now: int)
    requires Alike(a, b, now)
    ensures Expire(a, now) == Expire(b, now)
  {
    forall token | token in a.regs ensures ExpiredRow(a.regs[token], now) == ExpiredRow(b.regs[token], now) {
      assert SameRow(a.regs[token], b.regs[token], now);
    }
  }

  lemma ExpiringIsAlike(db: Db, now: int)
    ensures Alike(Expire(db, now), db, now)
  {
  }

  lemma AlikeStep(a: Db, b: Db, op: Op, now: int)
    requires Alike(a, b, now)
    ensures Apply(a, op, now).1 == Apply(b, op, now).1
    ensures Alike(Apply(a, op, now).0, Apply(b, op, now).0, now)
  {
    match op
    case Register(token, host) => AlikeRegister(a, b, token, host, now);
    case RemoveAgent(id) => if id in a.agents { AlikeUnlinked(a, b, id, now); }
    case Delete(token) => assert forall t :: t in a.regs ==> SameRow(a.regs[t], b.regs[t], now);
    case Lookup(token) => if token in a.regs { assert SameRow(a.regs[token], b.regs[token], now); }
    case AddAgent(_) =>
    case _ => AlikeExpired(a, b, now);
  }

  lemma AlikeRegister(a: Db, b: Db, token: string, host: Host, now: int)
    requires Alike(a, b, now)
    ensures RegisterTx(a, token, host, now).1 == RegisterTx(b, token, host, now).1
    ensures Alike(RegisterTx(a, token, host, now).0, RegisterTx(b, token, host, now).0, now)
  {
    if token in a.regs { assert SameRow(a.regs[token], b.regs[token], now); }
    if Claimable(a, token, now) {
      assert a.regs[token] == b.regs[token];
      assert forall t :: t in a.regs ==> SameRow(a.regs[t], b.regs[t], now);
    }
  }

  lemma AlikeUnlinked(a: Db, b: Db, id: nat, now: int)
    requires Alike(a, b, now) && id in a.agents
    ensures Alike(Apply(a, RemoveAgent(id), now).0, Apply(b, RemoveAgent(id), now).0, now)
  {
    forall t | t in a.regs ensures SameRow(Unlinked(a.regs[t], id), Unlinked(b.regs[t], id), now) {
      assert SameRow(a.regs[t], b.regs[t], now);
    }
  }

  lemma {:induction false} AlikeTraces(a: Db, b: Db, trace: seq<Timed>, from: int)
    requires Alike(a, b, from) && Monotone(from, trace)
    ensures Outcomes(a, trace) == Outcomes(b, WithoutExpiry(trace))
    decreases |trace|
  {
    if trace == [] {
    } else {
      var op, now := trace[0].op, trace[0].now;
      AlikeLater(a, b, from, now);
      if op == ExpireStale {
        AlikeExpired(a, b, now);
        ExpiringIsAlike(b, now);
        AlikeTraces(Expire(a, now), b, trace[1..], now);
        assert WithoutExpiry(trace) == WithoutExpiry(trace[1..]);
      } else {
        AlikeStep(a, b, op, now);
        AlikeTraces(Apply(a, op, now).0, Apply(b, op, now).0, trace[1..], now);
        assert WithoutExpiry(trace)[1..] == WithoutExpiry(trace[1..]);
      }
    }
  }

  /** With a clock that does not go back, expiry steps anywhere in a trace change no outcome. */
  lemma ExpiryIsInvisible(db: Db, trace: seq<Timed>, from: int)
    requires Monotone(from, trace)
    ensures Outcomes(db, trace) == Outcomes(db, WithoutExpiry(trace))
  {
    AlikeTraces(db, db, trace, from);
  }

  /** The install script is served exactly when the claim would match, and a register request
      passing its other checks succeeds exactly then. */
  lemma LookupForetellsClaim(db: Db, token: string, host: Host, now: int)
    requires host.safe && host.urlValid
    requires token in db.regs ==> !HasName(db.agents, AgentName(db.regs[token].tag, host.name))
    ensures LookupTx(db, token, now) == Done <==> Claimable(db, token, now)
    ensures LookupTx(db, token, now) == Done <==> RegisterTx(db, token, host, now).1.Registered?
    ensures LookupTx(db, token, now) == NotFound <==> token !in db.regs
    ensures LookupTx(db, token, now) == Gone
       <==> token in db.regs && (db.regs[token].status != Pending || db.regs[token].expiresAt <= now)
  {
  }

  /** A provision makes exactly its own token claimable, exactly until its time is over, and only
      if the install command could be rendered; every other token stays as claimable as it was. */
  lemma ProvisionGrantsExactly(db: Db, tag: string, token: string, renders: bool, ttl: int, now: int,
                               other: string, later: int)
    requires now <= later
    ensures var (after, outcome) := ProvisionTx(db, tag, token, renders, ttl, now);
            && (outcome == Done <==> tag != "" && renders && token !in db.regs)
            && (Claimable(after, other, later) <==>
                  if outcome == Done && other == token then later < now + ttl else Claimable(db, other, later))
  {
  }

  /** What was a pending row past its time says expired, and nothing else has changed. */
  predicate OnlyExpired(before: map<string, Registration>, token: string, row: Registration, now: int)
    requires token in before
  {
    var was := before[token];
    && row.tag == was.tag && row.agent == was.agent && row.expiresAt == was.expiresAt && row.claimedAt == was.claimedAt
    && row.status == if was.status == Pending && was.expiresAt <= now then Status.Expired else was.status
  }

  /** A listing writes down every expiry, and shows a row as pending exactly if its token can be
      claimed; deleting takes away one row, if it is there. */
  lemma ListedAndDeletedExactly(db: Db, token: string, now: int)
    ensures var (after, outcome) := Apply(db, List, now);
            && outcome == Rows(after.regs) && after.regs.Keys == db.regs.Keys && after.agents == db.agents
            && (forall t :: t in db.regs ==> OnlyExpired(db.regs, t, after.regs[t], now))
            && (token in db.regs ==> (after.regs[token].status == Pending <==> Claimable(db, token, now)))
    ensures var (after, outcome) := Apply(db, Delete(token), now);
            && outcome == (if token in db.regs then Done else NotFound)
            && after.agents == db.agents && after.regs.Keys == db.regs.Keys - {token}
            && (forall t :: t in after.regs ==> after.regs[t] == db.regs[t])
  {
  }

  /** An agent that goes leaves its row claimed but linked to none; everything else stays. */
  lemma RemovedAgentIsUnlinked(db: Db, id: nat, now: int)
    ensures var (after, outcome) := Apply(db, RemoveAgent(id), now);
            && outcome == (if id in db.agents then Done else NotFound)
            && after.agents == db.agents - {id} && after.nextAgent == db.nextAgent
            && after.regs.Keys == db.regs.Keys
            && forall t :: t in db.regs ==>
                 var row, was := after.regs[t], db.regs[t];
                 && row.tag == was.tag && row.status == was.status
                 && row.expiresAt == was.expiresAt && row.claimedAt == was.claimedAt
                 && row.agent == if id in db.agents && was.agent == Some(id) then None else was.agent
  {
  }

  /** A provision is refused for want of a label, which changes nothing, or of a command, and else
      stores its label, pending until its time is over; of the other rows it writes down expiries. */
  lemma ProvisionExactly(db: Db, tag: string, token: string, renders: bool, ttl: int, now: int)
    ensures var (after, outcome) := ProvisionTx(db, tag, token, renders, ttl, now);
            && (outcome == NoLabel <==> tag == "") && (outcome == NoLabel ==> after == db)
            && (outcome == NoCommand <==> tag != "" && !renders)
            && (outcome == Duplicate <==> tag != "" && renders && token in db.regs)
            && (outcome == Done <==> tag != "" && renders && token !in db.regs)
            && after.regs.Keys == db.regs.Keys + (if outcome == Done then {token} else {})
            && after.agents == db.agents
            && (outcome == Done ==> after.regs[token] == Registration(tag, Pending, None, now + ttl, None))
            && (tag != "" ==> forall t :: t in db.regs ==> OnlyExpired(db.regs, t, after.regs[t], now))
  {
  }

  // ----- how long a token can be claimed -----

  predicate Untouched(trace: seq<Timed>, token: string) {
    forall i :: 0 <= i < |trace| ==> trace[i].op != Delete(token)
  }

  predicate Until(trace: seq<Timed>, now: int) {
    forall i :: 0 <= i < |trace| ==> trace[i].now <= now
  }

  predicate NotProvided(trace: seq<Timed>, token: string) {
    forall i :: 0 <= i < |trace| ==> !(trace[i].op.Provision? && trace[i].op.token == token)
  }

  lemma ClaimableStep(db: Db, op: Op, at: int, token: string, now: int)
    requires at <= now && !(op.Provision? && op.token == token)
    ensures var (after, outcome) := Apply(db, op, at);
            Claimable(after, token, now)
            <==> Claimable(db, token, now) && op != Delete(token)
                 && !(op.Register? && op.token == token && outcome.Registered?)
  {
  }

  lemma {:induction false} ClaimableAfter(db: Db, trace: seq<Timed>, token: string, now: int)
    requires Until(trace, now) && NotProvided(trace, token)
    ensures Claimable(After(db, trace), token, now)
       <==> Claimable(db, token, now) && Untouched(trace, token) && Claims(db, trace, token) == 0
    decreases |trace|
  {
    if trace != [] {
      var op, next := trace[0].op, Apply(db, trace[0].op, trace[0].now).0;
      ClaimableStep(db, op, trace[0].now, token, now);
      ClaimableAfter(next, trace[1..], token, now);
      assert Untouched(trace, token) <==> op != Delete(token) && Untouched(trace[1..], token) by {
        assert trace == [trace[0]] + trace[1..];
      }
    }
  }

  /** A token provisioned now can be claimed at a later time, whatever happens to other rows and
      agents in between, exactly if that is before its expiry, its row was not deleted and it was not
      claimed. */
  lemma UsableExactly(db: Db, tag: string, token: string, ttl: int, start: int, trace: seq<Timed>, now: int)
    requires ProvisionTx(db, tag, token, true, ttl, start).1 == Done && start <= now
    requires Until(trace, now) && NotProvided(trace, token)
    ensures var after := ProvisionTx(db, tag, token, true, ttl, start).0;
            LookupTx(After(after, trace), token, now) == Done
            <==> now < start + ttl && (forall i :: 0 <= i < |trace| ==> trace[i].op != Delete(token))
                 && Claims(after, trace, token) == 0
  {
    ClaimableAfter(ProvisionTx(db, tag, token, true, ttl, start).0, trace, token, now);
  }

  // ----- what one register does -----

  /** A register succeeds exactly if the token's row is pending and not past its time, the address is
      a safe host and a valid URL, and no agent has the name, the label or else the host; otherwise
      the first of these that fails is named, and nothing is changed. */
  lemma RegisterExactly(db: Db, token: string, host: Host, now: int)
    ensures var (after, outcome) := RegisterTx(db, token, host, now);
            var usable := token in db.regs && db.regs[token].status == Pending && db.regs[token].expiresAt > now;
            var name := if usable && db.regs[token].tag != "" then db.regs[token].tag else host.name;
            var taken := exists id :: id in db.agents && db.agents[id].name == name;
            && (outcome == BadToken <==> !usable)
            && (outcome == BadHost <==> usable && !host.safe)
            && (outcome == BadUrl <==> usable && host.safe && !host.urlValid)
            && (outcome == NameTaken <==> usable && host.safe && host.urlValid && taken)
            && (outcome.Registered? <==> usable && host.safe && host.urlValid && !taken)
            && (!outcome.Registered? ==> after == db)
  {
  }

  /** A failed register changes nothing, and the token can still be claimed until it expires. */
  lemma FailureKeepsToken(db: Db, token: string, host: Host, now: int, retry: Host, later: int)
    requires var failed := RegisterTx(db, token, host, now).1; failed == BadHost || failed == BadUrl || failed == NameTaken
    requires retry.safe && retry.urlValid && later < db.regs[token].expiresAt
    requires !HasName(db.agents, AgentName(db.regs[token].tag, retry.name))
    ensures RegisterTx(db, token, host, now).0 == db
    ensures RegisterTx(RegisterTx(db, token, host, now).0, token, retry, later).1.Registered?
  {
  }

  // ----- invariants of the tables -----

  /** Agent ids are never reused; a linked row is claimed, its agent exists and is its alone. */
  predicate Linked(db: Db) {
    && (forall id :: id in db.agents ==> id < db.nextAgent)
    && (forall t :: t in db.regs && db.regs[t].agent.Some? ==>
          db.regs[t].status == Claimed && db.regs[t].agent.value in db.agents)
    && (forall t, u :: t in db.regs && u in db.regs && t != u && db.regs[t].agent.Some? ==>
          db.regs[t].agent != db.regs[u].agent)
    && (forall a, b :: a in db.agents && b in db.agents && a != b ==> db.agents[a].name != db.agents[b].name)
  }

  lemma LinkedRegister(db: Db, token: string, host: Host, now: int)
    requires Linked(db)
    ensures Linked(RegisterTx(db, token, host, now).0)
  {
    var (after, outcome) := RegisterTx(db, token, host, now);
    if outcome.Registered? {
      forall a, b | a in after.agents && b in after.agents && a != b ensures after.agents[a].name != after.agents[b].name {
        assert !HasName(db.agents, after.agents[outcome.id].name);
      }
    }
  }

  lemma LinkedExpired(db: Db, now: int)
    requires Linked(db)
    ensures Linked(Expire(db, now))
  {
    assert forall t :: t in db.regs ==> ExpiredRow(db.regs[t], now).agent == db.regs[t].agent;
  }

  lemma LinkedUnlinked(db: Db, id: nat)
    requires Linked(db) && id in db.agents
    ensures Linked(Apply(db, RemoveAgent(id), 0).0)
  {
    assert forall t :: t in db.regs && Unlinked(db.regs[t], id).agent.Some? ==>
        Unlinked(db.regs[t], id) == db.regs[t] && db.regs[t].agent.value != id;
  }

  lemma LinkedAdded(db: Db, agent: Agent)
    requires Linked(db) && !HasName(db.agents, agent.name)
    ensures Linked(Apply(db, AddAgent(agent), 0).0)
  {
  }

  lemma LinkedStep(db: Db, op: Op, now: int)
    requires Linked(db)
    ensures Linked(Apply(db, op, now).0)
  {
    match op
    case Register(token, host) => LinkedRegister(db, token, host, now);
    case RemoveAgent(id) => if id in db.agents { LinkedUnlinked(db, id); }
    case AddAgent(agent) => if !HasName(db.agents, agent.name) { LinkedAdded(db, agent); }
    case Delete(_) =>
    case Lookup(_) =>
    case _ => LinkedExpired(db, now);
  }

  lemma {:induction false} LinkedRun(db: Db, trace: seq<Timed>)
    requires Linked(db)
    ensures Linked(After(db, trace))
    decreases |trace|
  {
    if trace != [] {
      LinkedStep(db, trace[0].op, trace[0].now);
      LinkedRun(Apply(db, trace[0].op, trace[0].now).0, trace[1..]);
    }
  }

  /** After any trace: each linked row is claimed and has an agent of its own, names are unique. */
  lemma LinksAreExact(trace: seq<Timed>)
    ensures Linked(After(EMPTY, trace))
  {
    LinkedRun(EMPTY, trace);
  }

  /** A successful register adds one agent, links it to its row and touches nothing else. */
  lemma RegisterAddsOneAgent(trace: seq<Timed>, token: string, host: Host, now: int)
    requires var db := After(EMPTY, trace); RegisterTx(db, token, host, now).1.Registered?
    ensures var db := After(EMPTY, trace); var (after, outcome) := RegisterTx(db, token, host, now);
            && outcome.id !in db.agents && after.agents.Keys == db.agents.Keys + {outcome.id}
            && (forall id :: id in db.agents ==> after.agents[id] == db.agents[id])
            && after.regs.Keys == db.regs.Keys
            && after.agents[outcome.id]
               == Agent(if db.regs[token].tag != "" then db.regs[token].tag else host.name, host.url)
            && after.regs[token]
               == db.regs[token].(status := Claimed, agent := Some(outcome.id), claimedAt := Some(now))
            && (forall t :: t in db.regs && t != token ==>
                  after.regs[t] == db.regs[t] && after.regs[t].agent != Some(outcome.id))
  {
    LinksAreExact(trace);
  }

  // ----- claimed at most once -----

  /** Random tokens: none is issued twice. */
  predicate TokensFresh(issued: set<string>, trace: seq<Timed>)
    decreases |trace|
  {
    trace == [] ||
    (if trace[0].op.Provision? then
       trace[0].op.token !in issued && TokensFresh(issued + {trace[0].op.token}, trace[1..])
     else TokensFresh(issued, trace[1..]))
  }

  function Claims(db: Db, trace: seq<Timed>, token: string): nat
    decreases |trace|
  {
    if trace == [] then 0
    else
      var op := trace[0].op;
      var (next, outcome) := Apply(db, op, trace[0].now);
      (if op.Register? && op.token == token && outcome.Registered? then 1 else 0) + Claims(next, trace[1..], token)
  }

  predicate OnlyIssued(db: Db, issued: set<string>) {
    forall t :: t in db.regs ==> t in issued
  }

  lemma {:induction false} ClaimsLeft(db: Db, trace: seq<Timed>, token: string, issued: set<string>)
    requires TokensFresh(issued, trace) && OnlyIssued(db, issued)
    ensures Claims(db, trace, token)
         <= if token in issued && (token !in db.regs || db.regs[token].status != Pending) then 0 else 1
    decreases |trace|
  {
    if trace == [] {
    } else {
      var op, next := trace[0].op, Apply(db, trace[0].op, trace[0].now).0;
      var more := if op.Provision? then issued + {op.token} else issued;
      assert OnlyIssued(next, more);
      ClaimsLeft(next, trace[1..], token, more);
    }
  }

  /** Over any trace a token is claimed at most once. */
  lemma ClaimedAtMostOnce(trace: seq<Timed>, token: string)
    requires TokensFresh({}, trace)
    ensures Claims(EMPTY, trace, token) <= 1
  {
    ClaimsLeft(EMPTY, trace, token, {});
  }

  /** A claimed or expired row keeps its status for as long as it exists, and a token whose row
      was deleted never comes back. */
  lemma {:induction false} FinalStates(db: Db, trace: seq<Timed>, token: string, issued: set<string>)
    requires TokensFresh(issued, trace) && OnlyIssued(db, issued) && token in issued
    requires token in db.regs ==> db.regs[token].status != Pending
    ensures token in After(db, trace).regs ==>
              token in db.regs && After(db, trace).regs[token].status == db.regs[token].status
    decreases |trace|
  {
    if trace == [] {
    } else {
      var op, next := trace[0].op, Apply(db, trace[0].op, trace[0].now).0;
      var more := if op.Provision? then issued + {op.token} else issued;
      assert OnlyIssued(next, more);
      FinalStates(next, trace[1..], token, more);
    }
  }
}
