/**
 Deleting an agent, with and without force: containers first, rows only when every container is
 gone. Between the read and the transaction, and inside it, other requests change the table and
 the host; `LifecycleRuns.DeletionDropsLiveExactly` has the same in every interleaving.
 */
module AgentDelete {

  datatype Env = Env(agent: nat, name: string, cid: string)

  /** A host's answer to one removal; a failed call may still have removed the container. */
  datatype Answer = Removed | NotFound | Failed(gone: bool)

  datatype Outcome =
    | Deleted | NoAgent | HasEnvironments(count: nat) | CouldNotRemove(names: seq<string>) | GainedEnvironments

  /** What others do meanwhile: the table they leave when the transaction starts, the containers
      made and taken away by then, and the rows they add once the rows are deleted. */
  datatype Meanwhile = Meanwhile(rows: seq<Env>, made: set<string>, taken: set<string>, late: seq<Env>)

  /** Agents, environment rows in table order, and the containers on the agent's host. */
  datatype Fleet = Fleet(agents: set<nat>, rows: seq<Env>, host: set<string>)

  /** How to reach the host: whether a client is registered, and its answer per container. */
  datatype Client = Client(registered: bool, answers: map<string, Answer>) {
    function Answer(cid: string): Answer {
      if cid in answers then answers[cid] else NotFound
    }
  }

  function Of(rows: seq<Env>, agent: nat): seq<Env> {
    if rows == [] then []
    else (if rows[0].agent == agent then [rows[0]] else []) + Of(rows[1..], agent)
  }

  function Others(rows: seq<Env>, agent: nat): seq<Env> {
    if rows == [] then []
    else (if rows[0].agent != agent then [rows[0]] else []) + Others(rows[1..], agent)
  }

  function WithContainers(rows: seq<Env>): seq<Env> {
    if rows == [] then []
    else (if rows[0].cid != "" then [rows[0]] else []) + WithContainers(rows[1..])
  }

  function Names(rows: seq<Env>): seq<string> {
    if rows == [] then [] else [rows[0].name] + Names(rows[1..])
  }

  /** The names whose removal failed, in order. */
  function FailedNames(bound: seq<Env>, client: Client): seq<string> {
    if bound == [] then []
    else (if client.Answer(bound[0].cid).Failed? then [bound[0].name] else []) + FailedNames(bound[1..], client)
  }

  /** The host lost the container in answering. */
  predicate Gone(answer: Answer) {
    answer == Removed || answer == Failed(true)
  }

  function HostAfter(host: set<string>, bound: seq<Env>, client: Client): set<string> {
    if bound == [] then host
    else HostAfter(if Gone(client.Answer(bound[0].cid)) then host - {bound[0].cid} else host, bound[1..], client)
  }

  /** The rows when the agent is deleted: the row deletion is skipped if the read found none. */
  function Left(fleet: Fleet, agent: nat, m: Meanwhile): seq<Env> {
    (if Of(fleet.rows, agent) == [] then m.rows else Others(m.rows, agent)) + m.late
  }

  function HostLater(host: set<string>, m: Meanwhile): set<string> {
    host - m.taken + m.made
  }

  function DeleteTx(fleet: Fleet, agent: nat, force: bool, client: Client, m: Meanwhile): (Fleet, Outcome) {
    var envs := Of(fleet.rows, agent);
    var bound := WithContainers(envs);
    if agent !in fleet.agents then (fleet, NoAgent)
    else if envs != [] && !force then (fleet, HasEnvironments(|envs|))
    else if bound != [] && !client.registered then
      (Fleet(fleet.agents, m.rows, HostLater(fleet.host, m)), CouldNotRemove(Names(bound)))
    else
      var failed, host := FailedNames(bound, client), HostLater(HostAfter(fleet.host, bound, client), m);
      var left := Left(fleet, agent, m);
      if failed != [] then (Fleet(fleet.agents, m.rows, host), CouldNotRemove(failed))
      else if Of(left, agent) != [] then (Fleet(fleet.agents, m.rows + m.late, host), GainedEnvironments)
      else (Fleet(fleet.agents - {agent}, left, host), Deleted)
  }

  lemma AnswerStep(host: set<string>, failed: seq<string>, bound: seq<Env>, i: nat, client: Client)
    requires i < |bound|
    ensures var answer, later := client.Answer(bound[i].cid), bound[i + 1..];
            && failed + FailedNames(bound[i..], client)
               == (if answer.Failed? then failed + [bound[i].name] else failed) + FailedNames(later, client)
            && HostAfter(host, bound[i..], client)
               == HostAfter(if Gone(answer) then host - {bound[i].cid} else host, later, client)
  {
    assert bound[i..][1..] == bound[i + 1..];
  }

  class AgentService {
    var agents: set<nat>
    var rows: seq<Env>
    var host: set<string>

    ghost function View(): Fleet
      reads this
    {
      Fleet(agents, rows, host)
    }

    method RemoveContainers(envs: seq<Env>, client: Client) returns (failed: seq<string>)
      modifies this`host
      ensures var bound := WithContainers(envs);
              if bound != [] && !client.registered then failed == Names(bound) && host == old(host)
              else failed == FailedNames(bound, client) && host == HostAfter(old(host), bound, client)
    {
      var bound := WithContainers(envs);
      if bound == [] { return []; }
      if !client.registered { return Names(bound); }
      failed := [];
      ghost var before := host;
      for i := 0 to |bound|
        invariant failed + FailedNames(bound[i..], client) == FailedNames(bound, client)
        invariant HostAfter(host, bound[i..], client) == HostAfter(before, bound, client)
      {
        AnswerStep(host, failed, bound, i, client);
        var answer := client.Answer(bound[i].cid);
        if answer == Removed || answer == Failed(true) { host := host - {bound[i].cid}; }
        if answer.Failed? { failed := failed + [bound[i].name]; }
      }
      assert bound[|bound|..] == [];
    }

    /** The others. */
    method OthersAct(m: Meanwhile)
      modifies this`rows, this`host
      ensures rows == m.rows && host == HostLater(old(host), m)
    {
      rows := m.rows;
      host := host - m.taken + m.made;
    }

    method Delete(agent: nat, force: bool, client: Client, m: Meanwhile) returns (outcome: Outcome)
      modifies this
      ensures (View(), outcome) == DeleteTx(old(View()), agent, force, client, m)
    {
      if agent !in agents { return NoAgent; }
      var envs := Of(rows, agent);
      if envs != [] && !force { return HasEnvironments(|envs|); }
      var failed: seq<string> := [];
      if envs != [] { failed := RemoveContainers(envs, client); }
      OthersAct(m);
      if failed != [] { return CouldNotRemove(failed); }
      if envs != [] { rows := Others(rows, agent); }
      rows := rows + m.late;
      // the foreign key: an agent with environments cannot be deleted, and all is rolled back
      if Of(rows, agent) != [] {
        rows := m.rows + m.late;
        return GainedEnvironments;
      }
      agents := agents - {agent};
      return Deleted;
    }
  }

  // ----- membership -----

  lemma {:induction false} OfMembers(rows: seq<Env>, agent: nat)
    ensures forall e :: e in Of(rows, agent) <==> e in rows && e.agent == agent
    ensures forall e :: e in Others(rows, agent) <==> e in rows && e.agent != agent
  {
    if rows != [] {
      OfMembers(rows[1..], agent);
      assert rows == [rows[0]] + rows[1..];
    }
  }

  lemma {:induction false} WithContainersMembers(rows: seq<Env>)
    ensures forall e :: e in WithContainers(rows) <==> e in rows && e.cid != ""
  {
    if rows != [] {
      WithContainersMembers(rows[1..]);
      assert rows == [rows[0]] + rows[1..];
    }
  }

  lemma {:induction false} NamesMembers(rows: seq<Env>, name: string)
    ensures name in Names(rows) <==> exists e :: e in rows && e.name == name
  {
    if rows != [] {
      NamesMembers(rows[1..], name);
      assert rows == [rows[0]] + rows[1..];
      if name in Names(rows) && rows[0].name != name {
        var e :| e in rows[1..] && e.name == name;
        assert e in rows;
      }
      assert rows[0] in rows;
    }
  }

  lemma {:induction false} FailedMembers(bound: seq<Env>, client: Client, name: string)
    ensures name in FailedNames(bound, client) <==> exists e :: e in bound && e.name == name && client.Answer(e.cid).Failed?
  {
    if bound != [] {
      FailedMembers(bound[1..], client, name);
      assert bound == [bound[0]] + bound[1..];
      assert bound[0] in bound;
      if name in FailedNames(bound[1..], client) {
        var e :| e in bound[1..] && e.name == name && client.Answer(e.cid).Failed?;
        assert e in bound;
      }
    }
  }

  lemma {:induction false} NoneFailed(bound: seq<Env>, client: Client)
    requires forall e :: e in bound ==> !client.Answer(e.cid).Failed?
    ensures FailedNames(bound, client) == []
  {
    if bound != [] {
      NoneFailed(bound[1..], client);
    }
  }

  lemma {:induction false} HostMembers(host: set<string>, bound: seq<Env>, client: Client)
    ensures forall cid :: cid in HostAfter(host, bound, client) <==>
              cid in host && forall e :: e in bound && e.cid == cid ==> !Gone(client.Answer(cid))
    decreases |bound|
  {
    if bound != [] {
      var next := if Gone(client.Answer(bound[0].cid)) then host - {bound[0].cid} else host;
      HostMembers(next, bound[1..], client);
      assert bound == [bound[0]] + bound[1..];
    }
  }

  // ----- main results -----

  predicate Has(rows: seq<Env>, agent: nat, e: Env) {
    e in rows && e.agent == agent
  }

  /** The host reports missing only what it does not have. */
  predicate HostTruthful(fleet: Fleet, agent: nat, client: Client) {
    forall e :: e in fleet.rows && e.agent == agent && client.Answer(e.cid) == NotFound ==> e.cid !in fleet.host
  }

  lemma NoneOf(rows: seq<Env>, agent: nat)
    ensures Of(rows, agent) == [] <==> forall e :: !Has(rows, agent, e)
  {
    OfMembers(rows, agent);
    if Of(rows, agent) != [] {
      assert Of(rows, agent)[0] in Of(rows, agent);
      assert Has(rows, agent, Of(rows, agent)[0]);
    } else {
      assert forall e :: Has(rows, agent, e) ==> e in Of(rows, agent);
    }
  }

  lemma LeftMembers(fleet: Fleet, agent: nat, m: Meanwhile, e: Env)
    ensures e in Left(fleet, agent, m) <==>
              || (e in m.rows && (e.agent != agent || forall d :: !Has(fleet.rows, agent, d)))
              || e in m.late
  {
    OfMembers(m.rows, agent);
    NoneOf(fleet.rows, agent);
  }

  /** The agent has an environment at the end: one that came late, or one that came after a read
      that found none. */
  ghost predicate Gains(fleet: Fleet, agent: nat, m: Meanwhile) {
    || (exists e :: Has(m.late, agent, e))
    || ((forall d :: !Has(fleet.rows, agent, d)) && exists e :: Has(m.rows, agent, e))
  }

  lemma LeftOfAgent(fleet: Fleet, agent: nat, m: Meanwhile)
    ensures Of(Left(fleet, agent, m), agent) == [] <==> !Gains(fleet, agent, m)
  {
    var left := Left(fleet, agent, m);
    NoneOf(left, agent);
    forall e ensures Has(left, agent, e) <==>
        Has(m.late, agent, e) || (Has(m.rows, agent, e) && forall d :: !Has(fleet.rows, agent, d))
    {
      LeftMembers(fleet, agent, m, e);
    }
  }

  /** A delete that got as far as its transaction is refused exactly if the agent gained an
      environment, and then every row is kept. */
  lemma GainedExactly(fleet: Fleet, agent: nat, force: bool, client: Client, m: Meanwhile)
    requires var outcome := DeleteTx(fleet, agent, force, client, m).1;
             outcome == Deleted || outcome == GainedEnvironments
    ensures var (after, outcome) := DeleteTx(fleet, agent, force, client, m);
            && (outcome == GainedEnvironments <==> Gains(fleet, agent, m))
            && (outcome == GainedEnvironments ==> after.agents == fleet.agents && after.rows == m.rows + m.late)
  {
    LeftOfAgent(fleet, agent, m);
  }

  /** The containers the deletion reads, and asks the host to remove. */
  function ReadIds(fleet: Fleet, agent: nat): set<string> {
    set e | e in WithContainers(Of(fleet.rows, agent)) :: e.cid
  }

  lemma ReadIdsAre(fleet: Fleet, agent: nat, cid: string)
    ensures cid in ReadIds(fleet, agent) <==> cid != "" && exists e :: Has(fleet.rows, agent, e) && e.cid == cid
  {
    OfMembers(fleet.rows, agent);
    WithContainersMembers(Of(fleet.rows, agent));
    if e :| Has(fleet.rows, agent, e) && e.cid == cid && cid != "" {
      assert e in WithContainers(Of(fleet.rows, agent));
    }
    if cid in ReadIds(fleet, agent) {
      var e :| e in WithContainers(Of(fleet.rows, agent)) && e.cid == cid;
      assert Has(fleet.rows, agent, e);
    }
  }

  /** Every container read is gone once the host failed none; no other is touched. */
  lemma HostAfterDelete(fleet: Fleet, agent: nat, force: bool, client: Client, m: Meanwhile, cid: string)
    requires DeleteTx(fleet, agent, force, client, m).1 == Deleted && HostTruthful(fleet, agent, client)
    ensures cid in HostAfter(fleet.host, WithContainers(Of(fleet.rows, agent)), client)
       <==> cid in fleet.host && cid !in ReadIds(fleet, agent)
  {
    var bound := WithContainers(Of(fleet.rows, agent));
    OfMembers(fleet.rows, agent);
    WithContainersMembers(Of(fleet.rows, agent));
    HostMembers(fleet.host, bound, client);
    forall e | e in bound ensures !client.Answer(e.cid).Failed? {
      FailedMembers(bound, client, e.name);
    }
  }

  /** The container will have been on the host but for the deletion. */
  predicate ThereAtTheEnd(fleet: Fleet, m: Meanwhile, cid: string) {
    (cid in fleet.host && cid !in m.taken) || cid in m.made
  }

  /** A deleted agent leaves no row, and other agents' rows stay. A container held by a row that was
      read is gone, and of those held by the rows that went, exactly those stay that no row held
      when the deletion read the table, and that nobody else took. */
  lemma DeletedLeavesExactly(fleet: Fleet, agent: nat, force: bool, client: Client, m: Meanwhile)
    requires DeleteTx(fleet, agent, force, client, m).1 == Deleted && HostTruthful(fleet, agent, client)
    requires m.made !! ReadIds(fleet, agent)
    ensures var after := DeleteTx(fleet, agent, force, client, m).0;
            && agent !in after.agents
            && (forall e :: e in after.rows <==> (e in m.rows || e in m.late) && e.agent != agent)
            && (forall cid :: cid in ReadIds(fleet, agent) ==> cid !in after.host)
            && (forall e :: Has(m.rows, agent, e) ==>
                  (e.cid in after.host <==> e.cid !in ReadIds(fleet, agent) && ThereAtTheEnd(fleet, m, e.cid)))
  {
    var after := DeleteTx(fleet, agent, force, client, m).0;
    LeftOfAgent(fleet, agent, m);
    forall e ensures e in after.rows <==> (e in m.rows || e in m.late) && e.agent != agent {
      LeftMembers(fleet, agent, m, e);
      assert Has(m.late, agent, e) <==> e in m.late && e.agent == agent;
      assert Has(m.rows, agent, e) <==> e in m.rows && e.agent == agent;
    }
    forall cid ensures cid in after.host <==> cid !in ReadIds(fleet, agent) && ThereAtTheEnd(fleet, m, cid) {
      HostAfterDelete(fleet, agent, force, client, m, cid);
    }
  }

  /** An environment that arrives, with its container, while the others are swept up. */
  lemma ArrivalLeavesContainer(a: Env, b: Env, fleet: Fleet, client: Client, m: Meanwhile)
    requires a == Env(1, "a", "x") && b == Env(1, "b", "y")
    requires fleet == Fleet({1}, [a], {"x"}) && client == Client(true, map["x" := Removed])
    requires m == Meanwhile([a, b], {"y"}, {}, [])
    ensures DeleteTx(fleet, 1, true, client, m) == (Fleet({}, [], {"y"}), Deleted)
  {
    OneRow(a, 1);
    OneRow(b, 1);
    assert [a, b][1..] == [b] && [a][1..] == [];
    assert client.Answer("x") == Removed;
    assert Others([a, b], 1) == [] && FailedNames([a], client) == [];
    assert HostAfter({"x"}, [a], client) == HostAfter({}, [], client);
    Ends(fleet, m);
  }

  lemma Ends(fleet: Fleet, m: Meanwhile)
    requires fleet.agents == {1} && Of(fleet.rows, 1) != [] && Others(m.rows, 1) == [] && m.late == []
    requires m.made == {"y"} && m.taken == {}
    ensures Left(fleet, 1, m) == [] && Of([], 1) == [] && HostLater({}, m) == {"y"} && fleet.agents - {1} == {}
  {
  }

  /** A row read before its create bound it, and bound when it goes. */
  lemma BoundAfterReadLeavesContainer(a: Env, b: Env, fleet: Fleet, client: Client, m: Meanwhile)
    requires a == Env(1, "a", "") && b == Env(1, "a", "y")
    requires fleet == Fleet({1}, [a], {}) && client == Client(true, map[]) && m == Meanwhile([b], {"y"}, {}, [])
    ensures DeleteTx(fleet, 1, true, client, m) == (Fleet({}, [], {"y"}), Deleted)
  {
    OneRow(a, 1);
    OneRow(b, 1);
    Ends(fleet, m);
  }

  lemma OneRow(e: Env, agent: nat)
    requires e.agent == agent
    ensures Of([e], agent) == [e] && Others([e], agent) == []
    ensures WithContainers([e]) == if e.cid == "" then [] else [e]
  {
    assert [e][1..] == [];
  }

  /** The places of the agent's rows. */
  function Places(rows: seq<Env>, agent: nat): set<nat> {
    set i: nat | i < |rows| && rows[i].agent == agent
  }

  function Shifted(s: set<nat>): set<nat> {
    set i | i in s :: i + 1
  }

  lemma {:induction false} ShiftedSize(s: set<nat>)
    ensures |Shifted(s)| == |s|
  {
    if s != {} {
      var i :| i in s;
      ShiftedSize(s - {i});
      forall k ensures k in Shifted(s) <==> k == i + 1 || k in Shifted(s - {i}) {
        if k in Shifted(s) && k != i + 1 { assert k - 1 in s - {i}; }
      }
      assert Shifted(s) == Shifted(s - {i}) + {i + 1};
    }
  }

  lemma PlacesNext(rows: seq<Env>, agent: nat)
    requires rows != []
    ensures Places(rows, agent) == (if rows[0].agent == agent then {0} else {}) + Shifted(Places(rows[1..], agent))
  {
    forall i: nat ensures i in Places(rows, agent) <==>
        (i == 0 && rows[0].agent == agent) || i in Shifted(Places(rows[1..], agent))
    {
      if i > 0 && i < |rows| && rows[i].agent == agent {
        assert rows[1..][i - 1] == rows[i];
        assert i - 1 in Places(rows[1..], agent);
      }
    }
  }

  lemma {:induction false} CountedOf(rows: seq<Env>, agent: nat)
    ensures |Of(rows, agent)| == |Places(rows, agent)|
  {
    if rows != [] {
      CountedOf(rows[1..], agent);
      PlacesNext(rows, agent);
      ShiftedSize(Places(rows[1..], agent));
    }
  }

  lemma RemovalFails(fleet: Fleet, agent: nat, client: Client)
    ensures var bound := WithContainers(Of(fleet.rows, agent));
            (bound != [] && !client.registered) || (client.registered && FailedNames(bound, client) != [])
            <==> exists e :: Has(fleet.rows, agent, e) && e.cid != ""
                   && (!client.registered || client.Answer(e.cid).Failed?)
  {
    var bound := WithContainers(Of(fleet.rows, agent));
    OfMembers(fleet.rows, agent);
    WithContainersMembers(Of(fleet.rows, agent));
    assert forall e :: e in bound <==> Has(fleet.rows, agent, e) && e.cid != "";
    if bound != [] { assert bound[0] in bound; }
    if forall e :: e in bound ==> !client.Answer(e.cid).Failed? {
      NoneFailed(bound, client);
    } else {
      var e :| e in bound && client.Answer(e.cid).Failed?;
      FailedMembers(bound, client, e.name);
    }
  }

  /** Which answer a delete gives, of all it can. */
  lemma OutcomeExactly(fleet: Fleet, agent: nat, force: bool, client: Client, m: Meanwhile)
    ensures var (after, outcome) := DeleteTx(fleet, agent, force, client, m);
            var count := |set i: nat | i < |fleet.rows| && fleet.rows[i].agent == agent|;
            var refused := agent in fleet.agents && !force && count > 0;
            var stuck := agent in fleet.agents && force
                         && exists e :: Has(fleet.rows, agent, e) && e.cid != ""
                              && (!client.registered || client.Answer(e.cid).Failed?);
            && (outcome == NoAgent <==> agent !in fleet.agents)
            && (outcome == HasEnvironments(count) <==> refused)
            && (outcome.HasEnvironments? <==> refused)
            && (outcome == NoAgent || refused ==> after == fleet)
            && (outcome.CouldNotRemove? <==> stuck)
            && (outcome == GainedEnvironments <==>
                  agent in fleet.agents && !refused && !stuck && Gains(fleet, agent, m))
            && (outcome == Deleted <==>
                  agent in fleet.agents && !refused && !stuck && !Gains(fleet, agent, m))
  {
    CountedOf(fleet.rows, agent);
    assert Places(fleet.rows, agent) == set i: nat | i < |fleet.rows| && fleet.rows[i].agent == agent;
    RemovalFails(fleet, agent, client);
    NoneOf(fleet.rows, agent);
    LeftOfAgent(fleet, agent, m);
  }

  /** Without force an agent is deleted exactly if it exists and has no environments, at the read or
      by the end; and then, or if it gained one, the table and the host are as the others left them. */
  lemma PlainDeleteExactly(fleet: Fleet, agent: nat, client: Client, m: Meanwhile)
    ensures var (after, outcome) := DeleteTx(fleet, agent, false, client, m);
            && (outcome == Deleted <==>
                  && agent in fleet.agents
                  && forall e :: !Has(fleet.rows, agent, e) && !Has(m.rows, agent, e) && !Has(m.late, agent, e))
            && after.agents == (if outcome == Deleted then fleet.agents - {agent} else fleet.agents)
            && (if outcome == Deleted || outcome == GainedEnvironments
                then after.rows == m.rows + m.late && after.host == HostLater(fleet.host, m)
                else after == fleet)
  {
    NoneOf(fleet.rows, agent);
    LeftOfAgent(fleet, agent, m);
  }

  /** The container was not removed: no client to ask, or the host failed. */
  predicate Stays(client: Client, e: Env) {
    !client.registered || client.Answer(e.cid).Failed?
  }

  /** A refused force delete leaves the table as the others made it and names exactly the
      environments whose container could not be removed; every other container read is gone. */
  lemma RefusedNamesExactly(fleet: Fleet, agent: nat, client: Client, m: Meanwhile, name: string)
    requires DeleteTx(fleet, agent, true, client, m).1.CouldNotRemove? && HostTruthful(fleet, agent, client)
    requires m.made !! ReadIds(fleet, agent)
    ensures var (after, outcome) := DeleteTx(fleet, agent, true, client, m);
            && after.rows == m.rows && after.agents == fleet.agents
            && (name in outcome.names <==>
                  exists e :: Has(fleet.rows, agent, e) && e.cid != "" && e.name == name && Stays(client, e))
            && (forall e :: Has(fleet.rows, agent, e) && e.cid != "" && !Stays(client, e) ==> e.cid !in after.host)
  {
    var bound := WithContainers(Of(fleet.rows, agent));
    OfMembers(fleet.rows, agent);
    WithContainersMembers(Of(fleet.rows, agent));
    assert forall e :: e in bound <==> Has(fleet.rows, agent, e) && e.cid != "";
    if client.registered {
      FailedMembers(bound, client, name);
      HostMembers(fleet.host, bound, client);
    } else {
      NamesMembers(bound, name);
    }
    if e :| e in bound && e.name == name && Stays(client, e) {
      assert Has(fleet.rows, agent, e);
    }
    forall e | Has(fleet.rows, agent, e) && e.cid != "" ensures e.cid in ReadIds(fleet, agent) {
      ReadIdsAre(fleet, agent, e.cid);
    }
  }

  // ----- the order of the names -----

  lemma OfFirst(e: Env, rows: seq<Env>, agent: nat)
    ensures Of([e] + rows, agent) == (if e.agent == agent then [e] else []) + Of(rows, agent)
  {
    assert ([e] + rows)[1..] == rows;
  }

  lemma {:induction false} OfAppend(a: seq<Env>, b: seq<Env>, agent: nat)
    ensures Of(a + b, agent) == Of(a, agent) + Of(b, agent)
  {
    if a == [] {
      assert a + b == b;
    } else {
      var e, more := a[0], a[1..];
      OfAppend(more, b, agent);
      OfFirst(e, more, agent);
      OfFirst(e, more + b, agent);
      assert a == [e] + more && a + b == [e] + (more + b);
    }
  }

  lemma {:induction false} WithContainersAppend(a: seq<Env>, b: seq<Env>)
    ensures WithContainers(a + b) == WithContainers(a) + WithContainers(b)
  {
    if a == [] {
      assert a + b == b;
    } else {
      assert (a + b)[1..] == a[1..] + b;
      WithContainersAppend(a[1..], b);
    }
  }

  /** The names of the bound rows whose container was not removed. */
  function Unremoved(bound: seq<Env>, client: Client): seq<string> {
    if client.registered then FailedNames(bound, client) else Names(bound)
  }

  lemma {:induction false} UnremovedAppend(a: seq<Env>, b: seq<Env>, client: Client)
    ensures Unremoved(a + b, client) == Unremoved(a, client) + Unremoved(b, client)
  {
    if a == [] {
      assert a + b == b;
    } else {
      assert (a + b)[1..] == a[1..] + b;
      UnremovedAppend(a[1..], b, client);
    }
  }

  lemma UnremovedOne(e: Env, agent: nat, client: Client)
    ensures Unremoved(WithContainers(Of([e], agent)), client)
         == if e.agent == agent && e.cid != "" && (!client.registered || client.Answer(e.cid).Failed?) then [e.name]
            else []
  {
    assert [e][1..] == [] && Of([], agent) == [] && WithContainers([]) == [];
    if e.agent == agent {
      OneRow(e, agent);
      if e.cid != "" { NamedOne(e, client); }
    } else {
      assert Of([e], agent) == [];
    }
  }

  lemma NamedOne(e: Env, client: Client)
    ensures Unremoved([e], client) == if !client.registered || client.Answer(e.cid).Failed? then [e.name] else []
  {
    assert [e][1..] == [];
    assert Names([]) == [] && FailedNames([], client) == [];
    assert Names([e]) == [e.name] + [] == [e.name];
  }

  /** Splits the rows, and the names with them. */
  lemma UnremovedRows(a: seq<Env>, b: seq<Env>, agent: nat, client: Client)
    ensures Unremoved(WithContainers(Of(a + b, agent)), client)
         == Unremoved(WithContainers(Of(a, agent)), client) + Unremoved(WithContainers(Of(b, agent)), client)
  {
    OfAppend(a, b, agent);
    WithContainersAppend(Of(a, agent), Of(b, agent));
    UnremovedAppend(WithContainers(Of(a, agent)), WithContainers(Of(b, agent)), client);
  }

  /** A refused force delete names them in the order of the table, each row once. */
  lemma RefusedInOrder(fleet: Fleet, front: seq<Env>, e: Env, back: seq<Env>, agent: nat, client: Client, m: Meanwhile)
    requires fleet.rows == front + [e] + back && DeleteTx(fleet, agent, true, client, m).1.CouldNotRemove?
    ensures DeleteTx(fleet, agent, true, client, m).1.names
         == Unremoved(WithContainers(Of(front, agent)), client)
            + (if e.agent == agent && e.cid != "" && (!client.registered || client.Answer(e.cid).Failed?) then [e.name]
               else [])
            + Unremoved(WithContainers(Of(back, agent)), client)
  {
    UnremovedRows(front + [e], back, agent, client);
    UnremovedRows(front, [e], agent, client);
    UnremovedOne(e, agent, client);
  }

  /** A retry is safe: it starts from the table the refusal left, and if the host fails none of the
      containers held then it goes through, or is refused because the agent gained an environment. */
  lemma RetrySucceeds(fleet: Fleet, agent: nat, first: Client, m: Meanwhile, second: Client, later: Meanwhile)
    requires DeleteTx(fleet, agent, true, first, m).1.CouldNotRemove?
    requires second.registered
    requires forall e :: Has(m.rows, agent, e) && e.cid != "" ==> !second.Answer(e.cid).Failed?
    ensures var between := DeleteTx(fleet, agent, true, first, m).0;
            DeleteTx(between, agent, true, second, later).1
            == if Gains(between, agent, later) then GainedEnvironments else Deleted
  {
    var between := DeleteTx(fleet, agent, true, first, m).0;
    var bound := WithContainers(Of(m.rows, agent));
    OfMembers(m.rows, agent);
    WithContainersMembers(Of(m.rows, agent));
    forall e | e in bound ensures !second.Answer(e.cid).Failed? {
      assert Has(m.rows, agent, e);
    }
    NoneFailed(bound, second);
    LeftOfAgent(between, agent, later);
  }
}
