/**
 Rows of environments and their reconciliation against the containers a host lists.

 `EnvironmentTable.ReconcileAgent` is the loop over the rows of one agent, `ReconcilePass` the
 pass over the agents. Both are proved equal to a pointwise function and to count exactly the
 rows they change. The lemmas say when a second run changes nothing and that the order of the
 agents does not matter.
 */
module Environments {
  import opened Prelude

  datatype Status = Creating | Running | Stopped | Error

  datatype Row = Row(agent: nat, name: string, cid: string, status: Status, message: string, created: int)

  datatype Container = Container(id: string, name: string, running: bool)

  const CREATE_GRACE := 60
  const CREATE_NEVER_COMPLETED := "create never completed"
  const CONTAINER_MISSING := "container missing"

  /** A create younger than the grace may still be in flight. */
  predicate Young(row: Row, now: int) {
    now - row.created < CREATE_GRACE
  }

  /** Dictionaries built from a list: the last container with the key wins. */
  function ById(containers: seq<Container>, id: string): Option<Container> {
    if containers == [] then None
    else if containers[|containers| - 1].id == id then Some(containers[|containers| - 1])
    else ById(containers[..|containers| - 1], id)
  }

  function ByName(containers: seq<Container>, name: string): Option<Container> {
    if containers == [] then None
    else if containers[|containers| - 1].name == name then Some(containers[|containers| - 1])
    else ByName(containers[..|containers| - 1], name)
  }

  function Observed(row: Row, container: Option<Container>): Row {
    match container
    case None => row.(status := Error, message := CONTAINER_MISSING)
    case Some(c) => row.(status := if c.running then Running else Stopped, message := "")
  }

  /** What one reconcile does to one row of its agent. */
  function Reconciled(row: Row, containers: seq<Container>, now: int): Row {
    if row.status == Creating then
      if Young(row, now) then row
      else match ByName(containers, row.name)
        case None => row.(status := Error, message := CREATE_NEVER_COMPLETED)
        case Some(c) => Observed(row.(cid := c.id), Some(c))
    else if row.cid == "" then row
    else Observed(row, ById(containers, row.cid))
  }

  function ReconciledRows(rows: map<nat, Row>, agent: nat, containers: seq<Container>, now: int): map<nat, Row> {
    map e | e in rows :: if rows[e].agent == agent then Reconciled(rows[e], containers, now) else rows[e]
  }

  /** The rows that differ. */
  function Changed(before: map<nat, Row>, after: map<nat, Row>): set<nat> {
    set e | e in before && (e !in after || after[e] != before[e])
  }

  // ----- the pass over all agents -----

  /** What became of one online agent: its list arrived and was applied at a time, or it failed
      or timed out before, or had no client. */
  datatype Visit = Applied(agent: nat, containers: seq<Container>, now: int) | Skipped(agent: nat)

  function Pass(rows: map<nat, Row>, visits: seq<Visit>): map<nat, Row>
    decreases |visits|
  {
    if visits == [] then rows
    else match visits[0]
      case Applied(agent, containers, now) => Pass(ReconciledRows(rows, agent, containers, now), visits[1..])
      case Skipped(_) => Pass(rows, visits[1..])
  }

  predicate DistinctAgents(visits: seq<Visit>) {
    forall i, j :: 0 <= i < j < |visits| ==> visits[i].agent != visits[j].agent
  }

  class EnvironmentTable {
    var rows: map<nat, Row>

    /** The body of the loop over the rows. */
    static method ReconcileRow(row: Row, containers: seq<Container>, now: int) returns (env: Row, changed: bool)
      ensures env == Reconciled(row, containers, now)
      ensures changed <==> env != row
    {
      env, changed := row, false;
      if env.status == Creating {
        if now - env.created < CREATE_GRACE { return; }
        var container := ByName(containers, env.name);
        if container == None {
          env := env.(status := Error, message := CREATE_NEVER_COMPLETED);
        } else {
          env := env.(cid := container.value.id);
          env := env.(status := if container.value.running then Running else Stopped, message := "");
        }
        changed := true;
      } else if env.cid != "" {
        var seen := Observed(env, ById(containers, env.cid));
        if env.status != seen.status || env.message != seen.message {
          env := seen;
          changed := true;
        }
      }
    }

    method ReconcileAgent(agent: nat, containers: seq<Container>, now: int) returns (changed: nat)
      modifies this
      ensures rows == ReconciledRows(old(rows), agent, containers, now)
      ensures changed == |Changed(old(rows), rows)|
    {
      ghost var before := rows;
      changed := 0;
      var todo := set e | e in rows && rows[e].agent == agent;
      while todo != {}
        invariant rows.Keys == before.Keys && todo <= before.Keys
        invariant forall e :: e in todo ==> rows[e] == before[e] && before[e].agent == agent
        invariant forall e :: e in before && e !in todo ==>
                    rows[e] == if before[e].agent == agent then Reconciled(before[e], containers, now) else before[e]
        invariant changed == |Changed(before, rows)|
        decreases todo
      {
        var e :| e in todo;
        var env, differs := ReconcileRow(rows[e], containers, now);
        if differs { changed := changed + 1; }
        OneChanged(before, rows, e, env);
        rows := rows[e := env];
        todo := todo - {e};
      }
    }

    /** One pass: each agent on its own, the changes added up. */
    method ReconcilePass(visits: seq<Visit>) returns (changed: nat)
      requires DistinctAgents(visits)
      modifies this
      ensures rows == Pass(old(rows), visits)
      ensures changed == |Changed(old(rows), rows)|
    {
      ghost var before := rows;
      changed := 0;
      assert Changed(before, rows) == {};
      for i := 0 to |visits|
        invariant Pass(rows, visits[i..]) == Pass(before, visits)
        invariant rows.Keys == before.Keys
        invariant forall e :: e in rows ==> rows[e].agent == before[e].agent
        invariant forall e, j :: i <= j < |visits| && e in rows && rows[e].agent == visits[j].agent ==> rows[e] == before[e]
        invariant changed == |Changed(before, rows)|
      {
        assert visits[i..][1..] == visits[i + 1..];
        if visits[i].Applied? {
          ghost var was := rows;
          var more := ReconcileAgent(visits[i].agent, visits[i].containers, visits[i].now);
          ChangesAddUp(before, was, rows, visits[i].agent);
          changed := changed + more;
        }
      }
      assert visits[|visits|..] == [];
    }
  }

  // ----- counting -----

  lemma OneChanged(before: map<nat, Row>, rows: map<nat, Row>, e: nat, row: Row)
    requires e in before && rows.Keys == before.Keys && rows[e] == before[e]
    ensures |Changed(before, rows[e := row])| == |Changed(before, rows)| + (if row == before[e] then 0 else 1)
  {
    var changed := Changed(before, rows);
    assert Changed(before, rows[e := row]) == if row == before[e] then changed else changed + {e};
  }

  lemma ChangesAddUp(before: map<nat, Row>, was: map<nat, Row>, rows: map<nat, Row>, agent: nat)
    requires before.Keys == was.Keys == rows.Keys
    requires forall e :: e in was ==> if was[e].agent == agent then was[e] == before[e] else rows[e] == was[e]
    ensures |Changed(before, rows)| == |Changed(before, was)| + |Changed(was, rows)|
  {
    var a, b := Changed(before, was), Changed(was, rows);
    assert Changed(before, rows) == a + b && a !! b;
  }

  // ----- one row -----

  /** The last container with the name, or with the id. */
  predicate LastNamed(containers: seq<Container>, i: nat, name: string) {
    i < |containers| && containers[i].name == name && forall j :: i < j < |containers| ==> containers[j].name != name
  }

  predicate LastWithId(containers: seq<Container>, i: nat, id: string) {
    i < |containers| && containers[i].id == id && forall j :: i < j < |containers| ==> containers[j].id != id
  }

  lemma {:induction false} LastNamedFound(containers: seq<Container>, i: nat, name: string)
    requires LastNamed(containers, i, name)
    ensures ByName(containers, name) == Some(containers[i])
  {
    var n := |containers| - 1;
    if i < n {
      assert containers[n].name != name;
      assert forall j :: i < j < n ==> containers[..n][j] == containers[j];
      LastNamedFound(containers[..n], i, name);
    }
  }

  lemma {:induction false} LastWithIdFound(containers: seq<Container>, i: nat, id: string)
    requires LastWithId(containers, i, id)
    ensures ById(containers, id) == Some(containers[i])
  {
    var n := |containers| - 1;
    if i < n {
      assert containers[n].id != id;
      assert forall j :: i < j < n ==> containers[..n][j] == containers[j];
      LastWithIdFound(containers[..n], i, id);
    }
  }

  /** A row past its grace takes the last container of its name, a bound row the state of the last
      one with its id; without one they are in error. Every other row stays. */
  lemma ReconciledExactly(row: Row, containers: seq<Container>, now: int, i: nat)
    ensures var after, creating := Reconciled(row, containers, now), row.status == Creating;
            && after.agent == row.agent && after.name == row.name && after.created == row.created
            && (creating && now - row.created < 60 ==> after == row)
            && (!creating && row.cid == "" ==> after == row)
            && (creating && now - row.created >= 60 && (forall c :: c in containers ==> c.name != row.name) ==>
                  after.status == Error && after.cid == row.cid && after.message == CREATE_NEVER_COMPLETED)
            && (creating && now - row.created >= 60 && LastNamed(containers, i, row.name) ==>
                  after.status == (if containers[i].running then Running else Stopped)
                  && after.cid == containers[i].id && after.message == "")
            && (!creating && row.cid != "" && (forall c :: c in containers ==> c.id != row.cid) ==>
                  after.status == Error && after.cid == row.cid && after.message == CONTAINER_MISSING)
            && (!creating && row.cid != "" && LastWithId(containers, i, row.cid) ==>
                  after.status == (if containers[i].running then Running else Stopped)
                  && after.cid == row.cid && after.message == "")
  {
    FoundByName(containers, row.name);
    FoundById(containers, row.cid);
    if LastNamed(containers, i, row.name) { LastNamedFound(containers, i, row.name); }
    if LastWithId(containers, i, row.cid) { LastWithIdFound(containers, i, row.cid); }
  }

  // ----- a second run -----

  predicate UniqueIds(containers: seq<Container>) {
    forall i, j :: 0 <= i < j < |containers| ==> containers[i].id != containers[j].id
  }

  lemma {:induction false} FoundByName(containers: seq<Container>, name: string)
    ensures var c := ByName(containers, name);
            c.Some? ==> c.value in containers && c.value.name == name
    ensures ByName(containers, name) == None ==> forall c :: c in containers ==> c.name != name
  {
    if containers != [] {
      var n := |containers| - 1;
      FoundByName(containers[..n], name);
      assert forall c :: c in containers ==> c in containers[..n] || c == containers[n];
    }
  }

  lemma {:induction false} FoundById(containers: seq<Container>, id: string)
    ensures var c := ById(containers, id);
            c.Some? ==> c.value in containers && c.value.id == id
    ensures ById(containers, id) == None ==> forall c :: c in containers ==> c.id != id
  {
    if containers != [] {
      var n := |containers| - 1;
      FoundById(containers[..n], id);
      assert forall c :: c in containers ==> c in containers[..n] || c == containers[n];
    }
  }

  /** The row takes its container from the list by name. */
  predicate Adopts(row: Row, containers: seq<Container>, now: int) {
    row.status == Creating && !Young(row, now) && ByName(containers, row.name).Some?
  }

  /** A second run on the same list and time leaves the row alone, exactly unless the first
      adopted a container whose id another one of a different state shares. */
  lemma SecondRunExactly(row: Row, containers: seq<Container>, now: int)
    requires row.status == Creating ==> row.cid == ""
    ensures Reconciled(Reconciled(row, containers, now), containers, now) == Reconciled(row, containers, now)
       <==> (Adopts(row, containers, now) && ByName(containers, row.name).value.id != "" ==>
               var c := ByName(containers, row.name).value;
               ById(containers, c.id).Some? && ById(containers, c.id).value.running == c.running)
  {
  }

  /** With a shared id it can: adopted as running by its name, seen as stopped by its id. */
  lemma SecondRunCanChange(row: Row, containers: seq<Container>)
    requires row == Row(1, "n", "", Creating, "", 0)
    requires containers == [Container("x", "n", true), Container("x", "m", false)]
    ensures Reconciled(row, containers, 60).status == Running
    ensures Reconciled(Reconciled(row, containers, 60), containers, 60).status == Stopped
  {
    var first := Container("x", "n", true);
    assert containers[..1] == [first] && [first][0] == first;
    assert "m"[0] != "n"[0];
    assert ByName(containers, "n") == ByName([first], "n") == Some(first);
    assert ById(containers, "x") == Some(containers[1]);
  }

  lemma SecondRunOfRow(row: Row, containers: seq<Container>, now: int)
    requires UniqueIds(containers) && (row.status == Creating ==> row.cid == "")
    ensures Reconciled(Reconciled(row, containers, now), containers, now) == Reconciled(row, containers, now)
  {
    if Adopts(row, containers, now) {
      var c := ByName(containers, row.name).value;
      FoundByName(containers, row.name);
      FoundById(containers, c.id);
      var d := ById(containers, c.id).value;
      var i :| 0 <= i < |containers| && containers[i] == c;
      var j :| 0 <= j < |containers| && containers[j] == d;
      assert i == j;
    }
    SecondRunExactly(row, containers, now);
  }

  /** With unique container ids a second run on the same list and time changes nothing. */
  lemma SecondRunChangesNothing(rows: map<nat, Row>, agent: nat, containers: seq<Container>, now: int)
    requires UniqueIds(containers)
    requires forall e :: e in rows && rows[e].status == Creating ==> rows[e].cid == ""
    ensures var once := ReconciledRows(rows, agent, containers, now);
            var twice := ReconciledRows(once, agent, containers, now);
            twice == once && Changed(once, twice) == {}
  {
    var once := ReconciledRows(rows, agent, containers, now);
    forall e | e in rows && rows[e].agent == agent
      ensures Reconciled(once[e], containers, now) == once[e]
    {
      SecondRunOfRow(rows[e], containers, now);
    }
  }

  // ----- the order of the agents -----

  lemma AppliesCommute(rows: map<nat, Row>, a: nat, as_: seq<Container>, t: int, b: nat, bs: seq<Container>, u: int)
    requires a != b
    ensures ReconciledRows(ReconciledRows(rows, a, as_, t), b, bs, u)
         == ReconciledRows(ReconciledRows(rows, b, bs, u), a, as_, t)
  {
  }

  /** What a pass does to a row depends on its own agent's visit alone. */
  function AfterVisits(row: Row, visits: seq<Visit>): Row
    decreases |visits|
  {
    if visits == [] then row
    else if visits[0].agent != row.agent then AfterVisits(row, visits[1..])
    else if visits[0].Applied? then Reconciled(row, visits[0].containers, visits[0].now)
    else row
  }

  lemma {:induction false} OtherVisits(row: Row, visits: seq<Visit>)
    requires forall i :: 0 <= i < |visits| ==> visits[i].agent != row.agent
    ensures AfterVisits(row, visits) == row
    decreases |visits|
  {
    if visits != [] {
      assert forall i :: 0 <= i < |visits[1..]| ==> visits[1..][i] == visits[i + 1];
      OtherVisits(row, visits[1..]);
    }
  }

  lemma {:induction false} PassIsPointwise(rows: map<nat, Row>, visits: seq<Visit>)
    requires DistinctAgents(visits)
    ensures Pass(rows, visits).Keys == rows.Keys
    ensures forall e :: e in rows ==> Pass(rows, visits)[e] == AfterVisits(rows[e], visits)
    decreases |visits|
  {
    if visits == [] {
    } else {
      var first, rest := visits[0], visits[1..];
      var next := if first.Applied? then ReconciledRows(rows, first.agent, first.containers, first.now) else rows;
      assert forall i :: 0 <= i < |rest| ==> rest[i] == visits[i + 1];
      PassIsPointwise(next, rest);
      forall e | e in rows ensures Pass(rows, visits)[e] == AfterVisits(rows[e], visits) {
        assert next[e].agent == rows[e].agent;
        if rows[e].agent == first.agent {
          OtherVisits(next[e], rest);
        }
      }
    }
  }

  lemma {:induction false} VisitFound(row: Row, visits: seq<Visit>, i: nat)
    requires DistinctAgents(visits) && i < |visits| && visits[i].agent == row.agent
    ensures AfterVisits(row, visits)
         == if visits[i].Applied? then Reconciled(row, visits[i].containers, visits[i].now) else row
    decreases |visits|
  {
    if i > 0 {
      assert visits[0].agent != visits[i].agent;
      assert forall k :: 0 <= k < |visits[1..]| ==> visits[1..][k] == visits[k + 1];
      VisitFound(row, visits[1..], i - 1);
    }
  }

  predicate SameVisits(a: seq<Visit>, b: seq<Visit>) {
    (forall i :: 0 <= i < |a| ==> a[i] in b) && (forall i :: 0 <= i < |b| ==> b[i] in a)
  }

  lemma SameVisit(row: Row, a: seq<Visit>, b: seq<Visit>)
    requires DistinctAgents(a) && DistinctAgents(b) && SameVisits(a, b)
    ensures AfterVisits(row, a) == AfterVisits(row, b)
  {
    if i :| 0 <= i < |a| && a[i].agent == row.agent {
      assert a[i] in b;
      var j :| 0 <= j < |b| && b[j] == a[i];
      VisitFound(row, a, i);
      VisitFound(row, b, j);
    } else {
      forall j | 0 <= j < |b| ensures b[j].agent != row.agent {
        assert b[j] in a;
      }
      OtherVisits(row, a);
      OtherVisits(row, b);
    }
  }

  /** Passes that make the same visits in different orders end in the same rows. */
  lemma PassOrderIrrelevant(rows: map<nat, Row>, a: seq<Visit>, b: seq<Visit>)
    requires DistinctAgents(a) && DistinctAgents(b) && SameVisits(a, b)
    ensures Pass(rows, a) == Pass(rows, b)
  {
    PassIsPointwise(rows, a);
    PassIsPointwise(rows, b);
    forall e | e in rows ensures AfterVisits(rows[e], a) == AfterVisits(rows[e], b) {
      SameVisit(rows[e], a, b);
    }
  }

  /** An agent that fails before its apply changes nothing: its rows stay, the others' rows are
      those of the pass without it. */
  lemma SkippedAgentIsIsolated(rows: map<nat, Row>, before: seq<Visit>, agent: nat, after: seq<Visit>)
    requires DistinctAgents(before + [Skipped(agent)] + after)
    ensures Pass(rows, before + [Skipped(agent)] + after) == Pass(rows, before + after)
    ensures var passed := Pass(rows, before + after);
            passed.Keys == rows.Keys && forall e :: e in rows && rows[e].agent == agent ==> passed[e] == rows[e]
  {
    var all, rest := before + [Skipped(agent)] + after, before + after;
    DropVisit(before, agent, after);
    PassIsPointwise(rows, all);
    PassIsPointwise(rows, rest);
    forall e | e in rows ensures AfterVisits(rows[e], all) == AfterVisits(rows[e], rest)
      ensures rows[e].agent == agent ==> AfterVisits(rows[e], all) == rows[e]
    {
      WithoutSkipped(rows[e], before, agent, after);
      if rows[e].agent == agent { VisitFound(rows[e], all, |before|); }
    }
  }

  lemma DropVisit(before: seq<Visit>, agent: nat, after: seq<Visit>)
    requires DistinctAgents(before + [Skipped(agent)] + after)
    ensures DistinctAgents(before + after)
    ensures forall i :: 0 <= i < |before| ==> before[i].agent != agent
    ensures forall i :: 0 <= i < |after| ==> after[i].agent != agent
  {
    var all, rest := before + [Skipped(agent)] + after, before + after;
    assert forall i :: 0 <= i < |rest| ==> rest[i] == all[if i < |before| then i else i + 1];
    assert all[|before|] == Skipped(agent);
    assert forall i :: 0 <= i < |before| ==> all[i] == before[i];
    assert forall i :: 0 <= i < |after| ==> all[|before| + 1 + i] == after[i];
  }

  lemma {:induction false} WithoutSkipped(row: Row, before: seq<Visit>, agent: nat, after: seq<Visit>)
    requires forall i :: 0 <= i < |before| ==> before[i].agent != agent
    requires forall i :: 0 <= i < |after| ==> after[i].agent != agent
    ensures AfterVisits(row, before + [Skipped(agent)] + after) == AfterVisits(row, before + after)
    decreases |before|
  {
    if before == [] {
      var all := [Skipped(agent)] + after;
      assert before + [Skipped(agent)] + after == all && before + after == after && all[1..] == after;
      if row.agent == agent { OtherVisits(row, after); }
    } else {
      var rest := before[1..];
      assert (before + [Skipped(agent)] + after)[1..] == rest + [Skipped(agent)] + after;
      assert (before + after)[1..] == rest + after;
      assert forall i :: 0 <= i < |rest| ==> rest[i] == before[i + 1];
      WithoutSkipped(row, rest, agent, after);
    }
  }
}
