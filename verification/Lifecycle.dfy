/**
 Environments against remote hosts: every interleaving of requests, reconcile passes, crashes,
 force deletes and what happens on the hosts by itself.

 A request is a few atomic steps: it reads a row, calls the host, writes the outcome. `Step` is
 one such step of one party. `LifecycleInvariant`, `RowsEvolve` and `BindingIsInjective` hold
 of every run. What becomes of one create, one removal and one list in the middle of a run is in
 `LifecycleRuns`.
 */
module Lifecycle {
  import opened Prelude
  import opened Environments

  /** A container is known by its agent and the id the agent's host gave it. */
  type Key = (nat, string)

  /** A request in flight, between two of its steps. */
  datatype Op =
    | CreateAsked(env: nat, agent: nat, name: string)
    | CreateAccepted(env: nat, agent: nat, name: string, cid: string)
    | CreateRefused(env: nat, agent: nat, name: string, why: string)
    | MoveAsked(env: nat, agent: nat, cid: string, target: Status)
    | MoveDone(env: nat, target: Status)
    | MoveFailed(env: nat, why: string)
    | RemoveAsked(env: nat, agent: nat, cid: string, missing: bool)
    | RemoveDone(env: nat)
    | RemoveFailed(env: nat, why: string)
    | Listed(agent: nat, containers: seq<Container>)
    | Sweeping(agent: nat, found: bool, todo: set<string>, failed: bool)   // an agent being deleted

  datatype World = World(
    now: int,
    agents: set<nat>,
    rows: map<nat, Row>,
    used: set<nat>,               // row ids ever given out
    live: map<Key, bool>,         // containers on the hosts, running or not
    issued: map<Key, string>,     // every id a host ever gave out, with the container's name
    ops: map<nat, Op>)

  datatype Event =
    | Tick(dt: int)
    | AddAgent(agent: nat)
    | Insert(op: nat, env: nat, agent: nat, name: string)
    | HostCreates(op: nat, cid: string)
    | HostRefuses(op: nat, why: string)
    | Finish(op: nat)                         // the request's last write
    | AskMove(op: nat, env: nat, start: bool)
    | HostMoves(op: nat)
    | HostMoveFails(op: nat, why: string)
    | AskRemove(op: nat, env: nat)
    | HostRemoves(op: nat)
    | HostRemoveFails(op: nat, why: string)
    | List(op: nat, agent: nat, containers: seq<Container>)
    | AskDelete(op: nat, agent: nat, force: bool)
    | HostSweeps(op: nat, cid: string)
    | HostSweepFails(op: nat, cid: string)
    | DeleteAgent(op: nat)                    // the deletion's transaction
    | Appears(agent: nat, cid: string, name: string, running: bool)
    | Changes(agent: nat, cid: string, running: bool)
    | Vanishes(agent: nat, cid: string)
    | Dies(op: nat)                           // the process crashes or the request is cancelled

  const EMPTY := World(0, {}, map[], {}, map[], map[], map[])

  predicate NameFree(rows: map<nat, Row>, agent: nat, name: string) {
    forall e :: e in rows ==> rows[e].agent != agent || rows[e].name != name
  }

  /** A fresh, non-empty id of a host. */
  predicate FreshId(w: World, agent: nat, cid: string) {
    cid != "" && (agent, cid) !in w.issued
  }

  /** The list a host returns: its live containers, each once. */
  predicate Snapshot(w: World, agent: nat, containers: seq<Container>) {
    && UniqueIds(containers)
    && (forall i :: 0 <= i < |containers| ==>
          (agent, containers[i].id) in w.live && w.live[(agent, containers[i].id)] == containers[i].running
          && (agent, containers[i].id) in w.issued && w.issued[(agent, containers[i].id)] == containers[i].name)
    && (forall k :: k in w.live && k.0 == agent ==> exists i :: 0 <= i < |containers| && containers[i].id == k.1)
  }

  /** What the deletion of an agent reads: whether it has rows, and the containers they hold. */
  predicate HasRows(rows: map<nat, Row>, agent: nat) {
    exists e :: e in rows && rows[e].agent == agent
  }

  function BoundIds(rows: map<nat, Row>, agent: nat): set<string> {
    set e | e in rows && rows[e].agent == agent && rows[e].cid != "" :: rows[e].cid
  }

  function RowsOfOthers(rows: map<nat, Row>, agent: nat): map<nat, Row> {
    map e | e in rows && rows[e].agent != agent :: rows[e]
  }

  /** Rows are deleted if the read found any; an agent that still has rows is kept. */
  function Deleted(w: World, agent: nat, found: bool): World {
    if found then w.(agents := w.agents - {agent}, rows := RowsOfOthers(w.rows, agent))
    else if HasRows(w.rows, agent) then w
    else w.(agents := w.agents - {agent})
  }

  function SetStatus(rows: map<nat, Row>, env: nat, status: Status, message: string): map<nat, Row> {
    if env in rows then rows[env := rows[env].(status := status, message := message)] else rows
  }

  function Bind(rows: map<nat, Row>, env: nat, cid: string): map<nat, Row> {
    if env in rows then rows[env := rows[env].(cid := cid, status := Stopped, message := "")] else rows
  }

  function WithOp(w: World, id: nat, op: Op): World {
    w.(ops := w.ops[id := op])
  }

  /** The last write of a request. */
  function Written(w: World, op: Op): map<nat, Row> {
    match op
    case CreateAccepted(env, _, _, cid) => Bind(w.rows, env, cid)
    case CreateRefused(env, _, _, why) => SetStatus(w.rows, env, Error, why)
    case MoveDone(env, target) => SetStatus(w.rows, env, target, "")
    case MoveFailed(env, why) => SetStatus(w.rows, env, Error, why)
    case RemoveDone(env) => w.rows - {env}
    case RemoveFailed(env, why) => SetStatus(w.rows, env, Error, why)
    case Listed(agent, containers) => ReconciledRows(w.rows, agent, containers, w.now)
    case _ => w.rows
  }

  predicate Asking(op: Op) {
    op.CreateAsked? || op.MoveAsked? || op.RemoveAsked? || op.Sweeping?
  }

  /** Who may start a request on a row: the transition table, and the guard on removal. */
  predicate CanMove(row: Row, start: bool) {
    row.status == if start then Stopped else Running
  }

  predicate CanRemove(row: Row, now: int) {
    !(row.status == Creating && Young(row, now))
  }

  predicate Enabled(w: World, e: Event) {
    match e
    case Tick(dt) => dt >= 0
    case AddAgent(_) => true
    case Insert(op, env, agent, name) =>
      op !in w.ops && env !in w.used && agent in w.agents && NameFree(w.rows, agent, name)
    case HostCreates(op, cid) => op in w.ops && w.ops[op].CreateAsked? && FreshId(w, w.ops[op].agent, cid)
    case HostRefuses(op, why) => op in w.ops && w.ops[op].CreateAsked? && why != ""
    case Finish(op) => op in w.ops && !Asking(w.ops[op])
    case AskMove(op, env, start) => op !in w.ops && env in w.rows && CanMove(w.rows[env], start)
    case HostMoves(op) => op in w.ops && w.ops[op].MoveAsked?
    case HostMoveFails(op, why) => op in w.ops && w.ops[op].MoveAsked? && why != ""
    case AskRemove(op, env) => op !in w.ops && env in w.rows && CanRemove(w.rows[env], w.now)
    case HostRemoves(op) => op in w.ops && w.ops[op].RemoveAsked?
    case HostRemoveFails(op, why) => op in w.ops && w.ops[op].RemoveAsked? && why != ""
    case List(op, agent, containers) => op !in w.ops && Snapshot(w, agent, containers)
    case AskDelete(op, agent, force) => op !in w.ops && agent in w.agents && (force || !HasRows(w.rows, agent))
    case HostSweeps(op, cid) => op in w.ops && w.ops[op].Sweeping? && cid in w.ops[op].todo
    case HostSweepFails(op, cid) => op in w.ops && w.ops[op].Sweeping? && cid in w.ops[op].todo
    case DeleteAgent(op) => op in w.ops && w.ops[op].Sweeping? && w.ops[op].todo == {} && !w.ops[op].failed
    case Appears(agent, cid, _, _) => FreshId(w, agent, cid)
    case Changes(agent, cid, _) => (agent, cid) in w.live
    case Vanishes(_, _) => true
    case Dies(op) => op in w.ops
  }

  function Step(w: World, e: Event): World
    requires Enabled(w, e)
  {
    match e
    case Tick(dt) => w.(now := w.now + dt)
    case AddAgent(agent) => w.(agents := w.agents + {agent})
    case Insert(op, env, agent, name) =>
      WithOp(w.(rows := w.rows[env := Row(agent, name, "", Creating, "", w.now)], used := w.used + {env}),
             op, CreateAsked(env, agent, name))
    case HostCreates(op, cid) =>
      var o := w.ops[op];
      WithOp(w.(live := w.live[(o.agent, cid) := false], issued := w.issued[(o.agent, cid) := o.name]),
             op, CreateAccepted(o.env, o.agent, o.name, cid))
    case HostRefuses(op, why) =>
      var o := w.ops[op];
      WithOp(w, op, CreateRefused(o.env, o.agent, o.name, why))
    case Finish(op) => w.(rows := Written(w, w.ops[op]), ops := w.ops - {op})
    case AskMove(op, env, start) =>
      WithOp(w, op, MoveAsked(env, w.rows[env].agent, w.rows[env].cid, if start then Running else Stopped))
    case HostMoves(op) =>
      var o := w.ops[op];
      var key := (o.agent, o.cid);
      WithOp(w.(live := if key in w.live then w.live[key := o.target == Running] else w.live), op, MoveDone(o.env, o.target))
    case HostMoveFails(op, why) => WithOp(w, op, MoveFailed(w.ops[op].env, why))
    case AskRemove(op, env) =>
      var row := w.rows[env];
      WithOp(w, op,
             if row.cid == "" then RemoveDone(env)
             else RemoveAsked(env, row.agent, row.cid, row.message == CONTAINER_MISSING))
    case HostRemoves(op) =>
      var o := w.ops[op];
      WithOp(w.(live := w.live - {(o.agent, o.cid)}), op, RemoveDone(o.env))
    case HostRemoveFails(op, why) =>
      var o := w.ops[op];
      WithOp(w, op, if o.missing then RemoveDone(o.env) else RemoveFailed(o.env, why))
    case List(op, agent, containers) => WithOp(w, op, Listed(agent, containers))
    case AskDelete(op, agent, force) =>
      WithOp(w, op, Sweeping(agent, HasRows(w.rows, agent), BoundIds(w.rows, agent), false))
    case HostSweeps(op, cid) =>
      var o := w.ops[op];
      WithOp(w.(live := w.live - {(o.agent, cid)}), op, o.(todo := o.todo - {cid}))
    case HostSweepFails(op, cid) =>
      var o := w.ops[op];
      WithOp(w, op, o.(todo := o.todo - {cid}, failed := true))
    case DeleteAgent(op) =>
      Deleted(w, w.ops[op].agent, w.ops[op].found).(ops := w.ops - {op})
    case Appears(agent, cid, name, running) =>
      w.(live := w.live[(agent, cid) := running], issued := w.issued[(agent, cid) := name])
    case Changes(agent, cid, running) => w.(live := w.live[(agent, cid) := running])
    case Vanishes(agent, cid) => w.(live := w.live - {(agent, cid)})
    case Dies(op) => w.(ops := w.ops - {op})
  }

  // ----- the invariant -----

  /** Status, container id and message agree. */
  predicate RowConsistent(row: Row) {
    match row.status
    case Creating => row.cid == "" && row.message == ""
    case Error => row.message != ""
    case _ => row.cid != "" && row.message == ""
  }

  /** A bound id belongs to a container that carries the row's name. */
  predicate Bound(w: World, row: Row) {
    row.cid != "" ==> (row.agent, row.cid) in w.issued && w.issued[(row.agent, row.cid)] == row.name
  }

  predicate RowsGood(w: World) {
    && (forall e :: e in w.rows ==> e in w.used && RowConsistent(w.rows[e]) && Bound(w, w.rows[e]))
    && (forall e, f :: e in w.rows && f in w.rows && e != f ==>
          w.rows[e].agent != w.rows[f].agent || w.rows[e].name != w.rows[f].name)
    && (forall k :: k in w.issued ==> k.1 != "")
  }

  predicate OwnRow(w: World, env: nat, agent: nat, name: string) {
    env in w.used && (env in w.rows ==> w.rows[env].agent == agent && w.rows[env].name == name)
  }

  predicate HasContainer(w: World, env: nat) {
    env in w.used && (env in w.rows ==> w.rows[env].cid != "" && w.rows[env].status != Creating)
  }

  /** What a request remembers is still true of its row. */
  predicate OpGood(w: World, op: Op) {
    match op
    case CreateAsked(env, agent, name) => OwnRow(w, env, agent, name)
    case CreateAccepted(env, agent, name, cid) =>
      OwnRow(w, env, agent, name) && cid != "" && (agent, cid) in w.issued && w.issued[(agent, cid)] == name
    case CreateRefused(env, agent, name, why) => OwnRow(w, env, agent, name) && why != ""
    case MoveAsked(env, agent, cid, target) => HasContainer(w, env) && (target == Running || target == Stopped)
    case MoveDone(env, target) => HasContainer(w, env) && (target == Running || target == Stopped)
    case MoveFailed(env, why) => HasContainer(w, env) && why != ""
    case RemoveAsked(env, agent, cid, missing) => HasContainer(w, env)
    case RemoveDone(env) => env in w.used
    case RemoveFailed(env, why) => HasContainer(w, env) && why != ""
    case Listed(agent, containers) =>
      forall c :: c in containers ==> c.id != "" && (agent, c.id) in w.issued && w.issued[(agent, c.id)] == c.name
    case Sweeping(agent, found, todo, failed) => forall cid :: cid in todo ==> (agent, cid) in w.issued
  }

  /** Only issued ids are live. */
  predicate LiveIssued(w: World) {
    forall k :: k in w.live ==> k in w.issued
  }

  predicate Good(w: World) {
    RowsGood(w) && LiveIssued(w) && forall id :: id in w.ops ==> OpGood(w, w.ops[id])
  }

  // ----- how one step may change rows -----

  predicate Evolves(a: Row, b: Row) {
    && b.agent == a.agent && b.name == a.name && b.created == a.created
    && (a.cid != "" ==> b.cid != "")
    && (a.status != Creating ==> b.status != Creating)
  }

  /** Ids are never reused, issued ids keep their names, a container once gone stays gone, rows
      only evolve. */
  predicate Follows(w: World, t: World) {
    && w.used <= t.used && w.now <= t.now
    && (forall k :: k in w.issued ==> k in t.issued && t.issued[k] == w.issued[k])
    && (forall k :: k in t.live && k in w.issued ==> k in w.live)
    && (forall e :: e in t.rows && e in w.used ==> e in w.rows && Evolves(w.rows[e], t.rows[e]))
  }

  lemma FollowsTransitive(a: World, b: World, c: World)
    ensures Follows(a, b) && Follows(b, c) ==> Follows(a, c)
  {
    if Follows(a, b) && Follows(b, c) {
      forall e | e in c.rows && e in a.used ensures e in a.rows && Evolves(a.rows[e], c.rows[e]) {
        assert e in b.rows && Evolves(b.rows[e], c.rows[e]);
      }
    }
  }

  /** A request stays good whatever the others do. */
  lemma OpStaysGood(w: World, t: World, op: Op)
    requires OpGood(w, op) && Follows(w, t)
    ensures OpGood(t, op)
  {
  }

  /** Rows that only evolve in place keep the row part of the invariant, given each new row is good. */
  lemma RowsStayGood(w: World, rows: map<nat, Row>)
    requires RowsGood(w) && rows.Keys <= w.rows.Keys
    requires forall e :: e in rows ==> Evolves(w.rows[e], rows[e]) && RowConsistent(rows[e]) && Bound(w, rows[e])
    ensures RowsGood(w.(rows := rows)) && Follows(w, w.(rows := rows))
  {
    forall e, f | e in rows && f in rows && e != f
      ensures rows[e].agent != rows[f].agent || rows[e].name != rows[f].name
    {
      assert Evolves(w.rows[e], rows[e]) && Evolves(w.rows[f], rows[f]);
    }
  }

  lemma ReconciledGood(w: World, row: Row, containers: seq<Container>)
    requires RowConsistent(row) && Bound(w, row) && OpGood(w, Listed(row.agent, containers))
    ensures var after := Reconciled(row, containers, w.now);
            Evolves(row, after) && RowConsistent(after) && Bound(w, after)
  {
    FoundByName(containers, row.name);
    assert CREATE_NEVER_COMPLETED != "" && CONTAINER_MISSING != "";
  }

  lemma WrittenGood(w: World, op: Op)
    requires RowsGood(w) && OpGood(w, op)
    ensures RowsGood(w.(rows := Written(w, op))) && Follows(w, w.(rows := Written(w, op)))
  {
    var rows := Written(w, op);
    forall e | e in rows ensures Evolves(w.rows[e], rows[e]) && RowConsistent(rows[e]) && Bound(w, rows[e]) {
      if op.Listed? && w.rows[e].agent == op.agent {
        ReconciledGood(w, w.rows[e], op.containers);
      }
    }
    RowsStayGood(w, rows);
  }

  lemma InsertGood(w: World, env: nat, agent: nat, name: string)
    requires RowsGood(w) && env !in w.used && NameFree(w.rows, agent, name)
    ensures var t := w.(rows := w.rows[env := Row(agent, name, "", Creating, "", w.now)], used := w.used + {env});
            RowsGood(t) && Follows(w, t)
  {
  }

  lemma IssueGood(w: World, agent: nat, cid: string, name: string, running: bool)
    requires RowsGood(w) && LiveIssued(w) && FreshId(w, agent, cid)
    ensures var t := w.(live := w.live[(agent, cid) := running], issued := w.issued[(agent, cid) := name]);
            RowsGood(t) && Follows(w, t)
  {
  }

  lemma DeletedGood(w: World, agent: nat, found: bool)
    requires RowsGood(w)
    ensures RowsGood(Deleted(w, agent, found)) && Follows(w, Deleted(w, agent, found))
  {
    RowsStayGood(w, if found then RowsOfOthers(w.rows, agent) else w.rows);
  }

  lemma SameRowsGood(w: World, t: World)
    requires RowsGood(w) && t.rows == w.rows && t.used == w.used && t.issued == w.issued && w.now <= t.now
    requires t.live.Keys <= w.live.Keys
    ensures RowsGood(t) && Follows(w, t)
  {
  }

  /** Only these steps touch rows or issue ids. */
  predicate Writes(e: Event) {
    e.Insert? || e.HostCreates? || e.Finish? || e.DeleteAgent? || e.Appears?
  }

  lemma QuietStep(w: World, e: Event)
    requires Enabled(w, e) && !Writes(e)
    ensures var t := Step(w, e);
            t.rows == w.rows && t.used == w.used && t.issued == w.issued && w.now <= t.now && t.live.Keys <= w.live.Keys
  {
  }

  lemma StepRowsGood(w: World, e: Event)
    requires Good(w) && Enabled(w, e)
    ensures RowsGood(Step(w, e)) && Follows(w, Step(w, e))
  {
    if !Writes(e) {
      QuietStep(w, e);
      SameRowsGood(w, Step(w, e));
    } else {
      WritingStep(w, e);
    }
  }

  lemma WritingStep(w: World, e: Event)
    requires Good(w) && Enabled(w, e) && Writes(e)
    ensures RowsGood(Step(w, e)) && Follows(w, Step(w, e))
  {
    match e
    case Insert(op, env, agent, name) => InsertGood(w, env, agent, name);
    case HostCreates(op, cid) => IssueGood(w, w.ops[op].agent, cid, w.ops[op].name, false);
    case Finish(op) => WrittenGood(w, w.ops[op]);
    case DeleteAgent(op) => DeletedGood(w, w.ops[op].agent, w.ops[op].found);
    case Appears(agent, cid, name, running) => IssueGood(w, agent, cid, name, running);
  }

  /** A step of a list or of a deletion. */
  predicate AboutAgent(e: Event) {
    e.List? || e.AskDelete? || e.HostSweeps? || e.HostSweepFails?
  }

  lemma AgentOpGood(w: World, e: Event, id: nat)
    requires Good(w) && Enabled(w, e) && AboutAgent(e) && id in Step(w, e).ops
    requires id in w.ops ==> Step(w, e).ops[id] != w.ops[id]
    ensures OpGood(Step(w, e), Step(w, e).ops[id])
  {
    if id in w.ops { assert OpGood(w, w.ops[id]); }
    match e
    case List(op, agent, containers) => SnapshotGood(w, agent, containers);
    case AskDelete(op, agent, force) => BoundIdsIssued(w, agent);
    case _ =>
  }

  /** The request a step starts or moves on is good afterwards. */
  lemma NewOpGood(w: World, e: Event, id: nat)
    requires Good(w) && Enabled(w, e) && id in Step(w, e).ops
    requires id in w.ops ==> Step(w, e).ops[id] != w.ops[id]
    ensures OpGood(Step(w, e), Step(w, e).ops[id])
  {
    if AboutAgent(e) {
      AgentOpGood(w, e, id);
    } else {
      if id in w.ops { assert OpGood(w, w.ops[id]); }
      match e
      case AskMove(op, env, start) => assert RowConsistent(w.rows[env]);
      case AskRemove(op, env) => assert RowConsistent(w.rows[env]);
      case _ =>
    }
  }

  lemma BoundIdsIssued(w: World, agent: nat)
    requires RowsGood(w)
    ensures forall cid :: cid in BoundIds(w.rows, agent) ==> (agent, cid) in w.issued
  {
    forall cid | cid in BoundIds(w.rows, agent) ensures (agent, cid) in w.issued {
      var e :| e in w.rows && w.rows[e].agent == agent && w.rows[e].cid != "" && w.rows[e].cid == cid;
      assert Bound(w, w.rows[e]);
    }
  }

  lemma SnapshotGood(w: World, agent: nat, containers: seq<Container>)
    requires RowsGood(w) && Snapshot(w, agent, containers)
    ensures OpGood(w, Listed(agent, containers))
  {
    forall c | c in containers ensures c.id != "" && (agent, c.id) in w.issued && w.issued[(agent, c.id)] == c.name {
      var i :| 0 <= i < |containers| && containers[i] == c;
      assert (agent, c.id) in w.issued;
    }
  }

  /** Only issued ids are live, and an id is live once issued. */
  lemma LiveStep(w: World, e: Event)
    requires LiveIssued(w) && Enabled(w, e)
    ensures LiveIssued(Step(w, e))
    ensures forall key :: key in Step(w, e).issued && key !in w.issued ==> key in Step(w, e).live
  {
  }

  lemma GoodStep(w: World, e: Event)
    requires Good(w) && Enabled(w, e)
    ensures Good(Step(w, e)) && Follows(w, Step(w, e))
  {
    var t := Step(w, e);
    StepRowsGood(w, e);
    LiveStep(w, e);
    forall id | id in t.ops ensures OpGood(t, t.ops[id]) {
      if id in w.ops && t.ops[id] == w.ops[id] {
        OpStaysGood(w, t, w.ops[id]);
      } else {
        NewOpGood(w, e, id);
      }
    }
  }

  // ----- runs -----

  predicate Possible(w: World, events: seq<Event>)
    decreases |events|
  {
    events == [] || (Enabled(w, events[0]) && Possible(Step(w, events[0]), events[1..]))
  }

  function After(w: World, events: seq<Event>): World
    requires Possible(w, events)
    decreases |events|
  {
    if events == [] then w else After(Step(w, events[0]), events[1..])
  }

  lemma {:induction false} GoodRun(w: World, events: seq<Event>)
    requires Good(w) && Possible(w, events)
    ensures Good(After(w, events)) && Follows(w, After(w, events))
    decreases |events|
  {
    if events == [] {
    } else {
      GoodStep(w, events[0]);
      GoodRun(Step(w, events[0]), events[1..]);
      FollowsTransitive(w, Step(w, events[0]), After(w, events));
    }
  }

  /** After every run each row's status, container id and message agree. */
  lemma LifecycleInvariant(events: seq<Event>)
    requires Possible(EMPTY, events)
    ensures forall e :: e in After(EMPTY, events).rows ==> RowConsistent(After(EMPTY, events).rows[e])
  {
    GoodRun(EMPTY, events);
  }

  /** From any moment of a run to any later one: a row keeps its agent, name and time, a container
      id once set is never cleared, no row returns to creating, no deleted row comes back. */
  lemma RowsEvolve(events: seq<Event>, more: seq<Event>, env: nat)
    requires Possible(EMPTY, events) && Possible(After(EMPTY, events), more)
    requires env in After(EMPTY, events).used && env in After(After(EMPTY, events), more).rows
    ensures var w, t := After(EMPTY, events), After(After(EMPTY, events), more);
            env in w.rows && Evolves(w.rows[env], t.rows[env])
  {
    GoodRun(EMPTY, events);
    GoodRun(After(EMPTY, events), more);
  }

  /** Two rows of one agent never hold the same container. */
  lemma BindingIsInjective(events: seq<Event>, e: nat, f: nat)
    requires Possible(EMPTY, events)
    requires var w := After(EMPTY, events);
             e in w.rows && f in w.rows && e != f && w.rows[e].agent == w.rows[f].agent && w.rows[e].cid != ""
    ensures After(EMPTY, events).rows[e].cid != After(EMPTY, events).rows[f].cid
  {
    GoodRun(EMPTY, events);
  }

  // ----- what a reconcile establishes -----

  /** A row that agrees with the host about its container. */
  predicate Truthful(w: World, row: Row) {
    var key := (row.agent, row.cid);
    if key in w.live then row.message == "" && row.status == (if w.live[key] then Running else Stopped)
    else row.status == Error && row.message == CONTAINER_MISSING
  }

  lemma ListThenApply(w: World, op: nat, agent: nat, containers: seq<Container>, e: nat)
    requires Enabled(w, List(op, agent, containers)) && e in w.rows && w.rows[e].agent == agent
    ensures var listed := Step(w, List(op, agent, containers));
            && Enabled(listed, Finish(op))
            && var t := Step(listed, Finish(op));
               e in t.rows && t.rows[e] == Reconciled(w.rows[e], containers, w.now)
               && t.live == w.live && t.issued == w.issued
  {
  }

  /** A list applied at once tells the truth of every bound row. */
  lemma FreshListTellsTruth(w: World, op: nat, agent: nat, containers: seq<Container>, e: nat)
    requires Good(w) && Enabled(w, List(op, agent, containers))
    requires e in w.rows && w.rows[e].agent == agent && w.rows[e].cid != ""
    ensures var t := Step(Step(w, List(op, agent, containers)), Finish(op));
            e in t.rows && t.rows[e].cid == w.rows[e].cid && Truthful(t, t.rows[e])
  {
    assert RowConsistent(w.rows[e]);
    ListThenApply(w, op, agent, containers, e);
    ListedExactly(w, agent, containers, w.rows[e].cid);
  }

  lemma ListedExactly(w: World, agent: nat, containers: seq<Container>, cid: string)
    requires Snapshot(w, agent, containers)
    ensures var c := ById(containers, cid);
            (c.Some? <==> (agent, cid) in w.live) && (c.Some? ==> c.value.running == w.live[(agent, cid)])
  {
    FoundById(containers, cid);
    if (agent, cid) in w.live {
      var i :| 0 <= i < |containers| && containers[i].id == cid;
      assert containers[i] in containers;
    }
    var c := ById(containers, cid);
    if c.Some? {
      var i :| 0 <= i < |containers| && containers[i] == c.value;
    }
  }

  /** A live container of the agent that carries the name. */
  predicate Carries(w: World, agent: nat, cid: string, name: string) {
    (agent, cid) in w.live && (agent, cid) in w.issued && w.issued[(agent, cid)] == name
  }

  /** A create past its grace is settled: bound to a live container that carries its name if there
      is one, and else marked as never completed. */
  lemma FreshListSettlesCreate(w: World, op: nat, agent: nat, containers: seq<Container>, e: nat)
    requires Good(w) && Enabled(w, List(op, agent, containers))
    requires e in w.rows && w.rows[e].agent == agent && w.rows[e].status == Creating && !Young(w.rows[e], w.now)
    ensures var t := Step(Step(w, List(op, agent, containers)), Finish(op));
            && e in t.rows
            && (if exists cid :: Carries(w, agent, cid, w.rows[e].name)
                then Carries(t, agent, t.rows[e].cid, w.rows[e].name) && Truthful(t, t.rows[e])
                else t.rows[e] == w.rows[e].(status := Error, message := CREATE_NEVER_COMPLETED))
  {
    var name := w.rows[e].name;
    ListThenApply(w, op, agent, containers, e);
    FoundByName(containers, name);
    var c := ByName(containers, name);
    if c.Some? {
      var i :| 0 <= i < |containers| && containers[i] == c.value;
      assert Carries(w, agent, c.value.id, name);
    } else if cid :| Carries(w, agent, cid, name) {
      NamedIsListed(w, agent, containers, cid);
    }
  }

  lemma NamedIsListed(w: World, agent: nat, containers: seq<Container>, cid: string)
    requires Snapshot(w, agent, containers) && (agent, cid) in w.live && (agent, cid) in w.issued
    ensures exists c :: c in containers && c.name == w.issued[(agent, cid)]
  {
    var i :| 0 <= i < |containers| && containers[i].id == cid;
    assert containers[i] in containers;
  }
}
