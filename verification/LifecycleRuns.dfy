/**
 One request in the middle of a run, whatever the others do in between: what becomes of the row
 of a create, what a removal leaves behind, and what a list taken earlier can get wrong.

 `RowGoneExactly` says when a create loses its row, `RemovalDropsLiveExactly` when a removal
 drops the row of a container that is still there, `LiveMarkedMissingExactly` when a container
 that is there is reported missing. Each has a run in which it happens.
 */
module LifecycleRuns {
  import opened Prelude
  import opened Environments
  import opened Lifecycle

  // ----- moments of a run -----

  /** The world after k of the events. */
  function At(w: World, events: seq<Event>, k: nat): World
    requires Possible(w, events) && k <= |events|
    decreases k
  {
    if k == 0 then w else At(Step(w, events[0]), events[1..], k - 1)
  }

  lemma {:induction false} AtEnd(w: World, events: seq<Event>)
    requires Possible(w, events)
    ensures At(w, events, |events|) == After(w, events)
    decreases |events|
  {
    if events != [] {
      AtEnd(Step(w, events[0]), events[1..]);
    }
  }

  lemma {:induction false} AtNext(w: World, events: seq<Event>, k: nat)
    requires Possible(w, events) && k < |events|
    ensures Enabled(At(w, events, k), events[k])
    ensures At(w, events, k + 1) == Step(At(w, events, k), events[k])
    decreases k
  {
    if k > 0 {
      AtNext(Step(w, events[0]), events[1..], k - 1);
    }
  }

  lemma FollowsItself(w: World)
    ensures Follows(w, w)
  {
  }

  /** Every later moment follows every earlier one. */
  lemma {:induction false} AtFollows(w: World, events: seq<Event>, j: nat, k: nat)
    requires Good(w) && Possible(w, events) && j <= k <= |events|
    ensures Good(At(w, events, k)) && Follows(At(w, events, j), At(w, events, k))
    decreases k
  {
    if j < k {
      AtFollows(w, events, j, k - 1);
      AtNext(w, events, k - 1);
      GoodStep(At(w, events, k - 1), events[k - 1]);
      FollowsTransitive(At(w, events, j), At(w, events, k - 1), At(w, events, k));
    } else {
      FollowsItself(At(w, events, k));
      if k > 0 {
        AtFollows(w, events, k - 1, k - 1);
        AtNext(w, events, k - 1);
        GoodStep(At(w, events, k - 1), events[k - 1]);
      }
    }
  }

  /** The request neither writes its outcome nor dies during the events. */
  predicate Keeps(events: seq<Event>, id: nat) {
    forall i :: 0 <= i < |events| ==> events[i] != Finish(id) && events[i] != Dies(id) && events[i] != DeleteAgent(id)
  }

  // ----- a create in flight -----

  predicate CreateOp(op: Op) {
    op.CreateAsked? || op.CreateAccepted? || op.CreateRefused?
  }

  function Target(op: Op): Option<nat> {
    if op.Listed? || op.Sweeping? then None else Some(op.env)
  }

  /** The create of a row, by its request. */
  datatype Create = Create(id: nat, env: nat, agent: nat, name: string, start: int) {
    function AsInserted(): Row { Row(agent, name, "", Creating, "", start) }
  }

  /** No other request is about the row. */
  predicate Alone(w: World, c: Create) {
    forall other :: other in w.ops && other != c.id ==> Target(w.ops[other]) != Some(c.env)
  }

  predicate InFlight(w: World, c: Create) {
    && c.id in w.ops && CreateOp(w.ops[c.id])
    && w.ops[c.id].env == c.env && w.ops[c.id].agent == c.agent && w.ops[c.id].name == c.name
  }

  /** Within its grace the row, while it is there, is as inserted and no one else's business. */
  predicate Shielded(w: World, c: Create) {
    && InFlight(w, c) && c.env in w.used && c.start <= w.now
    && (c.env in w.rows ==> Evolves(c.AsInserted(), w.rows[c.env]))
    && (Young(c.AsInserted(), w.now) ==> (c.env in w.rows ==> w.rows[c.env] == c.AsInserted()) && Alone(w, c))
  }

  /** The step deletes the agent together with its rows. */
  predicate Deletes(w: World, e: Event, agent: nat) {
    e.DeleteAgent? && e.op in w.ops && w.ops[e.op].Sweeping? && w.ops[e.op].agent == agent && w.ops[e.op].found
  }

  predicate DeletedAt(s: World, events: seq<Event>, agent: nat, k: nat)
    requires Possible(s, events)
  {
    k < |events| && Deletes(At(s, events, k), events[k], agent)
  }

  ghost predicate AgentDeleted(s: World, events: seq<Event>, agent: nat)
    requires Possible(s, events)
  {
    exists k :: DeletedAt(s, events, agent, k)
  }

  lemma InFlightStep(w: World, e: Event, c: Create)
    requires Enabled(w, e) && InFlight(w, c) && e != Finish(c.id) && e != Dies(c.id)
    ensures InFlight(Step(w, e), c)
  {
  }

  lemma TargetStep(w: World, e: Event, id: nat)
    requires Enabled(w, e) && id in w.ops && id in Step(w, e).ops
    ensures Target(Step(w, e).ops[id]) == Target(w.ops[id])
  {
  }

  /** Within the grace only a deletion of its agent takes the row away, and nothing changes it. */
  lemma YoungRowStep(w: World, e: Event, c: Create)
    requires Good(w) && Enabled(w, e) && Shielded(w, c) && Young(c.AsInserted(), w.now) && e != Finish(c.id)
    requires c.env in w.rows
    ensures c.env in Step(w, e).rows <==> !Deletes(w, e, c.agent)
    ensures c.env in Step(w, e).rows ==> Step(w, e).rows[c.env] == c.AsInserted()
  {
    if !Writes(e) {
      QuietStep(w, e);
    } else if e.Finish? {
      assert Target(w.ops[e.op]) != Some(c.env);
      YoungRowWrite(w, w.ops[e.op], c);
    }
  }

  lemma YoungRowWrite(w: World, op: Op, c: Create)
    requires c.env in w.rows && w.rows[c.env] == c.AsInserted() && Young(c.AsInserted(), w.now) && Target(op) != Some(c.env)
    ensures c.env in Written(w, op) && Written(w, op)[c.env] == c.AsInserted()
  {
  }

  /** A request that starts within the grace is about another row. */
  lemma NewTarget(w: World, e: Event, c: Create, other: nat)
    requires Good(w) && Enabled(w, e) && Shielded(w, c) && Young(c.AsInserted(), w.now)
    requires other !in w.ops && other in Step(w, e).ops
    ensures Target(Step(w, e).ops[other]) != Some(c.env)
  {
    match e
    case Insert(_, env, _, _) => assert env != c.env;
    case AskMove(_, env, _) => assert env != c.env;
    case AskRemove(_, env) => assert env != c.env;
    case _ =>
  }

  lemma AloneStep(w: World, e: Event, c: Create)
    requires Good(w) && Enabled(w, e) && Shielded(w, c) && Young(c.AsInserted(), w.now)
    ensures Alone(Step(w, e), c)
  {
    forall other | other in Step(w, e).ops && other != c.id ensures Target(Step(w, e).ops[other]) != Some(c.env) {
      if other in w.ops { TargetStep(w, e, other); } else { NewTarget(w, e, c, other); }
    }
  }

  /** Whatever anyone does, to this row or to others, a create stays shielded until its last write. */
  lemma ShieldedStep(w: World, e: Event, c: Create)
    requires Good(w) && Enabled(w, e) && Shielded(w, c) && e != Finish(c.id) && e != Dies(c.id)
    ensures Shielded(Step(w, e), c)
  {
    var t := Step(w, e);
    GoodStep(w, e);
    InFlightStep(w, e, c);
    assert c.env in t.rows ==> c.env in w.rows && Evolves(w.rows[c.env], t.rows[c.env]);
    if Young(c.AsInserted(), t.now) {
      assert Young(c.AsInserted(), w.now);
      AloneStep(w, e, c);
      if c.env in t.rows { YoungRowStep(w, e, c); }
    }
  }

  function InsertOf(c: Create): Event {
    Event.Insert(c.id, c.env, c.agent, c.name)
  }

  /** A create that starts now, in any world the invariant allows. */
  predicate Starts(w: World, c: Create) {
    Good(w) && c.start == w.now && Enabled(w, InsertOf(c))
  }

  lemma StartShielded(w: World, c: Create)
    requires Starts(w, c)
    ensures var s := Step(w, InsertOf(c));
            Good(s) && Shielded(s, c) && Alone(s, c) && c.env in s.rows
  {
    var s := Step(w, InsertOf(c));
    GoodStep(w, InsertOf(c));
    forall other | other in s.ops && other != c.id ensures Target(s.ops[other]) != Some(c.env) {
      assert OpGood(w, w.ops[other]);
    }
  }

  lemma {:induction false} ShieldedAt(s: World, events: seq<Event>, c: Create, k: nat)
    requires Good(s) && Shielded(s, c) && Possible(s, events) && Keeps(events, c.id) && k <= |events|
    ensures Shielded(At(s, events, k), c)
    decreases k
  {
    if k > 0 {
      ShieldedAt(s, events, c, k - 1);
      AtNext(s, events, k - 1);
      AtFollows(s, events, 0, k - 1);
      ShieldedStep(At(s, events, k - 1), events[k - 1], c);
    }
  }

  // ----- how a create loses its row -----

  /** A removal of the row was asked for when the create was past its grace. */
  predicate AskedLate(s: World, events: seq<Event>, c: Create, o: nat, j: nat)
    requires Possible(s, events)
  {
    j < |events| && events[j] == AskRemove(o, c.env) && At(s, events, j).now - c.start >= CREATE_GRACE
  }

  /** Such a removal went through. */
  predicate RemovedLate(s: World, events: seq<Event>, c: Create, o: nat, j: nat, k: nat)
    requires Possible(s, events)
  {
    && j < k < |events| && AskedLate(s, events, c, o, j)
    && events[k] == Finish(o) && o in At(s, events, k).ops && At(s, events, k).ops[o] == RemoveDone(c.env)
  }

  /** What takes the row away: a deletion of the agent, or a removal asked for past the grace. */
  ghost predicate RowLost(s: World, events: seq<Event>, c: Create)
    requires Possible(s, events)
  {
    AgentDeleted(s, events, c.agent) || exists o, j, k :: RemovedLate(s, events, c, o, j, k)
  }

  predicate Removing(op: Op, env: nat) {
    (op.RemoveAsked? || op.RemoveDone? || op.RemoveFailed?) && op.env == env
  }

  lemma AskedPastGrace(w: World, c: Create, o: nat)
    requires Shielded(w, c) && Enabled(w, AskRemove(o, c.env))
    ensures w.now - c.start >= CREATE_GRACE
  {
  }

  lemma RemovingBegins(w: World, e: Event, env: nat, o: nat)
    requires Enabled(w, e) && o in Step(w, e).ops && Removing(Step(w, e).ops[o], env)
    ensures e == AskRemove(o, env) || (o in w.ops && Removing(w.ops[o], env))
  {
  }

  lemma NobodyRemoves(w: World, c: Create, o: nat)
    requires InFlight(w, c) && Alone(w, c) && o in w.ops
    ensures !Removing(w.ops[o], c.env)
  {
    assert o != c.id ==> Target(w.ops[o]) != Some(c.env);
  }

  lemma {:induction false} AskedBefore(s: World, events: seq<Event>, c: Create, k: nat, o: nat) returns (j: nat)
    requires Good(s) && Shielded(s, c) && Alone(s, c) && Possible(s, events) && Keeps(events, c.id) && k <= |events|
    requires o in At(s, events, k).ops && Removing(At(s, events, k).ops[o], c.env)
    ensures j < k && AskedLate(s, events, c, o, j)
    decreases k
  {
    if k == 0 {
      NobodyRemoves(s, c, o);
      assert false;
    } else {
      var w := At(s, events, k - 1);
      AtNext(s, events, k - 1);
      ShieldedAt(s, events, c, k - 1);
      RemovingBegins(w, events[k - 1], c.env, o);
      if o in w.ops && Removing(w.ops[o], c.env) {
        j := AskedBefore(s, events, c, k - 1, o);
      } else {
        AskedPastGrace(w, c, o);
        j := k - 1;
      }
    }
  }

  lemma RowTaken(w: World, e: Event, c: Create)
    requires Shielded(w, c) && Enabled(w, e) && c.env in w.rows && c.env !in Step(w, e).rows
    ensures Deletes(w, e, c.agent) || (e.Finish? && w.ops[e.op] == RemoveDone(c.env))
  {
  }

  lemma {:induction false} GoneMeansLost(s: World, events: seq<Event>, c: Create, k: nat)
    requires Good(s) && Shielded(s, c) && Alone(s, c) && c.env in s.rows
    requires Possible(s, events) && Keeps(events, c.id) && k <= |events| && c.env !in At(s, events, k).rows
    ensures RowLost(s, events, c)
    decreases k
  {
    if k > 0 {
      var w, e := At(s, events, k - 1), events[k - 1];
      AtNext(s, events, k - 1);
      if c.env !in w.rows {
        GoneMeansLost(s, events, c, k - 1);
      } else {
        ShieldedAt(s, events, c, k - 1);
        RowTaken(w, e, c);
        if Deletes(w, e, c.agent) {
          assert DeletedAt(s, events, c.agent, k - 1);
        } else {
          var j := AskedBefore(s, events, c, k - 1, e.op);
          assert RemovedLate(s, events, c, e.op, j, k - 1);
        }
      }
    }
  }

  lemma GoneStays(s: World, events: seq<Event>, env: nat, k: nat)
    requires Good(s) && Possible(s, events) && k <= |events|
    requires env in At(s, events, k).used && env !in At(s, events, k).rows
    ensures env !in After(s, events).rows
  {
    AtFollows(s, events, k, |events|);
    AtEnd(s, events);
  }

  lemma TakesRow(w: World, e: Event, c: Create)
    requires Shielded(w, c) && Enabled(w, e)
    requires Deletes(w, e, c.agent) || (e.Finish? && w.ops[e.op] == RemoveDone(c.env))
    ensures c.env in Step(w, e).used && c.env !in Step(w, e).rows
  {
  }

  lemma LostAt(s: World, events: seq<Event>, c: Create, k: nat)
    requires Good(s) && Shielded(s, c) && Possible(s, events) && Keeps(events, c.id) && k < |events|
    requires DeletedAt(s, events, c.agent, k)
          || (events[k].Finish? && events[k].op in At(s, events, k).ops
              && At(s, events, k).ops[events[k].op] == RemoveDone(c.env))
    ensures c.env !in After(s, events).rows
  {
    AtNext(s, events, k);
    ShieldedAt(s, events, c, k);
    TakesRow(At(s, events, k), events[k], c);
    GoneStays(s, events, c.env, k + 1);
  }

  /** Up to its last write a create has lost its row exactly if since its insert its agent was
      deleted with its rows, or a removal asked for past the grace went through. */
  lemma RowGoneExactly(w: World, c: Create, events: seq<Event>)
    requires Starts(w, c) && Possible(Step(w, InsertOf(c)), events) && Keeps(events, c.id)
    ensures var s := Step(w, InsertOf(c));
            c.env !in After(s, events).rows <==> RowLost(s, events, c)
  {
    var s := Step(w, InsertOf(c));
    StartShielded(w, c);
    AtEnd(s, events);
    if c.env !in After(s, events).rows {
      GoneMeansLost(s, events, c, |events|);
    }
    if k :| DeletedAt(s, events, c.agent, k) {
      LostAt(s, events, c, k);
    }
    if o, j, k :| RemovedLate(s, events, c, o, j, k) {
      LostAt(s, events, c, k);
    }
  }

  /** Within the grace, whatever happens to other rows, agents and creates: no one else's request is
      about the row, nothing changes it, and only a deletion of its own agent takes it away. */
  lemma YoungCreateKept(w: World, c: Create, events: seq<Event>)
    requires Starts(w, c) && Possible(Step(w, InsertOf(c)), events) && Keeps(events, c.id)
    requires Young(c.AsInserted(), After(Step(w, InsertOf(c)), events).now)
    ensures var s := Step(w, InsertOf(c));
            var t := After(s, events);
            && Alone(t, c)
            && (c.env in t.rows <==> !AgentDeleted(s, events, c.agent))
            && (c.env in t.rows ==> t.rows[c.env] == c.AsInserted())
  {
    var s := Step(w, InsertOf(c));
    StartShielded(w, c);
    ShieldedAt(s, events, c, |events|);
    AtEnd(s, events);
    RowGoneExactly(w, c, events);
    if o, j, k :| RemovedLate(s, events, c, o, j, k) {
      AtFollows(s, events, j, |events|);
    }
  }

  /** A create the host accepted ends bound to its container and stopped exactly if it has not
      lost its row. */
  lemma AcceptedCreateEndsStopped(w: World, c: Create, events: seq<Event>)
    requires Starts(w, c) && Possible(Step(w, InsertOf(c)), events) && Keeps(events, c.id)
    requires var t := After(Step(w, InsertOf(c)), events); c.id in t.ops && t.ops[c.id].CreateAccepted?
    ensures var s := Step(w, InsertOf(c));
            var t := After(s, events);
            var u, cid := Step(t, Finish(c.id)), t.ops[c.id].cid;
            && cid != ""
            && (c.env in u.rows && u.rows[c.env] == Row(c.agent, c.name, cid, Stopped, "", c.start)
                <==> !RowLost(s, events, c))
  {
    var s := Step(w, InsertOf(c));
    StartShielded(w, c);
    ShieldedAt(s, events, c, |events|);
    AtFollows(s, events, 0, |events|);
    AtEnd(s, events);
    RowGoneExactly(w, c, events);
    var t := After(s, events);
    assert OpGood(t, t.ops[c.id]);
  }

  // ----- a list taken earlier -----

  lemma {:induction false} ListKept(s: World, events: seq<Event>, op: nat)
    requires Possible(s, events) && Keeps(events, op) && op in s.ops && s.ops[op].Listed?
    ensures op in After(s, events).ops && After(s, events).ops[op] == s.ops[op]
    decreases |events|
  {
    if events != [] {
      assert events[0] != Finish(op) && events[0] != Dies(op);
      assert forall i :: 0 <= i < |events[1..]| ==> events[1..][i] == events[i + 1];
      ListKept(Step(s, events[0]), events[1..], op);
    }
  }

  lemma ListApplied(t: World, op: nat, e: nat)
    requires op in t.ops && t.ops[op].Listed? && e in t.rows && t.rows[e].agent == t.ops[op].agent
    ensures Enabled(t, Finish(op)) && e in Step(t, Finish(op)).rows
    ensures Step(t, Finish(op)).rows[e] == Reconciled(t.rows[e], t.ops[op].containers, t.now)
  {
  }

  lemma BoundRowMarked(row: Row, containers: seq<Container>, now: int)
    requires RowConsistent(row) && row.cid != ""
    ensures var after := Reconciled(row, containers, now);
            after.status == Error && after.message == CONTAINER_MISSING <==> ById(containers, row.cid) == None
  {
    assert CONTAINER_MISSING != "";
  }

  /** A list taken now and applied whenever: a bound row is marked missing exactly if its container
      was not there when the list was taken. If the container is there when the list is applied,
      that is exactly if the host made it in between. */
  lemma LiveMarkedMissingExactly(w: World, op: nat, agent: nat, containers: seq<Container>, events: seq<Event>, e: nat)
    requires Good(w) && Enabled(w, List(op, agent, containers))
    requires Possible(Step(w, List(op, agent, containers)), events) && Keeps(events, op)
    requires var t := After(Step(w, List(op, agent, containers)), events);
             e in t.rows && t.rows[e].agent == agent && t.rows[e].cid != ""
    ensures var t := After(Step(w, List(op, agent, containers)), events);
            var key := (agent, t.rows[e].cid);
            && Enabled(t, Finish(op)) && e in Step(t, Finish(op)).rows
            && var row := Step(t, Finish(op)).rows[e];
               var marked := row.status == Error && row.message == CONTAINER_MISSING;
               (marked <==> key !in w.live) && (key in t.live ==> (marked <==> key !in w.issued))
  {
    var s := Step(w, List(op, agent, containers));
    var t := After(s, events);
    GoodStep(w, List(op, agent, containers));
    AtFollows(s, events, 0, |events|);
    AtEnd(s, events);
    ListKept(s, events, op);
    ListApplied(t, op, e);
    BoundRowMarked(t.rows[e], containers, t.now);
    ListedExactly(w, agent, containers, t.rows[e].cid);
  }

  // ----- what a removal leaves behind -----

  /** The container goes away in the step after k. */
  predicate TakenAt(s: World, events: seq<Event>, k: nat, key: Key)
    requires Possible(s, events) && k < |events|
  {
    key in At(s, events, k).live && key !in At(s, events, k + 1).live
  }

  predicate Taken(s: World, events: seq<Event>, key: Key)
    requires Possible(s, events)
  {
    exists k :: 0 <= k < |events| && TakenAt(s, events, k, key)
  }

  /** Some step but the request's own call took the container away. */
  predicate TakenByOthers(s: World, events: seq<Event>, own: Event, key: Key)
    requires Possible(s, events)
  {
    exists k :: 0 <= k < |events| && events[k] != own && TakenAt(s, events, k, key)
  }

  /** The container is there, or the host has yet to make it. */
  predicate MayLive(w: World, key: Key) {
    key in w.live || key !in w.issued
  }

  lemma MayLiveStep(w: World, e: Event, key: Key)
    requires Good(w) && Enabled(w, e)
    ensures MayLive(Step(w, e), key) <==> MayLive(w, key) && !(key in w.live && key !in Step(w, e).live)
  {
    LiveStep(w, e);
    GoodStep(w, e);
  }

  lemma {:induction false} LiveUnlessTaken(s: World, events: seq<Event>, key: Key, n: nat)
    requires Good(s) && Possible(s, events) && n <= |events|
    ensures MayLive(At(s, events, n), key) <==>
              MayLive(s, key) && forall k :: 0 <= k < n ==> !TakenAt(s, events, k, key)
    decreases n
  {
    if n > 0 {
      LiveUnlessTaken(s, events, key, n - 1);
      AtNext(s, events, n - 1);
      AtFollows(s, events, 0, n - 1);
      MayLiveStep(At(s, events, n - 1), events[n - 1], key);
      assert TakenAt(s, events, n - 1, key) <==> key in At(s, events, n - 1).live && key !in At(s, events, n).live;
    }
  }

  /** The host's answer to a removal, if there has been one. */
  predicate Answered(events: seq<Event>, o: nat, n: nat)
    requires n <= |events|
  {
    HostRemoves(o) in events[..n] || FailedBefore(events, o, n)
  }

  predicate FailedBefore(events: seq<Event>, o: nat, n: nat)
    requires n <= |events|
  {
    exists k :: 0 <= k < n && events[k].HostRemoveFails? && events[k].op == o
  }

  predicate HostFailed(events: seq<Event>, o: nat) {
    FailedBefore(events, o, |events|)
  }

  /** Where a removal that was asked for stands. */
  predicate Stands(asked: Op, op: Op, events: seq<Event>, o: nat, n: nat)
    requires n <= |events|
  {
    if asked.RemoveDone? then op == asked && !Answered(events, o, n)
    else
      && asked.RemoveAsked?
      && (op == asked ==> !Answered(events, o, n))
      && (op.RemoveDone? && HostRemoves(o) !in events[..n] ==> asked.missing && FailedBefore(events, o, n))
      && (op.RemoveDone? && HostRemoves(o) in events[..n] ==> !FailedBefore(events, o, n))
      && (op == asked || op == RemoveDone(asked.env) || (op.RemoveFailed? && Answered(events, o, n)))
  }

  lemma PrefixGrows(events: seq<Event>, o: nat, n: nat)
    requires n < |events|
    ensures HostRemoves(o) in events[..n + 1] <==> HostRemoves(o) in events[..n] || events[n] == HostRemoves(o)
    ensures FailedBefore(events, o, n + 1)
       <==> FailedBefore(events, o, n) || (events[n].HostRemoveFails? && events[n].op == o)
  {
    assert events[..n + 1] == events[..n] + [events[n]];
    if FailedBefore(events, o, n) {
      var k :| 0 <= k < n && events[k].HostRemoveFails? && events[k].op == o;
      assert k < n + 1;
    }
  }

  lemma StandsOn(w: World, asked: Op, events: seq<Event>, o: nat, n: nat)
    requires n < |events| && Enabled(w, events[n]) && o in w.ops && Stands(asked, w.ops[o], events, o, n)
    requires events[n] != Finish(o) && events[n] != Dies(o) && events[n] != DeleteAgent(o)
    ensures o in Step(w, events[n]).ops && Stands(asked, Step(w, events[n]).ops[o], events, o, n + 1)
  {
    PrefixGrows(events, o, n);
  }

  lemma {:induction false} StandsAt(s: World, events: seq<Event>, o: nat, n: nat)
    requires Possible(s, events) && Keeps(events, o) && n <= |events|
    requires o in s.ops && (s.ops[o].RemoveAsked? || s.ops[o].RemoveDone?)
    ensures o in At(s, events, n).ops && Stands(s.ops[o], At(s, events, n).ops[o], events, o, n)
    decreases n
  {
    if n > 0 {
      StandsAt(s, events, o, n - 1);
      AtNext(s, events, n - 1);
      StandsOn(At(s, events, n - 1), s.ops[o], events, o, n - 1);
    }
  }

  lemma AskStarts(w: World, o: nat, env: nat)
    requires Good(w) && Enabled(w, AskRemove(o, env))
    ensures var r, s := w.rows[env], Step(w, AskRemove(o, env));
            && Good(s) && s.live == w.live && s.issued == w.issued && o in s.ops
            && s.ops[o] == (if r.cid == "" then RemoveDone(env)
                            else RemoveAsked(env, r.agent, r.cid, r.message == CONTAINER_MISSING))
            && (r.cid != "" ==> (r.agent, r.cid) in w.issued)
  {
    GoodStep(w, AskRemove(o, env));
  }

  /** The host has been asked and has not answered. */
  predicate Waiting(op: Op) {
    op.CreateAsked? || op.MoveAsked? || op.RemoveAsked?
  }

  /** The host has answered; only the last write is left. */
  predicate Settled(op: Op) {
    op.CreateAccepted? || op.CreateRefused? || op.MoveDone? || op.MoveFailed? || op.RemoveDone? || op.RemoveFailed?
  }

  lemma SettledStep(w: World, e: Event, o: nat)
    requires Enabled(w, e) && o in w.ops && Settled(w.ops[o])
    requires e != Finish(o) && e != Dies(o) && e != DeleteAgent(o)
    ensures o in Step(w, e).ops && Step(w, e).ops[o] == w.ops[o]
  {
  }

  lemma WaitingStep(w: World, e: Event, o: nat)
    requires Enabled(w, e) && o in w.ops && Waiting(w.ops[o])
    requires e != Finish(o) && e != Dies(o) && e != DeleteAgent(o)
    ensures o in Step(w, e).ops && (Step(w, e).ops[o] == w.ops[o] || Settled(Step(w, e).ops[o]))
  {
  }

  /** A request asks for the same thing until it is answered. */
  lemma {:induction false} AskedUntilAnswered(s: World, events: seq<Event>, o: nat, n: nat)
    requires Possible(s, events) && Keeps(events, o) && n <= |events| && o in s.ops && Waiting(s.ops[o])
    ensures o in At(s, events, n).ops && (At(s, events, n).ops[o] == s.ops[o] || Settled(At(s, events, n).ops[o]))
    decreases n
  {
    if n > 0 {
      AskedUntilAnswered(s, events, o, n - 1);
      AtNext(s, events, n - 1);
      var w := At(s, events, n - 1);
      if Settled(w.ops[o]) { SettledStep(w, events[n - 1], o); } else { WaitingStep(w, events[n - 1], o); }
    }
  }

  lemma OwnStep(w: World, o: nat, key: Key)
    requires Enabled(w, HostRemoves(o))
    ensures var t := Step(w, HostRemoves(o));
            if key == (w.ops[o].agent, w.ops[o].cid) then key !in t.live else key in t.live <==> key in w.live
  {
  }

  lemma OwnStepAt(s: World, events: seq<Event>, o: nat, k: nat, key: Key)
    requires Possible(s, events) && Keeps(events, o) && k < |events| && events[k] == HostRemoves(o)
    requires o in s.ops && s.ops[o].RemoveAsked?
    ensures var own := (s.ops[o].agent, s.ops[o].cid);
            (key == own ==> key !in At(s, events, k + 1).live) && (key != own ==> !TakenAt(s, events, k, key))
  {
    AskedUntilAnswered(s, events, o, k);
    AtNext(s, events, k);
    OwnStep(At(s, events, k), o, key);
  }

  lemma GoneForGood(s: World, events: seq<Event>, k: nat, key: Key)
    requires Good(s) && Possible(s, events) && k <= |events| && key in s.issued && key !in At(s, events, k).live
    ensures key !in After(s, events).live
  {
    AtFollows(s, events, 0, k);
    AtFollows(s, events, k, |events|);
    AtEnd(s, events);
  }

  /** The removal's own call takes away exactly the container the row had when it was asked for. */
  lemma OwnCallTakes(s: World, events: seq<Event>, o: nat, key: Key)
    requires Good(s) && Possible(s, events) && Keeps(events, o) && HostRemoves(o) in events
    requires o in s.ops && s.ops[o].RemoveAsked? && key == (s.ops[o].agent, s.ops[o].cid) && key in s.issued
    ensures key !in After(s, events).live
  {
    var k :| 0 <= k < |events| && events[k] == HostRemoves(o);
    OwnCallTakesAt(s, events, o, k, key);
  }

  lemma OwnCallTakesAt(s: World, events: seq<Event>, o: nat, k: nat, key: Key)
    requires Good(s) && Possible(s, events) && Keeps(events, o) && k < |events| && events[k] == HostRemoves(o)
    requires o in s.ops && s.ops[o].RemoveAsked? && key == (s.ops[o].agent, s.ops[o].cid) && key in s.issued
    ensures key !in After(s, events).live
  {
    OwnStepAt(s, events, o, k, key);
    GoneForGood(s, events, k + 1, key);
  }

  lemma OwnCallSpares(s: World, events: seq<Event>, o: nat, key: Key)
    requires Possible(s, events) && Keeps(events, o)
    requires o in s.ops && s.ops[o].RemoveAsked? && key != (s.ops[o].agent, s.ops[o].cid)
    ensures Taken(s, events, key) <==> TakenByOthers(s, events, HostRemoves(o), key)
  {
    if Taken(s, events, key) {
      var k :| 0 <= k < |events| && TakenAt(s, events, k, key);
      if events[k] == HostRemoves(o) {
        OwnStepAt(s, events, o, k, key);
        assert false;
      }
    }
  }

  lemma NoOwnCall(s: World, events: seq<Event>, own: Event, key: Key)
    requires Possible(s, events) && own !in events
    ensures Taken(s, events, key) <==> TakenByOthers(s, events, own, key)
  {
    if Taken(s, events, key) {
      var k :| 0 <= k < |events| && TakenAt(s, events, k, key);
      assert events[k] in events;
    }
  }

  lemma DropStep(t: World, o: nat, env: nat)
    requires o in t.ops && t.ops[o] == RemoveDone(env)
    ensures Enabled(t, Finish(o)) && env !in Step(t, Finish(o)).rows && Step(t, Finish(o)).live == t.live
  {
  }

  /** The conditions under which the removal o leaves a container behind. */
  predicate LeavesLive(w: World, s: World, asked: Row, events: seq<Event>, o: nat, key: Key)
    requires Possible(s, events)
  {
    && MayLive(w, key)
    && !TakenByOthers(s, events, HostRemoves(o), key)
    && (key.1 == asked.cid ==> asked.message == CONTAINER_MISSING && HostFailed(events, o))
  }

  lemma LeftLive(w: World, o: nat, env: nat, events: seq<Event>, key: Key)
    requires Good(w) && Enabled(w, AskRemove(o, env))
    requires Possible(Step(w, AskRemove(o, env)), events) && Keeps(events, o)
    requires var t := After(Step(w, AskRemove(o, env)), events);
             o in t.ops && t.ops[o] == RemoveDone(env) && key in t.issued && key.0 == w.rows[env].agent && key.1 != ""
    ensures var s := Step(w, AskRemove(o, env));
            key in After(s, events).live <==> LeavesLive(w, s, w.rows[env], events, o, key)
  {
    var s, asked := Step(w, AskRemove(o, env)), w.rows[env];
    AskStarts(w, o, env);
    LiveUnlessTaken(s, events, key, |events|);
    StandsAt(s, events, o, |events|);
    AtEnd(s, events);
    assert events[..|events|] == events;
    if HostRemoves(o) !in events {
      NoOwnCall(s, events, HostRemoves(o), key);
    } else if key.1 == asked.cid {
      OwnCallTakes(s, events, o, key);
    } else {
      OwnCallSpares(s, events, o, key);
    }
  }

  /** A removal that goes through drops the row of a container that is still there exactly if the
      container was there when the removal was asked for, or was made since; nobody else took it
      away; and, if it is the one the row had then, the row already said it was missing and the
      host failed to remove it. */
  lemma RemovalDropsLiveExactly(w: World, o: nat, env: nat, events: seq<Event>)
    requires Good(w) && Enabled(w, AskRemove(o, env))
    requires Possible(Step(w, AskRemove(o, env)), events) && Keeps(events, o)
    requires var t := After(Step(w, AskRemove(o, env)), events);
             o in t.ops && t.ops[o] == RemoveDone(env) && env in t.rows && t.rows[env].cid != ""
    ensures var s := Step(w, AskRemove(o, env));
            var t := After(s, events);
            var key := (t.rows[env].agent, t.rows[env].cid);
            && env !in Step(t, Finish(o)).rows
            && (key in Step(t, Finish(o)).live <==> LeavesLive(w, s, w.rows[env], events, o, key))
  {
    var s := Step(w, AskRemove(o, env));
    var t := After(s, events);
    GoodStep(w, AskRemove(o, env));
    AtFollows(s, events, 0, |events|);
    AtEnd(s, events);
    LeftLive(w, o, env, events, (t.rows[env].agent, t.rows[env].cid));
    DropStep(t, o, env);
  }

  // ----- what the deletion of an agent leaves behind -----

  /** Where a deletion stands: what it read and has not yet asked the host about. */
  ghost predicate Sweeps(asked: Op, op: Op, events: seq<Event>, o: nat, n: nat)
    requires n <= |events| && asked.Sweeping?
  {
    && op.Sweeping? && op.agent == asked.agent && op.found == asked.found && op.todo <= asked.todo
    && (forall cid :: cid in asked.todo && cid !in op.todo ==> op.failed || HostSweeps(o, cid) in events[..n])
    && (forall cid :: HostSweeps(o, cid) in events[..n] ==> cid in asked.todo)
  }

  /** What one step makes of a deletion in progress. */
  predicate SweepMoves(o: nat, e: Event, op: Op, after: Op)
    requires op.Sweeping?
  {
    match e
    case HostSweeps(p, cid) =>
      if p == o then cid in op.todo && after == op.(todo := op.todo - {cid}) else after == op
    case HostSweepFails(p, cid) =>
      if p == o then cid in op.todo && after == op.(todo := op.todo - {cid}, failed := true) else after == op
    case _ => after == op
  }

  lemma SweepsOn(asked: Op, op: Op, after: Op, events: seq<Event>, o: nat, n: nat)
    requires n < |events| && asked.Sweeping? && Sweeps(asked, op, events, o, n)
    requires SweepMoves(o, events[n], op, after)
    ensures Sweeps(asked, after, events, o, n + 1)
  {
    assert events[..n + 1] == events[..n] + [events[n]];
  }

  lemma SweepStep(w: World, e: Event, o: nat)
    requires Enabled(w, e) && o in w.ops && w.ops[o].Sweeping?
    requires e != Finish(o) && e != Dies(o) && e != DeleteAgent(o)
    ensures o in Step(w, e).ops && SweepMoves(o, e, w.ops[o], Step(w, e).ops[o])
  {
  }

  lemma {:induction false} SweepsAt(s: World, events: seq<Event>, o: nat, n: nat)
    requires Possible(s, events) && Keeps(events, o) && n <= |events| && o in s.ops && s.ops[o].Sweeping?
    ensures o in At(s, events, n).ops && Sweeps(s.ops[o], At(s, events, n).ops[o], events, o, n)
    decreases n
  {
    if n > 0 {
      var w := At(s, events, n - 1);
      SweepsAt(s, events, o, n - 1);
      AtNext(s, events, n - 1);
      SweepStep(w, events[n - 1], o);
      SweepsOn(s.ops[o], w.ops[o], At(s, events, n).ops[o], events, o, n - 1);
    }
  }

  lemma SweptStep(w: World, e: Event, o: nat, cid: string)
    requires Enabled(w, e) && e == HostSweeps(o, cid)
    ensures (w.ops[o].agent, cid) !in Step(w, e).live
  {
  }

  /** A container the deletion's own call removed is gone for good. */
  lemma SweptIsGone(s: World, events: seq<Event>, o: nat, cid: string)
    requires Good(s) && Possible(s, events) && Keeps(events, o) && HostSweeps(o, cid) in events
    requires o in s.ops && s.ops[o].Sweeping? && (s.ops[o].agent, cid) in s.issued
    ensures (s.ops[o].agent, cid) !in After(s, events).live
  {
    var k :| 0 <= k < |events| && events[k] == HostSweeps(o, cid);
    SweepsAt(s, events, o, k);
    AtNext(s, events, k);
    SweptStep(At(s, events, k), events[k], o, cid);
    GoneForGood(s, events, k + 1, (s.ops[o].agent, cid));
  }

  /** The conditions under which the deletion o leaves a container behind. */
  predicate SweepLeavesLive(w: World, s: World, events: seq<Event>, o: nat, key: Key)
    requires Possible(s, events)
  {
    && !(exists e :: e in w.rows && w.rows[e].agent == key.0 && w.rows[e].cid == key.1)
    && MayLive(w, key)
    && !TakenByOthers(s, events, HostSweeps(o, key.1), key)
  }

  lemma BoundIdsAre(rows: map<nat, Row>, agent: nat, cid: string)
    requires cid != ""
    ensures cid in BoundIds(rows, agent) <==> exists e :: e in rows && rows[e].agent == agent && rows[e].cid == cid
  {
  }

  lemma SweptLeftLive(w: World, o: nat, agent: nat, force: bool, events: seq<Event>, key: Key)
    requires Good(w) && Enabled(w, AskDelete(o, agent, force))
    requires Possible(Step(w, AskDelete(o, agent, force)), events) && Keeps(events, o)
    requires var t := After(Step(w, AskDelete(o, agent, force)), events);
             Enabled(t, DeleteAgent(o)) && key in t.issued && key.0 == agent
    ensures var s := Step(w, AskDelete(o, agent, force));
            key in After(s, events).live <==> SweepLeavesLive(w, s, events, o, key)
  {
    var s := Step(w, AskDelete(o, agent, force));
    GoodStep(w, AskDelete(o, agent, force));
    BoundIdsIssued(w, agent);
    AtFollows(s, events, 0, |events|);
    AtEnd(s, events);
    BoundIdsAre(w.rows, agent, key.1);
    LeftAfterSweep(s, events, o, key);
  }

  /** In terms of what the deletion was about to ask. */
  lemma LeftAfterSweep(s: World, events: seq<Event>, o: nat, key: Key)
    requires Good(s) && Possible(s, events) && Keeps(events, o) && key in After(s, events).issued
    requires o in s.ops && s.ops[o].Sweeping? && key.0 == s.ops[o].agent && Enabled(After(s, events), DeleteAgent(o))
    requires key.1 in s.ops[o].todo ==> key in s.issued
    ensures key in After(s, events).live <==>
              key.1 !in s.ops[o].todo && MayLive(s, key) && !TakenByOthers(s, events, HostSweeps(o, key.1), key)
  {
    SweepsAt(s, events, o, |events|);
    AtEnd(s, events);
    if key.1 in s.ops[o].todo {
      AllSweptAway(s, events, o, key.1);
      SweptIsGone(s, events, o, key.1);
    } else {
      NotAsked(s, events, o, key.1);
      LeftByOthers(s, events, HostSweeps(o, key.1), key);
    }
  }

  lemma AllSweptAway(s: World, events: seq<Event>, o: nat, cid: string)
    requires Possible(s, events) && o in s.ops && o in After(s, events).ops && s.ops[o].Sweeping?
    requires Sweeps(s.ops[o], After(s, events).ops[o], events, o, |events|)
    requires After(s, events).ops[o].todo == {} && !After(s, events).ops[o].failed && cid in s.ops[o].todo
    ensures HostSweeps(o, cid) in events
  {
    assert events[..|events|] == events;
  }

  lemma NotAsked(s: World, events: seq<Event>, o: nat, cid: string)
    requires Possible(s, events) && o in s.ops && o in After(s, events).ops && s.ops[o].Sweeping?
    requires Sweeps(s.ops[o], After(s, events).ops[o], events, o, |events|) && cid !in s.ops[o].todo
    ensures HostSweeps(o, cid) !in events
  {
    assert events[..|events|] == events;
  }

  lemma LeftByOthers(s: World, events: seq<Event>, own: Event, key: Key)
    requires Good(s) && Possible(s, events) && own !in events && key in After(s, events).issued
    ensures key in After(s, events).live <==> MayLive(s, key) && !TakenByOthers(s, events, own, key)
  {
    AtEnd(s, events);
    LiveUnlessTaken(s, events, key, |events|);
    NoOwnCall(s, events, own, key);
    LiveMayLive(s, events, key);
  }

  lemma LiveMayLive(s: World, events: seq<Event>, key: Key)
    requires Possible(s, events) && key in After(s, events).issued
    ensures key in After(s, events).live <==> MayLive(After(s, events), key)
  {
  }

  lemma DeleteStep(t: World, o: nat, env: nat)
    requires Enabled(t, DeleteAgent(o)) && t.ops[o].found && env in t.rows && t.rows[env].agent == t.ops[o].agent
    ensures env !in Step(t, DeleteAgent(o)).rows && Step(t, DeleteAgent(o)).live == t.live
  {
  }

  /** A deletion that goes through drops the row of a container that is still there exactly if the
      row did not hold that container when the deletion read the rows, the container was there
      then or was made since, and nobody took it away. */
  lemma DeletionDropsLiveExactly(w: World, o: nat, agent: nat, force: bool, events: seq<Event>, env: nat)
    requires Good(w) && Enabled(w, AskDelete(o, agent, force))
    requires Possible(Step(w, AskDelete(o, agent, force)), events) && Keeps(events, o)
    requires var t := After(Step(w, AskDelete(o, agent, force)), events);
             Enabled(t, DeleteAgent(o)) && t.ops[o].found
             && env in t.rows && t.rows[env].agent == agent && t.rows[env].cid != ""
    ensures var s := Step(w, AskDelete(o, agent, force));
            var t := After(s, events);
            var key := (agent, t.rows[env].cid);
            && env !in Step(t, DeleteAgent(o)).rows
            && (key in Step(t, DeleteAgent(o)).live <==> SweepLeavesLive(w, s, events, o, key))
  {
    var s := Step(w, AskDelete(o, agent, force));
    var t := After(s, events);
    GoodStep(w, AskDelete(o, agent, force));
    AtFollows(s, events, 0, |events|);
    SweepsAt(s, events, o, |events|);
    AtEnd(s, events);
    assert Bound(t, t.rows[env]);
    SweptLeftLive(w, o, agent, force, events, (agent, t.rows[env].cid));
    DeleteStep(t, o, env);
  }

  // ----- a container made although the create was refused -----

  predicate CreatesRow(op: Op, env: nat) {
    CreateOp(op) && op.env == env
  }

  predicate OnlyCreate(w: World, c: Create) {
    forall other :: other in w.ops && other != c.id ==> !CreatesRow(w.ops[other], c.env)
  }

  lemma OnlyCreateStep(w: World, e: Event, c: Create)
    requires Enabled(w, e) && c.env in w.used && OnlyCreate(w, c)
    ensures OnlyCreate(Step(w, e), c)
  {
  }

  lemma {:induction false} OnlyCreateAt(s: World, events: seq<Event>, c: Create, k: nat)
    requires Good(s) && Possible(s, events) && k <= |events| && c.env in s.used && OnlyCreate(s, c)
    ensures OnlyCreate(At(s, events, k), c)
    decreases k
  {
    if k > 0 {
      OnlyCreateAt(s, events, c, k - 1);
      AtNext(s, events, k - 1);
      AtFollows(s, events, 0, k - 1);
      OnlyCreateStep(At(s, events, k - 1), events[k - 1], c);
    }
  }

  /** No create is left for the row, and while it is there it is an error without a container. */
  predicate Abandoned(w: World, c: Create) {
    && c.env in w.used
    && (c.env in w.rows ==>
          var row := w.rows[c.env];
          row.agent == c.agent && row.name == c.name && row.status == Error && row.cid == "")
    && (forall o :: o in w.ops ==> !CreatesRow(w.ops[o], c.env))
  }

  lemma AbandonedWrite(w: World, op: Op, c: Create)
    requires OpGood(w, op) && Abandoned(w, c) && c.env in w.rows && !CreatesRow(op, c.env)
    ensures c.env in Written(w, op) ==> Written(w, op)[c.env] == w.rows[c.env]
  {
  }

  lemma AbandonedRow(w: World, e: Event, c: Create)
    requires Good(w) && Enabled(w, e) && Abandoned(w, c) && c.env in w.rows
    ensures c.env in Step(w, e).rows ==> Step(w, e).rows[c.env] == w.rows[c.env]
  {
    if !Writes(e) {
      QuietStep(w, e);
    } else if e.Finish? {
      AbandonedWrite(w, w.ops[e.op], c);
    }
  }

  lemma NoCreateStep(w: World, e: Event, c: Create, o: nat)
    requires Enabled(w, e) && Abandoned(w, c) && o in Step(w, e).ops
    ensures !CreatesRow(Step(w, e).ops[o], c.env)
  {
    if o in w.ops { assert !CreatesRow(w.ops[o], c.env); }
  }

  lemma AbandonedStep(w: World, e: Event, c: Create)
    requires Good(w) && Enabled(w, e) && Abandoned(w, c)
    ensures Abandoned(Step(w, e), c)
  {
    var t := Step(w, e);
    GoodStep(w, e);
    if c.env in t.rows { AbandonedRow(w, e, c); }
    forall o | o in t.ops ensures !CreatesRow(t.ops[o], c.env) {
      NoCreateStep(w, e, c, o);
    }
  }

  lemma {:induction false} AbandonedRun(w: World, events: seq<Event>, c: Create)
    requires Good(w) && Possible(w, events) && Abandoned(w, c)
    ensures Good(After(w, events)) && Abandoned(After(w, events), c)
    decreases |events|
  {
    if events == [] {
    } else {
      GoodStep(w, events[0]);
      AbandonedStep(w, events[0], c);
      AbandonedRun(Step(w, events[0]), events[1..], c);
    }
  }

  predicate Holds(row: Row, key: Key) {
    row.agent == key.0 && row.cid == key.1
  }

  /** While the row is there no other can hold a container of its name, and it holds none. */
  lemma NobodyHolds(w: World, c: Create, key: Key)
    requires Good(w) && Abandoned(w, c) && c.env in w.rows
    requires key in w.issued && w.issued[key] == c.name && key.0 == c.agent
    ensures forall e :: e in w.rows ==> !Holds(w.rows[e], key)
  {
    forall e | e in w.rows ensures !Holds(w.rows[e], key) {
      assert Bound(w, w.rows[e]);
    }
  }

  lemma RefusedFinish(w: World, c: Create)
    requires Good(w) && InFlight(w, c) && w.ops[c.id].CreateRefused? && OnlyCreate(w, c)
    requires c.env in w.rows ==> w.rows[c.env].cid == ""
    ensures Enabled(w, Finish(c.id)) && Good(Step(w, Finish(c.id))) && Abandoned(Step(w, Finish(c.id)), c)
  {
    assert OpGood(w, w.ops[c.id]);
    GoodStep(w, Finish(c.id));
  }

  /** The host made the container, but its answer was lost: unless a reconcile has bound the row by
      then, the create ends as an error without a container, and as long as that row is there,
      whatever anyone does, no row ever holds the container. */
  lemma LostAnswerLeavesContainer(w: World, c: Create, events: seq<Event>, why: string, more: seq<Event>, cid: string)
    requires Starts(w, c) && Possible(Step(w, InsertOf(c)), events) && Keeps(events, c.id)
    requires var t := After(Step(w, InsertOf(c)), events);
             && Enabled(t, HostRefuses(c.id, why)) && (c.env in t.rows ==> t.rows[c.env].cid == "")
             && (c.agent, cid) in t.issued && t.issued[(c.agent, cid)] == c.name
    requires var t := After(Step(w, InsertOf(c)), events);
             Possible(t, [HostRefuses(c.id, why), Finish(c.id)] + more)
    ensures var t := After(Step(w, InsertOf(c)), events);
            var u := After(t, [HostRefuses(c.id, why), Finish(c.id)] + more);
            c.env in u.rows ==>
              && u.rows[c.env].status == Error && u.rows[c.env].cid == ""
              && forall e :: e in u.rows ==> !Holds(u.rows[e], (c.agent, cid))
  {
    var s := Step(w, InsertOf(c));
    StartShielded(w, c);
    ShieldedAt(s, events, c, |events|);
    AtFollows(s, events, 0, |events|);
    AtEnd(s, events);
    var t := After(s, events);
    OnlyFromStart(s, events, c);
    var refused := Step(t, HostRefuses(c.id, why));
    GoodStep(t, HostRefuses(c.id, why));
    OnlyCreateStep(t, HostRefuses(c.id, why), c);
    RefusedFinish(refused, c);
    var ended := Step(refused, Finish(c.id));
    GoodStep(refused, Finish(c.id));
    TwoThen(t, HostRefuses(c.id, why), Finish(c.id), more);
    AbandonedRun(ended, more, c);
    GoodRun(ended, more);
    if c.env in After(ended, more).rows { NobodyHolds(After(ended, more), c, (c.agent, cid)); }
  }

  lemma OnlyFromStart(s: World, events: seq<Event>, c: Create)
    requires Good(s) && Possible(s, events) && c.env in s.used && Alone(s, c)
    ensures OnlyCreate(After(s, events), c)
  {
    forall other | other in s.ops && other != c.id ensures !CreatesRow(s.ops[other], c.env) {
      assert Target(s.ops[other]) != Some(c.env);
    }
    OnlyCreateAt(s, events, c, |events|);
    AtEnd(s, events);
  }

  lemma TwoThen(w: World, a: Event, b: Event, more: seq<Event>)
    requires Possible(w, [a, b] + more)
    ensures Enabled(w, a) && Enabled(Step(w, a), b) && Possible(Step(Step(w, a), b), more)
    ensures After(w, [a, b] + more) == After(Step(Step(w, a), b), more)
  {
    var all := [a, b] + more;
    assert all[1..] == [b] + more && ([b] + more)[1..] == more;
  }
}
