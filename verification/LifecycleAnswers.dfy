/**
 What a request ends with once the host has answered it, whatever the others do before the answer
 and between the answer and the request's last write.

 `MoveEndsAsAsked` is about a start or a stop, `RemovalEndsAsAnswered` about a removal,
 `CreateEndsAsAnswered` about a create and `DeletionEndsAsRead` about the deletion of an agent.
 Each names the rows and the containers before and after the steps of that one request.
 */
module LifecycleAnswers {
  import opened Environments
  import opened Lifecycle
  import opened LifecycleRuns

  /** An answer is remembered until the last write. */
  lemma {:induction false} AnswerStays(s: World, events: seq<Event>, o: nat, k: nat, n: nat)
    requires Possible(s, events) && Keeps(events, o) && k <= n <= |events|
    requires o in At(s, events, k).ops && Settled(At(s, events, k).ops[o])
    ensures o in At(s, events, n).ops && At(s, events, n).ops[o] == At(s, events, k).ops[o]
    decreases n
  {
    if k < n {
      AnswerStays(s, events, o, k, n - 1);
      AtNext(s, events, n - 1);
      SettledStep(At(s, events, n - 1), events[n - 1], o);
    }
  }

  lemma AnswerKept(s: World, events: seq<Event>, o: nat, k: nat)
    requires Possible(s, events) && Keeps(events, o) && k <= |events|
    requires o in At(s, events, k).ops && Settled(At(s, events, k).ops[o])
    ensures o in After(s, events).ops && After(s, events).ops[o] == At(s, events, k).ops[o]
  {
    AnswerStays(s, events, o, k, |events|);
    AtEnd(s, events);
  }

  /** The last write gave one row a status and a message, and changed nothing else. */
  predicate Marks(t: World, u: World, env: nat, status: Status, message: string) {
    && u.rows.Keys == t.rows.Keys && u.live == t.live && u.agents == t.agents
    && (forall e :: e in t.rows && e != env ==> u.rows[e] == t.rows[e])
    && (env in t.rows ==>
          var was := t.rows[env];
          u.rows[env] == Row(was.agent, was.name, was.cid, status, message, was.created))
  }

  /** The last write dropped one row, and changed nothing else. */
  predicate Drops(t: World, u: World, env: nat) {
    && u.rows.Keys == t.rows.Keys - {env} && u.live == t.live && u.agents == t.agents
    && (forall e :: e in u.rows ==> u.rows[e] == t.rows[e])
  }

  // ----- starts and stops -----

  lemma MoveAnswer(w: World, o: nat, asked: Op)
    requires Enabled(w, HostMoves(o)) && w.ops[o] == asked
    ensures var t := Step(w, HostMoves(o));
            && o in t.ops && t.ops[o] == MoveDone(asked.env, asked.target)
            && t.live.Keys == w.live.Keys && t.rows == w.rows
            && forall k :: k in w.live ==>
                 t.live[k] == if k == (asked.agent, asked.cid) then asked.target == Running else w.live[k]
  {
  }

  lemma MoveFailure(w: World, o: nat, asked: Op, why: string)
    requires Enabled(w, HostMoveFails(o, why)) && w.ops[o] == asked
    ensures var t := Step(w, HostMoveFails(o, why));
            o in t.ops && t.ops[o] == MoveFailed(asked.env, why) && t.live == w.live && t.rows == w.rows
  {
  }

  lemma MarkStep(t: World, o: nat)
    requires o in t.ops && (t.ops[o].MoveDone? || t.ops[o].MoveFailed? || t.ops[o].RemoveFailed? || t.ops[o].CreateRefused?)
    ensures Enabled(t, Finish(o))
    ensures var op := t.ops[o];
            Marks(t, Step(t, Finish(o)), op.env, if op.MoveDone? then op.target else Error,
                  if op.MoveDone? then "" else op.why)
  {
  }

  /** A start or stop the host carries out sets the container the row held when it was asked for
      running or not, and no other, and ends with the row, if it is still there, running or stopped
      and without a message. */
  lemma MoveEndsAsAsked(w: World, o: nat, env: nat, start: bool, events: seq<Event>, i: nat)
    requires Enabled(w, AskMove(o, env, start))
    requires Possible(Step(w, AskMove(o, env, start)), events) && Keeps(events, o)
    requires i < |events| && events[i] == HostMoves(o)
    ensures var s := Step(w, AskMove(o, env, start));
            var before, after, t := At(s, events, i), At(s, events, i + 1), After(s, events);
            var key := (w.rows[env].agent, w.rows[env].cid);
            && after.live.Keys == before.live.Keys
            && (forall k :: k in before.live ==> after.live[k] == if k == key then start else before.live[k])
            && Enabled(t, Finish(o))
            && Marks(t, Step(t, Finish(o)), env, if start then Running else Stopped, "")
  {
    var s := Step(w, AskMove(o, env, start));
    AskedUntilAnswered(s, events, o, i);
    AtNext(s, events, i);
    MoveAnswer(At(s, events, i), o, s.ops[o]);
    AnswerKept(s, events, o, i + 1);
    MarkStep(After(s, events), o);
  }

  /** One the host refuses changes no container and ends with the row in error, saying why. */
  lemma FailedMoveEndsInError(w: World, o: nat, env: nat, start: bool, events: seq<Event>, i: nat, why: string)
    requires Enabled(w, AskMove(o, env, start))
    requires Possible(Step(w, AskMove(o, env, start)), events) && Keeps(events, o)
    requires i < |events| && events[i] == HostMoveFails(o, why)
    ensures var s := Step(w, AskMove(o, env, start));
            var t := After(s, events);
            && At(s, events, i + 1).live == At(s, events, i).live
            && Enabled(t, Finish(o)) && Marks(t, Step(t, Finish(o)), env, Error, why)
  {
    var s := Step(w, AskMove(o, env, start));
    AskedUntilAnswered(s, events, o, i);
    AtNext(s, events, i);
    MoveFailure(At(s, events, i), o, s.ops[o], why);
    AnswerKept(s, events, o, i + 1);
    MarkStep(After(s, events), o);
  }

  // ----- removals -----

  lemma RemoveAnswer(w: World, o: nat, asked: Op)
    requires Enabled(w, HostRemoves(o)) && w.ops[o] == asked
    ensures var t := Step(w, HostRemoves(o));
            && o in t.ops && t.ops[o] == RemoveDone(asked.env) && t.rows == w.rows
            && t.live == w.live - {(asked.agent, asked.cid)}
  {
  }

  lemma RemoveFailure(w: World, o: nat, asked: Op, why: string)
    requires Enabled(w, HostRemoveFails(o, why)) && w.ops[o] == asked
    ensures var t := Step(w, HostRemoveFails(o, why));
            && o in t.ops && t.rows == w.rows && t.live == w.live
            && t.ops[o] == if asked.missing then RemoveDone(asked.env) else RemoveFailed(asked.env, why)
  {
  }

  lemma DropsRow(t: World, o: nat, env: nat)
    requires o in t.ops && t.ops[o] == RemoveDone(env)
    ensures Enabled(t, Finish(o)) && Drops(t, Step(t, Finish(o)), env)
  {
  }

  /** A removal the host carries out takes away the container the row held when it was asked for,
      and no other, and drops the row. */
  lemma RemovalEndsAsAnswered(w: World, o: nat, env: nat, events: seq<Event>, i: nat)
    requires Enabled(w, AskRemove(o, env))
    requires Possible(Step(w, AskRemove(o, env)), events) && Keeps(events, o)
    requires i < |events| && events[i] == HostRemoves(o)
    ensures var s := Step(w, AskRemove(o, env));
            var t := After(s, events);
            && At(s, events, i + 1).live == At(s, events, i).live - {(w.rows[env].agent, w.rows[env].cid)}
            && Enabled(t, Finish(o)) && Drops(t, Step(t, Finish(o)), env)
  {
    var s := Step(w, AskRemove(o, env));
    RemovalWaits(w, o, env, events, i);
    AtNext(s, events, i);
    RemoveAnswer(At(s, events, i), o, s.ops[o]);
    AnswerKept(s, events, o, i + 1);
    DropsRow(After(s, events), o, env);
  }

  /** One the host refuses changes no container; the row is dropped if it already said that its
      container was missing when the removal was asked for, and else ends in error, saying why. */
  lemma FailedRemovalEnds(w: World, o: nat, env: nat, events: seq<Event>, i: nat, why: string)
    requires Enabled(w, AskRemove(o, env))
    requires Possible(Step(w, AskRemove(o, env)), events) && Keeps(events, o)
    requires i < |events| && events[i] == HostRemoveFails(o, why)
    ensures var s := Step(w, AskRemove(o, env));
            var t := After(s, events);
            && At(s, events, i + 1).live == At(s, events, i).live
            && Enabled(t, Finish(o))
            && if w.rows[env].message == CONTAINER_MISSING then Drops(t, Step(t, Finish(o)), env)
               else Marks(t, Step(t, Finish(o)), env, Error, why)
  {
    var s := Step(w, AskRemove(o, env));
    RemovalWaits(w, o, env, events, i);
    AtNext(s, events, i);
    RemoveFailure(At(s, events, i), o, s.ops[o], why);
    AnswerKept(s, events, o, i + 1);
    if s.ops[o].missing { DropsRow(After(s, events), o, env); } else { MarkStep(After(s, events), o); }
  }

  /** The host is asked only about a row with a container; a row without one is simply dropped. */
  lemma RemovalWaits(w: World, o: nat, env: nat, events: seq<Event>, i: nat)
    requires Enabled(w, AskRemove(o, env))
    requires Possible(Step(w, AskRemove(o, env)), events) && Keeps(events, o)
    requires i < |events| && (events[i] == HostRemoves(o) || (events[i].HostRemoveFails? && events[i].op == o))
    ensures var s := Step(w, AskRemove(o, env));
            && w.rows[env].cid != ""
            && o in At(s, events, i).ops && At(s, events, i).ops[o] == s.ops[o]
  {
    var s := Step(w, AskRemove(o, env));
    AtNext(s, events, i);
    if w.rows[env].cid == "" {
      AnswerStays(s, events, o, 0, i);
    } else {
      AskedUntilAnswered(s, events, o, i);
    }
  }

  /** Without a container there is nothing to ask the host: the row is dropped. */
  lemma UnboundRemovalEnds(w: World, o: nat, env: nat, events: seq<Event>)
    requires Enabled(w, AskRemove(o, env)) && w.rows[env].cid == ""
    requires Possible(Step(w, AskRemove(o, env)), events) && Keeps(events, o)
    ensures var t := After(Step(w, AskRemove(o, env)), events);
            Enabled(t, Finish(o)) && Drops(t, Step(t, Finish(o)), env)
  {
    var s := Step(w, AskRemove(o, env));
    AnswerKept(s, events, o, 0);
    DropsRow(After(s, events), o, env);
  }

  // ----- creates -----

  lemma CreateAnswer(w: World, o: nat, asked: Op, cid: string)
    requires Enabled(w, HostCreates(o, cid)) && w.ops[o] == asked
    ensures var t := Step(w, HostCreates(o, cid));
            && o in t.ops && t.ops[o] == CreateAccepted(asked.env, asked.agent, asked.name, cid) && t.rows == w.rows
            && t.live == w.live[(asked.agent, cid) := false]
            && t.issued == w.issued[(asked.agent, cid) := asked.name]
  {
  }

  lemma CreateFailure(w: World, o: nat, asked: Op, why: string)
    requires Enabled(w, HostRefuses(o, why)) && w.ops[o] == asked
    ensures var t := Step(w, HostRefuses(o, why));
            && o in t.ops && t.ops[o] == CreateRefused(asked.env, asked.agent, asked.name, why)
            && t.rows == w.rows && t.live == w.live
  {
  }

  lemma BindStep(t: World, o: nat)
    requires o in t.ops && t.ops[o].CreateAccepted?
    ensures Enabled(t, Finish(o))
    ensures var u, env, cid := Step(t, Finish(o)), t.ops[o].env, t.ops[o].cid;
            && u.rows.Keys == t.rows.Keys && u.live == t.live
            && (forall e :: e in t.rows && e != env ==> u.rows[e] == t.rows[e])
            && (env in t.rows ==>
                  var was := t.rows[env];
                  u.rows[env] == Row(was.agent, was.name, cid, Stopped, "", was.created))
  {
  }

  /** A create the host accepts makes one stopped container of the row's name there, and ends with
      the row, if it is still there, stopped and bound to that container. */
  lemma CreateEndsAsAnswered(w: World, c: Create, events: seq<Event>, i: nat, cid: string)
    requires Enabled(w, InsertOf(c)) && Possible(Step(w, InsertOf(c)), events) && Keeps(events, c.id)
    requires i < |events| && events[i] == HostCreates(c.id, cid)
    ensures var s := Step(w, InsertOf(c));
            var before, after, t := At(s, events, i), At(s, events, i + 1), After(s, events);
            && after.live == before.live[(c.agent, cid) := false]
            && after.issued == before.issued[(c.agent, cid) := c.name]
            && Enabled(t, Finish(c.id))
            && var u := Step(t, Finish(c.id));
               && u.rows.Keys == t.rows.Keys && u.live == t.live
               && (forall e :: e in t.rows && e != c.env ==> u.rows[e] == t.rows[e])
               && (c.env in t.rows ==>
                     var was := t.rows[c.env];
                     u.rows[c.env] == Row(was.agent, was.name, cid, Stopped, "", was.created))
  {
    var s := Step(w, InsertOf(c));
    AskedUntilAnswered(s, events, c.id, i);
    AtNext(s, events, i);
    CreateAnswer(At(s, events, i), c.id, s.ops[c.id], cid);
    AnswerKept(s, events, c.id, i + 1);
    BindStep(After(s, events), c.id);
  }

  /** One that is refused makes no container and ends with the row in error, saying why. */
  lemma RefusedCreateEndsInError(w: World, c: Create, events: seq<Event>, i: nat, why: string)
    requires Enabled(w, InsertOf(c)) && Possible(Step(w, InsertOf(c)), events) && Keeps(events, c.id)
    requires i < |events| && events[i] == HostRefuses(c.id, why)
    ensures var s := Step(w, InsertOf(c));
            var t := After(s, events);
            && At(s, events, i + 1).live == At(s, events, i).live
            && Enabled(t, Finish(c.id)) && Marks(t, Step(t, Finish(c.id)), c.env, Error, why)
  {
    var s := Step(w, InsertOf(c));
    AskedUntilAnswered(s, events, c.id, i);
    AtNext(s, events, i);
    CreateFailure(At(s, events, i), c.id, s.ops[c.id], why);
    AnswerKept(s, events, c.id, i + 1);
    MarkStep(After(s, events), c.id);
  }

  // ----- the deletion of an agent -----

  /** Where a deletion that read these ids stands: what it has asked and whether a removal failed. */
  predicate Swept(asked: Op, op: Op, events: seq<Event>, o: nat, n: nat)
    requires n <= |events| && asked.Sweeping?
  {
    && op.Sweeping? && op.agent == asked.agent && op.found == asked.found
    && (forall cid :: cid in op.todo ==> cid in asked.todo && HostSweeps(o, cid) !in events[..n])
    && (forall cid :: cid in asked.todo && cid !in op.todo ==>
          HostSweeps(o, cid) in events[..n] || SweepFailed(events, o, n))
    && (op.failed <==> SweepFailed(events, o, n))
  }

  predicate SweepFailed(events: seq<Event>, o: nat, n: nat)
    requires n <= |events|
  {
    exists k :: 0 <= k < n && events[k].HostSweepFails? && events[k].op == o
  }

  lemma SweepFailedNext(events: seq<Event>, o: nat, n: nat)
    requires n < |events|
    ensures SweepFailed(events, o, n + 1)
       <==> SweepFailed(events, o, n) || (events[n].HostSweepFails? && events[n].op == o)
  {
    if SweepFailed(events, o, n) {
      var k :| 0 <= k < n && events[k].HostSweepFails? && events[k].op == o;
      assert k < n + 1;
    }
  }

  lemma SweptOn(asked: Op, op: Op, after: Op, events: seq<Event>, o: nat, n: nat)
    requires n < |events| && asked.Sweeping? && Swept(asked, op, events, o, n)
    requires SweepMoves(o, events[n], op, after)
    ensures Swept(asked, after, events, o, n + 1)
  {
    assert events[..n + 1] == events[..n] + [events[n]];
    SweepFailedNext(events, o, n);
  }

  lemma {:induction false} SweptAt(s: World, events: seq<Event>, o: nat, n: nat)
    requires Possible(s, events) && Keeps(events, o) && n <= |events|
    requires o in s.ops && s.ops[o].Sweeping? && !s.ops[o].failed
    ensures o in At(s, events, n).ops && Swept(s.ops[o], At(s, events, n).ops[o], events, o, n)
    decreases n
  {
    if n > 0 {
      var w := At(s, events, n - 1);
      SweptAt(s, events, o, n - 1);
      AtNext(s, events, n - 1);
      SweepStep(w, events[n - 1], o);
      SweptOn(s.ops[o], w.ops[o], At(s, events, n).ops[o], events, o, n - 1);
    }
  }

  lemma AllSwept(w: World, asked: Op, op: Op, events: seq<Event>, o: nat, agent: nat)
    requires asked.Sweeping? && asked.todo == BoundIds(w.rows, agent) && Swept(asked, op, events, o, |events|)
    ensures op.todo == {} && !op.failed
       <==> (forall e :: e in w.rows && w.rows[e].agent == agent && w.rows[e].cid != "" ==>
               HostSweeps(o, w.rows[e].cid) in events)
            && !(exists k :: 0 <= k < |events| && events[k].HostSweepFails? && events[k].op == o)
  {
    assert events[..|events|] == events;
    forall e | e in w.rows && w.rows[e].agent == agent && w.rows[e].cid != "" ensures w.rows[e].cid in asked.todo {
    }
    if op.todo != {} {
      var cid :| cid in op.todo;
      assert cid in asked.todo && HostSweeps(o, cid) !in events;
    }
  }

  lemma DeletionEnabled(t: World, o: nat)
    requires o in t.ops && t.ops[o].Sweeping?
    ensures Enabled(t, DeleteAgent(o)) <==> t.ops[o].todo == {} && !t.ops[o].failed
  {
  }

  lemma DeletionStep(t: World, o: nat, agent: nat, found: bool)
    requires Enabled(t, DeleteAgent(o)) && t.ops[o].agent == agent && t.ops[o].found == found
    ensures var u := Step(t, DeleteAgent(o));
            && u.live == t.live
            && (forall a :: a != agent ==> (a in u.agents <==> a in t.agents))
            && (if found then
                  && agent !in u.agents
                  && (forall e :: e in u.rows <==> e in t.rows && t.rows[e].agent != agent)
                  && (forall e :: e in u.rows ==> u.rows[e] == t.rows[e])
                else
                  && u.rows == t.rows
                  && (agent in u.agents <==>
                        agent in t.agents && exists e :: e in t.rows && t.rows[e].agent == agent))
  {
  }

  /** A deletion reaches its transaction exactly if the host has removed every container the agent's
      rows held when they were read, and has failed none. It then drops the agent and its rows,
      whatever was added since, if it had read any; if it had read none it drops no row, and the
      agent exactly if it still has none. */
  lemma DeletionEndsAsRead(w: World, o: nat, agent: nat, force: bool, events: seq<Event>)
    requires Enabled(w, AskDelete(o, agent, force))
    requires Possible(Step(w, AskDelete(o, agent, force)), events) && Keeps(events, o)
    ensures var t := After(Step(w, AskDelete(o, agent, force)), events);
            Enabled(t, DeleteAgent(o))
            <==> (forall e :: e in w.rows && w.rows[e].agent == agent && w.rows[e].cid != "" ==>
                    HostSweeps(o, w.rows[e].cid) in events)
                 && !(exists k :: 0 <= k < |events| && events[k].HostSweepFails? && events[k].op == o)
    ensures var t := After(Step(w, AskDelete(o, agent, force)), events);
            Enabled(t, DeleteAgent(o)) ==>
              var u := Step(t, DeleteAgent(o));
              && u.live == t.live
              && (forall a :: a != agent ==> (a in u.agents <==> a in t.agents))
              && (if exists e :: e in w.rows && w.rows[e].agent == agent then
                    && agent !in u.agents
                    && (forall e :: e in u.rows <==> e in t.rows && t.rows[e].agent != agent)
                    && (forall e :: e in u.rows ==> u.rows[e] == t.rows[e])
                  else
                    && u.rows == t.rows
                    && (agent in u.agents <==>
                          agent in t.agents && exists e :: e in t.rows && t.rows[e].agent == agent))
  {
    var s := Step(w, AskDelete(o, agent, force));
    SweptAt(s, events, o, |events|);
    AtEnd(s, events);
    var t := After(s, events);
    AllSwept(w, s.ops[o], t.ops[o], events, o, agent);
    DeletionEnabled(t, o);
    if Enabled(t, DeleteAgent(o)) { DeletionStep(t, o, agent, HasRows(w.rows, agent)); }
  }
}
