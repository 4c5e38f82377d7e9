/**
 Runs in which something is lost, each from the empty world: what `LifecycleRuns` says can happen
 does happen.
 */
module LifecycleFailures {
  import opened Prelude
  import opened Environments
  import opened Lifecycle

  lemma Before(w: World, e: Event, events: seq<Event>)
    requires Enabled(w, e) && Possible(Step(w, e), events)
    ensures Possible(w, [e] + events) && After(w, [e] + events) == After(Step(w, e), events)
  {
    assert ([e] + events)[1..] == events;
  }

  /** A create whose row is gone still makes its container. */
  lemma CreateWithoutRow(w: World)
    requires w.rows == map[] && w.ops == map[0 := CreateAsked(0, 1, "n")] && FreshId(w, 1, "c")
    ensures var events := [HostCreates(0, "c"), Finish(0)];
            && Possible(w, events)
            && After(w, events).rows == map[] && After(w, events).ops == map[] && (1, "c") in After(w, events).live
  {
    var w1 := Step(w, HostCreates(0, "c"));
    Before(w1, Finish(0), []);
    Before(w, HostCreates(0, "c"), [Finish(0)]);
  }

  /** A create on an agent just added. */
  lemma FirstInsert(events: seq<Event>)
    requires Possible(Inserted(), events)
    ensures var all := [AddAgent(1), Insert(0, 0, 1, "n")] + events;
            Possible(EMPTY, all) && After(EMPTY, all) == After(Inserted(), events)
  {
    var w := Step(EMPTY, AddAgent(1));
    assert Step(w, Insert(0, 0, 1, "n")) == Inserted();
    Before(w, Insert(0, 0, 1, "n"), events);
    Before(EMPTY, AddAgent(1), [Insert(0, 0, 1, "n")] + events);
    assert [AddAgent(1), Insert(0, 0, 1, "n")] + events == [AddAgent(1)] + ([Insert(0, 0, 1, "n")] + events);
  }

  function Inserted(): World {
    World(0, {1}, map[0 := Row(1, "n", "", Creating, "", 0)], {0}, map[], map[], map[0 := CreateAsked(0, 1, "n")])
  }

  /** A deletion of the agent during a create leaves a container without a row: the row goes, the
      container comes. */
  lemma ForceDeleteLeavesOrphan() returns (events: seq<Event>)
    ensures Possible(EMPTY, events)
    ensures var w := After(EMPTY, events); w.rows == map[] && w.ops == map[] && (1, "c") in w.live
  {
    var w1 := Step(Inserted(), AskDelete(1, 1, true));
    AskedEmpty(w1);
    var w2 := Step(w1, DeleteAgent(1));
    assert w2.rows == map[] && w2.ops == map[0 := CreateAsked(0, 1, "n")];
    events := [HostCreates(0, "c"), Finish(0)];
    CreateWithoutRow(w2);
    Before(w1, DeleteAgent(1), events);
    events := [DeleteAgent(1)] + events;
    Before(Inserted(), AskDelete(1, 1, true), events);
    events := [AskDelete(1, 1, true)] + events;
    FirstInsert(events);
    events := [AddAgent(1), Insert(0, 0, 1, "n")] + events;
  }

  /** The deletion finds the row of a create in flight, and no container to remove. */
  lemma AskedEmpty(w: World)
    requires w == Step(Inserted(), AskDelete(1, 1, true))
    ensures w == Inserted().(ops := map[0 := CreateAsked(0, 1, "n"), 1 := Sweeping(1, true, {}, false)])
  {
    assert Inserted().rows[0].agent == 1;
    assert BoundIds(Inserted().rows, 1) == {};
  }

  lemma BoundWhileSwept(w: World)
    requires w == Inserted().(ops := map[0 := CreateAsked(0, 1, "n"), 1 := Sweeping(1, true, {}, false)])
    ensures var events := [HostCreates(0, "c"), Finish(0), DeleteAgent(1)];
            && Possible(w, events)
            && After(w, events).rows == map[] && After(w, events).ops == map[] && (1, "c") in After(w, events).live
  {
    var w1 := Step(w, HostCreates(0, "c"));
    var w2 := Step(w1, Finish(0));
    assert w2.ops == map[1 := Sweeping(1, true, {}, false)] && w2.rows == map[0 := Row(1, "n", "c", Stopped, "", 0)];
    var w3 := Step(w2, DeleteAgent(1));
    assert w3.rows == map[] && w3.ops == map[];
    Before(w2, DeleteAgent(1), []);
    Before(w1, Finish(0), [DeleteAgent(1)]);
    Before(w, HostCreates(0, "c"), [Finish(0), DeleteAgent(1)]);
  }

  /** So does a deletion that read the row before the create bound it: a bound row goes, and nobody
      asked the host to remove its container. */
  lemma BoundDuringDeleteLeavesOrphan() returns (events: seq<Event>)
    ensures Possible(EMPTY, events)
    ensures var w := After(EMPTY, events); w.rows == map[] && w.ops == map[] && (1, "c") in w.live
  {
    var w := Step(Inserted(), AskDelete(1, 1, true));
    AskedEmpty(w);
    BoundWhileSwept(w);
    events := [HostCreates(0, "c"), Finish(0), DeleteAgent(1)];
    Before(Inserted(), AskDelete(1, 1, true), events);
    events := [AskDelete(1, 1, true)] + events;
    FirstInsert(events);
    events := [AddAgent(1), Insert(0, 0, 1, "n")] + events;
  }

  /** A create past its grace, removed while it runs. */
  lemma RemovedLate(w: World)
    requires w == Inserted().(now := CREATE_GRACE)
    ensures var events := [AskRemove(1, 0), Finish(1)];
            Possible(w, events) && After(w, events) == w.(rows := map[])
  {
    var asked := Step(w, AskRemove(1, 0));
    assert asked.ops == map[0 := CreateAsked(0, 1, "n"), 1 := RemoveDone(0)];
    assert Step(asked, Finish(1)) == w.(rows := map[]);
    Before(asked, Finish(1), []);
    Before(w, AskRemove(1, 0), [Finish(1)]);
  }

  /** So does a removal during a create slower than the grace. */
  lemma SlowCreateLeavesOrphan() returns (events: seq<Event>)
    ensures Possible(EMPTY, events) && forall e :: e in events ==> !e.AskDelete?
    ensures var w := After(EMPTY, events); w.rows == map[] && w.ops == map[] && (1, "c") in w.live
  {
    var late := Inserted().(now := CREATE_GRACE);
    assert Step(Inserted(), Tick(CREATE_GRACE)) == late;
    RemovedLate(late);
    CreateWithoutRow(late.(rows := map[]));
    Joined(late, [AskRemove(1, 0), Finish(1)], [HostCreates(0, "c"), Finish(0)]);
    events := [AskRemove(1, 0), Finish(1)] + [HostCreates(0, "c"), Finish(0)];
    Before(Inserted(), Tick(CREATE_GRACE), events);
    events := [Tick(CREATE_GRACE)] + events;
    FirstInsert(events);
    events := [AddAgent(1), Insert(0, 0, 1, "n")] + events;
  }

  /** One bound row, and an empty list taken before its container was made. */
  function ListedBefore(row: Row): World {
    World(0, {1}, map[0 := row], {0}, map[(1, "c") := false], map[(1, "c") := "n"], map[1 := Listed(1, [])])
  }

  /** A create between the list and its application, in a world with one agent. */
  lemma CreateAfterList(w: World, row: Row)
    requires w == World(0, {1}, map[], {}, map[], map[], map[])
    requires row == Row(1, "n", "c", Stopped, "", 0)
    ensures var events := [Insert(0, 0, 1, "n"), List(1, 1, []), HostCreates(0, "c"), Finish(0)];
            && Possible(w, events)
            && After(w, events) == ListedBefore(row)
  {
    var w2 := Step(w, Insert(0, 0, 1, "n"));
    var w3 := Step(w2, List(1, 1, []));
    CreatedAfterwards(w3, row);
    Before(w2, List(1, 1, []), [HostCreates(0, "c"), Finish(0)]);
    Before(w, Insert(0, 0, 1, "n"), [List(1, 1, []), HostCreates(0, "c"), Finish(0)]);
  }

  lemma CreatedAfterwards(w: World, row: Row)
    requires w == World(0, {1}, map[0 := Row(1, "n", "", Creating, "", 0)], {0}, map[], map[],
                        map[0 := CreateAsked(0, 1, "n"), 1 := Listed(1, [])])
    requires row == Row(1, "n", "c", Stopped, "", 0)
    ensures var events := [HostCreates(0, "c"), Finish(0)];
            && Possible(w, events)
            && After(w, events) == ListedBefore(row)
  {
    var w4 := Step(w, HostCreates(0, "c"));
    var w5 := Step(w4, Finish(0));
    assert w5.ops == map[1 := Listed(1, [])];
    Before(w4, Finish(0), []);
    Before(w, HostCreates(0, "c"), [Finish(0)]);
  }

  lemma AppliedLate(w: World, row: Row)
    requires w == ListedBefore(row)
    requires row == Row(1, "n", "c", Stopped, "", 0)
    ensures Enabled(w, Finish(1))
    ensures var t := Step(w, Finish(1));
            t == w.(rows := map[0 := row.(status := Error, message := CONTAINER_MISSING)], ops := map[])
  {
    assert ById([], "c") == None;
  }

  /** The host's failure to remove a container noted as missing drops the row. */
  lemma FailedRemovalDrops(w: World, asked: World)
    requires w.ops == map[] && w.rows.Keys == {0}
    requires asked == w.(ops := map[2 := RemoveAsked(0, 1, "c", true)])
    ensures var events := [HostRemoveFails(2, "no"), Finish(2)];
            Possible(asked, events) && After(asked, events) == w.(rows := map[])
  {
    var done := Step(asked, HostRemoveFails(2, "no"));
    assert done == w.(ops := map[2 := RemoveDone(0)]);
    assert Step(done, Finish(2)) == w.(rows := map[]);
    Before(done, Finish(2), []);
    Before(asked, HostRemoveFails(2, "no"), [Finish(2)]);
  }

  lemma RemovedStale(w: World, row: Row)
    requires w == ListedBefore(row).(rows := map[0 := row], ops := map[])
    requires row == Row(1, "n", "c", Error, CONTAINER_MISSING, 0)
    ensures var events := [AskRemove(2, 0), HostRemoveFails(2, "no"), Finish(2)];
            Possible(w, events) && After(w, events) == w.(rows := map[])
  {
    var asked := Step(w, AskRemove(2, 0));
    assert asked == w.(ops := map[2 := RemoveAsked(0, 1, "c", true)]);
    FailedRemovalDrops(w, asked);
    Before(w, AskRemove(2, 0), [HostRemoveFails(2, "no"), Finish(2)]);
  }

  lemma {:induction false} Joined(w: World, events: seq<Event>, more: seq<Event>)
    requires Possible(w, events) && Possible(After(w, events), more)
    ensures Possible(w, events + more) && After(w, events + more) == After(After(w, events), more)
    decreases |events|
  {
    if events == [] {
      assert events + more == more;
    } else {
      assert (events + more)[1..] == events[1..] + more;
      Joined(Step(w, events[0]), events[1..], more);
    }
  }

  /** The run that marks a live container missing. */
  function StaleRun(): seq<Event> {
    [AddAgent(1), Insert(0, 0, 1, "n"), List(1, 1, []), HostCreates(0, "c"), Finish(0), Finish(1)]
  }

  lemma StaleRunEnds(row: Row)
    requires row == Row(1, "n", "c", Stopped, "", 0)
    ensures Possible(EMPTY, StaleRun())
    ensures After(EMPTY, StaleRun())
         == ListedBefore(row).(rows := map[0 := row.(status := Error, message := CONTAINER_MISSING)], ops := map[])
  {
    var w1 := Step(EMPTY, AddAgent(1));
    var events := [Insert(0, 0, 1, "n"), List(1, 1, []), HostCreates(0, "c"), Finish(0)];
    CreateAfterList(w1, row);
    AppliedLate(After(w1, events), row);
    Before(After(w1, events), Finish(1), []);
    Joined(w1, events, [Finish(1)]);
    Before(EMPTY, AddAgent(1), events + [Finish(1)]);
    assert [AddAgent(1)] + (events + [Finish(1)]) == StaleRun();
  }

  /** A removal can leave a container without a row although no agent is deleted, no create is
      slow, nothing crashes and the host loses nothing: it believes a list from before the create. */
  lemma StaleRemovalLeavesOrphan() returns (events: seq<Event>)
    ensures Possible(EMPTY, events)
    ensures forall e :: e in events ==>
              !e.AskDelete? && !e.Tick? && !e.Dies? && !e.Vanishes? && !e.Appears? && !e.Changes? && !e.HostRemoves?
    ensures var w := After(EMPTY, events); w.rows == map[] && w.ops == map[] && (1, "c") in w.live
  {
    var row := Row(1, "n", "c", Stopped, "", 0);
    StaleRunEnds(row);
    RemovedStale(After(EMPTY, StaleRun()), row.(status := Error, message := CONTAINER_MISSING));
    Joined(EMPTY, StaleRun(), [AskRemove(2, 0), HostRemoveFails(2, "no"), Finish(2)]);
    events := StaleRun() + [AskRemove(2, 0), HostRemoveFails(2, "no"), Finish(2)];
  }

  /** A row can be marked missing while its container lives: the list was taken before the create. */
  lemma MissingCanBeStale() returns (events: seq<Event>)
    ensures Possible(EMPTY, events)
    ensures var w := After(EMPTY, events);
            && 0 in w.rows && w.rows[0].message == CONTAINER_MISSING
            && (w.rows[0].agent, w.rows[0].cid) in w.live
  {
    StaleRunEnds(Row(1, "n", "c", Stopped, "", 0));
    events := StaleRun();
  }
}
