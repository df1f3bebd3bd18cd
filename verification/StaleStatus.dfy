/**
 A run of the whole system in which a late status report over-books a node. Two clients
 poll a queued run: one report says the run executes, a later one says it completed, and
 the later one is saved first. The slot is given to another run, and then the earlier
 report is saved over the terminal state.
 */
module StaleStatus {
  import opened Arithmetic
  import opened DurableRuns
  import opened Wrappers
  import N = IdempotentNode

  const CACHED: map<string, N.Cached> := map["a" := N.Cached("h", 0)]

  /** The only node, while its only handler is at `stage`. */
  function NodeAt(stage: N.Stage): N.State {
    var arrived := stage == N.Arrived;
    var made := stage.Created? || stage.Answered? || stage.Unlocked? || stage.Replied?;
    var recorded := made && !stage.Created?;
    N.State(if arrived then 0 else 1, if arrived then map[] else map["a" := 0], [N.Handler("a", "h", 0, stage)],
            if recorded then CACHED else map[], if made then ["a"] else [], {})
  }

  function FirstRun(st: RunState, nodeRun: Option<nat>): Run {
    Run("a", "h", "h", 0, "cpu", st, nodeRun)
  }

  const SECOND_RUN: Run := Run("b", "h", "h", 0, "cpu", Allocating, None)

  function World(node: N.State, runs: seq<Run>, submitted: bool, revivals: seq<Revival>): State {
    State([Limits(1, 1)], [node], runs, if submitted then [Submission(0, 0)] else [], revivals)
  }

  function Serving(stage: N.Stage): State {
    World(NodeAt(stage), [FirstRun(Allocating, None)], true, [])
  }

  const REPLIED: N.Stage := N.Replied(N.Accepted(0))

  const STATES: seq<State> := [
    World(N.Init, [], false, []),
    World(N.Init, [FirstRun(Allocating, None)], false, []),
    Serving(N.Arrived),
    Serving(N.Waiting),
    Serving(N.Locked),
    Serving(N.Missed),
    Serving(N.Created(0)),
    Serving(N.Answered(N.Accepted(0))),
    Serving(N.Unlocked(N.Accepted(0))),
    Serving(REPLIED),
    World(NodeAt(REPLIED), [FirstRun(Queued, Some(0))], true, []),
    World(NodeAt(REPLIED), [FirstRun(Completed, Some(0))], true, []),
    World(NodeAt(REPLIED), [FirstRun(Completed, Some(0)), SECOND_RUN], true, []),
    World(NodeAt(REPLIED), [FirstRun(Executing, Some(0)), SECOND_RUN], true, [Revival(0, "cpu")])
  ]

  const EVENTS: seq<Event> := [
    Reserve("a", "h", "h", 0, "cpu"),
    Submit(0),
    NodeStep(0, N.Acquire(0)),
    NodeStep(0, N.Lock(0)),
    NodeStep(0, N.Find(0)),
    NodeStep(0, N.Create(0)),
    NodeStep(0, N.Record(0)),
    NodeStep(0, N.Unlock(0)),
    NodeStep(0, N.Drop(0)),
    Deliver(0, Queued),
    SaveStatus(0, Completed),
    Reserve("b", "h", "h", 0, "cpu"),
    SaveStatus(0, Executing)
  ]

  // ---- The node serves the request from arrival to reply ----------------------------------

  lemma Takes()
    ensures N.Step(NodeAt(N.Arrived), N.Acquire(0), NodeAt(N.Waiting))
  {
  }

  lemma Locks()
    ensures N.Step(NodeAt(N.Waiting), N.Lock(0), NodeAt(N.Locked))
  {
  }

  lemma Misses()
    ensures N.Step(NodeAt(N.Locked), N.Find(0), NodeAt(N.Missed))
  {
  }

  lemma Creates()
    ensures N.Step(NodeAt(N.Missed), N.Create(0), NodeAt(N.Created(0)))
  {
  }

  lemma Records()
    ensures N.Step(NodeAt(N.Created(0)), N.Record(0), NodeAt(N.Answered(N.Accepted(0))))
  {
  }

  lemma Replies()
    ensures N.Step(NodeAt(N.Answered(N.Accepted(0))), N.Unlock(0), NodeAt(N.Unlocked(N.Accepted(0))))
    ensures N.Step(NodeAt(N.Unlocked(N.Accepted(0))), N.Drop(0), NodeAt(REPLIED))
  {
  }

  lemma ServingStep(a: N.Stage, e: N.Event, b: N.Stage)
    requires N.Step(NodeAt(a), e, NodeAt(b)) && !e.Arrive?
    ensures Wellformed(Serving(a)) && Step(Serving(a), NodeStep(0, e), Serving(b))
  {
    hide N.Step, NodeAt;
  }

  lemma NodeServes(i: nat)
    requires 2 <= i < 9
    ensures Wellformed(STATES[i]) && Step(STATES[i], EVENTS[i], STATES[i + 1])
  {
    hide Wellformed, Step, N.Step, Serving, NodeAt, World;
    if i == 2 {
      Takes();
      ServingStep(N.Arrived, N.Acquire(0), N.Waiting);
    } else if i == 3 {
      Locks();
      ServingStep(N.Waiting, N.Lock(0), N.Locked);
    } else if i == 4 {
      Misses();
      ServingStep(N.Locked, N.Find(0), N.Missed);
    } else if i == 5 {
      Creates();
      ServingStep(N.Missed, N.Create(0), N.Created(0));
    } else if i == 6 {
      Records();
      ServingStep(N.Created(0), N.Record(0), N.Answered(N.Accepted(0)));
    } else if i == 7 {
      Replies();
      ServingStep(N.Answered(N.Accepted(0)), N.Unlock(0), N.Unlocked(N.Accepted(0)));
    } else {
      Replies();
      ServingStep(N.Unlocked(N.Accepted(0)), N.Drop(0), REPLIED);
    }
  }

  // ---- The gateway's transactions -----------------------------------------------------------

  /** A reservation for a processor engine with no active run on the node. */
  lemma ReserveStep(s: State, key: string)
    requires Wellformed(s) && s.limits == [Limits(1, 1)] && KeyFree(s.runs, key) && ActiveCount(s.runs, 0, Cpu) == 0
    ensures Step(s, Reserve(key, "h", "h", 0, "cpu"),
                 s.(runs := s.runs + [Run(key, "h", "h", 0, "cpu", Allocating, None)]))
  {
    hide ActiveCount;
    assert RequestedResources("cpu") == {Cpu};
  }

  lemma FirstReserved()
    ensures IsInit(STATES[0]) && Wellformed(STATES[0]) && Step(STATES[0], EVENTS[0], STATES[1])
  {
    assert ActiveCount([], 0, Cpu) == 0;
    ReserveStep(World(N.Init, [], false, []), "a");
  }

  lemma FirstSent()
    ensures Wellformed(STATES[1]) && Step(STATES[1], EVENTS[1], STATES[2])
  {
    hide NodeAt;
    ArrivedNode();
    var s, h := STATES[1], N.Handler("a", "h", 0, N.Arrived);
    assert s.nodes[0] == N.Init && s.nodes[0].handlers + [h] == [h];
    assert s.submissions + [Submission(0, 0)] == [Submission(0, 0)];
    assert NodeArrival(s, 0, "a", "h").nodes == [NodeAt(N.Arrived)];
  }

  lemma ArrivedNode()
    ensures NodeAt(N.Arrived) == N.State(0, map[], [N.Handler("a", "h", 0, N.Arrived)], map[], [], {})
  {
  }

  lemma FirstDelivered()
    ensures Wellformed(STATES[9]) && Step(STATES[9], EVENTS[9], STATES[10])
  {
    hide NodeAt;
    RepliedHandler();
    var s := Serving(REPLIED);
    var h := N.Handler("a", "h", 0, REPLIED);
    assert Serves(s, 0, h) && h.stage == N.Replied(N.Accepted(0));
    assert SetState(s, 0, Queued).revivals == [];
  }

  lemma RepliedHandler()
    ensures NodeAt(REPLIED).handlers == [N.Handler("a", "h", 0, REPLIED)]
  {
  }

  lemma FirstCompleted()
    ensures Wellformed(STATES[10]) && Step(STATES[10], EVENTS[10], STATES[11])
  {
    hide NodeAt;
  }

  lemma SecondReserved()
    ensures Wellformed(STATES[11]) && Step(STATES[11], EVENTS[11], STATES[12])
  {
    hide NodeAt, ActiveCount;
    Counts();
    ReserveStep(World(NodeAt(REPLIED), [FirstRun(Completed, Some(0))], true, []), "b");
  }

  lemma Counts()
    ensures ActiveCount([FirstRun(Completed, Some(0))], 0, Cpu) == 0
    ensures ActiveCount([FirstRun(Executing, Some(0)), SECOND_RUN], 0, Cpu) == 2
  {
    hide RequestedResources;
    CpuOnly();
    var f := ActiveAt([FirstRun(Completed, Some(0))], 0, Cpu);
    assert Sum(f, 1) == Sum(f, 0) + f(0);
    var g := ActiveAt([FirstRun(Executing, Some(0)), SECOND_RUN], 0, Cpu);
    assert Sum(g, 2) == Sum(g, 0) + g(0) + g(1);
  }

  lemma CpuOnly()
    ensures RequestedResources("cpu") == {Cpu}
  {
  }

  lemma StaleSaved()
    ensures Wellformed(STATES[12]) && Step(STATES[12], EVENTS[12], STATES[13])
  {
    hide NodeAt;
  }

  /** The run exists, and it ends with two active runs on a node with one processor slot. */
  lemma StaleStatusOverbooks()
    ensures IsRun(STATES, EVENTS)
    ensures ActiveCount(STATES[13].runs, 0, Cpu) == 2 > LimitOf(STATES[13].limits[0], Cpu)
  {
    hide Wellformed, Step, IsInit, World, Serving, NodeAt, ActiveCount;
    forall i | 0 <= i < |EVENTS|
      ensures Wellformed(STATES[i]) && Step(STATES[i], EVENTS[i], STATES[i + 1])
    {
      if i == 0 {
        FirstReserved();
      } else if i == 1 {
        FirstSent();
      } else if i < 9 {
        NodeServes(i);
      } else if i == 9 {
        FirstDelivered();
      } else if i == 10 {
        FirstCompleted();
      } else if i == 11 {
        SecondReserved();
      } else {
        StaleSaved();
      }
    }
    FirstReserved();
    Counts();
    LastState();
  }

  lemma LastState()
    ensures STATES[13].runs == [FirstRun(Executing, Some(0)), SECOND_RUN] && STATES[13].limits == [Limits(1, 1)]
  {
  }
}
