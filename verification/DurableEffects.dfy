/**
 What the transactions of a durable run write, in terms of the rows themselves: which row
 a reservation adds and how it is found again, what a reply, a rejection and a status
 report change, and how capacity is counted.
 */
module DurableEffects {
  import opened Arithmetic
  import opened Wrappers
  import opened DurableRuns
  import N = IdempotentNode

  // ---- Pools and counts -------------------------------------------------------------------

  /** Everything but `cuda` needs a processor slot, and everything but the four processor engines a graphics slot. */
  lemma PoolsRequested(engine: string)
    ensures Cpu in RequestedResources(engine) <==> engine != "cuda"
    ensures Gpu in RequestedResources(engine) <==>
            engine != "cpu" && engine != "openmp" && engine != "avx2" && engine != "avx512"
    ensures RequestedResources(engine) != {}
  {
  }

  /** A slot is held by every allocating, queued or executing run of the node that requested the pool. */
  lemma ActiveIsCardinality(runs: seq<Run>, n: nat, r: Resource)
    ensures ActiveCount(runs, n, r) ==
            |set g: nat | g < |runs| && runs[g].node == n && r in RequestedResources(runs[g].engine) &&
                          (runs[g].state == Allocating || runs[g].state == Queued || runs[g].state == Executing)|
  {
    hide RequestedResources;
    var a := set g: nat | g < |runs| && runs[g].node == n && r in RequestedResources(runs[g].engine) &&
                          (runs[g].state == Allocating || runs[g].state == Queued || runs[g].state == Executing);
    SumIndicator(a, |runs|);
    SumSame(ActiveAt(runs, n, r), Indicator(a), |runs|);
  }

  /** There is room exactly when every requested pool has a slot less in use than its limit. */
  lemma RoomInNumbers(limits: seq<Limits>, runs: seq<Run>, n: nat, engine: string)
    requires n < |limits|
    ensures HasRoom(limits, runs, n, engine) <==>
            && (engine != "cuda" ==> ActiveCount(runs, n, Cpu) < limits[n].maxCpu)
            && (engine != "cpu" && engine != "openmp" && engine != "avx2" && engine != "avx512" ==>
                 ActiveCount(runs, n, Gpu) < limits[n].maxGpu)
  {
    hide ActiveCount, RequestedResources;
    PoolsRequested(engine);
  }

  // ---- Transactions -------------------------------------------------------------------------

  /** A reservation adds one allocating row with the request's own key and hashes, on a node with room. */
  lemma ReservationEffect(s: State, e: Event, s': State)
    requires Wellformed(s) && e.Reserve? && Step(s, e, s')
    ensures forall g :: 0 <= g < |s.runs| ==> s.runs[g].key != e.key
    ensures |s'.runs| == |s.runs| + 1 && s'.runs[..|s.runs|] == s.runs
    ensures var x := s'.runs[|s.runs|];
            && x.key == e.key && x.requestHash == e.requestHash && x.nodeHash == e.nodeHash
            && x.node == e.node && x.engine == e.engine && x.state == Allocating && x.nodeRun.None?
    ensures s'.nodes == s.nodes && s'.submissions == s.submissions && s'.limits == s.limits
  {
    hide HasRoom;
  }

  /** A submission reaches the run's own node as a new handler of the run's key and node hash. */
  lemma SubmissionEffect(s: State, g: nat, s': State)
    requires Wellformed(s) && Step(s, Submit(g), s')
    ensures g < |s.runs| && s.runs[g].nodeRun.None? && s'.runs == s.runs
    ensures |s'.submissions| == |s.submissions| + 1 && s'.submissions[|s.submissions|].run == g
    ensures |s'.nodes| == |s.nodes|
    ensures var n := s.runs[g].node;
            var before, after := s.nodes[n].handlers, s'.nodes[n].handlers;
            && |after| == |before| + 1 && after[..|before|] == before
            && s'.submissions[|s.submissions|].handler == |before|
            && after[|before|].key == s.runs[g].key && after[|before|].hash == s.runs[g].nodeHash
            && after[|before|].stage == N.Arrived
    ensures forall n :: 0 <= n < |s.nodes| && n != s.runs[g].node ==> s'.nodes[n] == s.nodes[n]
  {
  }

  /** A rejection, a loss or a report writes the state of its row, and nothing else of any row. */
  lemma StatusEffect(s: State, e: Event, s': State)
    requires Wellformed(s) && (e.Reject? || e.Lose? || e.SaveStatus?) && Step(s, e, s')
    ensures e.run < |s.runs| == |s'.runs|
    ensures s'.runs[e.run] ==
            s.runs[e.run].(state := if e.Reject? then Failed else if e.Lose? then NodeLost else e.state)
    ensures forall g :: 0 <= g < |s.runs| && g != e.run ==> s'.runs[g] == s.runs[g]
    ensures s'.nodes == s.nodes && s'.submissions == s.submissions
  {
  }

  /** The first accepted reply names the node run and the state of its row; later ones change nothing. */
  lemma ReplyEffect(s: State, k: nat, st: RunState, s': State)
    requires Wellformed(s) && Step(s, Deliver(k, st), s')
    ensures k < |s.submissions| && |s'.runs| == |s.runs|
    ensures forall g :: 0 <= g < |s.runs| && g != s.submissions[k].run ==> s'.runs[g] == s.runs[g]
    ensures var g := s.submissions[k].run;
            if s.runs[g].nodeRun.Some? then s' == s
            else s'.runs[g].nodeRun.Some? && s'.runs[g].state == st &&
                 (var h := s.submissions[k].handler;
                  h < |s.nodes[s.runs[g].node].handlers| &&
                  s.nodes[s.runs[g].node].handlers[h].stage == N.Replied(N.Accepted(s'.runs[g].nodeRun.value)))
  {
    hide IsActive;
  }

  // ---- Over runs ------------------------------------------------------------------------------

  /**
   A reserved row is found again under its key for the rest of the run: no other row has
   the key, and it still holds the hash of the request that reserved it, so the same
   request is replayed and another one refused.
   */
  lemma ReservationFound(states: seq<State>, events: seq<Event>, t: nat, u: nat, g: nat)
    requires IsRun(states, events) && t < u < |states| && events[t].Reserve?
    requires g < |states[u].runs| && states[u].runs[g].key == events[t].key
    ensures g == |states[t].runs|
    ensures states[u].runs[g].requestHash == events[t].requestHash && states[u].runs[g].nodeHash == events[t].nodeHash
    ensures states[u].runs[g].node == events[t].node && states[u].runs[g].engine == events[t].engine
  {
    hide Step, Inv, Wellformed;
    ReservationKept(states, events, t, u);
    RunInv(states, events, u);
    KeysDiffer(states[u], g, |states[t].runs|);
  }

  lemma ReservationKept(states: seq<State>, events: seq<Event>, t: nat, u: nat)
    requires IsRun(states, events) && t < u < |states| && events[t].Reserve?
    ensures var id := |states[t].runs|;
            && id < |states[u].runs| && states[u].runs[id].key == events[t].key
            && states[u].runs[id].requestHash == events[t].requestHash && states[u].runs[id].nodeHash == events[t].nodeHash
            && states[u].runs[id].node == events[t].node && states[u].runs[id].engine == events[t].engine
  {
    hide Step, Inv, Wellformed, NodeGrows;
    assert Wellformed(states[t]) && Step(states[t], events[t], states[t + 1]);
    ReservationEffect(states[t], events[t], states[t + 1]);
    RunGrows(states, events, t + 1, u);
    assert RowGrows(states[t + 1].runs[|states[t].runs|], states[u].runs[|states[t].runs|]);
  }

  lemma KeysDiffer(s: State, g: nat, h: nat)
    requires Inv(s) && g < |s.runs| && h < |s.runs| && s.runs[g].key == s.runs[h].key
    ensures g == h
  {
  }
}
