/**
 Durable runs end to end: a gateway reserves capacity on a compute node, submits the
 run there under its idempotency key and retries until a reply is recorded. Database
 transactions are single events; replies may be lost or late, nodes may crash, and
 other clients use the nodes at the same time.
 */
module DurableRuns {
  import opened Arithmetic
  import opened Wrappers
  import N = IdempotentNode

  datatype Resource = Cpu | Gpu

  datatype RunState = Allocating | Queued | Executing | Completed | Failed | Cancelled | NodeLost

  predicate IsActive(st: RunState) {
    st == Allocating || st == Queued || st == Executing
  }

  /** The states a node status report can put a run into. */
  predicate Reportable(st: RunState) {
    st != Allocating && st != NodeLost
  }

  /** Engines that may fall back to the other processor hold both pools. */
  function RequestedResources(engine: string): set<Resource> {
    if engine == "cpu" || engine == "openmp" || engine == "avx2" || engine == "avx512" then {Cpu}
    else if engine == "cuda" then {Gpu}
    else {Cpu, Gpu}
  }

  datatype Limits = Limits(maxCpu: nat, maxGpu: nat)

  function LimitOf(l: Limits, r: Resource): nat {
    if r == Cpu then l.maxCpu else l.maxGpu
  }

  /** A row of the run table; `nodeHash` is the hash the node computes of the stored request. */
  datatype Run = Run(key: string, requestHash: string, nodeHash: string, node: nat, engine: string,
                     state: RunState, nodeRun: Option<nat>)

  /** A call to create run `run` on its node, served there by handler `handler`. */
  datatype Submission = Submission(run: nat, handler: nat)

  /** A status write that turned a finished run of `node` back into an active one. */
  datatype Revival = Revival(node: nat, engine: string)

  datatype State = State(limits: seq<Limits>, nodes: seq<N.State>, runs: seq<Run>,
                         submissions: seq<Submission>, revivals: seq<Revival>)

  // ---- Counting -----------------------------------------------------------------------

  function ActiveAt(runs: seq<Run>, node: nat, r: Resource): nat -> nat {
    (g: nat) => if g < |runs| && runs[g].node == node && IsActive(runs[g].state) &&
                   r in RequestedResources(runs[g].engine) then 1 else 0
  }

  /** Active runs holding a resource of a node. */
  function ActiveCount(runs: seq<Run>, node: nat, r: Resource): nat {
    Sum(ActiveAt(runs, node, r), |runs|)
  }

  function RevivedAt(revivals: seq<Revival>, node: nat, r: Resource): nat -> nat {
    (k: nat) => if k < |revivals| && revivals[k].node == node && r in RequestedResources(revivals[k].engine) then 1 else 0
  }

  function RevivedCount(revivals: seq<Revival>, node: nat, r: Resource): nat {
    Sum(RevivedAt(revivals, node, r), |revivals|)
  }

  // ---- Events --------------------------------------------------------------------------

  datatype Event =
    | Reserve(key: string, requestHash: string, nodeHash: string, node: nat, engine: string)
    | Submit(run: nat)
    | Foreign(node: nat, key: string, hash: string)
    | NodeStep(node: nat, event: N.Event)
    | Deliver(submission: nat, state: RunState)
    | Reject(run: nat)
    | Lose(run: nat)
    | SaveStatus(run: nat, state: RunState)

  function SetState(s: State, g: nat, st: RunState): State
    requires g < |s.runs|
  {
    var x := s.runs[g];
    s.(runs := s.runs[g := x.(state := st)],
       revivals := if IsActive(st) && !IsActive(x.state) then s.revivals + [Revival(x.node, x.engine)] else s.revivals)
  }

  /** The recheck under the node's row lock. */
  predicate HasRoom(limits: seq<Limits>, runs: seq<Run>, node: nat, engine: string) {
    node < |limits| &&
    forall r :: r in RequestedResources(engine) ==> ActiveCount(runs, node, r) < LimitOf(limits[node], r)
  }

  predicate KeyFree(runs: seq<Run>, key: string) {
    forall g :: 0 <= g < |runs| ==> runs[g].key != key
  }

  function NodeArrival(s: State, n: nat, key: string, hash: string): State
    requires n < |s.nodes|
  {
    s.(nodes := s.nodes[n := s.nodes[n].(handlers := s.nodes[n].handlers + [N.Handler(key, hash, 0, N.Arrived)])])
  }

  predicate Wellformed(s: State) {
    && |s.nodes| == |s.limits|
    && (forall g :: 0 <= g < |s.runs| ==> s.runs[g].node < |s.nodes|)
    && (forall k :: 0 <= k < |s.submissions| ==> s.submissions[k].run < |s.runs|)
  }

  /** The handler that serves a submission. */
  predicate Serves(s: State, k: nat, h: N.Handler)
    requires Wellformed(s) && k < |s.submissions|
  {
    var hs := s.nodes[s.runs[s.submissions[k].run].node].handlers;
    s.submissions[k].handler < |hs| && hs[s.submissions[k].handler] == h
  }

  ghost predicate Step(s: State, e: Event, s': State)
    requires Wellformed(s)
  {
    match e
    case Reserve(key, requestHash, nodeHash, node, engine) =>
      && KeyFree(s.runs, key) && HasRoom(s.limits, s.runs, node, engine)
      && s' == s.(runs := s.runs + [Run(key, requestHash, nodeHash, node, engine, Allocating, None)])
    case Submit(g) =>
      && g < |s.runs| && s.runs[g].nodeRun.None?
      && var x := s.runs[g];
         s' == NodeArrival(s, x.node, x.key, x.nodeHash).(
                 submissions := s.submissions + [Submission(g, |s.nodes[x.node].handlers|)])
    case Foreign(n, key, hash) => n < |s.nodes| && s' == NodeArrival(s, n, key, hash)
    case NodeStep(n, event) =>
      && n < |s.nodes| && !event.Arrive? && |s'.nodes| == |s.nodes|
      && N.Step(s.nodes[n], event, s'.nodes[n]) && s' == s.(nodes := s.nodes[n := s'.nodes[n]])
    case Deliver(k, st) =>
      && k < |s.submissions| && Reportable(st)
      && var g := s.submissions[k].run;
         exists m, h :: Serves(s, k, h) && h.stage == N.Replied(N.Accepted(m)) &&
           s' == if s.runs[g].nodeRun.None?
                 then var t := SetState(s, g, st); t.(runs := t.runs[g := t.runs[g].(nodeRun := Some(m))])
                 else s
    case Reject(g) => g < |s.runs| && s' == SetState(s, g, Failed)
    case Lose(g) => g < |s.runs| && s' == SetState(s, g, NodeLost)
    case SaveStatus(g, st) => g < |s.runs| && s.runs[g].nodeRun.Some? && Reportable(st) && s' == SetState(s, g, st)
  }

  predicate IsInit(s: State) {
    && |s.nodes| == |s.limits| && s.runs == [] && s.submissions == [] && s.revivals == []
    && forall n :: 0 <= n < |s.nodes| ==> s.nodes[n] == N.Init
  }

  // ---- Invariant ---------------------------------------------------------------------------

  ghost predicate NodesOk(s: State) {
    forall n :: 0 <= n < |s.nodes| ==> N.Inv(s.nodes[n])
  }

  predicate KeysOk(s: State) {
    forall a, b :: 0 <= a < b < |s.runs| ==> s.runs[a].key != s.runs[b].key
  }

  /** Every submission of a run carries its key and request to its node. */
  ghost predicate SubmissionsOk(s: State)
    requires Wellformed(s)
  {
    forall k :: 0 <= k < |s.submissions| ==>
      var x := s.runs[s.submissions[k].run];
      s.submissions[k].handler < |s.nodes[x.node].handlers| &&
      s.nodes[x.node].handlers[s.submissions[k].handler].key == x.key &&
      s.nodes[x.node].handlers[s.submissions[k].handler].hash == x.nodeHash
  }

  predicate RecordedAt(node: N.State, key: string, m: nat) {
    key in node.cache && node.cache[key].run == m
  }

  /** A recorded node run is the one the node itself recorded for the key. */
  ghost predicate RecordsOk(s: State)
    requires Wellformed(s)
  {
    forall g :: 0 <= g < |s.runs| && s.runs[g].nodeRun.Some? ==>
      RecordedAt(s.nodes[s.runs[g].node], s.runs[g].key, s.runs[g].nodeRun.value)
  }

  /** Active use exceeds a limit at most by the number of revivals. */
  ghost predicate CapacityOk(s: State) {
    forall n, r :: 0 <= n < |s.limits| ==>
      ActiveCount(s.runs, n, r) <= LimitOf(s.limits[n], r) + RevivedCount(s.revivals, n, r)
  }

  ghost predicate Inv(s: State) {
    Wellformed(s) && NodesOk(s) && KeysOk(s) && SubmissionsOk(s) && RecordsOk(s) && CapacityOk(s)
  }

  // ---- Capacity -----------------------------------------------------------------------------

  lemma AppendCount(runs: seq<Run>, x: Run, n: nat, r: Resource)
    ensures ActiveCount(runs + [x], n, r) ==
            ActiveCount(runs, n, r) +
            (if x.node == n && IsActive(x.state) && r in RequestedResources(x.engine) then 1 else 0)
  {
    SumSame(ActiveAt(runs, n, r), ActiveAt(runs + [x], n, r), |runs|);
  }

  lemma AppendRevived(revivals: seq<Revival>, v: Revival, n: nat, r: Resource)
    ensures RevivedCount(revivals + [v], n, r) ==
            RevivedCount(revivals, n, r) + (if v.node == n && r in RequestedResources(v.engine) then 1 else 0)
  {
    SumSame(RevivedAt(revivals, n, r), RevivedAt(revivals + [v], n, r), |revivals|);
  }

  /** Each committed reservation leaves every requested resource of its node within its limit. */
  lemma ReservationWithinLimit(s: State, e: Event, s': State, r: Resource)
    requires Wellformed(s) && e.Reserve? && Step(s, e, s') && r in RequestedResources(e.engine)
    ensures ActiveCount(s'.runs, e.node, r) <= LimitOf(s'.limits[e.node], r)
    ensures ActiveCount(s'.runs, e.node, r) == ActiveCount(s.runs, e.node, r) + 1
  {
    AppendCount(s.runs, s'.runs[|s.runs|], e.node, r);
  }

  lemma ReserveCapacity(s: State, e: Event, s': State)
    requires Wellformed(s) && CapacityOk(s) && e.Reserve? && Step(s, e, s')
    ensures CapacityOk(s')
  {
    forall n: int, r | 0 <= n < |s.limits|
      ensures ActiveCount(s'.runs, n, r) <= LimitOf(s'.limits[n], r) + RevivedCount(s'.revivals, n, r)
    {
      AppendCount(s.runs, s'.runs[|s.runs|], n, r);
    }
  }

  /** One changed row moves the count by at most itself. */
  lemma ChangeCount(runs: seq<Run>, g: nat, x: Run, n: nat, r: Resource)
    requires g < |runs| && x.node == runs[g].node && x.engine == runs[g].engine
    ensures var holds := runs[g].node == n && r in RequestedResources(runs[g].engine);
            ActiveCount(runs[g := x], n, r) + (if holds && IsActive(runs[g].state) then 1 else 0) ==
            ActiveCount(runs, n, r) + (if holds && IsActive(x.state) then 1 else 0)
  {
    SumPoint(ActiveAt(runs, n, r), ActiveAt(runs[g := x], n, r), |runs|, g);
  }

  /** A status write can only add use by reviving, and every revival is counted. */
  lemma SetStateCapacity(s: State, g: nat, st: RunState, s': State)
    requires CapacityOk(s) && g < |s.runs|
    requires s'.limits == s.limits && s'.revivals == SetState(s, g, st).revivals
    requires |s'.runs| == |s.runs| && s'.runs == s.runs[g := s'.runs[g]]
    requires s'.runs[g].state == st && s'.runs[g].node == s.runs[g].node && s'.runs[g].engine == s.runs[g].engine
    ensures CapacityOk(s')
  {
    forall n: int, r | 0 <= n < |s.limits|
      ensures ActiveCount(s'.runs, n, r) <= LimitOf(s'.limits[n], r) + RevivedCount(s'.revivals, n, r)
    {
      ChangeCount(s.runs, g, s'.runs[g], n, r);
      AppendRevived(s.revivals, Revival(s.runs[g].node, s.runs[g].engine), n, r);
    }
  }

  // ---- Node side ------------------------------------------------------------------------------

  /** What a node step keeps: handlers keep their request, recorded responses stay. */
  ghost predicate NodeGrows(a: N.State, b: N.State) {
    && |a.handlers| <= |b.handlers|
    && (forall i :: 0 <= i < |a.handlers| ==> b.handlers[i].key == a.handlers[i].key && b.handlers[i].hash == a.handlers[i].hash)
    && (forall k :: k in a.cache ==> k in b.cache && b.cache[k] == a.cache[k])
  }

  lemma NodeStepGrows(a: N.State, e: N.Event, b: N.State)
    requires N.Inv(a) && N.Step(a, e, b)
    ensures N.Inv(b) && NodeGrows(a, b)
  {
    hide N.Inv, N.Step, NodeGrows;
    N.StepKeeps(a, e, b);
    HandlersGrow(a, e, b);
    forall k | k in a.cache
      ensures k in b.cache && b.cache[k] == a.cache[k]
    {
      N.StepCacheGrows(a, e, b, k);
    }
    MadeGrowth(a, b);
  }

  lemma HandlersGrow(a: N.State, e: N.Event, b: N.State)
    requires N.Step(a, e, b)
    ensures |a.handlers| <= |b.handlers|
    ensures forall i :: 0 <= i < |a.handlers| ==>
              b.handlers[i].key == a.handlers[i].key && b.handlers[i].hash == a.handlers[i].hash
  {
    hide N.InFlight, N.Upgradable, N.Free;
  }

  lemma MadeGrowth(a: N.State, b: N.State)
    requires |a.handlers| <= |b.handlers|
    requires forall i :: 0 <= i < |a.handlers| ==>
              b.handlers[i].key == a.handlers[i].key && b.handlers[i].hash == a.handlers[i].hash
    requires forall k :: k in a.cache ==> k in b.cache && b.cache[k] == a.cache[k]
    ensures NodeGrows(a, b)
  {
  }

  lemma NodeArrivalGrows(a: N.State, key: string, hash: string)
    requires N.Inv(a)
    ensures var b := a.(handlers := a.handlers + [N.Handler(key, hash, 0, N.Arrived)]);
            N.Inv(b) && NodeGrows(a, b)
  {
    var b := a.(handlers := a.handlers + [N.Handler(key, hash, 0, N.Arrived)]);
    assert N.Step(a, N.Arrive(key, hash), b);
    NodeStepGrows(a, N.Arrive(key, hash), b);
  }

  /** The nodes may have moved on, the gateway has not. */
  lemma NodesGrowKeeps(s: State, s': State)
    requires Inv(s) && s' == s.(nodes := s'.nodes) && |s'.nodes| == |s.nodes|
    requires forall n :: 0 <= n < |s.nodes| ==> N.Inv(s'.nodes[n]) && NodeGrows(s.nodes[n], s'.nodes[n])
    ensures Inv(s')
  {
    hide N.Inv, ActiveCount, RevivedCount;
  }

  lemma OneNodeKeeps(s: State, s': State, n: nat)
    requires Inv(s) && n < |s.nodes| && |s'.nodes| == |s.nodes| && s' == s.(nodes := s.nodes[n := s'.nodes[n]])
    requires N.Inv(s'.nodes[n]) && NodeGrows(s.nodes[n], s'.nodes[n])
    ensures Inv(s')
  {
    hide N.Inv, CapacityOk, RecordsOk, SubmissionsOk, KeysOk;
    forall i | 0 <= i < |s.nodes|
      ensures N.Inv(s'.nodes[i]) && NodeGrows(s.nodes[i], s'.nodes[i])
    {
      NodeGrowsRefl(s.nodes[i]);
    }
    NodesGrowKeeps(s, s');
  }

  lemma NodeGrowsRefl(a: N.State)
    ensures NodeGrows(a, a)
  {
  }

  // ---- Gateway side ----------------------------------------------------------------------------

  lemma ReserveKeeps(s: State, e: Event, s': State)
    requires Inv(s) && e.Reserve? && Step(s, e, s')
    ensures Inv(s')
  {
    ReserveCapacity(s, e, s');
    hide N.Inv, CapacityOk, ActiveCount;
  }

  lemma SubmitKeeps(s: State, g: nat, s': State)
    requires Inv(s) && Step(s, Submit(g), s')
    ensures Inv(s')
  {
    hide N.Inv, CapacityOk, ActiveCount;
    var x := s.runs[g];
    NodeArrivalGrows(s.nodes[x.node], x.key, x.nodeHash);
    var t := NodeArrival(s, x.node, x.key, x.nodeHash);
    OneNodeKeeps(s, t, x.node);
    AddSubmission(t, Submission(g, |s.nodes[x.node].handlers|));
  }

  lemma AddSubmission(s: State, x: Submission)
    requires Inv(s) && x.run < |s.runs|
    requires var hs := s.nodes[s.runs[x.run].node].handlers;
             x.handler < |hs| && hs[x.handler].key == s.runs[x.run].key && hs[x.handler].hash == s.runs[x.run].nodeHash
    ensures Inv(s.(submissions := s.submissions + [x]))
  {
    hide N.Inv, ActiveCount, RevivedCount;
  }

  lemma ForeignKeeps(s: State, n: nat, key: string, hash: string, s': State)
    requires Inv(s) && Step(s, Foreign(n, key, hash), s')
    ensures Inv(s')
  {
    hide N.Inv, CapacityOk, ActiveCount;
    NodeArrivalGrows(s.nodes[n], key, hash);
    OneNodeKeeps(s, s', n);
  }

  lemma NodeStepKeeps(s: State, n: nat, e: N.Event, s': State)
    requires Inv(s) && Step(s, NodeStep(n, e), s')
    ensures Inv(s')
  {
    hide N.Inv, N.Step, CapacityOk, ActiveCount;
    NodeStepGrows(s.nodes[n], e, s'.nodes[n]);
    OneNodeKeeps(s, s', n);
  }

  /** A row write that keeps key, node and engine, and any recorded node run truthful. */
  lemma RowKeeps(s: State, g: nat, st: RunState, s': State)
    requires Inv(s) && g < |s.runs|
    requires |s'.runs| == |s.runs|
    requires s' == s.(runs := s.runs[g := s'.runs[g]], revivals := SetState(s, g, st).revivals)
    requires var x, y := s.runs[g], s'.runs[g];
             y == x.(state := st, nodeRun := y.nodeRun) &&
             (y.nodeRun.Some? ==> RecordedAt(s.nodes[y.node], y.key, y.nodeRun.value))
    ensures Inv(s')
  {
    assert CapacityOk(s') by { SetStateCapacity(s, g, st, s'); }
    hide N.Inv, CapacityOk, ActiveCount, RevivedCount;
    assert forall i :: 0 <= i < |s.runs| && i != g ==> s'.runs[i] == s.runs[i];
  }

  lemma SetStateKeeps(s: State, g: nat, st: RunState)
    requires Inv(s) && g < |s.runs|
    ensures Inv(SetState(s, g, st))
  {
    hide N.Inv, CapacityOk;
    RowKeeps(s, g, st, SetState(s, g, st));
  }

  /** An accepted reply to a submission names the run its node recorded for the key. */
  lemma AcceptedIsRecorded(s: State, k: nat, h: N.Handler, m: nat)
    requires Wellformed(s) && NodesOk(s) && SubmissionsOk(s)
    requires k < |s.submissions| && Serves(s, k, h) && h.stage == N.Replied(N.Accepted(m))
    ensures var x := s.runs[s.submissions[k].run];
            RecordedAt(s.nodes[x.node], x.key, m)
  {
    var x := s.runs[s.submissions[k].run];
    var node := s.nodes[x.node];
    assert N.Inv(node) && N.HandlerOk(node, node.handlers[s.submissions[k].handler]);
  }

  lemma DeliverKeeps(s: State, k: nat, st: RunState, s': State)
    requires Inv(s) && Step(s, Deliver(k, st), s')
    ensures Inv(s')
  {
    hide N.Inv, CapacityOk, ActiveCount, RevivedCount;
    var g := s.submissions[k].run;
    if s.runs[g].nodeRun.None? {
      var m, h :| Serves(s, k, h) && h.stage == N.Replied(N.Accepted(m)) &&
        s' == var t := SetState(s, g, st); t.(runs := t.runs[g := t.runs[g].(nodeRun := Some(m))]);
      AcceptedIsRecorded(s, k, h, m);
      assert s'.runs == s.runs[g := s'.runs[g]];
      RowKeeps(s, g, st, s');
    }
  }

  lemma StepKeeps(s: State, e: Event, s': State)
    requires Inv(s) && Step(s, e, s')
    ensures Inv(s')
  {
    assert Wellformed(s);
    hide Inv, NodeArrival, N.Step, SetState, HasRoom, KeyFree;
    match e {
      case Reserve(_, _, _, _, _) => ReserveKeeps(s, e, s');
      case Submit(g) => SubmitKeeps(s, g, s');
      case Foreign(n, key, hash) => ForeignKeeps(s, n, key, hash, s');
      case NodeStep(n, event) => NodeStepKeeps(s, n, event, s');
      case Deliver(k, st) => DeliverKeeps(s, k, st, s');
      case Reject(g) => SetStateKeeps(s, g, Failed);
      case Lose(g) => SetStateKeeps(s, g, NodeLost);
      case SaveStatus(g, st) => SetStateKeeps(s, g, st);
    }
  }

  lemma InitInv(s: State)
    requires IsInit(s)
    ensures Inv(s)
  {
    N.InitInv();
    hide N.Inv;
  }

  // ---- Runs of the whole system ------------------------------------------------------------------

  ghost predicate IsRun(states: seq<State>, events: seq<Event>) {
    && |states| == |events| + 1 && IsInit(states[0])
    && forall i :: 0 <= i < |events| ==> Wellformed(states[i]) && Step(states[i], events[i], states[i + 1])
  }

  lemma {:induction false} RunInv(states: seq<State>, events: seq<Event>, t: nat)
    requires IsRun(states, events) && t < |states|
    ensures Inv(states[t])
  {
    hide Inv, Step, IsInit;
    if t == 0 {
      InitInv(states[0]);
    } else {
      RunInv(states, events, t - 1);
      assert Step(states[t - 1], events[t - 1], states[t]);
      StepKeeps(states[t - 1], events[t - 1], states[t]);
    }
  }

  /** What never changes about a run row, and what is written at most once. */
  predicate RowGrows(x: Run, y: Run) {
    && y.key == x.key && y.node == x.node && y.engine == x.engine
    && y.requestHash == x.requestHash && y.nodeHash == x.nodeHash
    && (x.nodeRun.Some? ==> y.nodeRun == x.nodeRun)
  }

  ghost predicate Grows(s: State, s': State) {
    && |s.runs| <= |s'.runs| && (forall g :: 0 <= g < |s.runs| ==> RowGrows(s.runs[g], s'.runs[g]))
    && |s.submissions| <= |s'.submissions| && (forall k :: 0 <= k < |s.submissions| ==> s'.submissions[k] == s.submissions[k])
    && |s.nodes| == |s'.nodes| && (forall n :: 0 <= n < |s.nodes| ==> NodeGrows(s.nodes[n], s'.nodes[n]))
    && s'.limits == s.limits
  }

  lemma GrowsRefl(s: State)
    ensures Grows(s, s)
  {
  }

  lemma GrowsTrans(a: State, b: State, c: State)
    requires Grows(a, b) && Grows(b, c)
    ensures Grows(a, c)
  {
    forall n | 0 <= n < |a.nodes|
      ensures NodeGrows(a.nodes[n], c.nodes[n])
    {
      assert NodeGrows(a.nodes[n], b.nodes[n]) && NodeGrows(b.nodes[n], c.nodes[n]);
    }
    forall g | 0 <= g < |a.runs|
      ensures RowGrows(a.runs[g], c.runs[g])
    {
      assert RowGrows(a.runs[g], b.runs[g]) && RowGrows(b.runs[g], c.runs[g]);
    }
  }

  lemma StepGrows(s: State, e: Event, s': State)
    requires Wellformed(s) && NodesOk(s) && Step(s, e, s')
    ensures Grows(s, s')
  {
    hide N.Inv, N.Step, NodeGrows;
    forall n | 0 <= n < |s.nodes|
      ensures |s'.nodes| == |s.nodes| && NodeGrows(s.nodes[n], s'.nodes[n])
    {
      NodeGrowsRefl(s.nodes[n]);
      match e {
        case Submit(g) => NodeArrivalGrows(s.nodes[s.runs[g].node], s.runs[g].key, s.runs[g].nodeHash);
        case Foreign(m, key, hash) => NodeArrivalGrows(s.nodes[m], key, hash);
        case NodeStep(m, event) => NodeStepGrows(s.nodes[m], event, s'.nodes[m]);
        case _ =>
      }
    }
  }

  lemma {:induction false} RunGrows(states: seq<State>, events: seq<Event>, t: nat, u: nat)
    requires IsRun(states, events) && t <= u < |states|
    ensures Grows(states[t], states[u])
    decreases u
  {
    hide Inv, Step, IsInit, Grows, NodesOk;
    if t == u {
      GrowsRefl(states[t]);
    } else {
      RunGrows(states, events, t, u - 1);
      RunInv(states, events, u - 1);
      NodesSound(states[u - 1]);
      assert Wellformed(states[u - 1]) && Step(states[u - 1], events[u - 1], states[u]);
      StepGrows(states[u - 1], events[u - 1], states[u]);
      GrowsTrans(states[t], states[u - 1], states[u]);
    }
  }

  lemma NodesSound(s: State)
    requires Inv(s)
    ensures NodesOk(s)
  {
    hide N.Inv;
  }

  /** `node_run_id` is written at most once, and key and node of a run never change. */
  lemma NodeRunWrittenOnce(states: seq<State>, events: seq<Event>, t: nat, u: nat, g: nat)
    requires IsRun(states, events) && t <= u < |states| && g < |states[t].runs|
    ensures g < |states[u].runs| && RowGrows(states[t].runs[g], states[u].runs[g])
  {
    RunGrows(states, events, t, u);
  }

  /** All accepted submissions of one gateway run, whenever they were answered, name the same node run. */
  lemma AcceptedSubmissionsAgree(states: seq<State>, events: seq<Event>, t: nat, u: nat, k: nat, l: nat,
                                 h: N.Handler, i: N.Handler, m: nat, n: nat)
    requires IsRun(states, events) && t < |states| && u < |states| && Wellformed(states[t]) && Wellformed(states[u])
    requires k < |states[t].submissions| && l < |states[u].submissions|
    requires states[t].submissions[k].run == states[u].submissions[l].run
    requires Serves(states[t], k, h) && h.stage == N.Replied(N.Accepted(m))
    requires Serves(states[u], l, i) && i.stage == N.Replied(N.Accepted(n))
    ensures m == n
  {
    var g := states[t].submissions[k].run;
    RunInv(states, events, t);
    RunInv(states, events, u);
    AcceptedIsRecorded(states[t], k, h, m);
    AcceptedIsRecorded(states[u], l, i, n);
    if t <= u {
      RunGrows(states, events, t, u);
      RecordStays(states[t], states[u], g, m);
    } else {
      RunGrows(states, events, u, t);
      RecordStays(states[u], states[t], g, n);
    }
  }

  lemma RecordStays(s: State, s': State, g: nat, m: nat)
    requires Grows(s, s') && Wellformed(s) && g < |s.runs| && RecordedAt(s.nodes[s.runs[g].node], s.runs[g].key, m)
    ensures RecordedAt(s'.nodes[s'.runs[g].node], s'.runs[g].key, m)
  {
    assert RowGrows(s.runs[g], s'.runs[g]) && NodeGrows(s.nodes[s.runs[g].node], s'.nodes[s.runs[g].node]);
  }

  /** The recorded node run is the node's own, so it agrees with every accepted reply. */
  lemma RecordedRunAgrees(states: seq<State>, events: seq<Event>, t: nat, g: nat, k: nat, h: N.Handler, m: nat)
    requires IsRun(states, events) && t < |states| && Wellformed(states[t]) && g < |states[t].runs|
    requires states[t].runs[g].nodeRun.Some?
    requires k < |states[t].submissions| && states[t].submissions[k].run == g
    requires Serves(states[t], k, h) && h.stage == N.Replied(N.Accepted(m))
    ensures states[t].runs[g].nodeRun.value == m
  {
    RunInv(states, events, t);
    AcceptedIsRecorded(states[t], k, h, m);
    hide N.Inv;
  }

  /** Two gateway runs never share a node run, and an idempotency key names one gateway run. */
  lemma NodeRunsDistinct(states: seq<State>, events: seq<Event>, t: nat, a: nat, b: nat)
    requires IsRun(states, events) && t < |states| && a < |states[t].runs| && b < |states[t].runs|
    ensures states[t].runs[a].key == states[t].runs[b].key ==> a == b
    ensures var x, y := states[t].runs[a], states[t].runs[b];
            x.node == y.node && x.nodeRun.Some? && x.nodeRun == y.nodeRun ==> a == b
  {
    RunInv(states, events, t);
    var s := states[t];
    var x, y := s.runs[a], s.runs[b];
    if x.node == y.node && x.nodeRun.Some? && x.nodeRun == y.nodeRun {
      RecordedKey(s, a);
      RecordedKey(s, b);
    }
  }

  lemma RecordedKey(s: State, g: nat)
    requires Inv(s) && g < |s.runs| && s.runs[g].nodeRun.Some?
    ensures var node, m := s.nodes[s.runs[g].node], s.runs[g].nodeRun.value;
            m < |node.created| && node.created[m] == s.runs[g].key
  {
    assert N.RunsOk(s.nodes[s.runs[g].node]);
  }

  // ---- Capacity over runs ---------------------------------------------------------------------------

  /** In every reachable state a node is over a limit by at most the finished runs that were revived on it. */
  lemma OveruseIsRevival(states: seq<State>, events: seq<Event>, t: nat, n: nat, r: Resource)
    requires IsRun(states, events) && t < |states| && n < |states[t].limits|
    ensures ActiveCount(states[t].runs, n, r) <=
            LimitOf(states[t].limits[n], r) + RevivedCount(states[t].revivals, n, r)
  {
    RunInv(states, events, t);
    hide N.Inv;
  }

  /** Without revivals every node stays within both limits throughout. */
  lemma WithinLimits(states: seq<State>, events: seq<Event>, t: nat, n: nat, r: Resource)
    requires IsRun(states, events) && t < |states| && n < |states[t].limits| && states[t].revivals == []
    ensures ActiveCount(states[t].runs, n, r) <= LimitOf(states[t].limits[n], r)
  {
    OveruseIsRevival(states, events, t, n, r);
    assert RevivedCount([], n, r) == 0;
  }

  /** The row a step writes a status into, and that status. */
  function WrittenStatus(s: State, e: Event): Option<(nat, RunState)>
    requires Wellformed(s)
  {
    match e
    case SaveStatus(g, st) => if g < |s.runs| then Some((g, st)) else None
    case Deliver(k, st) =>
      if k < |s.submissions| && s.runs[s.submissions[k].run].nodeRun.None? then Some((s.submissions[k].run, st)) else None
    case _ => None
  }

  /** The step writes an active status over a finished run that would hold the resource of the node. */
  predicate Revives(s: State, e: Event, n: nat, r: Resource)
    requires Wellformed(s)
  {
    var w := WrittenStatus(s, e);
    w.Some? &&
    var x := s.runs[w.value.0];
    IsActive(w.value.1) && !IsActive(x.state) && x.node == n && r in RequestedResources(x.engine)
  }

  /**
   From within a limit, a step goes over it exactly when the node is full and the step
   is a status report or a first create reply that puts a finished run of the node back
   into an active state.
   */
  lemma OverbooksExactly(s: State, e: Event, s': State, n: nat, r: Resource)
    requires Wellformed(s) && Step(s, e, s') && n < |s.limits|
    requires ActiveCount(s.runs, n, r) <= LimitOf(s.limits[n], r)
    ensures ActiveCount(s'.runs, n, r) > LimitOf(s.limits[n], r) <==>
              ActiveCount(s.runs, n, r) == LimitOf(s.limits[n], r) && Revives(s, e, n, r)
  {
    hide N.Step, NodeArrival, KeyFree, ActiveCount, RevivedCount, RequestedResources;
    match e {
      case Reserve(_, _, _, node, engine) =>
        AppendCount(s.runs, s'.runs[|s.runs|], n, r);
      case Submit(g) => ArrivalKeepsRows(s, s.runs[g].node, s.runs[g].key, s.runs[g].nodeHash);
      case Foreign(m, key, hash) => ArrivalKeepsRows(s, m, key, hash);
      case NodeStep(_, _) =>
      case Deliver(k, st) =>
        if s.runs[s.submissions[k].run].nodeRun.None? {
          WriteCounts(s, s.submissions[k].run, st, s', n, r);
        }
      case Reject(g) => WriteCounts(s, g, Failed, s', n, r);
      case Lose(g) => WriteCounts(s, g, NodeLost, s', n, r);
      case SaveStatus(g, st) => WriteCounts(s, g, st, s', n, r);
    }
  }

  /** The log of revivals grows in exactly the steps that revive. */
  lemma RevivalLogged(s: State, e: Event, s': State, n: nat, r: Resource)
    requires Wellformed(s) && Step(s, e, s')
    ensures RevivedCount(s'.revivals, n, r) == RevivedCount(s.revivals, n, r) + (if Revives(s, e, n, r) then 1 else 0)
  {
    hide N.Step, NodeArrival, KeyFree, ActiveCount, RevivedCount, RequestedResources;
    match e {
      case Reserve(_, _, _, _, _) =>
      case Submit(g) => ArrivalKeepsRows(s, s.runs[g].node, s.runs[g].key, s.runs[g].nodeHash);
      case Foreign(m, key, hash) => ArrivalKeepsRows(s, m, key, hash);
      case NodeStep(_, _) =>
      case Deliver(k, st) =>
        if s.runs[s.submissions[k].run].nodeRun.None? {
          WriteCounts(s, s.submissions[k].run, st, s', n, r);
        }
      case Reject(g) => WriteCounts(s, g, Failed, s', n, r);
      case Lose(g) => WriteCounts(s, g, NodeLost, s', n, r);
      case SaveStatus(g, st) => WriteCounts(s, g, st, s', n, r);
    }
  }

  lemma ArrivalKeepsRows(s: State, n: nat, key: string, hash: string)
    requires n < |s.nodes|
    ensures var t := NodeArrival(s, n, key, hash); t.runs == s.runs && t.revivals == s.revivals
  {
  }

  lemma WriteCounts(s: State, g: nat, st: RunState, s': State, n: nat, r: Resource)
    requires g < |s.runs| && |s'.runs| == |s.runs| && s'.runs == s.runs[g := s'.runs[g]]
    requires s'.revivals == SetState(s, g, st).revivals
    requires s'.runs[g].state == st && s'.runs[g].node == s.runs[g].node && s'.runs[g].engine == s.runs[g].engine
    ensures var holds := s.runs[g].node == n && r in RequestedResources(s.runs[g].engine);
            var revives := holds && IsActive(st) && !IsActive(s.runs[g].state);
            && ActiveCount(s'.runs, n, r) <= ActiveCount(s.runs, n, r) + (if revives then 1 else 0)
            && (revives ==> ActiveCount(s'.runs, n, r) == ActiveCount(s.runs, n, r) + 1)
            && RevivedCount(s'.revivals, n, r) == RevivedCount(s.revivals, n, r) + (if revives then 1 else 0)
  {
    ChangeCount(s.runs, g, s'.runs[g], n, r);
    AppendRevived(s.revivals, Revival(s.runs[g].node, s.runs[g].engine), n, r);
  }
}
