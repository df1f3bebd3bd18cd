/**
 The gateway's transactions on its run table. Each method is one committed transaction and
 makes one step of the durable-run protocol; what happens on the nodes in between is held
 in ghost fields.
 */
module GatewayService {
  import opened Arithmetic
  import opened DurableEffects
  import opened DurableRuns
  import opened Wrappers
  import N = IdempotentNode

  /** A node found with room by the unlocked scan, with what it is ranked by. */
  datatype Candidate = Candidate(node: nat, load: real, lastAssigned: Option<int>, keyRank: nat)

  datatype Reservation = Reserved(run: nat) | Replayed(run: nat) | KeyConflict | NoCapacity

  /** A node never assigned comes before all others. */
  predicate NotAfter(a: Option<int>, b: Option<int>) {
    a == None || (a.Some? && b.Some? && a.value <= b.value)
  }

  /** Least loaded first, then least recently assigned, then by node key. */
  predicate Precedes(a: Candidate, b: Candidate) {
    a.load < b.load ||
    (a.load == b.load && NotAfter(a.lastAssigned, b.lastAssigned) &&
     (a.lastAssigned == b.lastAssigned ==> a.keyRank <= b.keyRank))
  }

  predicate Ranked(order: seq<Candidate>) {
    forall i, j :: 0 <= i < j < |order| ==> Precedes(order[i], order[j])
  }

  function Share(used: nat, limit: nat): real
    requires used < limit
  {
    used as real / limit as real
  }

  /** The fullest of the requested pools. */
  function Load(limits: seq<Limits>, runs: seq<Run>, n: nat, engine: string): real
    requires HasRoom(limits, runs, n, engine)
  {
    var share := (r: Resource) =>
      if r in RequestedResources(engine) then Share(ActiveCount(runs, n, r), LimitOf(limits[n], r)) else 0.0;
    if share(Cpu) >= share(Gpu) then share(Cpu) else share(Gpu)
  }

  /** No requested pool is fuller than the load, and one is as full. */
  lemma LoadIsFullest(limits: seq<Limits>, runs: seq<Run>, n: nat, engine: string)
    requires HasRoom(limits, runs, n, engine)
    ensures forall r :: r in RequestedResources(engine) ==>
              ActiveCount(runs, n, r) as real / LimitOf(limits[n], r) as real <= Load(limits, runs, n, engine)
    ensures exists r :: r in RequestedResources(engine) &&
              ActiveCount(runs, n, r) as real / LimitOf(limits[n], r) as real == Load(limits, runs, n, engine)
  {
    hide ActiveCount, RequestedResources;
    PoolsRequested(engine);
    forall r | r in RequestedResources(engine)
      ensures ActiveCount(runs, n, r) as real / LimitOf(limits[n], r) as real >= 0.0
    {
      ShareNonNegative(ActiveCount(runs, n, r), LimitOf(limits[n], r));
    }
    if Cpu in RequestedResources(engine) && Gpu in RequestedResources(engine) {
    } else if Cpu in RequestedResources(engine) {
    } else {
      assert Gpu in RequestedResources(engine);
    }
  }

  lemma ShareNonNegative(used: nat, limit: nat)
    requires used < limit
    ensures used as real / limit as real >= 0.0
  {
    RealDivMonotone(0.0, used as real, limit as real);
  }

  /** Candidates are ordered by load, then by how long ago they were assigned, never first, then by key. */
  lemma RankedByLoadThenAge(a: Candidate, b: Candidate)
    ensures a.load < b.load ==> Precedes(a, b) && !Precedes(b, a)
    ensures a.load == b.load && a.lastAssigned == None && b.lastAssigned.Some? ==> Precedes(a, b) && !Precedes(b, a)
    ensures a.load == b.load && a.lastAssigned.Some? && b.lastAssigned.Some? && a.lastAssigned.value < b.lastAssigned.value ==>
              Precedes(a, b) && !Precedes(b, a)
    ensures a.load == b.load && a.lastAssigned == b.lastAssigned ==> (Precedes(a, b) <==> a.keyRank <= b.keyRank)
  {
  }

  lemma InsertRanked(order: seq<Candidate>, k: nat, c: Candidate)
    requires Ranked(order) && k <= |order|
    requires k > 0 ==> Precedes(order[k - 1], c)
    requires forall j :: k <= j < |order| ==> Precedes(c, order[j])
    ensures Ranked(order[..k] + [c] + order[k..])
  {
    var after := order[..k] + [c] + order[k..];
    forall i, j | 0 <= i < j < |after|
      ensures Precedes(after[i], after[j])
    {
      if i < k - 1 {
        assert Precedes(order[i], order[k - 1]);
      }
    }
  }

  method Insert(order: seq<Candidate>, c: Candidate) returns (after: seq<Candidate>, ghost at: nat)
    requires Ranked(order)
    ensures Ranked(after) && at <= |order| && after == order[..at] + [c] + order[at..]
  {
    var k := |order|;
    while k > 0 && !Precedes(order[k - 1], c)
      invariant 0 <= k <= |order|
      invariant forall j :: k <= j < |order| ==> Precedes(c, order[j])
    {
      k := k - 1;
    }
    InsertRanked(order, k, c);
    at := k;
    after := order[..k] + [c] + order[k..];
  }

  /** Adding up the pools of the active runs of a node. */
  method CountActive(runs: seq<Run>, n: nat) returns (cpu: nat, gpu: nat)
    ensures cpu == ActiveCount(runs, n, Cpu) && gpu == ActiveCount(runs, n, Gpu)
  {
    cpu, gpu := 0, 0;
    for g := 0 to |runs|
      invariant cpu == Sum(ActiveAt(runs, n, Cpu), g) && gpu == Sum(ActiveAt(runs, n, Gpu), g)
    {
      if runs[g].node == n && IsActive(runs[g].state) {
        var resources := RequestedResources(runs[g].engine);
        if Cpu in resources {
          cpu := cpu + 1;
        }
        if Gpu in resources {
          gpu := gpu + 1;
        }
      }
    }
  }

  method CheckRoom(limits: seq<Limits>, runs: seq<Run>, n: nat, engine: string) returns (room: bool)
    requires n < |limits|
    ensures room == HasRoom(limits, runs, n, engine)
  {
    hide ActiveCount;
    var cpu, gpu := CountActive(runs, n);
    var resources := RequestedResources(engine);
    room := !(Cpu in resources && cpu >= limits[n].maxCpu) && !(Gpu in resources && gpu >= limits[n].maxGpu);
  }

  class Gateway {
    const limits: seq<Limits>
    const keyRanks: seq<nat>
    var runs: seq<Run>
    var lastAssigned: seq<Option<int>>
    ghost var nodes: seq<N.State>
    ghost var submissions: seq<Submission>
    ghost var revivals: seq<Revival>

    ghost function View(): State
      reads this
    {
      State(limits, nodes, runs, submissions, revivals)
    }

    ghost predicate Valid()
      reads this
    {
      Inv(View()) && |lastAssigned| == |keyRanks| == |limits|
    }

    constructor (limits: seq<Limits>, keyRanks: seq<nat>)
      requires |keyRanks| == |limits|
      ensures Valid() && IsInit(View()) && this.limits == limits
    {
      this.limits, this.keyRanks := limits, keyRanks;
      runs, lastAssigned := [], seq(|limits|, _ => None);
      nodes, submissions, revivals := seq(|limits|, _ => N.Init), [], [];
      new;
      InitInv(View());
    }

    function CandidateFor(scanned: seq<Run>, n: nat, engine: string): Candidate
      requires |lastAssigned| == |keyRanks| == |limits| && HasRoom(limits, scanned, n, engine)
      reads this
    {
      Candidate(n, Load(limits, scanned, n, engine), lastAssigned[n], keyRanks[n])
    }

    /** The nodes of `eligible` that seemed to have room, best first. */
    method Scan(scanned: seq<Run>, engine: string, eligible: set<nat>) returns (order: seq<Candidate>)
      requires |lastAssigned| == |keyRanks| == |limits|
      ensures Ranked(order)
      ensures forall i :: 0 <= i < |order| ==>
                order[i].node in eligible && HasRoom(limits, scanned, order[i].node, engine) &&
                order[i] == CandidateFor(scanned, order[i].node, engine)
      ensures forall n: nat :: n in eligible && HasRoom(limits, scanned, n, engine) ==> CandidateFor(scanned, n, engine) in order
    {
      hide ActiveCount, Load, RequestedResources, Precedes;
      order := [];
      for n := 0 to |limits|
        invariant Ranked(order)
        invariant forall i :: 0 <= i < |order| ==>
                    order[i].node in eligible && HasRoom(limits, scanned, order[i].node, engine) &&
                    order[i] == CandidateFor(scanned, order[i].node, engine)
        invariant forall m: nat :: m < n && m in eligible && HasRoom(limits, scanned, m, engine) ==>
                    CandidateFor(scanned, m, engine) in order
      {
        if n in eligible {
          var room := CheckRoom(limits, scanned, n, engine);
          if room {
            ghost var before, at := order, 0;
            order, at := Insert(order, CandidateFor(scanned, n, engine));
            assert before == before[..at] + before[at..];
          }
        }
      }
    }

    method FindKey(key: string) returns (g: Option<nat>)
      ensures g.None? ==> KeyFree(runs, key)
      ensures g.Some? ==> g.value < |runs| && runs[g.value].key == key
    {
      for k := 0 to |runs|
        invariant forall j :: 0 <= j < k ==> runs[j].key != key
      {
        if runs[k].key == key {
          return Some(k);
        }
      }
      g := None;
    }

    /** A node that the scan offered, that nobody else has locked, and that passes the recheck. */
    ghost predicate Passes(scanned: seq<Run>, open: set<nat>, engine: string, n: nat)
      reads this
    {
      n in open && HasRoom(limits, scanned, n, engine) && HasRoom(limits, runs, n, engine)
    }

    /**
     The scan saw the run table as `scanned`, at any earlier time; `lockable` are the nodes whose rows
     are not locked by another transaction, `confirmed` those still healthy and fit for the request.
     */
    method ReserveOrReplay(key: string, requestHash: string, nodeHash: string, engine: string, scanned: seq<Run>,
                           eligible: set<nat>, lockable: set<nat>, confirmed: set<nat>, now: int)
      returns (r: Reservation)
      requires Valid()
      modifies this`runs, this`lastAssigned
      ensures Valid()
      ensures !KeyFree(old(runs), key) ==>
                runs == old(runs) && lastAssigned == old(lastAssigned) &&
                exists g: nat :: g < |runs| && runs[g].key == key &&
                  r == if runs[g].requestHash == requestHash then Replayed(g) else KeyConflict
      ensures KeyFree(old(runs), key) ==> r == Reserved(|old(runs)|) || r == NoCapacity
      ensures r.Reserved? ==>
                r.run < |runs| &&
                var n := runs[r.run].node;
                && Step(old(View()), Reserve(key, requestHash, nodeHash, n, engine), View())
                && old(Passes(scanned, eligible * lockable * confirmed, engine, n))
                && old(forall m: nat :: Passes(scanned, eligible * lockable * confirmed, engine, m) ==>
                         Precedes(CandidateFor(scanned, n, engine), CandidateFor(scanned, m, engine)))
                && n < |old(lastAssigned)| && lastAssigned == old(lastAssigned)[n := Some(now)]
                && |runs| == r.run + 1 && runs[..r.run] == old(runs)
                && runs[r.run].key == key && runs[r.run].requestHash == requestHash && runs[r.run].nodeHash == nodeHash
                && runs[r.run].engine == engine && runs[r.run].state == Allocating && runs[r.run].nodeRun.None?
      ensures r == NoCapacity ==>
                runs == old(runs) && lastAssigned == old(lastAssigned) &&
                forall n: nat :: !old(Passes(scanned, eligible * lockable * confirmed, engine, n))
    {
      hide Inv, ActiveCount, Load, RequestedResources, Precedes;
      var existing := FindKey(key);
      if existing.Some? {
        if runs[existing.value].requestHash != requestHash {
          return KeyConflict;
        }
        return Replayed(existing.value);
      }
      var order := Scan(scanned, engine, eligible);
      ghost var open := eligible * lockable * confirmed;
      for i := 0 to |order|
        invariant forall j :: 0 <= j < i ==> !Passes(scanned, open, engine, order[j].node)
        invariant runs == old(runs) && lastAssigned == old(lastAssigned)
      {
        var n := order[i].node;
        if n in lockable && n in confirmed {
          var room := CheckRoom(limits, runs, n, engine);
          if room {
            lastAssigned := lastAssigned[n := Some(now)];
            runs := runs + [Run(key, requestHash, nodeHash, n, engine, Allocating, None)];
            ghost var event := Reserve(key, requestHash, nodeHash, n, engine);
            InvWellformed(old(View()));
            StepKeeps(old(View()), event, View());
            forall m: nat | old(Passes(scanned, open, engine, m))
              ensures Precedes(order[i], old(CandidateFor(scanned, m, engine)))
            {
              var j :| 0 <= j < |order| && order[j] == old(CandidateFor(scanned, m, engine));
              assert j >= i;
              PrecedesSelf(order[i]);
            }
            return Reserved(|runs| - 1);
          }
        }
      }
      r := NoCapacity;
    }

    /** Sending the stored request of a run that has no node run yet. */
    method Send(g: nat) returns (sent: bool)
      requires Valid() && g < |runs|
      modifies this`nodes, this`submissions
      ensures Valid() && sent == runs[g].nodeRun.None?
      ensures if sent then Step(old(View()), Submit(g), View()) else View() == old(View())
    {
      hide Inv;
      InvWellformed(View());
      sent := runs[g].nodeRun.None?;
      if sent {
        ghost var after := NodeArrival(View(), runs[g].node, runs[g].key, runs[g].nodeHash);
        submissions := submissions + [Submission(g, |nodes[runs[g].node].handlers|)];
        nodes := after.nodes;
        StepKeeps(old(View()), Submit(g), View());
      }
    }

    /** The create reply to submission `k` arrived; it is recorded only when no reply was before. */
    method RecordReply(g: nat, m: nat, status: RunState, ghost k: nat, ghost h: N.Handler)
      requires Valid() && g < |runs| && Reportable(status)
      requires k < |submissions| && submissions[k].run == g && Wellformed(View()) && Serves(View(), k, h)
      requires h.stage == N.Replied(N.Accepted(m))
      modifies this`runs, this`revivals
      ensures Valid() && Step(old(View()), Deliver(k, status), View())
      ensures g < |runs| && runs[g].nodeRun == if old(runs[g].nodeRun).None? then Some(m) else old(runs[g].nodeRun)
    {
      hide Inv;
      if runs[g].nodeRun.None? {
        ghost var after := SetState(View(), g, status);
        var locked := runs[g].(nodeRun := Some(m), state := status);
        runs := runs[g := locked];
        revivals := after.revivals;
        assert View() == after.(runs := after.runs[g := after.runs[g].(nodeRun := Some(m))]);
      }
      StepKeeps(old(View()), Deliver(k, status), View());
    }

    /** The node refused the request for good. */
    method MarkRejected(g: nat)
      requires Valid() && g < |runs|
      modifies this`runs, this`revivals
      ensures Valid() && Step(old(View()), Reject(g), View())
    {
      hide Inv;
      InvWellformed(View());
      runs := runs[g := runs[g].(state := Failed)];
      StepKeeps(old(View()), Reject(g), View());
    }

    /** The node no longer knows the run. */
    method MarkLost(g: nat)
      requires Valid() && g < |runs|
      modifies this`runs, this`revivals
      ensures Valid() && Step(old(View()), Lose(g), View())
    {
      hide Inv;
      InvWellformed(View());
      runs := runs[g := runs[g].(state := NodeLost)];
      StepKeeps(old(View()), Lose(g), View());
    }

    /** A status report overwrites the state, whatever it was. */
    method SaveReport(g: nat, status: RunState)
      requires Valid() && g < |runs| && runs[g].nodeRun.Some? && Reportable(status)
      modifies this`runs, this`revivals
      ensures Valid() && Step(old(View()), SaveStatus(g, status), View())
    {
      hide Inv;
      InvWellformed(View());
      ghost var after := SetState(View(), g, status);
      runs := runs[g := runs[g].(state := status)];
      revivals := after.revivals;
      StepKeeps(old(View()), SaveStatus(g, status), View());
    }
  }

  lemma PrecedesSelf(c: Candidate)
    ensures Precedes(c, c)
  {
  }

  lemma InvWellformed(s: State)
    requires Inv(s)
    ensures Wellformed(s)
  {
  }
}
