/**
 In-memory preview admission of the gateway: a preview holds one slot in every pool its
 engine may use, on one node, from admission until its release.
 */
module PreviewSlots {
  import opened Arithmetic
  import opened Wrappers
  import D = DurableRuns
  import E = DurableEffects

  type Resource = D.Resource

  datatype Ticket = Ticket(node: nat, engine: string, held: bool)

  function HeldAt(tickets: seq<Ticket>, n: nat, r: Resource): nat -> nat {
    (k: nat) => if k < |tickets| && tickets[k].held && tickets[k].node == n &&
                   r in D.RequestedResources(tickets[k].engine) then 1 else 0
  }

  /** Admitted, unreleased previews holding a resource of a node. */
  function Held(tickets: seq<Ticket>, n: nat, r: Resource): nat {
    Sum(HeldAt(tickets, n, r), |tickets|)
  }

  lemma HeldIsCardinality(tickets: seq<Ticket>, n: nat, r: Resource)
    ensures Held(tickets, n, r) ==
            |set k: nat | k < |tickets| && tickets[k].held && tickets[k].node == n &&
                          r in D.RequestedResources(tickets[k].engine)|
  {
    hide D.RequestedResources;
    var a := set k: nat | k < |tickets| && tickets[k].held && tickets[k].node == n &&
                          r in D.RequestedResources(tickets[k].engine);
    SumIndicator(a, |tickets|);
    SumSame(HeldAt(tickets, n, r), Indicator(a), |tickets|);
  }

  lemma HeldAppend(tickets: seq<Ticket>, t: Ticket, n: nat, r: Resource)
    ensures Held(tickets + [t], n, r) ==
            Held(tickets, n, r) + (if t.held && t.node == n && r in D.RequestedResources(t.engine) then 1 else 0)
  {
    SumSame(HeldAt(tickets, n, r), HeldAt(tickets + [t], n, r), |tickets|);
  }

  lemma HeldRelease(tickets: seq<Ticket>, k: nat, n: nat, r: Resource)
    requires k < |tickets| && tickets[k].held
    ensures Held(tickets[k := tickets[k].(held := false)], n, r) +
            (if tickets[k].node == n && r in D.RequestedResources(tickets[k].engine) then 1 else 0) == Held(tickets, n, r)
  {
    SumPoint(HeldAt(tickets, n, r), HeldAt(tickets[k := tickets[k].(held := false)], n, r), |tickets|, k);
  }

  class PreviewSlots {
    const limits: seq<D.Limits>
    const keyRanks: seq<nat>
    var inFlight: map<(nat, Resource), nat>
    ghost var tickets: seq<Ticket>

    /** A counter that was never touched is zero. */
    function Used(n: nat, r: Resource): nat
      reads this
    {
      if (n, r) in inFlight then inFlight[(n, r)] else 0
    }

    /** Every counter is the number of previews holding the slot, and within its limit. */
    ghost predicate Valid()
      reads this
    {
      && |keyRanks| == |limits|
      && (forall k :: 0 <= k < |tickets| ==> tickets[k].node < |limits|)
      && (forall n: nat, r :: n < |limits| ==> Used(n, r) == Held(tickets, n, r) <= D.LimitOf(limits[n], r))
    }

    constructor (limits: seq<D.Limits>, keyRanks: seq<nat>)
      requires |keyRanks| == |limits|
      ensures Valid() && this.limits == limits && tickets == []
    {
      this.limits, this.keyRanks, inFlight, tickets := limits, keyRanks, map[], [];
    }

    predicate HasRoom(n: nat, engine: string)
      reads this
    {
      n < |limits| && forall r :: r in D.RequestedResources(engine) ==> Used(n, r) < D.LimitOf(limits[n], r)
    }

    function Share(n: nat, r: Resource): real
      requires n < |limits| && Used(n, r) < D.LimitOf(limits[n], r)
      reads this
    {
      Used(n, r) as real / D.LimitOf(limits[n], r) as real
    }

    function Load(n: nat, engine: string): real
      requires HasRoom(n, engine)
      reads this
    {
      var cpu := if D.Cpu in D.RequestedResources(engine) then Share(n, D.Cpu) else 0.0;
      var gpu := if D.Gpu in D.RequestedResources(engine) then Share(n, D.Gpu) else 0.0;
      if cpu >= gpu then cpu else gpu
    }

    /** A node has room exactly when every requested pool has a slot less in use than its limit. */
    lemma RoomInNumbers(n: nat, engine: string)
      requires n < |limits|
      ensures HasRoom(n, engine) <==>
              && (engine != "cuda" ==> Used(n, D.Cpu) < limits[n].maxCpu)
              && (engine != "cpu" && engine != "openmp" && engine != "avx2" && engine != "avx512" ==>
                   Used(n, D.Gpu) < limits[n].maxGpu)
    {
      hide D.RequestedResources, Used;
      E.PoolsRequested(engine);
    }

    /** No requested pool is fuller than the load, and one is as full. */
    lemma LoadIsFullest(n: nat, engine: string)
      requires HasRoom(n, engine)
      ensures forall r :: r in D.RequestedResources(engine) ==>
                Used(n, r) as real / D.LimitOf(limits[n], r) as real <= Load(n, engine)
      ensures exists r :: r in D.RequestedResources(engine) &&
                Used(n, r) as real / D.LimitOf(limits[n], r) as real == Load(n, engine)
    {
      hide D.RequestedResources, Used;
      E.PoolsRequested(engine);
      forall r | r in D.RequestedResources(engine)
        ensures Used(n, r) as real / D.LimitOf(limits[n], r) as real >= 0.0
      {
        RealDivMonotone(0.0, Used(n, r) as real, D.LimitOf(limits[n], r) as real);
      }
      if D.Cpu !in D.RequestedResources(engine) {
        assert D.Gpu in D.RequestedResources(engine);
      }
    }

    /** Least loaded first, then by node key. */
    predicate Better(a: nat, b: nat, engine: string)
      requires HasRoom(a, engine) && HasRoom(b, engine) && |keyRanks| == |limits|
      reads this
    {
      Load(a, engine) < Load(b, engine) || (Load(a, engine) == Load(b, engine) && keyRanks[a] <= keyRanks[b])
    }

    /** The better node of two is never fuller, and the earlier key decides between equals. */
    lemma BetterByLoadThenKey(a: nat, b: nat, engine: string)
      requires HasRoom(a, engine) && HasRoom(b, engine) && |keyRanks| == |limits|
      ensures Better(a, b, engine) ==> Load(a, engine) <= Load(b, engine)
      ensures Load(a, engine) == Load(b, engine) ==> (Better(a, b, engine) <==> keyRanks[a] <= keyRanks[b])
      ensures Load(a, engine) < Load(b, engine) ==> Better(a, b, engine)
    {
      hide HasRoom, Load;
    }

    /** The best eligible node with a free slot in every requested pool. */
    method Choose(engine: string, eligible: seq<nat>) returns (best: Option<nat>)
      requires |keyRanks| == |limits|
      ensures best.None? ==> forall n :: n in eligible ==> !HasRoom(n, engine)
      ensures best.Some? ==> best.value in eligible && HasRoom(best.value, engine) &&
                             forall n :: n in eligible && HasRoom(n, engine) ==> Better(best.value, n, engine)
    {
      hide Load, HasRoom;
      best := None;
      for i := 0 to |eligible|
        invariant best.None? ==> forall n :: n in eligible[..i] ==> !HasRoom(n, engine)
        invariant best.Some? ==> best.value in eligible && HasRoom(best.value, engine) &&
                                 forall n :: n in eligible[..i] && HasRoom(n, engine) ==> Better(best.value, n, engine)
      {
        var n := eligible[i];
        assert eligible[..i + 1] == eligible[..i] + [n];
        if HasRoom(n, engine) && (best.None? || !Better(best.value, n, engine)) {
          best := Some(n);
        }
      }
      assert eligible[..|eligible|] == eligible;
    }

    /** One more or one less preview in every pool of the engine at node `n`, nothing else changed. */
    twostate predicate Shifted(n: nat, engine: string, delta: int)
      reads this
    {
      forall m: nat, r :: Used(m, r) == old(Used(m, r)) + (if m == n && r in D.RequestedResources(engine) then delta else 0)
    }

    /** A preview is admitted to all its pools at once, on the best eligible node, exactly when some node has room. */
    method TryAdmit(engine: string, eligible: seq<nat>) returns (node: Option<nat>)
      requires Valid()
      modifies this`inFlight, this`tickets
      ensures Valid()
      ensures node.None? <==> forall n :: n in eligible ==> !old(HasRoom(n, engine))
      ensures node.None? ==> tickets == old(tickets) && inFlight == old(inFlight)
      ensures node.Some? ==>
                var n := node.value;
                && n in eligible && old(HasRoom(n, engine))
                && (forall m :: m in eligible && old(HasRoom(m, engine)) ==> old(Better(n, m, engine)))
                && tickets == old(tickets) + [Ticket(n, engine, true)] && Shifted(n, engine, 1)
    {
      hide D.RequestedResources, Held, Load, Better;
      node := Choose(engine, eligible);
      if node.Some? {
        var n, resources := node.value, D.RequestedResources(engine);
        if D.Cpu in resources {
          inFlight := inFlight[(n, D.Cpu) := Used(n, D.Cpu) + 1];
        }
        if D.Gpu in resources {
          inFlight := inFlight[(n, D.Gpu) := Used(n, D.Gpu) + 1];
        }
        ghost var t := Ticket(n, engine, true);
        tickets := tickets + [t];
        forall m: nat, r | m < |limits|
          ensures Used(m, r) == Held(tickets, m, r) <= D.LimitOf(limits[m], r)
        {
          HeldAppend(old(tickets), t, m, r);
        }
      }
    }

    /** A preview that ends gives back what it held; the floor at zero is never reached. */
    method Release(n: nat, engine: string, ghost k: nat)
      requires Valid() && k < |tickets| && tickets[k] == Ticket(n, engine, true)
      modifies this`inFlight, this`tickets
      ensures Valid() && tickets == old(tickets)[k := Ticket(n, engine, false)]
      ensures Shifted(n, engine, -1)
    {
      hide D.RequestedResources, Held;
      var resources := D.RequestedResources(engine);
      HeldRelease(tickets, k, n, D.Cpu);
      HeldRelease(tickets, k, n, D.Gpu);
      if D.Cpu in resources {
        inFlight := inFlight[(n, D.Cpu) := if Used(n, D.Cpu) >= 1 then Used(n, D.Cpu) - 1 else 0];
      }
      if D.Gpu in resources {
        inFlight := inFlight[(n, D.Gpu) := if Used(n, D.Gpu) >= 1 then Used(n, D.Gpu) - 1 else 0];
      }
      tickets := tickets[k := tickets[k].(held := false)];
      forall m: nat, r | m < |limits|
        ensures Used(m, r) == Held(tickets, m, r) <= D.LimitOf(limits[m], r)
      {
        HeldRelease(old(tickets), k, m, r);
      }
    }
  }
}
