/**
 The compute node's run-creation route step by step: a table of weak mutex references with
 strong counts, mutexes that are held or free, and the response cache. Each method is one
 atomic step of a handler and refines the protocol of `IdempotentNode`.
 */
module NodeService {
  import opened Arithmetic
  import opened IdempotentNode

  function RefAt(handlers: seq<Handler>, m: nat): nat -> nat {
    (i: nat) => if i < |handlers| && Refers(handlers[i]) && handlers[i].mutex == m then 1 else 0
  }

  /** Strong references to a mutex. */
  function RefCount(handlers: seq<Handler>, m: nat): nat {
    Sum(RefAt(handlers, m), |handlers|)
  }

  predicate Refd(handlers: seq<Handler>, m: nat) {
    exists i :: 0 <= i < |handlers| && Refers(handlers[i]) && handlers[i].mutex == m
  }

  lemma RefdIffCounted(handlers: seq<Handler>, m: nat)
    ensures Refd(handlers, m) <==> RefCount(handlers, m) > 0
  {
    if Refd(handlers, m) {
      var i :| 0 <= i < |handlers| && Refers(handlers[i]) && handlers[i].mutex == m;
      SumHolds(RefAt(handlers, m), |handlers|, i);
    } else {
      SumZero(RefAt(handlers, m), |handlers|);
    }
  }

  lemma RefAppend(handlers: seq<Handler>, h: Handler, m: nat)
    requires !Refers(h)
    ensures RefCount(handlers + [h], m) == RefCount(handlers, m)
  {
    SumSame(RefAt(handlers, m), RefAt(handlers + [h], m), |handlers|);
  }

  function Holds(h: Handler, m: nat): nat {
    if Refers(h) && h.mutex == m then 1 else 0
  }

  lemma RefUpdate(handlers: seq<Handler>, i: nat, h: Handler, m: nat)
    requires i < |handlers|
    ensures RefCount(handlers[i := h], m) + Holds(handlers[i], m) == RefCount(handlers, m) + Holds(h, m)
  {
    SumPoint(RefAt(handlers, m), RefAt(handlers[i := h], m), |handlers|, i);
  }

  ghost predicate Counted(handlers: seq<Handler>, refs: seq<nat>) {
    forall m :: 0 <= m < |refs| ==> refs[m] == RefCount(handlers, m)
  }

  predicate Busy(handlers: seq<Handler>, m: nat) {
    exists i :: 0 <= i < |handlers| && Inside(handlers[i]) && handlers[i].mutex == m
  }

  ghost predicate HeldOk(handlers: seq<Handler>, held: set<nat>) {
    forall m: nat :: m in held <==> Busy(handlers, m)
  }

  function WithStage(handlers: seq<Handler>, i: nat, stage: Stage): seq<Handler>
    requires i < |handlers|
  {
    handlers[i := handlers[i].(stage := stage)]
  }

  /** A handler that keeps its reference and stays inside or outside changes no count and no mutex. */
  lemma StageKeeps(handlers: seq<Handler>, i: nat, stage: Stage, refs: seq<nat>, held: set<nat>)
    requires i < |handlers| && Counted(handlers, refs)
    requires Refers(handlers[i]) == Refers(handlers[i].(stage := stage))
    ensures Counted(WithStage(handlers, i, stage), refs)
    ensures HeldOk(handlers, held) && Inside(handlers[i]) == Inside(handlers[i].(stage := stage)) ==>
              HeldOk(WithStage(handlers, i, stage), held)
  {
    var after := WithStage(handlers, i, stage);
    forall m | 0 <= m < |refs|
      ensures refs[m] == RefCount(after, m)
    {
      RefUpdate(handlers, i, after[i], m);
    }
    if Inside(handlers[i]) == Inside(after[i]) {
      forall m: nat
        ensures Busy(handlers, m) <==> Busy(after, m)
      {
        if k :| 0 <= k < |handlers| && Inside(handlers[k]) && handlers[k].mutex == m {
          assert Inside(after[k]) && after[k].mutex == m;
        }
        if k :| 0 <= k < |after| && Inside(after[k]) && after[k].mutex == m {
          assert Inside(handlers[k]) && handlers[k].mutex == m;
        }
      }
    }
  }

  lemma EnterHolds(handlers: seq<Handler>, i: nat, stage: Stage, held: set<nat>)
    requires i < |handlers| && HeldOk(handlers, held) && Inside(handlers[i].(stage := stage)) && !Inside(handlers[i])
    ensures HeldOk(WithStage(handlers, i, stage), held + {handlers[i].mutex})
  {
    var after := WithStage(handlers, i, stage);
    assert Inside(after[i]) && after[i].mutex == handlers[i].mutex;
    forall m: nat
      ensures m in held + {handlers[i].mutex} <==> Busy(after, m)
    {
      if k :| 0 <= k < |handlers| && Inside(handlers[k]) && handlers[k].mutex == m {
        assert Inside(after[k]) && after[k].mutex == m;
      }
      if k :| 0 <= k < |after| && Inside(after[k]) && after[k].mutex == m {
        assert k != i ==> Inside(handlers[k]) && handlers[k].mutex == m;
      }
    }
  }

  /** Leaving frees the mutex, because nobody else was inside. */
  lemma LeaveFrees(s: State, i: nat, stage: Stage, held: set<nat>)
    requires Exclusive(s) && i < |s.handlers| && HeldOk(s.handlers, held)
    requires Inside(s.handlers[i]) && !Inside(s.handlers[i].(stage := stage))
    ensures HeldOk(WithStage(s.handlers, i, stage), held - {s.handlers[i].mutex})
  {
    var after := WithStage(s.handlers, i, stage);
    forall m: nat
      ensures m in held - {s.handlers[i].mutex} <==> Busy(after, m)
    {
      if k :| 0 <= k < |after| && Inside(after[k]) && after[k].mutex == m {
        assert Inside(s.handlers[k]) && k != i;
      }
      if m != s.handlers[i].mutex && Busy(s.handlers, m) {
        var k :| 0 <= k < |s.handlers| && Inside(s.handlers[k]) && s.handlers[k].mutex == m;
        assert Inside(after[k]) && after[k].mutex == m;
      }
    }
  }

  lemma FreeIff(s: State, held: set<nat>, m: nat)
    requires HeldOk(s.handlers, held)
    ensures Free(s, m) <==> m !in held
  {
  }

  lemma UpgradableIff(s: State, refs: seq<nat>, key: string)
    requires Inv(s) && Counted(s.handlers, refs) && |refs| == s.mutexes
    ensures key in s.table ==> s.table[key] < |refs|
    ensures Upgradable(s, key) <==> key in s.table && refs[s.table[key]] > 0
  {
    if key in s.table {
      RefdIffCounted(s.handlers, s.table[key]);
    }
  }

  /** Nobody refers to a mutex that was not made yet. */
  lemma UnmadeUnused(s: State)
    requires Inv(s)
    ensures RefCount(s.handlers, s.mutexes) == 0
  {
    RefdIffCounted(s.handlers, s.mutexes);
  }

  lemma InvExclusive(s: State)
    requires Inv(s)
    ensures Exclusive(s)
  {
  }

  class ComputeNode {
    var table: map<string, nat>
    var refs: seq<nat>
    var held: set<nat>
    var handlers: seq<Handler>
    var cache: map<string, Cached>
    var created: seq<string>
    ghost var orphans: set<nat>

    ghost function View(): State
      reads this
    {
      State(|refs|, table, handlers, cache, created, orphans)
    }

    /** Reference counts count the handlers, and held mutexes are those with a handler inside. */
    ghost predicate Valid()
      reads this
    {
      Inv(View()) && Counted(handlers, refs) && HeldOk(handlers, held)
    }

    constructor ()
      ensures Valid() && View() == Init
    {
      table, refs, held, handlers, cache, created, orphans := map[], [], {}, [], map[], [], {};
      new;
      InitInv();
    }

    method Receive(key: string, hash: string)
      requires Valid()
      modifies this`handlers
      ensures Valid() && Step(old(View()), Arrive(key, hash), View())
    {
      hide Inv, RefCount;
      var h := Handler(key, hash, 0, Arrived);
      forall m: nat
        ensures RefCount(handlers + [h], m) == RefCount(handlers, m)
      {
        RefAppend(handlers, h, m);
      }
      BusyAppend(handlers, h);
      handlers := handlers + [h];
      IdempotentNode.StepKeeps(old(View()), Arrive(key, hash), View());
    }

    /** The weak reference of the key is upgraded if anybody still holds the mutex; otherwise a new mutex takes its place. */
    method IdempotencyLock(i: nat)
      requires Valid() && i < |handlers| && handlers[i].stage.Arrived?
      modifies this`handlers, this`table, this`refs
      ensures Valid() && Step(old(View()), Acquire(i), View())
    {
      hide Inv, RefCount, Upgradable, HeldOk;
      var h := handlers[i];
      UpgradableIff(View(), refs, h.key);
      UnmadeUnused(View());
      var m := if h.key in table && refs[table[h.key]] > 0 then table[h.key] else |refs|;
      if m == |refs| {
        table := table[h.key := m];
        refs := refs + [0];
      }
      refs := refs[m := refs[m] + 1];
      handlers := handlers[i := h.(mutex := m, stage := Waiting)];
      IdempotentNode.StepKeeps(old(View()), Acquire(i), View());
      forall k | 0 <= k < |refs|
        ensures refs[k] == RefCount(handlers, k)
      {
        RefUpdate(old(handlers), i, handlers[i], k);
      }
      BusyOutside(old(handlers), i, handlers[i], held);
    }

    /** A handler gets the mutex exactly when nobody is inside. */
    method LockMutex(i: nat) returns (acquired: bool)
      requires Valid() && i < |handlers| && handlers[i].stage.Waiting?
      modifies this`handlers, this`held
      ensures Valid() && acquired == old(Free(View(), handlers[i].mutex))
      ensures if acquired then Step(old(View()), Lock(i), View()) else View() == old(View())
    {
      hide Inv, Counted, HeldOk, Free;
      FreeIff(View(), held, handlers[i].mutex);
      acquired := handlers[i].mutex !in held;
      if acquired {
        StageKeeps(handlers, i, Locked, refs, held);
        EnterHolds(handlers, i, Locked, held);
        held := held + {handlers[i].mutex};
        handlers := handlers[i := handlers[i].(stage := Locked)];
        IdempotentNode.StepKeeps(old(View()), Lock(i), View());
      }
    }

    /** The cached response of the key, a conflict, or none yet; opening or reading the database may fail. */
    method LookUpResponse(i: nat, fails: bool)
      requires Valid() && i < |handlers| && handlers[i].stage.Locked?
      modifies this`handlers
      ensures Valid() && Step(old(View()), if fails then FindFails(i) else Find(i), View())
    {
      hide Inv, Counted, HeldOk;
      var h := handlers[i];
      var stage := Missed;
      if fails {
        stage := Answered(Failed);
      } else if h.key in cache {
        var entry := cache[h.key];
        if entry.hash != "" && entry.hash != h.hash {
          stage := Answered(Conflict);
        } else {
          stage := Answered(Accepted(entry.run));
        }
      }
      StageKeeps(handlers, i, stage, refs, held);
      handlers := handlers[i := h.(stage := stage)];
      IdempotentNode.StepKeeps(old(View()), if fails then FindFails(i) else Find(i), View());
    }

    /** Creating the run, which may fail. */
    method CreateRun(i: nat, fails: bool)
      requires Valid() && i < |handlers| && handlers[i].stage.Missed?
      modifies this`handlers, this`created
      ensures Valid() && Step(old(View()), if fails then CreateFails(i) else Create(i), View())
    {
      hide Inv, Counted, HeldOk;
      var h := handlers[i];
      var stage := if fails then Answered(Failed) else Created(|created|);
      StageKeeps(handlers, i, stage, refs, held);
      if !fails {
        created := created + [h.key];
      }
      handlers := handlers[i := h.(stage := stage)];
      IdempotentNode.StepKeeps(old(View()), if fails then CreateFails(i) else Create(i), View());
    }

    /** Recording the response under the key; when that fails the run stays behind unrecorded. */
    method RecordResponse(i: nat, fails: bool)
      requires Valid() && i < |handlers| && handlers[i].stage.Created?
      modifies this`handlers, this`cache, this`orphans
      ensures Valid() && Step(old(View()), if fails then RecordFails(i) else Record(i), View())
    {
      hide Inv, Counted, HeldOk;
      var h := handlers[i];
      var run := h.stage.run;
      var stage := Answered(if fails then Failed else Accepted(run));
      StageKeeps(handlers, i, stage, refs, held);
      if fails {
        orphans := orphans + {run};
      } else {
        cache := cache[h.key := Cached(h.hash, run)];
      }
      handlers := handlers[i := h.(stage := stage)];
      IdempotentNode.StepKeeps(old(View()), if fails then RecordFails(i) else Record(i), View());
    }

    method UnlockMutex(i: nat)
      requires Valid() && i < |handlers| && handlers[i].stage.Answered?
      modifies this`handlers, this`held
      ensures Valid() && Step(old(View()), Unlock(i), View())
      ensures Free(View(), handlers[i].mutex)
    {
      hide Inv, Counted, HeldOk, Free;
      var h := handlers[i];
      var stage := Unlocked(h.stage.reply);
      InvExclusive(View());
      StageKeeps(handlers, i, stage, refs, held);
      LeaveFrees(View(), i, stage, held);
      held := held - {h.mutex};
      handlers := handlers[i := h.(stage := stage)];
      IdempotentNode.StepKeeps(old(View()), Unlock(i), View());
      FreeIff(View(), held, h.mutex);
    }

    /** The last reference to go takes the mutex with it; the table keeps a dead weak reference. */
    method DropReference(i: nat)
      requires Valid() && i < |handlers| && handlers[i].stage.Unlocked?
      modifies this`handlers, this`refs
      ensures Valid() && Step(old(View()), Drop(i), View())
    {
      hide Inv, RefCount, HeldOk;
      var h := handlers[i];
      ReferenceCounted(View(), refs, i);
      refs := refs[h.mutex := refs[h.mutex] - 1];
      handlers := handlers[i := h.(stage := Replied(h.stage.reply))];
      IdempotentNode.StepKeeps(old(View()), Drop(i), View());
      forall k | 0 <= k < |refs|
        ensures refs[k] == RefCount(handlers, k)
      {
        RefUpdate(old(handlers), i, handlers[i], k);
      }
      BusyOutside(old(handlers), i, handlers[i], held);
    }
  }

  lemma BusyAppend(handlers: seq<Handler>, h: Handler)
    requires !Inside(h)
    ensures forall m: nat :: Busy(handlers + [h], m) <==> Busy(handlers, m)
  {
    var after := handlers + [h];
    forall m: nat
      ensures Busy(after, m) <==> Busy(handlers, m)
    {
      if k :| 0 <= k < |handlers| && Inside(handlers[k]) && handlers[k].mutex == m {
        assert Inside(after[k]) && after[k].mutex == m;
      }
      if k :| 0 <= k < |after| && Inside(after[k]) && after[k].mutex == m {
        assert Inside(handlers[k]) && handlers[k].mutex == m;
      }
    }
  }

  lemma BusyOutside(handlers: seq<Handler>, i: nat, h: Handler, held: set<nat>)
    requires i < |handlers| && HeldOk(handlers, held) && !Inside(handlers[i]) && !Inside(h)
    ensures HeldOk(handlers[i := h], held)
  {
    var after := handlers[i := h];
    forall m: nat
      ensures Busy(after, m) <==> Busy(handlers, m)
    {
      if k :| 0 <= k < |handlers| && Inside(handlers[k]) && handlers[k].mutex == m {
        assert Inside(after[k]) && after[k].mutex == m;
      }
      if k :| 0 <= k < |after| && Inside(after[k]) && after[k].mutex == m {
        assert Inside(handlers[k]) && handlers[k].mutex == m;
      }
    }
  }

  lemma ReferenceCounted(s: State, refs: seq<nat>, i: nat)
    requires Inv(s) && Counted(s.handlers, refs) && |refs| == s.mutexes && i < |s.handlers| && Refers(s.handlers[i])
    ensures s.handlers[i].mutex < |refs| && refs[s.handlers[i].mutex] >= 1
  {
    RefdIffCounted(s.handlers, s.handlers[i].mutex);
  }
}
