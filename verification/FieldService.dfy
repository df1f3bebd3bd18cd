/**
 The registry of interactive field sessions as the request handlers and the reaper
 execute it. Each method is one critical section; its contract names the event of
 the session model it performs.
 */
module FieldService {
  import opened Arithmetic
  import opened Grid
  import opened Ordering
  import opened ViewKeys
  import opened FieldSessions
  import opened FieldInvariants
  import opened FieldRuns
  import opened FieldEffects
  import opened Wrappers

  const MAX_U64: nat := 0xFFFF_FFFF_FFFF_FFFF

  /** What a start request is answered with. */
  datatype StartReply =
    | Rejected
    | Conflict
    | Existing(id: nat)
    | Superseded
    | Busy(workers: bool)
    | Started(id: nat)

  class Registry {
    var now: nat
    var heap: seq<Session>
    var registered: set<nat>
    var byView: map<string, nat>
    var flags: seq<Flag>
    var preempt: map<string, Entry>
    var encoders: seq<Encoder>
    var encoding: bool

    ghost function View(): State
      reads this
    {
      State(now, heap, registered, byView, flags, preempt, encoders, encoding)
    }

    ghost predicate Valid()
      reads this
    {
      Inv(View())
    }

    constructor ()
      ensures Valid() && View() == Init
    {
      now, heap, registered, byView := 1, [], {}, map[];
      flags, preempt, encoders, encoding := [], map[], [], false;
      new;
      InitInv();
    }

    // ---- Preemption ---------------------------------------------------------------

    /** Drops the entries whose flag has no owner left. */
    method PrunePreemptEntries()
      requires Wellformed(View())
      modifies `preempt
      ensures preempt == LiveEntries(old(preempt), flags)
      ensures forall k :: k in preempt <==>
                k in old(preempt) && old(preempt)[k].flag < |flags| && flags[old(preempt)[k].flag].owned
      ensures forall k :: k in preempt ==> preempt[k] == old(preempt)[k]
    {
      ghost var before := preempt;
      var todo := preempt.Keys;
      while todo != {}
        invariant todo <= before.Keys && preempt.Keys <= before.Keys
        invariant forall k :: k in todo ==> k in preempt
        invariant forall k :: k in preempt ==> preempt[k] == before[k] && (k in todo || k in LiveEntries(before, flags))
        invariant forall k :: k in LiveEntries(before, flags) ==> k in preempt
        decreases |todo|
      {
        var k :| k in todo;
        todo := todo - {k};
        if !(preempt[k].flag < |flags| && flags[preempt[k].flag].owned) {
          preempt := preempt - {k};
        }
      }
    }

    method RegisterFlagFor(key: string, seqNo: int) returns (flag: nat)
      requires Wellformed(View())
      modifies `flags, `preempt
      ensures flag == old(|flags|)
      ensures Registration(flags, preempt) == RegisterIn(old(flags), old(preempt), key, seqNo)
    {
      flag := |flags|;
      if key == "" {
        flags := flags + [Flag(key, seqNo, false, true)];
        return;
      }
      if BadKey(key, seqNo) {
        flags := flags + [Flag(key, seqNo, true, true)];
        return;
      }
      if |preempt| >= MAX_PREEMPT_ENTRIES {
        PrunePreemptEntries();
      }
      if key !in preempt || seqNo >= preempt[key].seqNo {
        if key in preempt && preempt[key].flag < |flags| && flags[preempt[key].flag].owned {
          flags := CancelFlag(flags, preempt[key].flag);
        }
        preempt := preempt[key := Entry(seqNo, flag)];
        flags := flags + [Flag(key, seqNo, false, true)];
      } else {
        flags := flags + [Flag(key, seqNo, true, true)];
      }
    }

    /** A request enters the preemption table; its flag comes back cancelled when a newer request was there first. */
    method RegisterRequest(key: string, seqNo: int) returns (flag: nat)
      requires Valid()
      modifies `flags, `preempt
      ensures Valid() && Step(old(View()), RegisterFlag(key, seqNo), View())
      ensures flag == old(|flags|)
    {
      hide Inv, RegisterIn, Wellformed, ViewsOk, Step;
      ghost var s := View();
      InvRegistry(s);
      RegisterKeeps(s, key, seqNo);
      flag := RegisterFlagFor(key, seqNo);
      assert View() == Register(s, key, seqNo);
      RegisterStep(s, key, seqNo);
    }

    // ---- Registry entries -----------------------------------------------------------

    /** Removes one session and its view entry. */
    method Erase(id: nat)
      requires Wellformed(View())
      modifies `registered, `byView
      ensures View() == EraseOne(old(View()), id)
    {
      if id !in registered {
        return;
      }
      var viewKey := heap[id].viewKey;
      registered := registered - {id};
      if viewKey in byView && byView[viewKey] == id {
        byView := byView - {viewKey};
      }
    }

    method EraseEach(ids: set<nat>)
      requires Wellformed(View()) && ViewsOk(View())
      modifies `registered, `byView
      ensures View() == EraseAll(old(View()), ids)
    {
      ghost var s := View();
      var todo := ids;
      assert EraseAll(s, {}) == s by {
        assert s.registered - {} == s.registered;
        assert EraseAll(s, {}).byView == s.byView;
      }
      while todo != {}
        invariant todo <= ids && View() == EraseAll(s, ids - todo)
        decreases |todo|
      {
        var id :| id in todo;
        EraseViews(s, ids - todo);
        EraseOneIsAll(View(), id);
        EraseTwice(s, ids - todo, id);
        assert ids - todo + {id} == ids - (todo - {id});
        todo := todo - {id};
        Erase(id);
      }
      assert ids - {} == ids;
    }

    // ---- Pruning ------------------------------------------------------------------------

    method ScanOne(id: nat) returns (isExpired: bool, isDisposable: bool)
      requires id in registered && id < |heap| && heap[id].flag < |flags|
      modifies `flags
      ensures flags == if Idle(old(View()), id) then CancelFlag(old(flags), heap[id].flag) else old(flags)
      ensures isExpired == Expired(old(View()), id) && isDisposable == (Disposable(old(View()), id) && !isExpired)
    {
      var x := heap[id];
      isExpired, isDisposable := false, false;
      if x.phase == Running {
        if now - x.lastAccess > IDLE_TTL {
          flags := CancelFlag(flags, x.flag);
        }
      } else if x.finished != 0 && now - x.finished > RESULT_TTL && x.readers == 0 {
        isExpired := true;
      } else if (x.phase != Completed || x.delivered) && x.readers == 0 {
        isDisposable := true;
      }
    }

    /** First pass: ask idle workers to stop and sort the terminal sessions into expired and disposable. */
    method ScanTerminal() returns (expired: set<nat>, disposable: set<nat>)
      requires Wellformed(View())
      modifies `flags
      ensures FlagsCancelled(old(View()), flags, IdleSet(old(View())))
      ensures expired == ExpiredSet(old(View()))
      ensures disposable == DisposableSet(old(View())) - ExpiredSet(old(View()))
    {
      hide ScanState, IdleSet, ExpiredSet, DisposableSet, FlagsCancelled, Idle, Expired, Disposable, CancelFlag, Wellformed;
      ghost var s := View();
      ScanStart(s);
      expired, disposable := {}, {};
      var todo := registered;
      while todo != {}
        invariant todo <= registered && View() == s.(flags := flags)
        invariant ScanState(s, flags, expired, disposable, todo)
        decreases |todo|
      {
        var id :| id in todo;
        ScanAdvance(s, flags, expired, disposable, todo, id);
        ScanIgnoresFlags(s, flags, id);
        var isExpired, isDisposable := ScanOne(id);
        todo := todo - {id};
        expired := if isExpired then expired + {id} else expired;
        disposable := if isDisposable then disposable + {id} else disposable;
      }
      ScanDone(s, flags, expired, disposable);
    }

    method ChooseRemovals() returns (remove: set<nat>)
      requires Wellformed(View())
      modifies `flags
      ensures FlagsCancelled(old(View()), flags, IdleSet(old(View()))) && PruneChoice(old(View()), remove)
    {
      hide Wellformed, ExpiredSet, DisposableSet, FlagsCancelled, IdleSet, PruneChoice, Oldest, Members;
      ghost var s := View();
      var expired, disposable := ScanTerminal();
      var surplus := if |disposable| > MAX_RETAINED_TERMINAL then |disposable| - MAX_RETAINED_TERMINAL else 0;
      var picked := PickOldest(disposable, FinishedOf(heap), surplus);
      remove := expired + Members(picked);
      PruneChosen(s, Members(picked));
    }

    /** The reaper's pass: expired results go, and of the other unneeded ones the oldest beyond three. */
    method PruneSessions()
      requires Valid()
      modifies `flags, `registered, `byView
      ensures Valid() && Step(old(View()), Prune, View())
    {
      hide Inv, Wellformed, ViewsOk, FlagsCancelled, IdleSet, PruneChoice, EraseAll, PruneStep;
      ghost var s := View();
      InvRegistry(s);
      var remove := ChooseRemovals();
      FlagsOnlyViews(s, flags, IdleSet(s));
      assert View() == s.(flags := flags);
      EraseEach(remove);
      PruneDone(s, View(), remove, flags);
      PruneKeeps(s, View());
    }

    // ---- Admission ------------------------------------------------------------------------

    /** Splits the live workers into those still wanted and those already asked to stop. */
    method ScanRunning() returns (uncancelled: set<nat>, cancelled: nat)
      requires Wellformed(View())
      ensures uncancelled == UncancelledRunning(View()) && cancelled == |CancelledRunning(View())|
    {
      ghost var s := View();
      uncancelled, cancelled := {}, 0;
      ghost var stopping: set<nat> := {};
      var todo := registered;
      hide Wellformed, UncancelledRunning, CancelledRunning;
      RunningStart(s);
      while todo != {}
        invariant todo <= registered
        invariant RunningState(s, uncancelled, stopping, todo) && cancelled == |stopping|
        decreases |todo|
      {
        var id :| id in todo;
        RunningAdvance(s, uncancelled, stopping, todo, id);
        todo := todo - {id};
        if heap[id].phase == Running {
          if flags[heap[id].flag].cancelled {
            cancelled := cancelled + 1;
            stopping := stopping + {id};
          } else {
            uncancelled := uncancelled + {id};
          }
        }
      }
      RunningDone(s, uncancelled, stopping);
    }

    /** Asks the longest-unattended active views to stop when the worker slots are taken. */
    method MakeRoomForOne() returns (ghost chosen: set<nat>)
      requires Valid()
      modifies `flags
      ensures Valid() && Step(old(View()), MakeRoom(chosen), View())
    {
      hide Inv, Wellformed, ViewsOk, UncancelledRunning, CancelledRunning, FlagsCancelled, Oldest, Members, MakeRoomStep;
      ghost var s := View();
      InvRegistry(s);
      var uncancelled, cancelled := ScanRunning();
      var live := |uncancelled| + cancelled;
      var cancelCount := 0;
      if live >= MAX_RUNNING {
        var slots := live - MAX_RUNNING + 1;
        if slots > cancelled {
          cancelCount := if |uncancelled| < slots - cancelled then |uncancelled| else slots - cancelled;
        }
      }
      var picked := PickOldest(uncancelled, LastAccessOf(heap), cancelCount);
      chosen := Members(picked);
      PickedInRange(s, chosen);
      CancelEach(picked);
      MakeRoomChosen(s, View(), chosen);
      MakeRoomKeeps(s, View(), chosen);
    }

    method CancelEach(picked: seq<nat>)
      requires Wellformed(View()) && forall id :: id in Members(picked) ==> id < |heap|
      modifies `flags
      ensures FlagsCancelled(old(View()), flags, Members(picked))
    {
      ghost var s := View();
      hide FlagsCancelled;
      NoneCancelled(s);
      for i := 0 to |picked|
        invariant |flags| == |s.flags| && FlagsCancelled(s, flags, Members(picked[..i]))
      {
        assert Members(picked[..i + 1]) == Members(picked[..i]) + {picked[i]};
        assert picked[i] in Members(picked);
        CancelOne(s, flags, Members(picked[..i]), picked[i]);
        flags := CancelFlag(flags, heap[picked[i]].flag);
      }
      assert picked[..|picked|] == picked;
    }

    method CountRunning() returns (running: nat)
      requires Wellformed(View())
      ensures running == RunningCount(View())
    {
      hide RunningCount, Wellformed, RunningSet;
      ghost var s := View();
      running := 0;
      ghost var found: set<nat> := {};
      var todo := registered;
      CountStart(s);
      while todo != {}
        invariant todo <= registered && running == |found| && found == RunningSet(s) - todo
        decreases |todo|
      {
        var id :| id in todo;
        CountStep(s, todo, id);
        todo := todo - {id};
        if heap[id].phase == Running {
          running := running + 1;
          found := found + {id};
        }
      }
      assert RunningSet(s) - {} == RunningSet(s);
      RunningSetCount(s);
    }

    /** Adds up the reservations; an overflowing total saturates. */
    method SumReserved() returns (total: nat)
      requires Wellformed(View())
      ensures total == if ReservedBytes(View()) <= MAX_U64 then ReservedBytes(View()) else MAX_U64
    {
      hide ReservedBytes, ReservedWithin, Wellformed;
      ghost var s := View();
      total := 0;
      var todo := registered;
      WithinStart(s);
      while todo != {}
        invariant todo <= registered
        invariant total == Sum(ReservedWithin(s, registered - todo), |heap|) <= MAX_U64
        decreases |todo|
      {
        var id :| id in todo;
        RegisteredInRange(s, id);
        WithinStep(s, registered - todo, id);
        assert registered - todo + {id} == registered - (todo - {id});
        todo := todo - {id};
        if heap[id].reserved > MAX_U64 - total {
          WithinBelow(s, registered - todo);
          return MAX_U64;
        }
        total := total + heap[id].reserved;
      }
      assert registered - {} == registered;
      WithinAll(s);
    }

    /** Drops acknowledged fields, oldest first, until the request fits the memory budget. */
    method TrimDelivered(bytes: nat)
      requires Wellformed(View()) && ViewsOk(View()) && CapacityOk(View())
      modifies `registered, `byView
      ensures TrimStep(old(View()), View(), bytes)
    {
      hide Wellformed, ViewsOk, EraseAll, EraseOne, TrimStep, ReservedBytes, RunningCount, Lists, TrimmableSet;
      ghost var s := View();
      TrimRange(s);
      var reserved := SumReserved();
      if bytes <= MAX_RESERVED_BYTES && reserved <= MAX_RESERVED_BYTES - bytes {
        TrimNothing(s, bytes);
        return;
      }
      var candidates := CollectTrimmable();
      var order := OldestFirst(candidates, FinishedOf(heap));
      EraseNone(s);
      var i := 0;
      while i < |order| && !(bytes <= MAX_RESERVED_BYTES && reserved <= MAX_RESERVED_BYTES - bytes)
        invariant i <= |order| && View() == EraseAll(s, Members(order[..i]))
        invariant reserved == ReservedBytes(View())
      {
        TrimAdvance(s, candidates, order, i);
        reserved := if heap[order[i]].reserved > reserved then 0 else reserved - heap[order[i]].reserved;
        Erase(order[i]);
        i := i + 1;
      }
      TrimDone(s, View(), bytes, candidates, order, i);
    }

    method CollectTrimmable() returns (candidates: set<nat>)
      requires Wellformed(View())
      ensures candidates == TrimmableSet(View())
    {
      ghost var s := View();
      candidates := {};
      var todo := registered;
      while todo != {}
        invariant todo <= registered && candidates == TrimmableSet(s) - todo
        decreases |todo|
      {
        var id :| id in todo;
        todo := todo - {id};
        var x := heap[id];
        if x.phase == Completed && x.delivered && x.readers == 0 && x.reserved != 0 {
          candidates := candidates + {id};
        }
      }
      assert TrimmableSet(s) - {} == TrimmableSet(s);
    }

    /** The budget step of an admission. */
    method TrimForBudget(bytes: nat)
      requires Valid()
      modifies `registered, `byView
      ensures Valid() && Step(old(View()), Trim(bytes), View()) && View() == old(View())
    {
      hide Inv, Wellformed, ViewsOk, CapacityOk, SessionsOk, TrimStep;
      ghost var s := View();
      InvRegistry(s);
      InvCaps(s);
      TrimDelivered(bytes);
      TrimIdle(s, View(), bytes);
    }

    /** Registers the new session under both maps. */
    method CreateSession(flag: nat, r: Request) returns (id: nat)
      requires Valid() && MayAdmit(View(), flag, r)
      modifies `heap, `registered, `byView
      ensures Valid() && Step(old(View()), AdmitSession(flag, r), View())
      ensures id == old(|heap|) && |heap| == id + 1 && heap[..id] == old(heap)
      ensures heap[id].requestId == r.requestId && heap[id].fingerprint == r.fingerprint && heap[id].flag == flag
      ensures heap[id].phase == Running && heap[id].viewKey == ViewKey(r.preemptKey, r.seqNo)
      ensures heap[id].width == r.width && heap[id].height == r.height && heap[id].reserved == r.width * r.height * 9
      ensures registered == old(registered) + {id} && byView == old(byView)[ViewKey(r.preemptKey, r.seqNo) := id]
    {
      hide Inv, MayAdmit, Wellformed;
      ghost var s := View();
      InvRegistry(s);
      AdmitRequest(s, flag, r);
      AdmitKeeps(s, flag, r);
      id := |heap|;
      var viewKey := ViewKey(r.preemptKey, r.seqNo);
      var bytes := ReservationBytes(r.width, r.height).value;
      var session := Session(viewKey, r.requestId, r.fingerprint, flag, r.width, r.height, bytes, false, 0,
                             0, 0, seq(r.width * r.height, _ => false), Running, 0, 0, 0, now, NotStarted);
      heap := heap + [session];
      registered := registered + {id};
      byView := byView[viewKey := id];
      assert View() == Admit(s, flag, r);
    }

    method RegisterStart(r: Request) returns (flag: nat)
      requires Valid()
      modifies `flags, `preempt
      ensures Valid() && Wellformed(old(View())) && Step(old(View()), RegisterFlag(r.preemptKey, r.seqNo), View())
      ensures flag == old(|flags|) && OwnFlag(View(), flag, r)
    {
      hide Inv, Step, Wellformed, ViewsOk, OwnFlag;
      ghost var s := View();
      InvRegistry(s);
      flag := RegisterRequest(r.preemptKey, r.seqNo);
      RegisteredFlag(s, View(), r, flag);
    }

    method ClearTheWay(r: Request, flag: nat) returns (ghost chosen: set<nat>)
      requires Valid() && OwnFlag(View(), flag, r) && ReservationBytes(r.width, r.height).Some?
      modifies `flags, `registered, `byView
      ensures Valid() && OwnFlag(View(), flag, r) && byView == old(byView)
      ensures Wellformed(old(View())) && Step(old(View()), MakeRoom(chosen), View())
      ensures Wellformed(View()) && Step(View(), Trim(ReservationBytes(r.width, r.height).value), View())
    {
      hide Inv, Step, Wellformed, ViewsOk, OwnFlag, ReservationBytes;
      ghost var s := View();
      InvRegistry(s);
      chosen := MakeRoomForOne();
      ghost var s' := View();
      InvRegistry(s');
      MakeRoomKeepsFlag(s, s', chosen, r, flag);
      TrimForBudget(ReservationBytes(r.width, r.height).value);
      assert View() == s';
    }

    /** Takes a slot and memory for a view that is not registered, if the request is current and both caps have room. */
    method AdmitNew(r: Request) returns (reply: StartReply, ghost states: seq<State>, ghost events: seq<Event>)
      requires Valid() && !BadRequest(r) && ViewKey(r.preemptKey, r.seqNo) !in byView
      modifies this
      ensures Valid() && Covers(states, events, old(View()), View())
      ensures Answers(r, reply, states, events)
      ensures if reply.Started? then |heap| == old(|heap|) + 1 && heap[..old(|heap|)] == old(heap) else heap == old(heap)
      ensures reply.Started? ==>
                var id := reply.id;
                && id == old(|heap|) && id in registered && ViewKey(r.preemptKey, r.seqNo) in byView
                && byView[ViewKey(r.preemptKey, r.seqNo)] == id && heap[id].viewKey == ViewKey(r.preemptKey, r.seqNo)
                && heap[id].requestId == r.requestId && heap[id].fingerprint == r.fingerprint
                && heap[id].width == r.width && heap[id].height == r.height && heap[id].phase == Running
                && heap[id].reserved == r.width * r.height * 9
    {
      hide Inv, Step, Wellformed, ViewsOk, IsPath, BadRequest, ViewKey;
      hide RunningCount, ReservedBytes, Fits, OwnFlag, Answers, ReservationBytes;
      GoodRequest(r);
      ghost var s1 := View();
      var flag := RegisterStart(r);
      ghost var s2 := View();
      RegisteredFlag(s1, s2, r, flag);
      states, events := [s1, s2], [RegisterFlag(r.preemptKey, r.seqNo)];
      PathOne(s1, events[0], s2);
      OwnFlagExists(s2, flag, r);
      if flags[flag].cancelled {
        AnswersSuperseded(r, s1, s2);
        return Superseded, states, events;
      }
      ghost var chosen := ClearTheWay(r, flag);
      ghost var s3, bytes := View(), ReservationBytes(r.width, r.height).value;
      PathMore(states, events, MakeRoom(chosen), s3);
      states, events := states + [s3], events + [MakeRoom(chosen)];
      PathMore(states, events, Trim(bytes), s3);
      states, events := states + [s3], events + [Trim(bytes)];
      reply := AdmitIfRoom(flag, r);
      if reply.Started? {
        PathMore(states, events, AdmitSession(flag, r), View());
        states, events := states + [View()], events + [AdmitSession(flag, r)];
      }
      AnswersDecided(r, reply, states, events, flag);
    }

    /** The admission decision proper. */
    method AdmitIfRoom(flag: nat, r: Request) returns (reply: StartReply)
      requires Valid() && OwnFlag(View(), flag, r) && !BadRequest(r) && ViewKey(r.preemptKey, r.seqNo) !in byView
      modifies `heap, `registered, `byView
      ensures Valid() && ReservationBytes(r.width, r.height).Some?
      ensures if RunningCount(old(View())) < MAX_RUNNING && Fits(old(View()), ReservationBytes(r.width, r.height).value)
              then reply == Started(|old(heap)|) && Step(old(View()), AdmitSession(flag, r), View())
              else reply == Busy(RunningCount(old(View())) >= MAX_RUNNING) && View() == old(View())
      ensures if reply.Started? then |heap| == old(|heap|) + 1 && heap[..old(|heap|)] == old(heap) else heap == old(heap)
      ensures reply.Started? ==>
                var id := reply.id;
                && id == old(|heap|) && id in registered && ViewKey(r.preemptKey, r.seqNo) in byView
                && byView[ViewKey(r.preemptKey, r.seqNo)] == id && heap[id].viewKey == ViewKey(r.preemptKey, r.seqNo)
                && heap[id].requestId == r.requestId && heap[id].fingerprint == r.fingerprint
                && heap[id].width == r.width && heap[id].height == r.height && heap[id].phase == Running
                && heap[id].reserved == r.width * r.height * 9
    {
      hide Inv, Step, Wellformed, ViewsOk, SessionsOk, Admit, MayAdmit, ViewKey, RunningCount, ReservedBytes, OwnFlag;
      ghost var s := View();
      InvRegistry(s);
      InvCaps(s);
      GoodRequest(r);
      var bytes := ReservationBytes(r.width, r.height).value;
      var liveWorkers := CountRunning();
      var reservedBytes := SumReserved();
      var workersBusy := liveWorkers >= MAX_RUNNING;
      var memoryBusy := reservedBytes > MAX_RESERVED_BYTES - bytes;
      if workersBusy || memoryBusy {
        return Busy(workersBusy);
      }
      ReadyToAdmit(s, flag, r);
      var id := CreateSession(flag, r);
      reply := Started(id);
    }

    /**
     A start request, under the registry lock throughout. A registered view answers
     for itself; otherwise the request must be current and both caps must have room.
     */
    method Start(r: Request) returns (reply: StartReply, ghost states: seq<State>, ghost events: seq<Event>)
      requires Valid()
      modifies this
      ensures Valid() && Covers(states, events, old(View()), View())
      ensures reply.Rejected? <==>
              r.requestId == "" || r.preemptKey == "" || |r.preemptKey| > 128 ||
              r.width <= 0 || r.height <= 0 || r.width * r.height > 16_777_216
      ensures reply.Rejected? ==> events == []
      ensures !reply.Rejected? ==> events != [] && events[0] == Prune && Answers(r, reply, states[1..], events[1..])
      ensures if reply.Started? then |heap| == old(|heap|) + 1 && heap[..old(|heap|)] == old(heap) else heap == old(heap)
      ensures reply.Started? ==>
                var id := reply.id;
                && id == old(|heap|) && id in registered && ViewKey(r.preemptKey, r.seqNo) in byView
                && byView[ViewKey(r.preemptKey, r.seqNo)] == id && heap[id].viewKey == ViewKey(r.preemptKey, r.seqNo)
                && heap[id].requestId == r.requestId && heap[id].fingerprint == r.fingerprint
                && heap[id].width == r.width && heap[id].height == r.height && heap[id].phase == Running
                && heap[id].reserved == r.width * r.height * 9
    {
      hide Inv, Step, Wellformed, ViewsOk, IsPath, ViewKey, Answers;
      ghost var s0 := View();
      states, events := [s0], [];
      PathNone(s0);
      if r.requestId == "" || r.preemptKey == "" || |r.preemptKey| > MAX_PREEMPT_KEY_BYTES ||
         ReservationBytes(r.width, r.height).None? {
        return Rejected, states, events;
      }
      var viewKey := ViewKey(r.preemptKey, r.seqNo);
      InvRegistry(s0);
      PruneSessions();
      ghost var s1 := View();
      InvRegistry(s1);
      if viewKey in byView {
        ViewInRange(s1, viewKey);
        var id := byView[viewKey];
        reply := if heap[id].requestId != r.requestId || heap[id].fingerprint != r.fingerprint then Conflict else Existing(id);
        states, events := [s0, s1], [Prune];
        PathOne(s0, Prune, s1);
        AnswersExisting(r, reply, s1);
        assert states[1..] == [s1] && events[1..] == [];
      } else {
        ghost var states', events';
        reply, states', events' := AdmitNew(r);
        PathFirst(s0, Prune, states', events');
        states, events := [s0] + states', [Prune] + events';
        assert states[1..] == states' && events[1..] == events';
        AnsweredNew(r, reply, states', events');
      }
    }

    // ---- Worker sections ------------------------------------------------------------------

    /** Marks one rectangle of the publication map cell by cell. */
    method PaintRect(p: seq<bool>, completed: nat, fullW: nat, fullH: nat, x: nat, y: nat, w: nat, h: nat)
      returns (q: seq<bool>, count: nat)
      requires |p| == fullW * fullH && fullW > 0 && x + w <= fullW && y + h <= fullH
      ensures q == Painted(p, fullW, x, y, w, h) && count == completed + FreshCount(p, q)
    {
      q, count := p, completed;
      FreshNone(p);
      assert PaintedTo(p, q, fullW, x, y, w, y, 0);
      for row := y to y + h
        invariant PaintedTo(p, q, fullW, x, y, w, row, 0) && count == completed + FreshCount(p, q)
      {
        var start := row * fullW + x;
        for col := 0 to w
          invariant PaintedTo(p, q, fullW, x, y, w, row, col) && count == completed + FreshCount(p, q)
        {
          PaintCell(p, q, fullW, fullH, x, y, w, row, col);
          if !q[start + col] {
            FreshStep(p, q, start + col);
            q := q[start + col := true];
            count := count + 1;
          } else {
            assert q[start + col := true] == q;
          }
        }
        PaintRow(p, q, fullW, fullH, x, y, w, row);
      }
      PaintDone(p, q, fullW, fullH, x, y, w, h);
    }

    /** The tile callback of the renderer. */
    method PublishTile(id: nat, x: int, y: int, w: int, h: int)
      requires Valid() && id < |heap| && heap[id].worker == Rendering
      modifies `heap
      ensures Valid() && Step(old(View()), Publish(id, x, y, w, h), View())
    {
      hide Inv, Wellformed, ViewsOk, Step, PublishRect;
      ghost var s := View();
      InvRegistry(s);
      HeldSize(s, id);
      var session := heap[id];
      var q, count := session.published, session.completedPixels;
      var publish := w > 0 && h > 0 && session.phase == Running && x >= 0 && y >= 0 &&
                     x + w <= session.width && y + h <= session.height &&
                     session.iterLen == session.width * session.height && session.normLen == session.width * session.height;
      if publish {
        q, count := PaintRect(q, count, session.width, session.height, x, y, w, h);
        session := session.(published := q, completedPixels := count, revision := session.revision + 1);
      }
      PublishSpec(heap[id], session, q, count, publish, x, y, w, h);
      heap := heap[id := session];
      SessionStep(s, Publish(id, x, y, w, h), View());
      StepKeeps(s, Publish(id, x, y, w, h), View());
    }

    /** The worker's last section: the outcome is recorded and an unusable partial field is freed at once. */
    method FinalizeSession(id: nat)
      requires Valid() && id < |heap| && heap[id].worker.Verdict?
      modifies `heap
      ensures Valid() && Step(old(View()), Finalize(id), View())
    {
      hide Inv, Wellformed, ViewsOk, Step;
      ghost var s := View();
      InvRegistry(s);
      var outcome := heap[id].worker.final;
      var session := heap[id].(phase := outcome, finished := now, worker := Done);
      if outcome != Completed {
        session := session.(iterLen := 0, normLen := 0, published := [], reserved := 0);
      }
      heap := heap[id := session];
      SessionStep(s, Finalize(id), View());
      StepKeeps(s, Finalize(id), View());
    }

    // ---- Results ---------------------------------------------------------------------------

    /** A result request pins the raw field, unless there is none to hand out. */
    method PinResult(id: nat) returns (encoder: Option<nat>)
      requires Valid()
      modifies `heap, `encoders
      ensures Valid()
      ensures encoder.Some? <==> MayPin(old(View()), id)
      ensures encoder.Some? ==> encoder.value == old(|encoders|) && Step(old(View()), Pin(id), View())
      ensures encoder.None? ==> View() == old(View())
    {
      hide Inv, Wellformed, ViewsOk, Step;
      ghost var s := View();
      InvRegistry(s);
      InRange(s, id);
      if id !in registered || heap[id].phase != Completed || heap[id].delivered {
        return None;
      }
      var expected := heap[id].width * heap[id].height;
      if heap[id].iterLen != expected || heap[id].normLen != expected {
        return None;
      }
      encoder := Some(|encoders|);
      heap := heap[id := heap[id].(readers := heap[id].readers + 1)];
      encoders := encoders + [Encoder(id, Pinned)];
      PinStep(s, id, View());
      StepKeeps(s, Pin(id), View());
    }

    method LeaveField(k: nat, stage: Stage)
      requires Wellformed(View()) && k < |encoders|
      modifies `heap, `encoders
      ensures View() == Unpin(old(View()), k, stage)
    {
      var id := encoders[k].session;
      var session := heap[id];
      if session.readers != 0 {
        session := session.(readers := session.readers - 1);
      }
      if session.delivered && session.readers == 0 {
        session := session.(iterLen := 0, normLen := 0, published := [], reserved := 0);
      }
      heap := heap[id := session];
      encoders := encoders[k := encoders[k].(stage := stage)];
    }

    /** Only one result is encoded at a time; a second handler lets go of the field and retries later. */
    method TryEncode(k: nat) returns (entered: bool)
      requires Valid() && AtStage(View(), k, Pinned)
      modifies `heap, `encoders, `encoding
      ensures Valid() && Step(old(View()), EnterGate(k), View()) && entered == !old(encoding)
    {
      hide Inv, Wellformed, ViewsOk, Step, Unpin;
      ghost var s := View();
      InvRegistry(s);
      EncoderInRange(s, k);
      if encoding {
        LeaveField(k, Gone);
        entered := false;
      } else {
        encoding := true;
        encoders := encoders[k := encoders[k].(stage := Encoding)];
        entered := true;
      }
      assert View() == Gate(s, k);
      GateStep(s, k);
      StepKeeps(s, EnterGate(k), View());
    }

    method EndEncode(k: nat)
      requires Valid() && AtStage(View(), k, Encoding)
      modifies `heap, `encoders
      ensures Valid() && Step(old(View()), FinishEncode(k), View())
    {
      hide Inv, Wellformed, ViewsOk, Step, Unpin;
      ghost var s := View();
      InvRegistry(s);
      EncoderInRange(s, k);
      LeaveField(k, Leaving);
      EndStep(s, k);
      StepKeeps(s, FinishEncode(k), View());
    }

    /** The encoder leaves the transport gate. */
    method LeaveGateFor(k: nat)
      requires Valid() && AtStage(View(), k, Leaving)
      modifies `encoders, `encoding
      ensures Valid() && Step(old(View()), LeaveGate(k), View()) && !encoding
    {
      hide Inv, Wellformed, ViewsOk, Step;
      ghost var s := View();
      InvRegistry(s);
      encoders := encoders[k := encoders[k].(stage := Gone)];
      encoding := false;
      LeaveStep(s, k);
      StepKeeps(s, LeaveGate(k), View());
    }

    /** The browser confirms that it decoded the result of this very request. */
    method AcknowledgeResult(id: nat, requestId: string) returns (known: bool)
      requires Valid()
      modifies `heap
      ensures Valid()
      ensures known <==> id in old(registered) && requestId != "" && id < |old(heap)| && requestId == old(heap)[id].requestId
      ensures known ==> Step(old(View()), Acknowledge(id, requestId), View())
      ensures !known ==> View() == old(View())
    {
      hide Inv, Wellformed, ViewsOk, Step;
      ghost var s := View();
      InvRegistry(s);
      InRange(s, id);
      if id !in registered || requestId == "" || requestId != heap[id].requestId {
        return false;
      }
      known := true;
      var session := heap[id];
      if session.phase == Completed {
        session := session.(delivered := true, lastAccess := now);
        if session.readers == 0 {
          session := session.(iterLen := 0, normLen := 0, published := [], reserved := 0);
        }
      }
      heap := heap[id := session];
      SessionStep(s, Acknowledge(id, requestId), View());
      StepKeeps(s, Acknowledge(id, requestId), View());
    }
  }

  // ---- Steps from states ---------------------------------------------------------------

  lemma RegisterStep(s: State, key: string, seqNo: int)
    requires Wellformed(s)
    ensures Step(s, RegisterFlag(key, seqNo), Register(s, key, seqNo))
  {
  }

  lemma SessionStep(s: State, e: Event, s': State)
    requires Wellformed(s) && IsSessionEvent(e) && e.id < |s.heap| && SessionEnabled(e, s.heap[e.id], e.id in s.registered)
    requires s' == s.(heap := s.heap[e.id := SessionNext(e, s.heap[e.id], FlagSet(s, e.id), s.now)])
    ensures Step(s, e, s')
  {
  }

  lemma PublishSpec(x: Session, session: Session, q: seq<bool>, count: nat, publish: bool, px: int, py: int, w: int, h: int)
    requires x.width > 0 && (publish <==> Publishable(x, px, py, w, h))
    requires publish ==> q == Painted(x.published, x.width, px, py, w, h) &&
                         count == x.completedPixels + FreshCount(x.published, q)
    requires session == if publish then x.(published := q, completedPixels := count, revision := x.revision + 1) else x
    ensures session == PublishRect(x, px, py, w, h)
  {
  }

  lemma InRange(s: State, id: nat)
    requires Wellformed(s)
    ensures id in s.registered ==> id < |s.heap|
  {
  }

  lemma EncoderInRange(s: State, k: nat)
    requires Wellformed(s) && k < |s.encoders|
    ensures s.encoders[k].session < |s.heap|
  {
  }

  lemma PinStep(s: State, id: nat, s': State)
    requires Wellformed(s) && MayPin(s, id)
    requires s' == s.(heap := s.heap[id := s.heap[id].(readers := s.heap[id].readers + 1)],
                      encoders := s.encoders + [Encoder(id, Pinned)])
    ensures Step(s, Pin(id), s')
  {
  }

  lemma GateStep(s: State, k: nat)
    requires Wellformed(s) && AtStage(s, k, Pinned)
    ensures s.encoders[k].session < |s.heap| && Step(s, EnterGate(k), Gate(s, k))
  {
  }

  lemma EndStep(s: State, k: nat)
    requires Wellformed(s) && AtStage(s, k, Encoding)
    ensures s.encoders[k].session < |s.heap| && Step(s, FinishEncode(k), Unpin(s, k, Leaving))
  {
  }

  lemma LeaveStep(s: State, k: nat)
    requires Wellformed(s) && AtStage(s, k, Leaving)
    ensures Step(s, LeaveGate(k), SetStage(s, k, Gone).(encoding := false))
  {
  }

  predicate BadRequest(r: Request) {
    r.requestId == "" || r.preemptKey == "" || |r.preemptKey| > MAX_PREEMPT_KEY_BYTES ||
    ReservationBytes(r.width, r.height).None?
  }

  /** The states and events lead from one view of the registry to another. */
  ghost predicate Covers(states: seq<State>, events: seq<Event>, first: State, last: State) {
    IsPath(states, events) && |states| == |events| + 1 && states[0] == first && states[|events|] == last
  }

  /** How the reply to a well-formed start follows from the state after its prune, the first of `states`. */
  ghost predicate Answers(r: Request, reply: StartReply, states: seq<State>, events: seq<Event>) {
    && |states| == |events| + 1
    && var pruned, v := states[0], ViewKey(r.preemptKey, r.seqNo);
       var flag := |pruned.flags|;
       if v in pruned.byView then
         // A registered view: same request, same session, nothing else happens.
         var id := pruned.byView[v];
         && |events| == 0 && id in pruned.registered && id < |pruned.heap|
         && reply == if pruned.heap[id].requestId == r.requestId && pruned.heap[id].fingerprint == r.fingerprint
                     then Existing(id) else Conflict
       else
         && |events| >= 1 && events[0] == RegisterFlag(r.preemptKey, r.seqNo) && flag < |states[1].flags|
         && if states[1].flags[flag].cancelled then
              reply == Superseded && |events| == 1
            else
              && |events| >= 3 && events[1].MakeRoom? && events[2].Trim? && ReservationBytes(r.width, r.height).Some?
              && if RunningCount(states[3]) < MAX_RUNNING && Fits(states[3], ReservationBytes(r.width, r.height).value)
                 then reply == Started(|pruned.heap|) && |events| == 4 && events[3] == AdmitSession(flag, r)
                 else reply == Busy(RunningCount(states[3]) >= MAX_RUNNING) && |events| == 3
  }

  lemma AnswersExisting(r: Request, reply: StartReply, s: State)
    requires ViewKey(r.preemptKey, r.seqNo) in s.byView
    requires var id := s.byView[ViewKey(r.preemptKey, r.seqNo)];
             id in s.registered && id < |s.heap| &&
             reply == if s.heap[id].requestId == r.requestId && s.heap[id].fingerprint == r.fingerprint
                      then Existing(id) else Conflict
    ensures Answers(r, reply, [s], []) && !reply.Rejected?
  {
  }

  lemma AnswersSuperseded(r: Request, s: State, s': State)
    requires ViewKey(r.preemptKey, r.seqNo) !in s.byView
    requires |s.flags| < |s'.flags| && s'.flags[|s.flags|].cancelled
    ensures Answers(r, Superseded, [s, s'], [RegisterFlag(r.preemptKey, r.seqNo)])
  {
    hide ViewKey;
  }

  lemma AnswersDecided(r: Request, reply: StartReply, states: seq<State>, events: seq<Event>, flag: nat)
    requires |states| == |events| + 1 && |events| >= 3 && ReservationBytes(r.width, r.height).Some?
    requires ViewKey(r.preemptKey, r.seqNo) !in states[0].byView
    requires flag == |states[0].flags| < |states[1].flags| && !states[1].flags[flag].cancelled
    requires events[0] == RegisterFlag(r.preemptKey, r.seqNo) && events[1].MakeRoom? && events[2].Trim?
    requires if RunningCount(states[3]) < MAX_RUNNING && Fits(states[3], ReservationBytes(r.width, r.height).value)
             then reply == Started(|states[0].heap|) && |events| == 4 && events[3] == AdmitSession(flag, r)
             else reply == Busy(RunningCount(states[3]) >= MAX_RUNNING) && |events| == 3
    ensures Answers(r, reply, states, events)
  {
    hide ViewKey, RunningCount, ReservedBytes, Fits, ReservationBytes;
  }

  lemma AnsweredNew(r: Request, reply: StartReply, states: seq<State>, events: seq<Event>)
    requires Answers(r, reply, states, events)
    ensures !reply.Rejected?
  {
  }

  /** Repeating an identical start while its session is registered returns that session and starts no second worker. */
  lemma RepeatedStart(r: Request, reply: StartReply, states: seq<State>, events: seq<Event>, id: nat)
    requires Answers(r, reply, states, events) && Inv(states[0])
    requires id in states[0].registered && id < |states[0].heap|
    requires var x := states[0].heap[id];
             x.viewKey == ViewKey(r.preemptKey, r.seqNo) && x.requestId == r.requestId && x.fingerprint == r.fingerprint
    ensures reply == Existing(id) && events == []
  {
    hide ViewKey, SessionsOk, CapacityOk, FlagsOk, PreemptOk, EncodersOk;
  }

  /**
   Over any run: a start repeated while the session it created is registered is answered
   with that session and starts nothing, and an acknowledgement of its result is accepted.
   */
  lemma StartedAnswersAgain(states: seq<State>, events: seq<Event>, k: nat, j: nat, flag: nat, r: Request,
                            reply: StartReply, path: seq<State>, steps: seq<Event>)
    requires IsRun(states, events) && k < j < |states| && events[k] == AdmitSession(flag, r)
    requires |states[k].heap| in states[j].registered
    requires |path| == |steps| + 1 && path[0] == states[j] && Answers(r, reply, path, steps)
    ensures reply == Existing(|states[k].heap|) && steps == []
    ensures |states[k].heap| < |states[j].heap| && states[j].heap[|states[k].heap|].requestId == r.requestId
    ensures r.requestId != "" ==>
              exists after :: Wellformed(states[j]) && Step(states[j], Acknowledge(|states[k].heap|, r.requestId), after)
  {
    hide ViewKey, Answers, Inv, Step;
    var s, id := states[j], |states[k].heap|;
    AdmittedIdentity(states, events, k, j, flag, r);
    RunInv(states, events, j);
    RepeatedStart(r, reply, path, steps, id);
    if r.requestId != "" {
      InvRegistry(s);
      AcknowledgePossible(s, id, r.requestId);
    }
  }

  lemma AcknowledgePossible(s: State, id: nat, requestId: string)
    requires Wellformed(s) && id in s.registered && id < |s.heap|
    requires requestId != "" && s.heap[id].requestId == requestId
    ensures exists after :: Step(s, Acknowledge(id, requestId), after)
  {
    var e := Acknowledge(id, requestId);
    SessionStep(s, e, s.(heap := s.heap[id := SessionNext(e, s.heap[id], FlagSet(s, id), s.now)]));
  }

  /** Every reply to an acceptable start, in terms of what the registry held when it was decided. */
  lemma RepliesMean(r: Request, reply: StartReply, states: seq<State>, events: seq<Event>)
    requires |states| == |events| + 1 && IsPath(states, events) && Wellformed(states[|events|])
    requires Answers(r, reply, states, events) && !BadRequest(r)
    ensures var s := states[0];
            ViewKey(r.preemptKey, r.seqNo) in s.byView && s.byView[ViewKey(r.preemptKey, r.seqNo)] < |s.heap| ==>
              var id := s.byView[ViewKey(r.preemptKey, r.seqNo)];
              events == [] && (reply == Existing(id) || reply == Conflict) &&
              (reply == Existing(id) <==> s.heap[id].requestId == r.requestId && s.heap[id].fingerprint == r.fingerprint)
    ensures ViewKey(r.preemptKey, r.seqNo) !in states[0].byView ==>
              var s := states[|events|];
              var f := |states[0].flags|;
              && (reply.Superseded? || reply.Busy? || reply.Started?)
              && f < |s.flags| && (reply.Superseded? ==> s.flags[f].cancelled)
              && (reply.Busy? ==>
                   var live := |set id | id in s.registered && s.heap[id].phase == Running|;
                   && (reply.workers <==> live >= 2)
                   && (live >= 2 || ReservedBytes(s) + r.width * r.height * 9 > 536_870_912))
  {
    hide ViewKey, RunningCount, ReservedBytes, Step;
    var s := states[|events|];
    RunningSetCount(s);
    assert RunningSet(s) == set id | id in s.registered && s.heap[id].phase == Running;
    if ViewKey(r.preemptKey, r.seqNo) !in states[0].byView {
      FlagsGrow(states, events, |events|);
    }
  }

  lemma {:induction false} FlagsGrow(states: seq<State>, events: seq<Event>, i: nat)
    requires |states| == |events| + 1 && IsPath(states, events) && 1 <= i < |states|
    ensures |states[1].flags| <= |states[i].flags|
  {
    hide Step;
    if i > 1 {
      FlagsGrow(states, events, i - 1);
      assert Wellformed(states[i - 1]) && Step(states[i - 1], events[i - 1], states[i]);
      FlagsNeverShrink(states[i - 1], events[i - 1], states[i]);
    }
  }

  lemma FlagsNeverShrink(s: State, e: Event, s': State)
    requires Wellformed(s) && Step(s, e, s')
    ensures |s.flags| <= |s'.flags|
  {
    if |s.flags| > 0 {
      StepFlagsOneWay(s, e, s', |s.flags| - 1);
    }
  }

  lemma GoodRequest(r: Request)
    requires !BadRequest(r)
    ensures ReservationBytes(r.width, r.height).Some? && r.preemptKey != ""
  {
  }

  lemma PathNone(s: State)
    ensures IsPath([s], [])
  {
  }

  lemma PathOne(s: State, e: Event, s': State)
    requires Wellformed(s) && Step(s, e, s')
    ensures IsPath([s, s'], [e])
  {
  }

  lemma PathMore(states: seq<State>, events: seq<Event>, e: Event, s': State)
    requires |states| == |events| + 1 && IsPath(states, events)
    requires Wellformed(states[|events|]) && Step(states[|events|], e, s')
    ensures IsPath(states + [s'], events + [e])
  {
    hide Step;
  }

  lemma PathFirst(s: State, e: Event, states: seq<State>, events: seq<Event>)
    requires |states| == |events| + 1 && IsPath(states, events) && Wellformed(s) && Step(s, e, states[0])
    ensures IsPath([s] + states, [e] + events)
  {
    hide Step;
  }

  lemma InvCaps(s: State)
    requires Inv(s)
    ensures CapacityOk(s) && SessionsOk(s)
  {
  }

  lemma ViewInRange(s: State, v: string)
    requires Wellformed(s) && ViewsOk(s) && v in s.byView
    ensures s.byView[v] in s.registered && s.byView[v] < |s.heap|
  {
  }

  lemma AdmitRequest(s: State, flag: nat, r: Request)
    requires MayAdmit(s, flag, r)
    ensures ReservationBytes(r.width, r.height).Some? && r.width > 0 && r.height > 0
  {
  }

  /** The freshly registered flag belongs to this request alone. */
  ghost predicate OwnFlag(s: State, flag: nat, r: Request) {
    && flag < |s.flags| && s.flags[flag].owned && s.flags[flag].key == r.preemptKey && s.flags[flag].seqNo == r.seqNo
    && forall id :: 0 <= id < |s.heap| ==> s.heap[id].flag != flag
  }

  lemma OwnFlagExists(s: State, flag: nat, r: Request)
    requires OwnFlag(s, flag, r)
    ensures flag < |s.flags|
  {
  }

  lemma RegisteredFlag(s: State, s': State, r: Request, flag: nat)
    requires Wellformed(s) && Step(s, RegisterFlag(r.preemptKey, r.seqNo), s') && flag == |s.flags|
    ensures OwnFlag(s', flag, r) && s'.byView == s.byView && s'.heap == s.heap && s'.registered == s.registered
  {
  }

  lemma MakeRoomKeepsFlag(s: State, s': State, chosen: set<nat>, r: Request, flag: nat)
    requires Wellformed(s) && Step(s, MakeRoom(chosen), s') && OwnFlag(s, flag, r)
    ensures OwnFlag(s', flag, r) && s'.byView == s.byView && s'.heap == s.heap && s'.registered == s.registered
  {
    assert FlagsCancelled(s, s'.flags, chosen);
  }

  lemma ReadyToAdmit(s: State, flag: nat, r: Request)
    requires OwnFlag(s, flag, r) && !BadRequest(r)
    requires ViewKey(r.preemptKey, r.seqNo) !in s.byView
    requires RunningCount(s) < MAX_RUNNING
    requires ReservedBytes(s) <= MAX_RESERVED_BYTES - ReservationBytes(r.width, r.height).value
    ensures MayAdmit(s, flag, r)
  {
    hide ViewKey, RunningCount, ReservedBytes;
  }

  lemma HeldSize(s: State, id: nat)
    requires Inv(s) && id < |s.heap| && s.heap[id].worker == Rendering
    ensures var x := s.heap[id];
            x.phase == Running && x.width > 0 && x.height > 0 && |x.published| == x.width * x.height
  {
    SessionFacts(s, id);
  }

  // ---- Painting ------------------------------------------------------------------------

  /** Cells of the rectangle that precede row `row`, column offset `col`. */
  predicate Before(c: Cell, x: int, y: int, w: int, row: int, col: int) {
    x <= c.x < x + w && y <= c.y && (c.y < row || (c.y == row && c.x < x + col))
  }

  ghost predicate PaintedTo(p: seq<bool>, q: seq<bool>, fullW: nat, x: int, y: int, w: int, row: int, col: int)
    requires fullW > 0
  {
    && |q| == |p|
    && forall i :: 0 <= i < |q| ==> q[i] == (p[i] || Before(CellAt(i, fullW), x, y, w, row, col))
  }

  lemma FreshNone(p: seq<bool>)
    ensures FreshCount(p, p) == 0
  {
    SumZero(FreshAt(p, p), |p|);
  }

  lemma FreshStep(p: seq<bool>, q: seq<bool>, k: nat)
    requires |q| == |p| && k < |q| && !q[k] && !p[k]
    ensures FreshCount(p, q[k := true]) == FreshCount(p, q) + 1
  {
    SumPoint(FreshAt(p, q), FreshAt(p, q[k := true]), |q|, k);
  }

  /** Marking the next cell extends the painted prefix by exactly that cell. */
  lemma PaintCell(p: seq<bool>, q: seq<bool>, fullW: nat, fullH: nat, x: nat, y: nat, w: nat, row: nat, col: nat)
    requires |p| == fullW * fullH && fullW > 0 && x + w <= fullW && y <= row < fullH && col < w
    requires PaintedTo(p, q, fullW, x, y, w, row, col)
    ensures var k := row * fullW + x + col;
            0 <= k < |q| && (!q[k] ==> !p[k]) && PaintedTo(p, q[k := true], fullW, x, y, w, row, col + 1)
  {
    var c, k := Cell(x + col, row), row * fullW + x + col;
    IndexRoundTrip(c, fullW, fullH);
    assert k == Index(c, fullW);
    forall i | 0 <= i < |q|
      ensures q[k := true][i] == (p[i] || Before(CellAt(i, fullW), x, y, w, row, col + 1))
    {
      CellRoundTrip(i, fullW, fullH);
      assert CellAt(i, fullW) == c ==> i == k;
    }
  }

  lemma PaintRow(p: seq<bool>, q: seq<bool>, fullW: nat, fullH: nat, x: nat, y: nat, w: nat, row: nat)
    requires fullW > 0 && y <= row && PaintedTo(p, q, fullW, x, y, w, row, w)
    ensures PaintedTo(p, q, fullW, x, y, w, row + 1, 0)
  {
    assert forall c :: Before(c, x, y, w, row, w) <==> Before(c, x, y, w, row + 1, 0);
  }

  lemma PaintDone(p: seq<bool>, q: seq<bool>, fullW: nat, fullH: nat, x: nat, y: nat, w: nat, h: nat)
    requires fullW > 0 && PaintedTo(p, q, fullW, x, y, w, y + h, 0)
    ensures q == Painted(p, fullW, x, y, w, h)
  {
    assert forall c :: Before(c, x, y, w, y + h, 0) <==> InRect(c, x, y, w, h);
  }

  ghost function TrimmableSet(s: State): set<nat> {
    set id | id in s.registered && Trimmable(s, id)
  }

  function ReservedWithin(s: State, ids: set<nat>): nat -> nat {
    (i: nat) => if i in ids && i < |s.heap| then s.heap[i].reserved else 0
  }

  lemma RegisteredInRange(s: State, id: nat)
    requires Wellformed(s) && id in s.registered
    ensures id < |s.heap|
  {
  }

  lemma CountStart(s: State)
    ensures RunningSet(s) - s.registered == {}
  {
  }

  lemma CountStep(s: State, todo: set<nat>, id: nat)
    requires Wellformed(s) && id in s.registered && id in todo
    ensures id < |s.heap| && id !in RunningSet(s) - todo
    ensures RunningSet(s) - (todo - {id}) ==
            (RunningSet(s) - todo) + (if s.heap[id].phase == Running then {id} else {})
  {
  }

  lemma WithinStart(s: State)
    ensures Sum(ReservedWithin(s, s.registered - s.registered), |s.heap|) == 0
  {
    SumZero(ReservedWithin(s, s.registered - s.registered), |s.heap|);
  }

  lemma WithinStep(s: State, ids: set<nat>, id: nat)
    requires id < |s.heap| && id !in ids
    ensures Sum(ReservedWithin(s, ids + {id}), |s.heap|) == Sum(ReservedWithin(s, ids), |s.heap|) + s.heap[id].reserved
  {
    SumPoint(ReservedWithin(s, ids), ReservedWithin(s, ids + {id}), |s.heap|, id);
  }

  lemma WithinBelow(s: State, ids: set<nat>)
    requires ids <= s.registered
    ensures Sum(ReservedWithin(s, ids), |s.heap|) <= ReservedBytes(s)
  {
    SumAtMost(ReservedWithin(s, ids), ReservedAt(s), |s.heap|);
  }

  lemma WithinAll(s: State)
    ensures Sum(ReservedWithin(s, s.registered), |s.heap|) == ReservedBytes(s)
  {
    SumSame(ReservedWithin(s, s.registered), ReservedAt(s), |s.heap|);
  }

  lemma EraseNone(s: State)
    ensures EraseAll(s, {}) == s && Members([]) == {}
  {
    assert EraseAll(s, {}).byView == s.byView;
    assert s.registered - {} == s.registered;
  }

  lemma TrimNothing(s: State, bytes: nat)
    requires Fits(s, bytes)
    ensures TrimStep(s, s, bytes)
  {
    EraseNone(s);
    assert s.registered - s.registered == {};
  }

  lemma TrimRange(s: State)
    requires CapacityOk(s)
    ensures ReservedBytes(s) <= MAX_RESERVED_BYTES <= MAX_U64
  {
  }

  /** Erasing the next candidate is one more member of the erased prefix and frees its reservation. */
  lemma TrimAdvance(s: State, candidates: set<nat>, order: seq<nat>, i: nat)
    requires Wellformed(s) && ViewsOk(s) && candidates == TrimmableSet(s)
    requires Lists(order, candidates, FinishedOf(s.heap)) && i < |order|
    ensures var t := EraseAll(s, Members(order[..i]));
            Wellformed(t) && order[i] < |s.heap| && order[i] in t.registered &&
            EraseOne(t, order[i]) == EraseAll(s, Members(order[..i + 1])) &&
            ReservedBytes(EraseOne(t, order[i])) == ReservedBytes(t) - s.heap[order[i]].reserved
  {
    hide Wellformed, ViewsOk, EraseAll, EraseOne, TrimmableSet, RunningCount, ReservedBytes;
    var done, id := Members(order[..i]), order[i];
    var t := EraseAll(s, done);
    assert id in Members(order) && id !in done;
    EraseViews(s, done);
    EraseOneIsAll(t, id);
    EraseTwice(s, done, id);
    assert Members(order[..i + 1]) == done + {id};
    TrimmableRegistered(s, id);
    ErasedWeights(s, done, id);
  }

  lemma TrimmableRegistered(s: State, id: nat)
    requires id in TrimmableSet(s)
    ensures id in s.registered && id < |s.heap|
  {
  }

  lemma ErasedWeights(s: State, done: set<nat>, id: nat)
    requires id in s.registered && id < |s.heap| && id !in done
    ensures var t := EraseAll(s, done);
            id in t.registered && ReservedBytes(EraseAll(t, {id})) == ReservedBytes(t) - s.heap[id].reserved
  {
    var t := EraseAll(s, done);
    SumPoint(ReservedAt(t), ReservedAt(EraseAll(t, {id})), |s.heap|, id);
  }

  lemma TrimDone(s: State, s': State, bytes: nat, candidates: set<nat>, order: seq<nat>, i: nat)
    requires Wellformed(s) && candidates == TrimmableSet(s) && Lists(order, candidates, FinishedOf(s.heap)) && i <= |order|
    requires s' == EraseAll(s, Members(order[..i])) && !Fits(s, bytes)
    requires i == |order| || Fits(s', bytes)
    ensures TrimStep(s, s', bytes)
  {
    hide Trimmable, Fits, EraseAll;
    PrefixIsOldest(order, candidates, FinishedOf(s.heap), i);
    var removed := Members(order[..i]);
    TrimSets(s, removed);
    assert order[..|order|] == order;
    forall a: nat, b: nat | a in removed && Trimmable(s, b) && b !in removed
      ensures a < |s.heap| && b < |s.heap| && s.heap[a].finished <= s.heap[b].finished
    {
      assert a in candidates && b in candidates - removed;
      assert FinishedOf(s.heap)(a) <= FinishedOf(s.heap)(b);
    }
  }

  lemma TrimSets(s: State, removed: set<nat>)
    requires removed <= TrimmableSet(s)
    ensures forall id: nat :: Trimmable(s, id) <==> id in TrimmableSet(s)
    ensures forall id: nat :: id in TrimmableSet(s) ==> id < |s.heap|
    ensures s.registered - EraseAll(s, removed).registered == removed
  {
  }

  lemma InvRegistry(s: State)
    requires Inv(s)
    ensures Wellformed(s) && ViewsOk(s)
  {
  }

  /** What the worker scan has found when the sessions in `todo` are still to be visited. */
  ghost predicate RunningState(s: State, uncancelled: set<nat>, stopping: set<nat>, todo: set<nat>) {
    Wellformed(s) && uncancelled == UncancelledRunning(s) - todo && stopping == CancelledRunning(s) - todo
  }

  lemma RunningStart(s: State)
    requires Wellformed(s)
    ensures RunningState(s, {}, {}, s.registered)
  {
    assert UncancelledRunning(s) - s.registered == {};
  }

  lemma RunningAdvance(s: State, uncancelled: set<nat>, stopping: set<nat>, todo: set<nat>, id: nat)
    requires RunningState(s, uncancelled, stopping, todo) && todo <= s.registered && id in todo
    ensures id < |s.heap| && s.heap[id].flag < |s.flags| && id !in uncancelled && id !in stopping
    ensures var live := s.heap[id].phase == Running;
            RunningState(s, if live && !FlagSet(s, id) then uncancelled + {id} else uncancelled,
                         if live && FlagSet(s, id) then stopping + {id} else stopping, todo - {id})
  {
    var live := s.heap[id].phase == Running;
    assert UncancelledRunning(s) - (todo - {id}) ==
           (UncancelledRunning(s) - todo) + (if live && !FlagSet(s, id) then {id} else {});
    assert CancelledRunning(s) - (todo - {id}) ==
           (CancelledRunning(s) - todo) + (if live && FlagSet(s, id) then {id} else {});
  }

  lemma RunningDone(s: State, uncancelled: set<nat>, stopping: set<nat>)
    requires RunningState(s, uncancelled, stopping, {})
    ensures uncancelled == UncancelledRunning(s) && stopping == CancelledRunning(s)
  {
    assert UncancelledRunning(s) - {} == UncancelledRunning(s);
  }

  /** What a scan has found when the sessions in `todo` are still to be visited. */
  ghost predicate ScanState(s: State, flags: seq<Flag>, expired: set<nat>, disposable: set<nat>, todo: set<nat>) {
    && Wellformed(s)
    && FlagsCancelled(s, flags, IdleSet(s) - todo)
    && expired == ExpiredSet(s) - todo
    && disposable == DisposableSet(s) - ExpiredSet(s) - todo
  }

  lemma ScanStart(s: State)
    requires Wellformed(s)
    ensures ScanState(s, s.flags, {}, {}, s.registered)
  {
    assert IdleSet(s) - s.registered == {};
    assert ExpiredSet(s) - s.registered == {};
  }

  lemma ScanAdvance(s: State, flags: seq<Flag>, expired: set<nat>, disposable: set<nat>, todo: set<nat>, id: nat)
    requires ScanState(s, flags, expired, disposable, todo) && todo <= s.registered && id in todo
    ensures id < |s.heap| && s.heap[id].flag < |flags|
    ensures ScanState(s, if Idle(s, id) then CancelFlag(flags, s.heap[id].flag) else flags,
                      if Expired(s, id) then expired + {id} else expired,
                      if Disposable(s, id) && !Expired(s, id) then disposable + {id} else disposable,
                      todo - {id})
  {
    var todo' := todo - {id};
    assert IdleSet(s) - todo' == (IdleSet(s) - todo) + (if Idle(s, id) then {id} else {});
    CancelOne(s, flags, IdleSet(s) - todo, id);
    assert ExpiredSet(s) - todo' == (ExpiredSet(s) - todo) + (if Expired(s, id) then {id} else {});
  }

  lemma ScanIgnoresFlags(s: State, flags: seq<Flag>, id: nat)
    ensures var t := s.(flags := flags);
            Idle(t, id) == Idle(s, id) && Expired(t, id) == Expired(s, id) && Disposable(t, id) == Disposable(s, id)
  {
  }

  lemma ScanDone(s: State, flags: seq<Flag>, expired: set<nat>, disposable: set<nat>)
    requires ScanState(s, flags, expired, disposable, {})
    ensures |flags| == |s.flags| && FlagsCancelled(s, flags, IdleSet(s))
    ensures expired == ExpiredSet(s) && disposable == DisposableSet(s) - ExpiredSet(s)
  {
    assert IdleSet(s) - {} == IdleSet(s);
  }

  lemma CancelOne(s: State, flags: seq<Flag>, ids: set<nat>, id: nat)
    requires Wellformed(s) && FlagsCancelled(s, flags, ids) && id < |s.heap|
    ensures FlagsCancelled(s, CancelFlag(flags, s.heap[id].flag), ids + {id})
  {
    var flags' := CancelFlag(flags, s.heap[id].flag);
    forall f | 0 <= f < |flags'|
      ensures flags'[f] == s.flags[f].(cancelled := s.flags[f].cancelled ||
                                                    exists i :: i in ids + {id} && i < |s.heap| && s.heap[i].flag == f)
    {
      if f == s.heap[id].flag {
        assert id in ids + {id};
      } else {
        assert forall i :: i in ids + {id} && i < |s.heap| && s.heap[i].flag == f ==> i in ids;
      }
    }
  }

  function FinishedOf(heap: seq<Session>): nat -> nat {
    (id: nat) => if id < |heap| then heap[id].finished else 0
  }

  function LastAccessOf(heap: seq<Session>): nat -> nat {
    (id: nat) => if id < |heap| then heap[id].lastAccess else 0
  }

  lemma PruneSets(s: State)
    ensures forall id :: Expired(s, id) <==> id in ExpiredSet(s)
    ensures forall id :: Disposable(s, id) <==> id in DisposableSet(s)
    ensures ExpiredSet(s) <= s.registered && DisposableSet(s) <= s.registered
    ensures forall id :: id in DisposableSet(s) ==> id < |s.heap|
  {
  }

  lemma KeptIs(s: State, picked: set<nat>)
    requires picked <= DisposableSet(s)
    ensures KeptDisposable(s, ExpiredSet(s) + picked) == DisposableSet(s) - ExpiredSet(s) - picked
  {
  }

  lemma PruneChosen(s: State, picked: set<nat>)
    requires var d := DisposableSet(s) - ExpiredSet(s);
             Oldest(d, FinishedOf(s.heap), if |d| > MAX_RETAINED_TERMINAL then |d| - MAX_RETAINED_TERMINAL else 0, picked)
    ensures PruneChoice(s, ExpiredSet(s) + picked)
  {
    hide Expired, Disposable, ExpiredSet, DisposableSet, KeptDisposable;
    PruneSets(s);
    KeptIs(s, picked);
    var d := DisposableSet(s) - ExpiredSet(s);
    assert |d - picked| == |d| - |picked|;
    forall id, k | id in picked && k in d - picked
      ensures s.heap[id].finished <= s.heap[k].finished
    {
      assert FinishedOf(s.heap)(id) <= FinishedOf(s.heap)(k);
    }
  }

  lemma FlagsOnlyViews(s: State, flags: seq<Flag>, ids: set<nat>)
    requires Wellformed(s) && ViewsOk(s) && FlagsCancelled(s, flags, ids)
    ensures Wellformed(s.(flags := flags)) && ViewsOk(s.(flags := flags))
  {
  }

  lemma PruneDone(s: State, s': State, remove: set<nat>, flags: seq<Flag>)
    requires Wellformed(s) && PruneChoice(s, remove) && FlagsCancelled(s, flags, IdleSet(s))
    requires s' == EraseAll(s.(flags := flags), remove)
    ensures PruneStep(s, s')
  {
    hide FlagsCancelled, IdleSet;
    assert remove <= s.registered;
    hide PruneChoice;
    assert s.registered - s'.registered == remove;
    assert s'.flags == flags;
  }

  lemma NoneCancelled(s: State)
    requires Wellformed(s)
    ensures FlagsCancelled(s, s.flags, {}) && Members([]) == {}
  {
  }

  lemma PickedInRange(s: State, chosen: set<nat>)
    requires Wellformed(s)
    ensures chosen <= UncancelledRunning(s) ==> forall id :: id in chosen ==> id < |s.heap|
  {
  }

  lemma MakeRoomChosen(s: State, s': State, chosen: set<nat>)
    requires Wellformed(s)
    requires Oldest(UncancelledRunning(s), LastAccessOf(s.heap),
                    CancelCount(|UncancelledRunning(s)|, |CancelledRunning(s)|), chosen)
    requires FlagsCancelled(s, s'.flags, chosen) && s' == s.(flags := s'.flags)
    ensures MakeRoomStep(s, s', chosen)
  {
    forall a, b | a in chosen && b in UncancelledRunning(s) && b !in chosen
      ensures s.heap[a].lastAccess <= s.heap[b].lastAccess
    {
      assert LastAccessOf(s.heap)(a) <= LastAccessOf(s.heap)(b);
    }
  }

  lemma EraseTwice(s: State, ids: set<nat>, id: nat)
    ensures EraseAll(EraseAll(s, ids), {id}) == EraseAll(s, ids + {id})
  {
    var a, b := EraseAll(EraseAll(s, ids), {id}), EraseAll(s, ids + {id});
    assert a.byView == b.byView;
    assert a.registered == b.registered;
  }
}
