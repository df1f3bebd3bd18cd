/** Properties of whole runs of the interactive field sessions, for every interleaving of events. */
module FieldRuns {
  import opened Arithmetic
  import opened ViewKeys
  import opened FieldSessions
  import opened FieldInvariants

  ghost predicate IsRun(states: seq<State>, events: seq<Event>) {
    IsPath(states, events) && states[0] == Init
  }

  lemma {:induction false} RunInv(states: seq<State>, events: seq<Event>, i: nat)
    requires IsRun(states, events) && i < |states|
    ensures Inv(states[i])
  {
    hide Inv, Step;
    if i == 0 {
      InitInv();
    } else {
      RunInv(states, events, i - 1);
      assert Step(states[i - 1], events[i - 1], states[i]);
      StepKeeps(states[i - 1], events[i - 1], states[i]);
    }
  }

  // ---- Capacity ---------------------------------------------------------------------

  /**
   In every reachable state at most two workers run and at most 512 MiB are
   reserved; everything running or being read is registered with its full reservation.
   */
  lemma CapacityHolds(states: seq<State>, events: seq<Event>, i: nat)
    requires IsRun(states, events) && i < |states|
    ensures var s := states[i];
            |RunningSet(s)| <= MAX_RUNNING && ReservedBytes(s) <= MAX_RESERVED_BYTES
    ensures var s := states[i];
            forall id :: 0 <= id < |s.heap| && (s.heap[id].phase == Running || s.heap[id].readers > 0) ==>
              id in s.registered && s.heap[id].reserved == FullBytes(s.heap[id])
  {
    RunInv(states, events, i);
    var s := states[i];
    RunningSetCount(s);
    forall id | 0 <= id < |s.heap| && (s.heap[id].phase == Running || s.heap[id].readers > 0)
      ensures id in s.registered && s.heap[id].reserved == FullBytes(s.heap[id])
    {
      ReservationTruthful(s, id);
    }
  }

  /** A raw field is owned exactly while somebody may still need it, and the reservation says so. */
  lemma ReservationTruthful(s: State, id: nat)
    requires Inv(s) && id < |s.heap|
    ensures var x := s.heap[id];
            x.reserved == (if Holds(x) then FullBytes(x) else 0) &&
            (x.phase == Running || x.readers > 0 ==> id in s.registered && Holds(x))
  {
    SessionFacts(s, id);
  }

  // ---- Admission decided on a non-atomic scan ----------------------------------------

  /** Events that leave the registry alone: those of other threads without its lock, and requests to stop. */
  predicate LockFree(e: Event) {
    !(e.Prune? || e.MakeRoom? || e.Trim? || e.AdmitSession? || e.EraseFailed? || e.EraseUnneeded? ||
      e.Pin? || e.Acknowledge?)
  }

  lemma ReleaseReaderShrinks(x: Session)
    ensures var y := ReleaseReader(x); y.reserved <= x.reserved && y.phase == x.phase
  {
  }

  /** Nothing was registered, revived or enlarged. */
  ghost predicate Shrunk(s: State, s': State) {
    && s'.registered == s.registered && |s'.heap| == |s.heap|
    && forall i :: 0 <= i < |s.heap| ==>
         s'.heap[i].reserved <= s.heap[i].reserved && (s'.heap[i].phase == Running ==> s.heap[i].phase == Running)
  }

  lemma LockFreeShrinks(s: State, e: Event, s': State)
    requires Wellformed(s) && SessionsOk(s) && Step(s, e, s') && LockFree(e)
    ensures Shrunk(s, s')
  {
    hide SessionOk, SessionNext, SessionEnabled, ReleaseReader, RegisterIn, LiveEntries;
    if IsSessionEvent(e) {
      SessionFacts(s, e.id);
      SessionEventShrinks(e, s.heap[e.id], e.id in s.registered, FlagSet(s, e.id), s.now);
    } else if e.EnterGate? || e.FinishEncode? {
      ReleaseReaderShrinks(s.heap[s.encoders[e.encoder].session]);
    }
  }

  /** A stretch of a run during which one handler holds the registry lock. */
  ghost predicate LockedStretch(states: seq<State>, events: seq<Event>) {
    && |states| == |events| + 1 && Inv(states[0])
    && forall i :: 0 <= i < |events| ==> Wellformed(states[i]) && Step(states[i], events[i], states[i + 1]) && LockFree(events[i])
  }

  lemma {:induction false} StretchShrinks(states: seq<State>, events: seq<Event>, i: nat, j: nat)
    requires LockedStretch(states, events) && i <= j < |states|
    ensures Inv(states[j]) && Shrunk(states[i], states[j])
    decreases j
  {
    hide Inv, Step, LockFree, SessionsOk;
    if j > 0 {
      var s, e, s' := states[j - 1], events[j - 1], states[j];
      assert Wellformed(s) && Step(s, e, s') && LockFree(e);
      StretchShrinks(states, events, if i < j then i else j - 1, j - 1);
      InvSessions(s);
      LockFreeShrinks(s, e, s');
      StepKeeps(s, e, s');
    }
  }

  lemma ShrunkWeights(s: State, s': State)
    requires Shrunk(s, s')
    ensures |s'.heap| == |s.heap|
    ensures forall id: nat :: RunningAt(s')(id) <= RunningAt(s)(id) && ReservedAt(s')(id) <= ReservedAt(s)(id)
  {
  }

  /** Running weights as a scan read them: session `id` was visited in state `states[seen(id)]`. */
  function ScannedRunning(states: seq<State>, seen: nat -> nat): nat -> nat {
    (id: nat) => if seen(id) < |states| then RunningAt(states[seen(id)])(id) else 0
  }

  function ScannedReserved(states: seq<State>, seen: nat -> nat): nat -> nat {
    (id: nat) => if seen(id) < |states| then ReservedAt(states[seen(id)])(id) else 0
  }

  /**
   The admission scans lock one session at a time, so each value may be stale when
   they finish. The totals are still upper bounds for the state at the decision,
   hence a request that passes the checks on them fits both caps.
   */
  lemma StaleScanIsSafe(states: seq<State>, events: seq<Event>, seen: nat -> nat, bytes: nat)
    requires |states| == |events| + 1 && LockedStretch(states, events)
    requires forall id: nat :: id < |states[0].heap| ==> seen(id) < |states|
    requires Sum(ScannedRunning(states, seen), |states[0].heap|) < MAX_RUNNING
    requires Sum(ScannedReserved(states, seen), |states[0].heap|) + bytes <= MAX_RESERVED_BYTES
    ensures var s := states[|events|];
            RunningCount(s) < MAX_RUNNING && ReservedBytes(s) + bytes <= MAX_RESERVED_BYTES
  {
    hide *;
    var n, s := |states[0].heap|, states[|events|];
    StretchShrinks(states, events, 0, |events|);
    ShrunkWeights(states[0], s);
    forall id: nat | id < n
      ensures RunningAt(s)(id) <= ScannedRunning(states, seen)(id)
      ensures ReservedAt(s)(id) <= ScannedReserved(states, seen)(id)
    {
      ScannedAt(states, events, seen, id);
    }
    SumAtMost(RunningAt(s), ScannedRunning(states, seen), n);
    SumAtMost(ReservedAt(s), ScannedReserved(states, seen), n);
    CountsAreSums(s);
  }

  lemma CountsAreSums(s: State)
    ensures RunningCount(s) == Sum(RunningAt(s), |s.heap|) && ReservedBytes(s) == Sum(ReservedAt(s), |s.heap|)
  {
  }

  lemma ScannedAt(states: seq<State>, events: seq<Event>, seen: nat -> nat, id: nat)
    requires |states| == |events| + 1 && LockedStretch(states, events) && seen(id) < |states|
    ensures RunningAt(states[|events|])(id) <= ScannedRunning(states, seen)(id)
    ensures ReservedAt(states[|events|])(id) <= ScannedReserved(states, seen)(id)
  {
    hide LockedStretch, Inv, Shrunk;
    StretchShrinks(states, events, seen(id), |events|);
    ShrunkWeights(states[seen(id)], states[|events|]);
  }

  // ---- Making room ---------------------------------------------------------------------

  /** At most one active view stays uncancelled, and none is cancelled beyond that. */
  lemma MakeRoomLeavesOne(s: State, s': State, chosen: set<nat>)
    requires Wellformed(s) && FlagsOk(s) && CapacityOk(s) && MakeRoomStep(s, s', chosen)
    ensures UncancelledRunning(s') == UncancelledRunning(s) - chosen
    ensures |UncancelledRunning(s')| <= 1
    ensures chosen != {} ==> |UncancelledRunning(s')| == 1
  {
    hide FlagsOk, CapacityOk;
    var u := UncancelledRunning(s);
    MakeRoomFlags(s, s', chosen);
    assert UncancelledRunning(s') == u - chosen;
    assert |u - chosen| == |u| - |chosen|;
    LiveSplit(s);
  }

  /** Flags are private to their session, so cancelling the chosen ones touches no other. */
  lemma MakeRoomFlags(s: State, s': State, chosen: set<nat>)
    requires Wellformed(s) && FlagsOk(s) && MakeRoomStep(s, s', chosen)
    ensures Wellformed(s') && s'.heap == s.heap && s'.registered == s.registered
    ensures forall id: nat :: id < |s.heap| ==> (FlagSet(s', id) <==> FlagSet(s, id) || id in chosen)
  {
    hide OwnView;
    assert FlagsCancelled(s, s'.flags, chosen);
    forall id: nat | id < |s.heap|
      ensures FlagSet(s', id) <==> FlagSet(s, id) || id in chosen
    {
      assert forall other :: other in chosen && other < |s.heap| && s.heap[other].flag == s.heap[id].flag ==> other == id;
    }
  }

  lemma LiveSplit(s: State)
    requires Wellformed(s) && CapacityOk(s)
    ensures |UncancelledRunning(s)| + |CancelledRunning(s)| <= MAX_RUNNING
  {
    RunningSetCount(s);
    assert RunningSet(s) == UncancelledRunning(s) + CancelledRunning(s);
    assert UncancelledRunning(s) !! CancelledRunning(s);
  }

  // ---- What happens to one session over a run ---------------------------------------------

  /** Outcomes and acknowledgements are final, and the raw field only gains published cells until it is freed for good. */
  predicate Progress(x: Session, y: Session) {
    && SameIdentity(x, y)
    && (x.phase != Running ==> y.phase == x.phase && y.finished == x.finished)
    && (x.delivered ==> y.delivered)
    && (Holds(y) ==> Holds(x) && |y.published| == |x.published| &&
                     forall i :: 0 <= i < |x.published| && x.published[i] ==> y.published[i])
  }

  lemma ProgressTransitive(x: Session, y: Session, z: Session)
    requires Progress(x, y) && Progress(y, z)
    ensures Progress(x, z)
  {
  }

  lemma SessionEventProgress(e: Event, x: Session, registered: bool, cancelled: bool, now: nat)
    requires IsSessionEvent(e) && SessionEnabled(e, x, registered) && SessionOk(x, registered, cancelled, now)
    ensures Progress(x, SessionNext(e, x, cancelled, now))
  {
    hide ReservationBytes, Ones, FreshCount;
    assert x.width > 0 by { ReservationPositive(x); }
  }

  /** Apart from session events, records change only when a reader enters or leaves. */
  lemma OtherEventRecords(s: State, e: Event, s': State, id: nat)
    requires Wellformed(s) && Step(s, e, s') && !IsSessionEvent(e) && id < |s.heap|
    ensures id < |s'.heap|
    ensures var x, y := s.heap[id], s'.heap[id];
            || y == x || y == ReleaseReader(x)
            || (y == x.(readers := x.readers + 1) && x.phase == Completed && !x.delivered)
  {
    hide RegisterIn, LiveEntries, NewSession, ReleaseReader, PruneChoice, FlagsCancelled;
  }

  lemma StepProgress(s: State, e: Event, s': State, id: nat)
    requires Wellformed(s) && SessionsOk(s) && Step(s, e, s') && id < |s.heap|
    ensures id < |s'.heap| && Progress(s.heap[id], s'.heap[id])
  {
    if IsSessionEvent(e) {
      hide SessionOk, SessionNext, SessionEnabled;
      SessionFacts(s, id);
      if e.id == id {
        SessionEventProgress(e, s.heap[id], id in s.registered, FlagSet(s, id), s.now);
      }
    } else {
      hide Step, SessionOk, Progress, ReleaseReader;
      OtherEventRecords(s, e, s', id);
      SessionFacts(s, id);
      ReaderProgress(s.heap[id], s'.heap[id], id in s.registered, FlagSet(s, id), s.now);
    }
  }

  lemma ReaderProgress(x: Session, y: Session, registered: bool, cancelled: bool, now: nat)
    requires SessionOk(x, registered, cancelled, now)
    requires || y == x || y == ReleaseReader(x)
             || (y == x.(readers := x.readers + 1) && x.phase == Completed && !x.delivered)
    ensures Progress(x, y)
  {
    hide ReservationBytes, Ones, WorkerOk;
  }

  lemma {:induction false} RunProgress(states: seq<State>, events: seq<Event>, i: nat, j: nat, id: nat)
    requires IsRun(states, events) && i <= j < |states| && id < |states[i].heap|
    ensures id < |states[j].heap| && Progress(states[i].heap[id], states[j].heap[id])
    decreases j
  {
    hide Inv, Step, Progress, SessionsOk;
    if i == j {
      ProgressReflexive(states[i].heap[id]);
    } else {
      var s, e, s' := states[j - 1], events[j - 1], states[j];
      assert Wellformed(s) && Step(s, e, s');
      RunProgress(states, events, i, j - 1, id);
      RunInv(states, events, j - 1);
      InvSessions(s);
      StepProgress(s, e, s', id);
      ProgressTransitive(states[i].heap[id], s.heap[id], s'.heap[id]);
    }
  }

  lemma ProgressReflexive(x: Session)
    ensures Progress(x, x)
  {
  }

  /** The publication count is always truthful, and coverage only grows while the field is held. */
  lemma PublicationMonotone(states: seq<State>, events: seq<Event>, i: nat, j: nat, id: nat)
    requires IsRun(states, events) && i <= j < |states| && id < |states[i].heap|
    requires id < |states[j].heap| && Holds(states[j].heap[id])
    ensures var x, y := states[i].heap[id], states[j].heap[id];
            && x.completedPixels == Ones(x.published) && y.completedPixels == Ones(y.published)
            && |x.published| == |y.published| == Pixels(y)
            && x.completedPixels <= y.completedPixels
            && forall c :: 0 <= c < |x.published| && x.published[c] ==> y.published[c]
  {
    RunProgress(states, events, i, j, id);
    var x, y := states[i].heap[id], states[j].heap[id];
    RunInv(states, events, i);
    RunInv(states, events, j);
    HeldMemory(states[i], id);
    HeldMemory(states[j], id);
    CountsAddUp(x.published, y.published, |x.published|);
  }

  lemma HeldMemory(s: State, id: nat)
    requires Inv(s) && id < |s.heap| && Holds(s.heap[id])
    ensures MemoryOk(s.heap[id])
  {
    SessionFacts(s, id);
  }

  /** A completed session has published every pixel, however cancellation requests interleaved with its worker. */
  lemma CompletedIsWhole(states: seq<State>, events: seq<Event>, i: nat, id: nat)
    requires IsRun(states, events) && i < |states| && id < |states[i].heap|
    requires states[i].heap[id].phase == Completed
    ensures var x := states[i].heap[id];
            x.completedPixels == Pixels(x) && (Holds(x) ==> FieldFull(x) && forall c :: 0 <= c < Pixels(x) ==>
              c < |x.published| && x.published[c])
  {
    RunInv(states, events, i);
    var x := states[i].heap[id];
    CompletedMemory(states[i], id);
    OnesFull(x.published, |x.published|);
  }

  lemma CompletedMemory(s: State, id: nat)
    requires Inv(s) && id < |s.heap| && s.heap[id].phase == Completed
    ensures MemoryOk(s.heap[id])
  {
    SessionFacts(s, id);
  }

  // ---- Result readers and acknowledgement ------------------------------------------------------

  /** While an encoder reads, its session is registered and completed with full-size, fully published buffers. */
  lemma ReadersSeeWholeField(states: seq<State>, events: seq<Event>, i: nat, k: nat)
    requires IsRun(states, events) && i < |states|
    requires AtStage(states[i], k, Pinned) || AtStage(states[i], k, Encoding)
    ensures var s := states[i];
            var id := s.encoders[k].session;
            && id < |s.heap| && id in s.registered && s.heap[id].phase == Completed
            && s.heap[id].readers == PinCount(s.encoders, id) > 0
            && s.heap[id].reserved == FullBytes(s.heap[id]) && FieldFull(s.heap[id])
            && forall c :: 0 <= c < Pixels(s.heap[id]) ==> c < |s.heap[id].published| && s.heap[id].published[c]
  {
    RunInv(states, events, i);
    var s := states[i];
    var id := s.encoders[k].session;
    ReaderHolds(s, k);
    CompletedIsWhole(states, events, i, id);
  }

  /** The reader count of a session is the number of handlers that read its field, and only a completed field has any. */
  lemma ReadersCounted(states: seq<State>, events: seq<Event>, i: nat, id: nat)
    requires IsRun(states, events) && i < |states| && id < |states[i].heap|
    ensures states[i].heap[id].readers == PinCount(states[i].encoders, id)
    ensures states[i].heap[id].readers > 0 ==> states[i].heap[id].phase == Completed
  {
    RunInv(states, events, i);
    SessionFacts(states[i], id);
    hide SessionsOk, ViewsOk, CapacityOk, FlagsOk, PreemptOk, PinCount;
  }

  lemma ReaderHolds(s: State, k: nat)
    requires Inv(s) && (AtStage(s, k, Pinned) || AtStage(s, k, Encoding))
    ensures var id := s.encoders[k].session;
            && id < |s.heap| && id in s.registered && s.heap[id].phase == Completed && Holds(s.heap[id])
            && s.heap[id].readers == PinCount(s.encoders, id) > 0 && s.heap[id].reserved == FullBytes(s.heap[id])
  {
    PinnedIsReader(s, k);
    SessionFacts(s, s.encoders[k].session);
  }

  /** A completed field is freed exactly when it was acknowledged and nobody reads it any more. */
  lemma FreedWhenDone(states: seq<State>, events: seq<Event>, i: nat, id: nat)
    requires IsRun(states, events) && i < |states| && id < |states[i].heap|
    requires states[i].heap[id].phase == Completed
    ensures var x := states[i].heap[id];
            x.reserved == 0 <==> x.delivered && x.readers == 0
    ensures var x := states[i].heap[id];
            x.published == [] <==> x.delivered && x.readers == 0
  {
    RunInv(states, events, i);
    FreedLocally(states[i], id);
  }

  lemma FreedLocally(s: State, id: nat)
    requires Inv(s) && id < |s.heap| && s.heap[id].phase == Completed
    ensures var x := s.heap[id];
            (x.reserved == 0 <==> x.delivered && x.readers == 0) && (x.published == [] <==> x.delivered && x.readers == 0)
  {
    var x := s.heap[id];
    SessionFacts(s, id);
    ReservationPositive(x);
    MulMonotone(1, x.width, 1, x.height);
  }

  /** After an acknowledgement no further reader starts. */
  lemma NoReaderAfterAck(states: seq<State>, events: seq<Event>, i: nat, j: nat, id: nat)
    requires IsRun(states, events) && i <= j < |events| && id < |states[i].heap| && states[i].heap[id].delivered
    ensures events[j] != Pin(id)
  {
    RunProgress(states, events, i, j, id);
    assert Step(states[j], events[j], states[j + 1]);
  }

  /** Two results are never encoded at the same time. */
  lemma OneEncoding(states: seq<State>, events: seq<Event>, i: nat, a: nat, b: nat)
    requires IsRun(states, events) && i < |states|
    requires AtStage(states[i], a, Encoding) && AtStage(states[i], b, Encoding)
    ensures a == b
  {
    RunInv(states, events, i);
    var es := states[i].encoders;
    hide SessionsOk, ViewsOk, CapacityOk, FlagsOk, PreemptOk;
    if a < b {
      SumHoldsTwo(GateAt(es), |es|, a, b);
    } else if b < a {
      SumHoldsTwo(GateAt(es), |es|, b, a);
    }
  }

  // ---- Retention --------------------------------------------------------------------------------

  lemma StepRetains(s: State, e: Event, s': State, id: nat)
    requires Wellformed(s) && SessionsOk(s) && Step(s, e, s') && id < |s.heap| && id in s.registered
    requires s.heap[id].phase == Completed && !s.heap[id].delivered && s.now - s.heap[id].finished <= RESULT_TTL
    ensures id in s'.registered
  {
    hide SessionNext, SessionEnabled, RegisterIn, LiveEntries, NewSession;
    if e.EraseFailed? && e.id == id {
      NoThreadIdle(s, id);
      SessionFacts(s, id);
    }
  }

  lemma StepClock(s: State, e: Event, s': State)
    requires Wellformed(s) && Step(s, e, s')
    ensures s.now <= s'.now
  {
    hide SessionNext, SessionEnabled, RegisterIn, LiveEntries, NewSession, ReleaseReader, PruneChoice, FlagsCancelled;
  }

  lemma {:induction false} ClockMonotone(states: seq<State>, events: seq<Event>, i: nat, j: nat)
    requires IsRun(states, events) && i <= j < |states|
    ensures states[i].now <= states[j].now
    decreases j
  {
    hide Step;
    if i < j {
      ClockMonotone(states, events, i, j - 1);
      assert Wellformed(states[j - 1]) && Step(states[j - 1], events[j - 1], states[j]);
      StepClock(states[j - 1], events[j - 1], states[j]);
    }
  }

  /** Nothing but its own acknowledgement or its lifetime removes a completed result from the registry. */
  lemma {:induction false} UnacknowledgedRetained(states: seq<State>, events: seq<Event>, i: nat, j: nat, id: nat)
    requires IsRun(states, events) && i <= j < |states|
    requires id < |states[i].heap| && id in states[i].registered && states[i].heap[id].phase == Completed
    requires id < |states[j].heap| && !states[j].heap[id].delivered
    requires states[j].now - states[i].heap[id].finished <= RESULT_TTL
    ensures id in states[j].registered
    decreases j
  {
    hide Inv, Step, Progress, SessionsOk;
    if i < j {
      var s, e, s' := states[j - 1], events[j - 1], states[j];
      assert Wellformed(s) && Step(s, e, s');
      RunProgress(states, events, i, j - 1, id);
      RunProgress(states, events, j - 1, j, id);
      ClockMonotone(states, events, j - 1, j);
      ProgressFacts(states[i].heap[id], s.heap[id]);
      ProgressFacts(s.heap[id], s'.heap[id]);
      UnacknowledgedRetained(states, events, i, j - 1, id);
      RunInv(states, events, j - 1);
      InvSessions(s);
      StepRetains(s, e, s', id);
    }
  }

  lemma ProgressFacts(x: Session, y: Session)
    requires Progress(x, y)
    ensures x.phase == Completed ==> y.phase == Completed && y.finished == x.finished
    ensures x.delivered ==> y.delivered
  {
  }

  /** A prune leaves nothing expired and at most three disposable sessions, and spares everything still needed. */
  lemma PruneBounds(s: State, s': State)
    requires Wellformed(s) && PruneStep(s, s')
    ensures |DisposableSet(s')| <= MAX_RETAINED_TERMINAL
    ensures forall id: nat :: !Expired(s', id)
    ensures forall id :: id in s.registered && !Expired(s, id) && !Disposable(s, id) ==> id in s'.registered
    ensures forall a: nat, b: nat :: a in s.registered && a !in s'.registered && !Expired(s, a) && b in DisposableSet(s') ==>
              a < |s.heap| && b < |s.heap| && s.heap[a].finished <= s.heap[b].finished
  {
    var removed := s.registered - s'.registered;
    forall id: nat
      ensures Disposable(s', id) <==> Disposable(s, id) && id in s'.registered
      ensures Expired(s', id) <==> Expired(s, id) && id in s'.registered
    {
    }
    assert DisposableSet(s') == KeptDisposable(s, removed);
  }

  // ---- Views ------------------------------------------------------------------------------------

  /**
   A view of a preempt key and sequence is registered at most once, and the lookup by
   view key finds exactly it, so a repeated start meets its own session.
   */
  lemma LookupFindsOwnView(states: seq<State>, events: seq<Event>, i: nat, key: string, n: nat)
    requires IsRun(states, events) && i < |states|
    ensures var s := states[i];
            ViewKey(key, n) in s.byView ==>
              var id := s.byView[ViewKey(key, n)];
              id in s.registered && id < |s.heap| && s.heap[id].flag < |s.flags| &&
              s.flags[s.heap[id].flag].key == key && s.flags[s.heap[id].flag].seqNo == n
    ensures var s := states[i];
            forall id | id in s.registered && id < |s.heap| && s.heap[id].flag < |s.flags| &&
                        s.flags[s.heap[id].flag].key == key && s.flags[s.heap[id].flag].seqNo == n ::
              ViewKey(key, n) in s.byView && s.byView[ViewKey(key, n)] == id
  {
    RunInv(states, events, i);
    ViewLookup(states[i], key, n);
  }

  /** The registry and the view map are mutual inverses in every reachable state. */
  lemma MapsInverse(states: seq<State>, events: seq<Event>, i: nat)
    requires IsRun(states, events) && i < |states|
    ensures var s := states[i];
            forall v | v in s.byView ::
              s.byView[v] in s.registered && s.byView[v] < |s.heap| && s.heap[s.byView[v]].viewKey == v
    ensures var s := states[i];
            forall id | id in s.registered && id < |s.heap| ::
              s.heap[id].viewKey in s.byView && s.byView[s.heap[id].viewKey] == id
  {
    RunInv(states, events, i);
    hide SessionsOk, CapacityOk, FlagsOk, PreemptOk, EncodersOk;
  }

  lemma ViewLookup(s: State, key: string, n: nat)
    requires Wellformed(s) && ViewsOk(s) && FlagsOk(s)
    ensures ViewKey(key, n) in s.byView ==>
              var g := s.flags[s.heap[s.byView[ViewKey(key, n)]].flag];
              g.key == key && g.seqNo == n
    ensures forall id :: id in s.registered && s.flags[s.heap[id].flag].key == key && s.flags[s.heap[id].flag].seqNo == n ==>
              ViewKey(key, n) in s.byView && s.byView[ViewKey(key, n)] == id
  {
    hide ViewKey;
    if ViewKey(key, n) in s.byView {
      var id := s.byView[ViewKey(key, n)];
      assert OwnView(s.heap[id], s.flags[s.heap[id].flag]);
      ViewKeyInjective(key, n, s.flags[s.heap[id].flag].key, s.flags[s.heap[id].flag].seqNo);
    }
    forall id | id in s.registered && s.flags[s.heap[id].flag].key == key && s.flags[s.heap[id].flag].seqNo == n
      ensures ViewKey(key, n) in s.byView && s.byView[ViewKey(key, n)] == id
    {
      assert OwnView(s.heap[id], s.flags[s.heap[id].flag]);
    }
  }

  // ---- Cancel flags -------------------------------------------------------------------------------

  /** In every reachable state a key has at most one live flag: that of its latest accepted request. */
  lemma OneLiveFlag(states: seq<State>, events: seq<Event>, i: nat, f: nat, g: nat)
    requires IsRun(states, events) && i < |states| && f < |states[i].flags| && g < |states[i].flags|
    requires LiveFlag(states[i].flags[f]) && LiveFlag(states[i].flags[g])
    requires states[i].flags[f].key == states[i].flags[g].key
    ensures f == g && states[i].flags[f].key in states[i].preempt
    ensures states[i].preempt[states[i].flags[f].key] == Entry(states[i].flags[f].seqNo, f)
  {
    RunInv(states, events, i);
    hide SessionsOk, ViewsOk, CapacityOk, FlagsOk, EncodersOk;
  }

  /** An accepted request owns its entry and leaves no live predecessor; a rejected one was overtaken. */
  lemma AcceptedIsLatest(flags: seq<Flag>, preempt: map<string, Entry>, key: string, seqNo: int)
    requires PreemptTable(flags, preempt) && key != "" && !BadKey(key, seqNo)
    ensures var r := RegisterIn(flags, preempt, key, seqNo);
            var f := |flags|;
            && |r.flags| == f + 1 && key in r.preempt
            && (if r.flags[f].cancelled then r.preempt[key].seqNo > seqNo else r.preempt[key] == Entry(seqNo, f))
            && forall g :: 0 <= g < f && r.flags[g].key == key && LiveFlag(r.flags[g]) ==> r.flags[f].cancelled
  {
    RegisterInTable(flags, preempt, key, seqNo);
    var r := RegisterIn(flags, preempt, key, seqNo);
    assert PreemptTable(r.flags, r.preempt);
  }

  lemma RegisterSequence(flags: seq<Flag>, preempt: map<string, Entry>, key: string, seqNo: int, k: string)
    requires PreemptTable(flags, preempt) && k in preempt && flags[preempt[k].flag].owned
    ensures var r := RegisterIn(flags, preempt, key, seqNo);
            k in r.preempt && preempt[k].seqNo <= r.preempt[k].seqNo
  {
  }

  /** The sequence of a key never decreases while its entry lives. */
  lemma SequenceMonotone(s: State, e: Event, s': State, key: string)
    requires Wellformed(s) && PreemptOk(s) && Step(s, e, s')
    requires key in s.preempt && s.flags[s.preempt[key].flag].owned
    ensures key in s'.preempt && s.preempt[key].seqNo <= s'.preempt[key].seqNo
  {
    hide SessionNext, SessionEnabled, NewSession, ReleaseReader, PruneChoice, FlagsCancelled, RegisterIn;
    if e.RegisterFlag? {
      RegisterSequence(s.flags, s.preempt, e.key, e.seqNo, key);
    }
  }

  lemma {:induction false} RunSequenceMonotone(states: seq<State>, events: seq<Event>, i: nat, j: nat, key: string)
    requires IsRun(states, events) && i <= j < |states| && key in states[i].preempt
    requires forall t :: i <= t < j && key in states[t].preempt && states[t].preempt[key].flag < |states[t].flags| ==>
               states[t].flags[states[t].preempt[key].flag].owned
    ensures key in states[j].preempt && states[i].preempt[key].seqNo <= states[j].preempt[key].seqNo
    decreases j
  {
    hide Inv, Step;
    if i < j {
      var s, e, s' := states[j - 1], events[j - 1], states[j];
      assert Wellformed(s) && Step(s, e, s');
      RunSequenceMonotone(states, events, i, j - 1, key);
      RunInv(states, events, j - 1);
      InvPreempt(s);
      SequenceMonotone(s, e, s', key);
    }
  }

  lemma InvPreempt(s: State)
    requires Inv(s)
    ensures PreemptOk(s)
  {
  }

  /** Two active views of one browser key are never both uncancelled. */
  lemma ActiveViewsDistinct(states: seq<State>, events: seq<Event>, i: nat, a: nat, b: nat)
    requires IsRun(states, events) && i < |states| && Wellformed(states[i])
    requires a in UncancelledRunning(states[i]) && b in UncancelledRunning(states[i]) && a != b
    ensures states[i].flags[states[i].heap[a].flag].key != states[i].flags[states[i].heap[b].flag].key
  {
    RunInv(states, events, i);
    ActiveFlagsLive(states[i], a);
    ActiveFlagsLive(states[i], b);
    var f, g := states[i].heap[a].flag, states[i].heap[b].flag;
    FlagsDistinct(states[i], a, b);
    if states[i].flags[f].key == states[i].flags[g].key {
      OneLiveFlag(states, events, i, f, g);
    }
  }

  lemma ActiveFlagsLive(s: State, a: nat)
    requires Wellformed(s) && FlagsOk(s) && a in UncancelledRunning(s)
    ensures LiveFlag(s.flags[s.heap[a].flag])
  {
    assert OwnView(s.heap[a], s.flags[s.heap[a].flag]);
  }

  lemma FlagsDistinct(s: State, a: nat, b: nat)
    requires Wellformed(s) && FlagsOk(s) && a < |s.heap| && b < |s.heap| && a != b
    ensures s.heap[a].flag != s.heap[b].flag
  {
  }

  /** Cancel flags only ever go from clear to set, for the same request. */
  lemma {:induction false} FlagsOneWay(states: seq<State>, events: seq<Event>, i: nat, j: nat, f: nat)
    requires IsRun(states, events) && i <= j < |states| && f < |states[i].flags|
    ensures f < |states[j].flags|
    ensures states[i].flags[f].cancelled ==> states[j].flags[f].cancelled
    ensures states[j].flags[f].key == states[i].flags[f].key && states[j].flags[f].seqNo == states[i].flags[f].seqNo
    decreases j
  {
    hide Step;
    if i < j {
      var s, e, s' := states[j - 1], events[j - 1], states[j];
      assert Wellformed(s) && Step(s, e, s');
      FlagsOneWay(states, events, i, j - 1, f);
      StepFlagsOneWay(s, e, s', f);
    }
  }

  lemma StepFlagsOneWay(s: State, e: Event, s': State, f: nat)
    requires Wellformed(s) && Step(s, e, s') && f < |s.flags|
    ensures f < |s'.flags| && (s.flags[f].cancelled ==> s'.flags[f].cancelled)
    ensures s'.flags[f].key == s.flags[f].key && s'.flags[f].seqNo == s.flags[f].seqNo
  {
    hide SessionNext, SessionEnabled, NewSession, EntriesToConsult;
  }
}
