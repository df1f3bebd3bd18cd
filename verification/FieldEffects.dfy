/**
 What each critical section does to the records of the interactive sessions, said in
 terms of the fields themselves: sizes, counts, ages in milliseconds and pixel indices.
 The names the events are defined with do not occur in these statements.
 */
module FieldEffects {
  import opened Arithmetic
  import opened Grid
  import opened ViewKeys
  import opened FieldSessions
  import opened FieldInvariants
  import opened FieldRuns
  import opened Wrappers

  // ---- Admission ------------------------------------------------------------------------

  /** The session a start creates is the request's own, and nothing else changes. */
  lemma AdmissionCreates(s: State, flag: nat, r: Request, s': State)
    requires Wellformed(s) && Step(s, AdmitSession(flag, r), s')
    ensures var id := |s.heap|;
            && |s'.heap| == id + 1 && s'.heap[..id] == s.heap
            && s'.registered == s.registered + {id} && s'.byView == s.byView[ViewKey(r.preemptKey, r.seqNo) := id]
            && s'.flags == s.flags && s'.preempt == s.preempt && s'.now == s.now
            && s'.encoders == s.encoders && s'.encoding == s.encoding
    ensures var x := s'.heap[|s.heap|];
            && x.viewKey == ViewKey(r.preemptKey, r.seqNo)
            && x.requestId == r.requestId && x.fingerprint == r.fingerprint
            && x.width == r.width && x.height == r.height && x.flag == flag
            && x.reserved == r.width * r.height * 9 && x.lastAccess == s.now
            && x.phase == Running && x.worker == NotStarted && !x.delivered && x.readers == 0 && x.finished == 0
            && x.iterLen == 0 && x.normLen == 0 && x.revision == 0 && x.completedPixels == 0
            && |x.published| == r.width * r.height && forall i :: 0 <= i < |x.published| ==> !x.published[i]
  {
    hide ViewKey, RunningCount, ReservedBytes;
  }

  /** The two caps in numbers: at most one worker is live, and the reservations leave room below 512 MiB. */
  lemma AdmissionNeedsRoom(s: State, flag: nat, r: Request, s': State)
    requires Wellformed(s) && Step(s, AdmitSession(flag, r), s')
    ensures 0 < r.width && 0 < r.height && r.width * r.height <= 16_777_216
    ensures |set id | id in s.registered && s.heap[id].phase == Running| <= 1
    ensures ReservedBytes(s) + r.width * r.height * 9 <= 536_870_912
    ensures ViewKey(r.preemptKey, r.seqNo) !in s.byView
  {
    hide ViewKey, ReservedBytes, RunningCount;
    RunningSetCount(s);
    assert RunningSet(s) == set id | id in s.registered && s.heap[id].phase == Running;
  }

  /** The reserved total is the sum over the registered sessions, one by one. */
  lemma ReservedIsTotal(s: State, id: nat)
    ensures s.registered == {} ==> ReservedBytes(s) == 0
    ensures id in s.registered && id < |s.heap| ==>
              ReservedBytes(s) == ReservedBytes(s.(registered := s.registered - {id})) + s.heap[id].reserved
  {
    if s.registered == {} {
      SumZero(ReservedAt(s), |s.heap|);
    }
    if id in s.registered && id < |s.heap| {
      var t := s.(registered := s.registered - {id});
      SumPoint(ReservedAt(t), ReservedAt(s), |s.heap|, id);
    }
  }

  /** A registration leaves the flags of other keys alone and clears its own only for an anonymous or current request. */
  lemma RegistrationEffect(flags: seq<Flag>, preempt: map<string, Entry>, key: string, seqNo: int)
    ensures var r, f := RegisterIn(flags, preempt, key, seqNo), |flags|;
            && |r.flags| == f + 1
            && r.flags[f].key == key && r.flags[f].seqNo == seqNo && r.flags[f].owned
            && (key == "" ==> !r.flags[f].cancelled)
            && (|key| > 128 || (key != "" && seqNo < 0) ==> r.flags[f].cancelled)
            && (r.flags[f].cancelled ==> |key| > 128 || seqNo < 0 || (key in preempt && seqNo < preempt[key].seqNo))
    ensures var r, f := RegisterIn(flags, preempt, key, seqNo), |flags|;
            key != "" && |key| <= 128 && seqNo >= 0 &&
            key in preempt && preempt[key].flag < f && flags[preempt[key].flag].owned ==>
              if seqNo < preempt[key].seqNo then r.flags[f].cancelled else r.flags[preempt[key].flag].cancelled
    ensures var r := RegisterIn(flags, preempt, key, seqNo);
            forall g :: 0 <= g < |flags| && r.flags[g] != flags[g] ==>
              key in preempt && preempt[key].flag == g && preempt[key].seqNo <= seqNo &&
              r.flags[g] == flags[g].(cancelled := true)
    ensures var r := RegisterIn(flags, preempt, key, seqNo);
            forall k :: k in preempt && k != key && preempt[k].flag < |flags| && flags[preempt[k].flag].owned ==>
              k in r.preempt && r.preempt[k] == preempt[k]
    ensures var r := RegisterIn(flags, preempt, key, seqNo);
            forall k :: k in r.preempt && k != key ==>
              k in preempt &&
              (key != "" && |key| <= 128 && seqNo >= 0 && |preempt| >= 256 ==>
                preempt[k].flag < |flags| && flags[preempt[k].flag].owned)
  {
  }

  // ---- Publication ----------------------------------------------------------------------

  /** The publication count is the number of published cells. */
  lemma OnesIsCardinality(p: seq<bool>)
    ensures Ones(p) == |set i: nat | i < |p| && p[i]|
  {
    var a := set i: nat | i < |p| && p[i];
    SumIndicator(a, |p|);
    SumSame(BitAt(p), Indicator(a), |p|);
  }

  lemma PublishedCells(x: Session, px: int, py: int, w: int, h: int)
    requires x.width > 0 && x.height > 0 && w > 0 && h > 0 && x.phase == Running
    requires 0 <= px && 0 <= py && px + w <= x.width && py + h <= x.height
    requires x.iterLen == x.normLen == x.width * x.height
    ensures var y := PublishRect(x, px, py, w, h);
            && y == x.(published := y.published, completedPixels := y.completedPixels, revision := x.revision + 1)
            && |y.published| == |x.published|
            && forall i :: 0 <= i < |y.published| ==>
                 (y.published[i] <==> x.published[i] || (px <= i % x.width < px + w && py <= i / x.width < py + h))
  {
    hide FreshCount;
  }

  /**
   A tile inside the frame of a running session with full-size buffers becomes
   published, pixel for pixel, and is counted; any other tile changes nothing.
   */
  lemma TilePublished(s: State, id: nat, x: int, y: int, w: int, h: int, s': State)
    requires Wellformed(s) && SessionsOk(s) && Step(s, Publish(id, x, y, w, h), s')
    ensures |s'.heap| == |s.heap| && id < |s.heap|
    ensures forall i :: 0 <= i < |s.heap| && i != id ==> s'.heap[i] == s.heap[i]
    ensures var a, b := s.heap[id], s'.heap[id];
            if w > 0 && h > 0 && 0 <= x && 0 <= y && x + w <= a.width && y + h <= a.height &&
               a.iterLen == a.normLen == a.width * a.height
            then
              && a.width > 0 && a.height > 0 && a.phase == Running
              && b == a.(published := b.published, completedPixels := b.completedPixels, revision := a.revision + 1)
              && |b.published| == a.width * a.height == |a.published|
              && (forall i :: 0 <= i < |b.published| ==>
                   (b.published[i] <==> a.published[i] || (x <= i % a.width < x + w && y <= i / a.width < y + h)))
              && b.completedPixels == |set i: nat | i < |b.published| && b.published[i]|
            else b == a
  {
    hide ReservationBytes, PublishRect, Ones;
    var a, b := s.heap[id], s'.heap[id];
    SessionFacts(s, id);
    assert a.width > 0 && a.height > 0 by { ReservationPositive(a); }
    if w > 0 && h > 0 && 0 <= x && 0 <= y && x + w <= a.width && y + h <= a.height &&
       a.iterLen == a.normLen == a.width * a.height {
      PublishedCells(a, x, y, w, h);
      PaintCount(a, x, y, w, h);
      OnesIsCardinality(b.published);
    } else {
      NotPublished(a, x, y, w, h);
    }
  }

  lemma NotPublished(a: Session, x: int, y: int, w: int, h: int)
    requires !(w > 0 && h > 0 && 0 <= x && 0 <= y && x + w <= a.width && y + h <= a.height &&
               a.phase == Running && a.iterLen == a.normLen == a.width * a.height)
    ensures PublishRect(a, x, y, w, h) == a
  {
  }

  // ---- Pruning --------------------------------------------------------------------------

  /** Exactly the workers unattended for more than 15 seconds are asked to stop. */
  lemma IdleAreAsked(s: State, s': State, id: nat)
    requires Inv(s) && Step(s, Prune, s') && id < |s.heap|
    ensures s'.heap == s.heap && |s'.flags| == |s.flags| && s'.now == s.now && s'.preempt == s.preempt
    ensures s'.flags[s.heap[id].flag].cancelled <==>
            s.flags[s.heap[id].flag].cancelled ||
            (id in s.registered && s.heap[id].phase == Running && s.now - s.heap[id].lastAccess > 15_000)
  {
    hide SessionsOk, ViewsOk, CapacityOk, PreemptOk, EncodersOk, PruneChoice, OwnView;
    assert id in IdleSet(s) <==>
           id in s.registered && s.heap[id].phase == Running && s.now - s.heap[id].lastAccess > 15_000;
    hide IdleSet;
    var f := s.heap[id].flag;
    assert forall other :: other in IdleSet(s) && other < |s.heap| && s.heap[other].flag == f ==> other == id;
  }

  /** Flags without a session are no business of a prune. */
  lemma OtherFlagsKept(s: State, s': State, f: nat)
    requires Inv(s) && Step(s, Prune, s') && f < |s.flags|
    ensures |s'.flags| == |s.flags|
    ensures (forall id :: 0 <= id < |s.heap| ==> s.heap[id].flag != f) ==> s'.flags[f] == s.flags[f]
  {
    hide SessionsOk, ViewsOk, CapacityOk, PreemptOk, EncodersOk, PruneChoice, FlagsOk, IdleSet;
  }

  /**
   A terminal session without readers goes when it finished more than 30 seconds ago;
   before that only if nobody waits for it, and only as one of the oldest beyond three.
   */
  lemma PruneRemoves(s: State, s': State)
    requires Wellformed(s) && Step(s, Prune, s')
    ensures s'.registered <= s.registered
    ensures forall id | id in s.registered && s.heap[id].phase != Running && s.heap[id].readers == 0 ::
              s.heap[id].finished != 0 && s.now - s.heap[id].finished > 30_000 ==> id !in s'.registered
    ensures forall id :: id in s.registered && id !in s'.registered ==>
              var x := s.heap[id];
              x.phase != Running && x.readers == 0 &&
              ((x.finished != 0 && s.now - x.finished > 30_000) || x.phase != Completed || x.delivered)
    ensures var kept := set id | id in s'.registered && s.heap[id].phase != Running && s.heap[id].readers == 0 &&
                                 (s.heap[id].phase != Completed || s.heap[id].delivered);
            && |kept| <= 3
            && forall id :: id in s.registered && id !in s'.registered &&
                            (s.heap[id].finished == 0 || s.now - s.heap[id].finished <= 30_000) ==>
                 |kept| == 3 && forall k :: k in kept ==> s.heap[id].finished <= s.heap[k].finished
    ensures forall v :: v in s'.byView <==> v in s.byView && (s.byView[v] in s'.registered || s.byView[v] !in s.registered)
    ensures forall v :: v in s'.byView ==> s'.byView[v] == s.byView[v]
  {
    hide FlagsCancelled, IdleSet;
    var removed := s.registered - s'.registered;
    assert forall id :: id in s.registered ==> (id in removed <==> id !in s'.registered);
    assert KeptDisposable(s, removed) ==
           set id | id in s'.registered && s.heap[id].phase != Running && s.heap[id].readers == 0 &&
                    (s.heap[id].phase != Completed || s.heap[id].delivered);
  }

  /** Requests to stop are made only when both worker slots are taken by views still wanted, and then of one of the two. */
  lemma RoomIsMade(s: State, s': State, chosen: set<nat>, a: nat)
    requires Inv(s) && Step(s, MakeRoom(chosen), s') && a < |s.heap|
    ensures s' == s.(flags := s'.flags) && |s'.flags| == |s.flags|
    ensures var wanted := set id | id in s.registered && s.heap[id].phase == Running && !s.flags[s.heap[id].flag].cancelled;
            if |wanted| < 2 then s' == s
            else
              && chosen <= wanted && |wanted| == 2 && |chosen| == 1
              && (s'.flags[s.heap[a].flag].cancelled <==> s.flags[s.heap[a].flag].cancelled || a in chosen)
              && forall b :: a in chosen && b in wanted ==> s.heap[a].lastAccess <= s.heap[b].lastAccess
  {
    hide SessionsOk, ViewsOk, PreemptOk, EncodersOk, FlagsOk, FlagsCancelled, CapacityOk;
    var wanted := set id | id in s.registered && s.heap[id].phase == Running && !s.flags[s.heap[id].flag].cancelled;
    assert UncancelledRunning(s) == wanted;
    LiveSplit(s);
    if |wanted| < 2 {
      assert chosen == {};
      NoneAsked(s, s');
    } else {
      var b :| b in chosen;
      assert |chosen| == 1 && |chosen - {b}| == 0;
      assert forall c :: c in chosen ==> c == b || c in chosen - {b};
      MakeRoomFlags(s, s', chosen);
      ChosenUnattended(s, s', chosen);
    }
  }

  lemma ChosenUnattended(s: State, s': State, chosen: set<nat>)
    requires Wellformed(s) && MakeRoomStep(s, s', chosen)
    ensures |s'.flags| == |s.flags|
    ensures forall a, b :: a in chosen && b in UncancelledRunning(s) ==>
              b in chosen || s.heap[a].lastAccess <= s.heap[b].lastAccess
  {
  }

  lemma NoneAsked(s: State, s': State)
    requires Wellformed(s) && FlagsCancelled(s, s'.flags, {}) && s' == s.(flags := s'.flags)
    ensures s' == s && |s'.flags| == |s.flags|
  {
    assert s'.flags == s.flags;
  }

  // ---- Worker and readers ----------------------------------------------------------------

  /** The outcome of a normal worker is read off its flag, that of a failed one off the flag and the exception. */
  lemma OutcomeRead(s: State, e: Event, s': State)
    requires Wellformed(s) && IsSessionEvent(e) && Step(s, e, s')
    ensures e.ReadFlagAgain? ==>
              s'.heap[e.id].worker == Verdict(if s.flags[s.heap[e.id].flag].cancelled then Cancelled else Completed)
    ensures e.Throw? ==>
              s'.heap[e.id].worker ==
              Verdict(if e.known && (s.flags[s.heap[e.id].flag].cancelled || e.byCancel) then Cancelled else Failed)
    ensures e.ReadFlag? ==>
              s'.heap[e.id].worker == (if s.flags[s.heap[e.id].flag].cancelled then Settled else Uncancelled)
    ensures e.ReadFlagAgain? || e.Throw? || e.ReadFlag? ==>
              s'.heap[e.id] == s.heap[e.id].(worker := s'.heap[e.id].worker)
  {
  }

  /** The recorded outcome is the verdict; any field but a completed one is freed at once. */
  lemma OutcomeRecorded(s: State, e: Event, s': State)
    requires Wellformed(s) && (e.Finalize? || e.SpawnFailed?) && Step(s, e, s')
    ensures var a, b := s.heap[e.id], s'.heap[e.id];
            && b.finished == s.now && SameIdentity(a, b) && b.readers == a.readers && b.delivered == a.delivered
            && (e.SpawnFailed? ==> b.phase == Failed && b.worker == NoThread)
            && (e.Finalize? ==> a.worker == Verdict(b.phase) && b.worker == Done)
            && (if b.phase == Completed
                then b.iterLen == a.iterLen && b.normLen == a.normLen && b.published == a.published && b.reserved == a.reserved
                else b.iterLen == 0 && b.normLen == 0 && b.published == [] && b.reserved == 0)
  {
  }

  /** An acknowledgement marks a completed result delivered, and frees it unless it is being read. */
  lemma AcknowledgementEffect(s: State, id: nat, requestId: string, s': State)
    requires Wellformed(s) && Step(s, Acknowledge(id, requestId), s')
    ensures id in s.registered && requestId != "" && requestId == s.heap[id].requestId
    ensures var a, b := s.heap[id], s'.heap[id];
            && (a.phase != Completed ==> b == a)
            && (a.phase == Completed && a.readers != 0 ==> b == a.(delivered := true, lastAccess := s.now))
            && (a.phase == Completed && a.readers == 0 ==>
                 b == a.(delivered := true, lastAccess := s.now, iterLen := 0, normLen := 0, published := [], reserved := 0))
  {
  }

  /** A reader is let in exactly to a registered, completed and undelivered field of full size. */
  lemma PinnedExactly(s: State, id: nat)
    requires Wellformed(s)
    ensures MayPin(s, id) <==>
            id in s.registered && s.heap[id].phase == Completed && !s.heap[id].delivered &&
            s.heap[id].iterLen == s.heap[id].width * s.heap[id].height &&
            s.heap[id].normLen == s.heap[id].width * s.heap[id].height
  {
  }

  /** A reader that leaves is counted out, and the last one after an acknowledgement frees the field. */
  lemma ReaderLeaves(s: State, e: Event, s': State)
    requires Wellformed(s) && Step(s, e, s') && (e.FinishEncode? || (e.EnterGate? && s.encoding))
    ensures e.encoder < |s.encoders| && s.encoders[e.encoder].session < |s.heap|
    ensures s'.encoders ==
            s.encoders[e.encoder := Encoder(s.encoders[e.encoder].session, if e.FinishEncode? then Leaving else Gone)]
    ensures s'.encoding == s.encoding
    ensures var id := s.encoders[e.encoder].session;
            var a, b := s.heap[id], s'.heap[id];
            var left := if a.readers > 0 then a.readers - 1 else 0;
            && s'.heap == s.heap[id := b]
            && b == if a.delivered && left == 0
                    then a.(readers := 0, iterLen := 0, normLen := 0, published := [], reserved := 0)
                    else a.(readers := left)
  {
  }

  /** The gate opens for one reader at a time and is open again once it leaves. */
  lemma GateEffect(s: State, e: Event, s': State)
    requires Wellformed(s) && Step(s, e, s') && ((e.EnterGate? && !s.encoding) || e.LeaveGate?)
    ensures e.encoder < |s.encoders| && s'.heap == s.heap
    ensures s'.encoding == e.EnterGate?
    ensures s'.encoders ==
            s.encoders[e.encoder := Encoder(s.encoders[e.encoder].session, if e.EnterGate? then Encoding else Gone)]
  {
  }

  // ---- Over runs ------------------------------------------------------------------------

  /** Every session of a run keeps the identity it was admitted with. */
  lemma AdmittedIdentity(states: seq<State>, events: seq<Event>, k: nat, j: nat, flag: nat, r: Request)
    requires IsRun(states, events) && k < j < |states| && events[k] == AdmitSession(flag, r)
    ensures var id := |states[k].heap|;
            && id < |states[j].heap|
            && states[j].heap[id].viewKey == ViewKey(r.preemptKey, r.seqNo)
            && states[j].heap[id].requestId == r.requestId && states[j].heap[id].fingerprint == r.fingerprint
            && states[j].heap[id].width == r.width && states[j].heap[id].height == r.height
            && states[j].heap[id].flag == flag
  {
    hide ViewKey, Step, Inv, Wellformed;
    assert Wellformed(states[k]) && Step(states[k], events[k], states[k + 1]);
    AdmissionCreates(states[k], flag, r, states[k + 1]);
    RunProgress(states, events, k + 1, j, |states[k].heap|);
  }
}
