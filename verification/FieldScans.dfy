/**
 Prune and make-room decide on scans that lock one session at a time while they hold the
 registry lock. Other threads go on in between, so every value may be stale when the
 decision falls. The decisions are safe all the same.
 */
module FieldScans {
  import opened Ordering
  import opened FieldSessions
  import opened FieldInvariants
  import opened FieldRuns

  /** What cannot be undone while the registry lock is held. */
  ghost predicate Steady(s: State, s': State) {
    && s'.registered == s.registered && |s'.heap| == |s.heap| && |s.flags| <= |s'.flags| && s.now <= s'.now
    && (forall f :: 0 <= f < |s.flags| && s.flags[f].cancelled ==> s'.flags[f].cancelled)
    && (forall id :: 0 <= id < |s.heap| ==> SteadySession(s.heap[id], s'.heap[id]))
  }

  /** No reader joins and no acknowledgement arrives; an outcome is final. */
  predicate SteadySession(x: Session, y: Session) {
    && y.flag == x.flag && y.readers <= x.readers
    && (x.phase != Running ==> y.phase == x.phase && y.finished == x.finished && y.delivered == x.delivered)
  }

  lemma SessionEventSteady(e: Event, x: Session, registered: bool, cancelled: bool, now: nat)
    requires IsSessionEvent(e) && !e.Acknowledge? && SessionEnabled(e, x, registered) && SessionOk(x, registered, cancelled, now)
    ensures SteadySession(x, SessionNext(e, x, cancelled, now))
  {
    hide ReservationBytes, Ones, FreshCount;
  }

  lemma OtherRecordsSteady(s: State, e: Event, s': State, id: nat)
    requires Wellformed(s) && Step(s, e, s') && LockFree(e) && !IsSessionEvent(e) && id < |s.heap|
    ensures id < |s'.heap| && SteadySession(s.heap[id], s'.heap[id])
  {
    hide RegisterIn, LiveEntries;
  }

  lemma StepSteady(s: State, e: Event, s': State)
    requires Wellformed(s) && SessionsOk(s) && Step(s, e, s') && LockFree(e)
    ensures Steady(s, s')
  {
    hide SessionsOk, SessionOk, SessionNext, SessionEnabled, ReleaseReader, RegisterIn, LiveEntries, SteadySession;
    LockFreeShrinks(s, e, s');
    StepClock(s, e, s');
    forall f: nat | f < |s.flags|
      ensures f < |s'.flags| && (s.flags[f].cancelled ==> s'.flags[f].cancelled)
    {
      StepFlagsOneWay(s, e, s', f);
    }
    FlagsGrow(s, e, s');
    forall id: nat | id < |s.heap|
      ensures id < |s'.heap| && SteadySession(s.heap[id], s'.heap[id])
    {
      if IsSessionEvent(e) {
        SessionFacts(s, id);
        SteadySelf(s.heap[id]);
        if e.id == id {
          SessionEventSteady(e, s.heap[id], id in s.registered, FlagSet(s, id), s.now);
        }
      } else {
        OtherRecordsSteady(s, e, s', id);
      }
    }
  }

  lemma SteadySelf(x: Session)
    ensures SteadySession(x, x)
  {
  }

  lemma FlagsGrow(s: State, e: Event, s': State)
    requires Wellformed(s) && Step(s, e, s') && LockFree(e)
    ensures |s.flags| <= |s'.flags|
  {
    hide SessionNext, SessionEnabled, EntriesToConsult, ReleaseReader;
  }

  lemma {:induction false} StretchSteady(states: seq<State>, events: seq<Event>, i: nat, j: nat)
    requires LockedStretch(states, events) && i <= j < |states|
    ensures Inv(states[j]) && Steady(states[i], states[j])
    decreases j
  {
    hide Inv, Step, LockFree, SessionsOk, SteadySession;
    StretchShrinks(states, events, i, j);
    if i < j {
      var s, e, s' := states[j - 1], events[j - 1], states[j];
      assert Wellformed(s) && Step(s, e, s') && LockFree(e);
      StretchSteady(states, events, i, j - 1);
      InvSessions(s);
      StepSteady(s, e, s');
      SteadyTransitive(states[i], s, s');
    } else {
      SteadyAll(states[j]);
    }
  }

  lemma SteadyAll(s: State)
    ensures Steady(s, s)
  {
  }

  lemma SteadyTransitive(a: State, b: State, c: State)
    requires Steady(a, b) && Steady(b, c)
    ensures Steady(a, c)
  {
    forall id | 0 <= id < |a.heap|
      ensures SteadySession(a.heap[id], c.heap[id])
    {
      assert SteadySession(a.heap[id], b.heap[id]) && SteadySession(b.heap[id], c.heap[id]);
    }
  }

  // ---- Pruning on stale reads ---------------------------------------------------------

  /** Session `id` as the scan read it: in state `states[seen(id)]`, by the clock read when the scan began. */
  function AsRead(states: seq<State>, seen: nat -> nat, id: nat): State
    requires states != [] && seen(id) < |states|
  {
    states[seen(id)].(now := states[0].now)
  }

  ghost predicate Scanned(states: seq<State>, events: seq<Event>, seen: nat -> nat) {
    LockedStretch(states, events) && |states| == |events| + 1 && forall id: nat :: seen(id) < |states|
  }

  /** Disposable sessions as read that are not removed. */
  ghost function KeptAsRead(states: seq<State>, seen: nat -> nat, removed: set<nat>): set<nat>
    requires states != [] && forall id: nat :: seen(id) < |states|
  {
    set id: nat | id in states[0].registered && Disposable(AsRead(states, seen, id), id) && id !in removed
  }

  /** The choice of a prune, made on what was read. */
  ghost predicate ChosenAsRead(states: seq<State>, seen: nat -> nat, removed: set<nat>)
    requires states != [] && forall id: nat :: seen(id) < |states|
  {
    && removed <= states[0].registered
    && (forall id: nat :: id in states[0].registered && Expired(AsRead(states, seen, id), id) ==> id in removed)
    && (forall id: nat :: id in removed ==> Expired(AsRead(states, seen, id), id) || Disposable(AsRead(states, seen, id), id))
    && |KeptAsRead(states, seen, removed)| <= MAX_RETAINED_TERMINAL
    && (forall a: nat, b: nat :: a in removed && !Expired(AsRead(states, seen, a), a) && b in KeptAsRead(states, seen, removed) ==>
          FinishedAsRead(states, seen, a) <= FinishedAsRead(states, seen, b))
  }

  function FinishedAsRead(states: seq<State>, seen: nat -> nat, id: nat): nat
    requires states != [] && seen(id) < |states|
  {
    if id < |states[seen(id)].heap| then states[seen(id)].heap[id].finished else 0
  }

  /** What was expired or disposable when read still is. */
  lemma ReadStands(states: seq<State>, events: seq<Event>, seen: nat -> nat, id: nat)
    requires Scanned(states, events, seen)
    ensures Expired(AsRead(states, seen, id), id) ==> Expired(states[|events|], id)
    ensures Disposable(AsRead(states, seen, id), id) ==> Disposable(states[|events|], id)
    ensures var s := states[|events|];
            (Expired(AsRead(states, seen, id), id) || Disposable(AsRead(states, seen, id), id)) && id < |s.heap| ==>
              s.heap[id].finished == FinishedAsRead(states, seen, id)
  {
    hide Inv, LockedStretch;
    StretchSteady(states, events, seen(id), |events|);
    StretchSteady(states, events, 0, |events|);
  }

  /** Erasing one by one is erasing all, and never loses the right to erase the next. */
  lemma ErasableStays(s: State, a: nat, b: nat)
    requires Wellformed(s) && a != b && (Expired(s, b) || Disposable(s, b))
    ensures Expired(EraseOne(s, a), b) || Disposable(EraseOne(s, a), b)
  {
  }

  /**
   A prune that decided on stale reads removes only sessions that are unread and expired
   or disposable at that moment, so each erasure is an allowed step; results that are still
   awaited, running sessions and sessions with readers stay.
   */
  lemma StalePruneIsSafe(states: seq<State>, events: seq<Event>, seen: nat -> nat, removed: set<nat>)
    requires Scanned(states, events, seen) && ChosenAsRead(states, seen, removed)
    ensures var s := states[|events|];
            && Inv(s) && Inv(EraseAll(s, removed))
            && (forall id: nat :: id in removed ==>
                  id in s.registered && id < |s.heap| && s.heap[id].readers == 0 && (Expired(s, id) || Disposable(s, id)))
            && (forall id: nat :: id in s.registered && !Expired(s, id) && !Disposable(s, id) ==>
                  id in EraseAll(s, removed).registered)
            && (forall id: nat :: id in EraseAll(s, removed).registered ==> !Expired(AsRead(states, seen, id), id))
    ensures var s := states[|events|];
            forall a: nat, b: nat :: a in removed && !Expired(AsRead(states, seen, a), a) && b in KeptAsRead(states, seen, removed) ==>
              a < |s.heap| && b < |s.heap| && s.heap[a].finished <= s.heap[b].finished
  {
    var s := states[|events|];
    hide Inv, LockedStretch, Expired, Disposable, EraseAll;
    StretchSteady(states, events, 0, |events|);
    forall id: nat | id in removed
      ensures Expired(s, id) || Disposable(s, id)
      ensures id in s.registered && id < |s.heap| && s.heap[id].readers == 0 && s.heap[id].phase != Running
      ensures s.heap[id].finished == FinishedAsRead(states, seen, id)
    {
      ReadStands(states, events, seen, id);
      Unneeded(s, id);
    }
    forall b: nat | b in KeptAsRead(states, seen, removed)
      ensures b < |s.heap| && s.heap[b].finished == FinishedAsRead(states, seen, b)
    {
      ReadStands(states, events, seen, b);
      Unneeded(s, b);
    }
    EraseKeeps(s, removed);
    ErasedRegistered(s, removed);
    hide Steady;
    forall id: nat | id in EraseAll(s, removed).registered
      ensures !Expired(AsRead(states, seen, id), id)
    {
      SameRegistered(states, events);
    }
  }

  lemma Unneeded(s: State, id: nat)
    requires Expired(s, id) || Disposable(s, id)
    ensures id in s.registered && id < |s.heap| && s.heap[id].readers == 0 && s.heap[id].phase != Running
  {
  }

  lemma ErasedRegistered(s: State, removed: set<nat>)
    ensures EraseAll(s, removed).registered == s.registered - removed
  {
  }

  lemma SameRegistered(states: seq<State>, events: seq<Event>)
    requires LockedStretch(states, events) && |states| == |events| + 1
    ensures states[|events|].registered == states[0].registered
  {
    hide Inv, LockedStretch;
    StretchSteady(states, events, 0, |events|);
  }

  // ---- Making room on stale reads ---------------------------------------------------------

  /** Sessions read as running and not yet asked to stop. */
  ghost function UncancelledAsRead(states: seq<State>, seen: nat -> nat): set<nat>
    requires states != [] && forall id: nat :: seen(id) < |states|
  {
    set id: nat | id in states[0].registered && RunningUnasked(states[seen(id)], id)
  }

  ghost function CancelledAsRead(states: seq<State>, seen: nat -> nat): set<nat>
    requires states != [] && forall id: nat :: seen(id) < |states|
  {
    set id: nat | id in states[0].registered && RunningAsked(states[seen(id)], id)
  }

  predicate RunningUnasked(s: State, id: nat) {
    id < |s.heap| && s.heap[id].phase == Running && s.heap[id].flag < |s.flags| && !s.flags[s.heap[id].flag].cancelled
  }

  predicate RunningAsked(s: State, id: nat) {
    id < |s.heap| && s.heap[id].phase == Running && s.heap[id].flag < |s.flags| && s.flags[s.heap[id].flag].cancelled
  }

  /** Whatever was read, making room leaves at most one active view unasked. */
  lemma StaleMakeRoomLeavesOne(states: seq<State>, events: seq<Event>, seen: nat -> nat, chosen: set<nat>, s': State)
    requires Scanned(states, events, seen)
    requires chosen <= UncancelledAsRead(states, seen)
    requires |chosen| == CancelCount(|UncancelledAsRead(states, seen)|, |CancelledAsRead(states, seen)|)
    requires var s := states[|events|];
             Wellformed(s) && Wellformed(s') && s' == s.(flags := s'.flags) && FlagsCancelled(s, s'.flags, chosen)
    ensures Inv(s') && |UncancelledRunning(s')| <= 1
  {
    var s := states[|events|];
    var unasked, asked := UncancelledAsRead(states, seen), CancelledAsRead(states, seen);
    hide Inv, LockedStretch, Steady, RunningUnasked, RunningAsked, FlagSet, FlagsCancelled, UncancelledRunning;
    StretchSteady(states, events, 0, |events|);
    AtMostTwo(states, events, seen);
    forall id: nat | id in UncancelledRunning(s')
      ensures id in unasked - chosen
    {
      StillUnasked(states, events, seen, chosen, s', id);
    }
    Subset(UncancelledRunning(s'), unasked - chosen);
    StopKeeps(s, s', chosen);
  }

  lemma AsReadWasRunning(states: seq<State>, events: seq<Event>, seen: nat -> nat, id: nat)
    requires Scanned(states, events, seen) && id in states[0].registered
    requires RunningUnasked(states[seen(id)], id) || RunningAsked(states[seen(id)], id)
    ensures id in RunningSet(states[0])
  {
    hide Inv, LockedStretch, SteadySession;
    StretchSteady(states, events, 0, seen(id));
    SteadyRunning(states[0].heap[id], states[seen(id)].heap[id]);
  }

  /** The workers as read were all running when the scan began, and the cap held then. */
  lemma AtMostTwo(states: seq<State>, events: seq<Event>, seen: nat -> nat)
    requires Scanned(states, events, seen)
    ensures |UncancelledAsRead(states, seen)| + |CancelledAsRead(states, seen)| <= MAX_RUNNING
  {
    hide Inv, LockedStretch, Steady, RunningSet;
    var unasked, asked := UncancelledAsRead(states, seen), CancelledAsRead(states, seen);
    assert unasked !! asked;
    assert |unasked + asked| == |unasked| + |asked|;
    hide RunningUnasked, RunningAsked;
    forall id: nat | id in unasked + asked
      ensures id in RunningSet(states[0])
    {
      AsReadWasRunning(states, events, seen, id);
    }
    StretchSteady(states, events, 0, 0);
    RunningSetCount(states[0]);
    InvCap(states[0]);
    Subset(unasked + asked, RunningSet(states[0]));
  }

  lemma InvCap(s: State)
    requires Inv(s)
    ensures RunningCount(s) <= MAX_RUNNING
  {
  }

  lemma Subset(a: set<nat>, b: set<nat>)
    requires a <= b
    ensures |a| <= |b|
  {
    if a != {} {
      var x :| x in a;
      Subset(a - {x}, b - {x});
    }
  }

  lemma StopKeeps(s: State, s': State, chosen: set<nat>)
    requires Inv(s) && Wellformed(s) && s' == s.(flags := s'.flags) && FlagsCancelled(s, s'.flags, chosen)
    ensures Inv(s')
  {
    hide Inv;
    SettingFlagsKeeps(s, s');
  }

  lemma StillUnasked(states: seq<State>, events: seq<Event>, seen: nat -> nat, chosen: set<nat>, s': State, id: nat)
    requires Scanned(states, events, seen) && Wellformed(states[|events|]) && Wellformed(s')
    requires s' == states[|events|].(flags := s'.flags) && FlagsCancelled(states[|events|], s'.flags, chosen)
    requires id in UncancelledRunning(s')
    ensures id in UncancelledAsRead(states, seen) - chosen
  {
    hide Inv, LockedStretch, SteadySession;
    var t, s := states[seen(id)], states[|events|];
    StretchSteady(states, events, seen(id), |events|);
    StretchSteady(states, events, seen(id), seen(id));
    StretchSteady(states, events, 0, |events|);
    SteadyRunning(t.heap[id], s.heap[id]);
    WellformedAt(t);
  }

  lemma SteadyRunning(x: Session, y: Session)
    requires SteadySession(x, y) && y.phase == Running
    ensures x.phase == Running && x.flag == y.flag
  {
  }

  lemma WellformedAt(s: State)
    requires Inv(s)
    ensures Wellformed(s)
  {
  }

  // ---- The loops over what was read ---------------------------------------------------------

  /** `views` holds every registered session as it was under its own lock, and `start` the clock when the scan began. */
  ghost predicate ReadsOf(states: seq<State>, events: seq<Event>, seen: nat -> nat, views: map<nat, Session>, start: nat) {
    && Scanned(states, events, seen) && start == states[0].now && views.Keys == states[0].registered
    && forall id :: id in views ==> id < |states[seen(id)].heap| && views[id] == states[seen(id)].heap[id]
  }

  predicate ReadExpired(x: Session, start: nat) {
    x.phase != Running && x.finished != 0 && start - x.finished > RESULT_TTL && x.readers == 0
  }

  predicate ReadDisposable(x: Session) {
    x.phase != Running && (x.phase != Completed || x.delivered) && x.readers == 0
  }

  predicate ReadIdle(x: Session, start: nat) {
    x.phase == Running && start - x.lastAccess > IDLE_TTL
  }

  lemma ReadMeans(states: seq<State>, events: seq<Event>, seen: nat -> nat, views: map<nat, Session>, start: nat, id: nat)
    requires ReadsOf(states, events, seen, views, start) && id in views
    ensures Expired(AsRead(states, seen, id), id) <==> ReadExpired(views[id], start)
    ensures Disposable(AsRead(states, seen, id), id) <==> ReadDisposable(views[id])
    ensures FinishedAsRead(states, seen, id) == views[id].finished
  {
    hide LockedStretch, Inv, SteadySession;
    StretchSteady(states, events, 0, seen(id));
  }

  /** Sorting what was read into sessions to stop, to remove, and to remove if there are too many. */
  method SortReads(views: map<nat, Session>, start: nat) returns (idle: set<nat>, expired: set<nat>, disposable: set<nat>)
    ensures idle == set id | id in views && ReadIdle(views[id], start)
    ensures expired == set id | id in views && ReadExpired(views[id], start)
    ensures disposable == set id | id in views && ReadDisposable(views[id]) && !ReadExpired(views[id], start)
  {
    idle, expired, disposable := {}, {}, {};
    var todo := views.Keys;
    while todo != {}
      invariant todo <= views.Keys
      invariant forall id :: id in idle <==> id in views && id !in todo && ReadIdle(views[id], start)
      invariant forall id :: id in expired <==> id in views && id !in todo && ReadExpired(views[id], start)
      invariant forall id :: id in disposable <==>
                  id in views && id !in todo && ReadDisposable(views[id]) && !ReadExpired(views[id], start)
      decreases |todo|
    {
      var id :| id in todo;
      var x := views[id];
      todo := todo - {id};
      if x.phase == Running {
        if start - x.lastAccess > IDLE_TTL {
          idle := idle + {id};
        }
      } else if x.finished != 0 && start - x.finished > RESULT_TTL && x.readers == 0 {
        expired := expired + {id};
      } else if (x.phase != Completed || x.delivered) && x.readers == 0 {
        disposable := disposable + {id};
      }
    }
  }

  function FinishedOf(views: map<nat, Session>): nat -> nat {
    (id: nat) => if id in views then views[id].finished else 0
  }

  function LastAccessOf(views: map<nat, Session>): nat -> nat {
    (id: nat) => if id in views then views[id].lastAccess else 0
  }

  /**
   The prune on sessions read one by one: the idle ones as read are to be asked to stop, and
   the removals are a choice that is safe however stale the reads are.
   */
  method PruneOnReads(views: map<nat, Session>, start: nat, ghost states: seq<State>, ghost events: seq<Event>, ghost seen: nat -> nat)
    returns (ask: set<nat>, remove: set<nat>)
    requires ReadsOf(states, events, seen, views, start)
    ensures ask == set id | id in views && ReadIdle(views[id], start)
    ensures ChosenAsRead(states, seen, remove)
    ensures Inv(EraseAll(states[|events|], remove))
    ensures forall id :: id in remove ==> Expired(states[|events|], id) || Disposable(states[|events|], id)
  {
    hide ReadsOf, ChosenAsRead, Inv, LockedStretch, ReadExpired, ReadDisposable, ReadIdle, Oldest, Members, Expired, Disposable;
    var expired, disposable;
    ask, expired, disposable := SortReads(views, start);
    var surplus := if |disposable| > MAX_RETAINED_TERMINAL then |disposable| - MAX_RETAINED_TERMINAL else 0;
    var picked := PickOldest(disposable, FinishedOf(views), surplus);
    remove := expired + Members(picked);
    ChosenOnReads(states, events, seen, views, start, expired, disposable, Members(picked), surplus);
    ReadsScanned(states, events, seen, views, start);
    StalePruneIsSafe(states, events, seen, remove);
  }

  lemma ReadsScanned(states: seq<State>, events: seq<Event>, seen: nat -> nat, views: map<nat, Session>, start: nat)
    requires ReadsOf(states, events, seen, views, start)
    ensures Scanned(states, events, seen) && states != [] && views.Keys == states[0].registered && start == states[0].now
  {
    hide LockedStretch;
  }

  lemma ChosenOnReads(states: seq<State>, events: seq<Event>, seen: nat -> nat, views: map<nat, Session>, start: nat,
                      expired: set<nat>, disposable: set<nat>, picked: set<nat>, surplus: nat)
    requires ReadsOf(states, events, seen, views, start)
    requires expired == set id | id in views && ReadExpired(views[id], start)
    requires disposable == set id | id in views && ReadDisposable(views[id]) && !ReadExpired(views[id], start)
    requires surplus == if |disposable| > MAX_RETAINED_TERMINAL then |disposable| - MAX_RETAINED_TERMINAL else 0
    requires Oldest(disposable, FinishedOf(views), surplus, picked)
    ensures states != [] && (forall id: nat :: seen(id) < |states|) && ChosenAsRead(states, seen, expired + picked)
  {
    hide ReadsOf, LockedStretch, Scanned, Expired, Disposable, AsRead, FinishedAsRead, ReadExpired, ReadDisposable;
    hide Oldest, KeptAsRead, ChosenAsRead;
    ReadsScanned(states, events, seen, views, start);
    ScannedSeen(states, events, seen);
    OldestFacts(disposable, FinishedOf(views), surplus, picked);
    KeptIsRest(states, events, seen, views, start, expired, disposable, picked);
    forall id: nat | id in views
      ensures Expired(AsRead(states, seen, id), id) <==> id in expired
      ensures id in picked ==> Disposable(AsRead(states, seen, id), id)
    {
      ReadMeans(states, events, seen, views, start, id);
    }
    OldestFinished(states, events, seen, views, start, disposable, picked, surplus);
    MadeChoice(states, seen, expired, disposable, picked);
  }

  lemma OldestFinished(states: seq<State>, events: seq<Event>, seen: nat -> nat, views: map<nat, Session>, start: nat,
                       disposable: set<nat>, picked: set<nat>, surplus: nat)
    requires ReadsOf(states, events, seen, views, start) && states != [] && forall id: nat :: seen(id) < |states|
    requires Oldest(disposable, FinishedOf(views), surplus, picked) && disposable <= views.Keys
    ensures forall a: nat, b: nat :: a in picked && b in disposable - picked ==>
              FinishedAsRead(states, seen, a) <= FinishedAsRead(states, seen, b)
  {
    hide ReadsOf, LockedStretch, Oldest, AsRead, FinishedAsRead;
    OldestFacts(disposable, FinishedOf(views), surplus, picked);
    forall a: nat, b: nat | a in picked && b in disposable - picked
      ensures FinishedAsRead(states, seen, a) <= FinishedAsRead(states, seen, b)
    {
      ReadMeans(states, events, seen, views, start, a);
      ReadMeans(states, events, seen, views, start, b);
      OldestOrder(disposable, FinishedOf(views), surplus, picked, a, b);
    }
  }

  lemma MadeChoice(states: seq<State>, seen: nat -> nat, expired: set<nat>, disposable: set<nat>, picked: set<nat>)
    requires states != [] && forall id: nat :: seen(id) < |states|
    requires expired <= states[0].registered && picked <= disposable <= states[0].registered
    requires forall id: nat :: id in states[0].registered ==> (Expired(AsRead(states, seen, id), id) <==> id in expired)
    requires forall id: nat :: id in picked ==> Disposable(AsRead(states, seen, id), id)
    requires KeptAsRead(states, seen, expired + picked) == disposable - picked
    requires |picked| == if |disposable| > MAX_RETAINED_TERMINAL then |disposable| - MAX_RETAINED_TERMINAL else 0
    requires forall a: nat, b: nat :: a in picked && b in disposable - picked ==>
               FinishedAsRead(states, seen, a) <= FinishedAsRead(states, seen, b)
    ensures ChosenAsRead(states, seen, expired + picked)
  {
    hide Expired, Disposable, AsRead, FinishedAsRead, KeptAsRead;
    assert |disposable - picked| == |disposable| - |picked|;
  }

  lemma ScannedSeen(states: seq<State>, events: seq<Event>, seen: nat -> nat)
    requires Scanned(states, events, seen)
    ensures states != [] && forall id: nat :: seen(id) < |states|
  {
    hide LockedStretch;
  }

  lemma KeptIsRest(states: seq<State>, events: seq<Event>, seen: nat -> nat, views: map<nat, Session>, start: nat,
                   expired: set<nat>, disposable: set<nat>, picked: set<nat>)
    requires ReadsOf(states, events, seen, views, start) && states != [] && forall id: nat :: seen(id) < |states|
    requires expired == set id | id in views && ReadExpired(views[id], start)
    requires disposable == set id | id in views && ReadDisposable(views[id]) && !ReadExpired(views[id], start)
    requires picked <= disposable
    ensures KeptAsRead(states, seen, expired + picked) == disposable - picked
  {
    hide ReadsOf, LockedStretch, Scanned, Expired, Disposable, AsRead, ReadExpired, ReadDisposable;
    ReadsScanned(states, events, seen, views, start);
    forall id: nat | id in views
      ensures Disposable(AsRead(states, seen, id), id) <==> ReadDisposable(views[id])
    {
      ReadMeans(states, events, seen, views, start, id);
    }
  }

  lemma OldestOrder(ids: set<nat>, key: nat -> nat, count: nat, picked: set<nat>, a: nat, b: nat)
    requires Oldest(ids, key, count, picked) && a in picked && b in ids - picked
    ensures key(a) <= key(b)
  {
  }

  /** The running sessions as read, split by whether they were already asked to stop. */
  ghost predicate AskedOf(states: seq<State>, events: seq<Event>, seen: nat -> nat, views: map<nat, Session>, asked: set<nat>) {
    && Scanned(states, events, seen) && views.Keys == states[0].registered
    && (forall id :: id in views ==> id < |states[seen(id)].heap| && views[id] == states[seen(id)].heap[id] &&
                                     views[id].flag < |states[seen(id)].flags|)
    && asked == set id | id in views && states[seen(id)].flags[views[id].flag].cancelled
  }

  /** Splitting the workers that were read. */
  method SplitWorkers(views: map<nat, Session>, asked: set<nat>) returns (running: set<nat>, stopping: nat, ghost stopped: set<nat>)
    ensures running == set id | id in views && views[id].phase == Running && id !in asked
    ensures stopped == set id | id in views && views[id].phase == Running && id in asked
    ensures stopping == |stopped|
  {
    running, stopping, stopped := {}, 0, {};
    var todo := views.Keys;
    while todo != {}
      invariant todo <= views.Keys
      invariant forall id :: id in running <==> id in views && id !in todo && views[id].phase == Running && id !in asked
      invariant forall id :: id in stopped <==> id in views && id !in todo && views[id].phase == Running && id in asked
      invariant stopping == |stopped|
      decreases |todo|
    {
      var id :| id in todo;
      todo := todo - {id};
      if views[id].phase == Running {
        if id in asked {
          stopping := stopping + 1;
          stopped := stopped + {id};
        } else {
          running := running + {id};
        }
      }
    }
  }

  lemma WorkersAsRead(states: seq<State>, events: seq<Event>, seen: nat -> nat, views: map<nat, Session>, asked: set<nat>)
    requires AskedOf(states, events, seen, views, asked)
    ensures states != [] && forall id: nat :: seen(id) < |states|
    ensures UncancelledAsRead(states, seen) == set id | id in views && views[id].phase == Running && id !in asked
    ensures CancelledAsRead(states, seen) == set id | id in views && views[id].phase == Running && id in asked
  {
    hide LockedStretch;
  }

  /** Making room on sessions read one by one: as many as needed, the longest-unattended first. */
  method MakeRoomOnReads(views: map<nat, Session>, asked: set<nat>, ghost states: seq<State>, ghost events: seq<Event>,
                         ghost seen: nat -> nat)
    returns (chosen: seq<nat>)
    requires AskedOf(states, events, seen, views, asked)
    ensures states != [] && forall id: nat :: seen(id) < |states|
    ensures |Members(chosen)| == CancelCount(|UncancelledAsRead(states, seen)|, |CancelledAsRead(states, seen)|)
    ensures Oldest(UncancelledAsRead(states, seen), LastAccessOf(views), |Members(chosen)|, Members(chosen))
    ensures AllowsOne(states[|states| - 1], Members(chosen))
  {
    hide Inv, LockedStretch, Members, Oldest, AskedOf, AllowsOne, UncancelledAsRead, CancelledAsRead;
    var running, stopping;
    ghost var stopped;
    running, stopping, stopped := SplitWorkers(views, asked);
    WorkersAsRead(states, events, seen, views, asked);
    var live := |running| + stopping;
    var cancelCount := 0;
    if live >= MAX_RUNNING {
      var slots := live - MAX_RUNNING + 1;
      if slots > stopping {
        cancelCount := if |running| < slots - stopping then |running| else slots - stopping;
      }
    }
    chosen := PickOldest(running, LastAccessOf(views), cancelCount);
    OldestFacts(running, LastAccessOf(views), cancelCount, Members(chosen));
    AskingAllows(states, events, seen, views, asked, Members(chosen));
  }

  /** Once the chosen are asked to stop, at most one active view is left unasked. */
  ghost predicate AllowsOne(s: State, chosen: set<nat>) {
    forall s' :: Wellformed(s) && Wellformed(s') && s' == s.(flags := s'.flags) && FlagsCancelled(s, s'.flags, chosen) ==>
      Inv(s') && |UncancelledRunning(s')| <= 1
  }

  lemma AskingAllows(states: seq<State>, events: seq<Event>, seen: nat -> nat, views: map<nat, Session>, asked: set<nat>, chosen: set<nat>)
    requires AskedOf(states, events, seen, views, asked) && states != [] && forall id: nat :: seen(id) < |states|
    requires chosen <= UncancelledAsRead(states, seen)
    requires |chosen| == CancelCount(|UncancelledAsRead(states, seen)|, |CancelledAsRead(states, seen)|)
    ensures AllowsOne(states[|states| - 1], chosen)
  {
    hide Inv, LockedStretch, FlagsCancelled, UncancelledRunning, Wellformed, UncancelledAsRead, CancelledAsRead;
    var s := states[|events|];
    forall s' | Wellformed(s) && Wellformed(s') && s' == s.(flags := s'.flags) && FlagsCancelled(s, s'.flags, chosen)
      ensures Inv(s') && |UncancelledRunning(s')| <= 1
    {
      StaleMakeRoomLeavesOne(states, events, seen, chosen, s');
    }
  }

  lemma OldestFacts(ids: set<nat>, key: nat -> nat, count: nat, picked: set<nat>)
    requires Oldest(ids, key, count, picked)
    ensures picked <= ids && |picked| == count
  {
  }
}
