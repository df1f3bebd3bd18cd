/**
 What every event of the interactive field sessions keeps: memory and worker caps,
 truthful reservations and reader counts, inverse registry maps, complete results
 and one live cancel flag per key.
 */
module FieldInvariants {
  import opened Arithmetic
  import opened Grid
  import opened ViewKeys
  import opened FieldSessions
  import opened Wrappers

  /** The session still owns its raw field. */
  predicate Holds(x: Session) {
    x.phase == Running || (x.phase == Completed && (!x.delivered || x.readers > 0))
  }

  predicate Complete(x: Session) {
    FieldFull(x) && x.completedPixels == Pixels(x)
  }

  /** Full reservation and a truthful publication count while held, nothing afterwards. */
  predicate MemoryOk(x: Session) {
    && (Holds(x) ==> x.reserved == FullBytes(x) && |x.published| == Pixels(x) && x.completedPixels == Ones(x.published))
    && (!Holds(x) ==> x.reserved == 0 && x.published == [] && x.iterLen == 0 && x.normLen == 0)
    && (x.phase == Completed && Holds(x) ==> FieldFull(x))
    && (x.phase == Completed ==> x.completedPixels == Pixels(x))
  }

  /** What is known at each point of the worker's program, whatever other threads do to the flag. */
  predicate WorkerOk(x: Session, cancelled: bool) {
    && (x.phase == Running <==> Active(x.worker))
    && (x.worker.Returned? || x.worker.Uncancelled? || x.worker.Settled? ==> FieldFull(x))
    && (x.worker.Settled? ==> cancelled || Complete(x))
    && (x.worker.Verdict? ==> x.worker.final != Running)
    && (x.worker == Verdict(Completed) ==> Complete(x))
    && (x.worker.NoThread? ==> x.phase == Failed)
  }

  predicate SessionOk(x: Session, registered: bool, cancelled: bool, now: nat) {
    && ReservationBytes(x.width, x.height).Some?
    && (x.phase == Running ==> registered)
    && (x.phase != Running ==> 0 < x.finished <= now)
    && (x.delivered ==> x.phase == Completed)
    && (x.readers > 0 ==> x.phase == Completed && registered)
    && MemoryOk(x)
    && WorkerOk(x, cancelled)
  }

  ghost predicate SessionsOk(s: State)
    requires Wellformed(s)
  {
    s.now > 0 &&
    forall id :: 0 <= id < |s.heap| ==> SessionOk(s.heap[id], id in s.registered, FlagSet(s, id), s.now)
  }

  /** The two registry maps are inverse to each other. */
  ghost predicate ViewsOk(s: State)
    requires Wellformed(s)
  {
    && (forall v :: v in s.byView ==> s.byView[v] in s.registered && s.heap[s.byView[v]].viewKey == v)
    && (forall id :: id in s.registered ==> s.heap[id].viewKey in s.byView && s.byView[s.heap[id].viewKey] == id)
  }

  predicate CapacityOk(s: State) {
    RunningCount(s) <= MAX_RUNNING && ReservedBytes(s) <= MAX_RESERVED_BYTES
  }

  /** The flag of a session was registered for the session's own view. */
  predicate OwnView(x: Session, g: Flag) {
    g.key != "" && g.seqNo >= 0 && x.viewKey == ViewKey(g.key, g.seqNo)
  }

  ghost predicate FlagsOk(s: State)
    requires Wellformed(s)
  {
    && (forall id :: 0 <= id < |s.heap| ==> OwnView(s.heap[id], s.flags[s.heap[id].flag]))
    && (forall a, b :: 0 <= a < b < |s.heap| ==> s.heap[a].flag != s.heap[b].flag)
    && (forall id :: 0 <= id < |s.heap| && (id in s.registered || Active(s.heap[id].worker)) ==>
          s.flags[s.heap[id].flag].owned)
  }

  /** The flag can still let a keyed request run. */
  predicate LiveFlag(g: Flag) {
    g.owned && !g.cancelled && g.key != ""
  }

  predicate EntryMatches(g: Flag, key: string, e: Entry) {
    key != "" && g.key == key && g.seqNo == e.seqNo && e.seqNo >= 0
  }

  /** Only the latest accepted request of a key can hold a live flag. */
  predicate PreemptTable(flags: seq<Flag>, preempt: map<string, Entry>) {
    && (forall k :: k in preempt ==> preempt[k].flag < |flags| && EntryMatches(flags[preempt[k].flag], k, preempt[k]))
    && (forall f :: 0 <= f < |flags| && LiveFlag(flags[f]) ==>
          flags[f].key in preempt && preempt[flags[f].key] == Entry(flags[f].seqNo, f))
  }

  predicate PreemptOk(s: State) {
    PreemptTable(s.flags, s.preempt)
  }

  function PinAt(encoders: seq<Encoder>, id: nat): nat -> nat {
    (k: nat) => if k < |encoders| && encoders[k].session == id && (encoders[k].stage == Pinned || encoders[k].stage == Encoding)
      then 1 else 0
  }

  /** Handlers that are reading the raw field of a session. */
  function PinCount(encoders: seq<Encoder>, id: nat): nat {
    Sum(PinAt(encoders, id), |encoders|)
  }

  function GateAt(encoders: seq<Encoder>): nat -> nat {
    (k: nat) => if k < |encoders| && (encoders[k].stage == Encoding || encoders[k].stage == Leaving) then 1 else 0
  }

  function GateCount(encoders: seq<Encoder>): nat {
    Sum(GateAt(encoders), |encoders|)
  }

  ghost predicate EncodersOk(s: State)
    requires Wellformed(s)
  {
    && (forall id :: 0 <= id < |s.heap| ==> s.heap[id].readers == PinCount(s.encoders, id))
    && GateCount(s.encoders) == (if s.encoding then 1 else 0)
  }

  ghost predicate Inv(s: State) {
    && Wellformed(s)
    && SessionsOk(s) && ViewsOk(s) && CapacityOk(s) && FlagsOk(s) && PreemptOk(s) && EncodersOk(s)
  }

  // ---- Publication counts -------------------------------------------------------

  lemma {:induction false} CountsAddUp(p: seq<bool>, q: seq<bool>, n: nat)
    requires n <= |p| == |q| && forall i :: 0 <= i < |p| && p[i] ==> q[i]
    ensures Sum(BitAt(q), n) == Sum(BitAt(p), n) + Sum(FreshAt(p, q), n)
  {
    if n > 0 {
      CountsAddUp(p, q, n - 1);
    }
  }

  /** Painting keeps the count truthful, also where rectangles overlap. */
  lemma PaintCount(x: Session, px: int, py: int, w: int, h: int)
    requires x.width > 0 && x.completedPixels == Ones(x.published)
    ensures var y := PublishRect(x, px, py, w, h);
            y.completedPixels == Ones(y.published) && |y.published| == |x.published|
    ensures var y := PublishRect(x, px, py, w, h);
            forall i :: 0 <= i < |x.published| && x.published[i] ==> y.published[i]
  {
    var q := Painted(x.published, x.width, px, py, w, h);
    CountsAddUp(x.published, q, |q|);
  }

  lemma {:induction false} OnesFull(p: seq<bool>, n: nat)
    requires n <= |p|
    ensures Sum(BitAt(p), n) <= n
    ensures Sum(BitAt(p), n) == n <==> forall i :: 0 <= i < n ==> p[i]
  {
    if n > 0 {
      OnesFull(p, n - 1);
    }
  }

  /** The final whole-frame publication leaves every cell published. */
  lemma WholeFrame(x: Session)
    requires x.phase == Running && FieldFull(x) && x.width > 0 && x.height > 0
    requires |x.published| == Pixels(x) && x.completedPixels == Ones(x.published)
    ensures PublishRect(x, 0, 0, x.width, x.height).completedPixels == Pixels(x)
  {
    var y := PublishRect(x, 0, 0, x.width, x.height);
    PaintCount(x, 0, 0, x.width, x.height);
    forall i | 0 <= i < |y.published|
      ensures y.published[i]
    {
      CellRoundTrip(i, x.width, x.height);
    }
    OnesFull(y.published, |y.published|);
  }

  // ---- Counting workers ----------------------------------------------------------

  ghost function RunningSet(s: State): set<nat> {
    set id | id in s.registered && id < |s.heap| && s.heap[id].phase == Running
  }

  lemma RunningSetCount(s: State)
    ensures |RunningSet(s)| == RunningCount(s)
  {
    SumIndicator(RunningSet(s), |s.heap|);
    SumSame(RunningAt(s), Indicator(RunningSet(s)), |s.heap|);
  }

  // ---- One session event ----------------------------------------------------------

  predicate SameIdentity(x: Session, y: Session) {
    && x.viewKey == y.viewKey && x.requestId == y.requestId && x.fingerprint == y.fingerprint
    && x.flag == y.flag && x.width == y.width && x.height == y.height
  }

  /** A session event never takes memory, revives a worker or touches a reader. */
  lemma SessionEventShrinks(e: Event, x: Session, registered: bool, cancelled: bool, now: nat)
    requires IsSessionEvent(e) && SessionEnabled(e, x, registered) && SessionOk(x, registered, cancelled, now)
    ensures var y := SessionNext(e, x, cancelled, now);
            SameIdentity(x, y) && y.reserved <= x.reserved && y.readers == x.readers &&
            (y.phase == Running ==> x.phase == Running) && (Active(y.worker) ==> Active(x.worker)) &&
            (x.delivered ==> y.delivered)
  {
  }

  lemma PublishEventOk(e: Event, x: Session, registered: bool, cancelled: bool, now: nat)
    requires now > 0 && (e.Publish? || e.PublishRest?)
    requires SessionEnabled(e, x, registered) && SessionOk(x, registered, cancelled, now)
    ensures SessionOk(SessionNext(e, x, cancelled, now), registered, cancelled, now)
  {
    hide ReservationBytes, Painted, FreshCount;
    assert x.width > 0 && x.height > 0 by { ReservationPositive(x); }
    if e.Publish? {
      PaintCount(x, e.x, e.y, e.w, e.h);
    } else {
      WholeFrame(x);
      PaintCount(x, 0, 0, x.width, x.height);
      OnesFull(x.published, |x.published|);
    }
  }

  lemma ReservationPositive(x: Session)
    requires ReservationBytes(x.width, x.height).Some?
    ensures x.width > 0 && x.height > 0
  {
  }

  lemma SessionEventOk(e: Event, x: Session, registered: bool, cancelled: bool, now: nat)
    requires now > 0 && IsSessionEvent(e) && SessionEnabled(e, x, registered) && SessionOk(x, registered, cancelled, now)
    ensures SessionOk(SessionNext(e, x, cancelled, now), registered, cancelled, now)
  {
    if e.Publish? || e.PublishRest? {
      hide SessionOk, SessionNext, SessionEnabled;
      PublishEventOk(e, x, registered, cancelled, now);
    } else {
      hide ReservationBytes, Ones, PublishRect;
    }
  }

  // ---- Conjunct by conjunct ---------------------------------------------------------

  /** Flags are only ever set, and keep their request and owner. */
  predicate OnlySet(flags: seq<Flag>, flags': seq<Flag>) {
    && |flags| <= |flags'|
    && forall f :: 0 <= f < |flags| ==>
         flags'[f] == flags[f].(cancelled := flags'[f].cancelled) && (flags[f].cancelled ==> flags'[f].cancelled)
  }

  /** Caps survive any step that registers nothing new and revives or enlarges no session. */
  lemma NoGrowth(s: State, s': State)
    requires |s'.heap| == |s.heap| && s'.registered <= s.registered
    requires forall i :: 0 <= i < |s.heap| ==>
               s'.heap[i].reserved <= s.heap[i].reserved && (s'.heap[i].phase == Running ==> s.heap[i].phase == Running)
    ensures RunningCount(s') <= RunningCount(s) && ReservedBytes(s') <= ReservedBytes(s)
  {
    SumAtMost(RunningAt(s'), RunningAt(s), |s.heap|);
    SumAtMost(ReservedAt(s'), ReservedAt(s), |s.heap|);
  }

  /** An untouched session stays sound when time passes, its flag is set or it leaves the registry unobserved. */
  lemma SessionStays(x: Session, reg: bool, reg': bool, cancelled: bool, cancelled': bool, now: nat, now': nat)
    requires SessionOk(x, reg, cancelled, now) && (cancelled ==> cancelled') && now <= now'
    requires reg == reg' || (!reg' && x.phase != Running && x.readers == 0)
    ensures SessionOk(x, reg', cancelled', now')
  {
  }

  /** A step that leaves all session records alone. */
  ghost predicate RecordsKept(s: State, s': State)
    requires Wellformed(s) && Wellformed(s')
  {
    && s'.heap == s.heap && s.now <= s'.now && s'.registered <= s.registered
    && (forall id :: 0 <= id < |s.heap| ==> FlagSet(s, id) ==> FlagSet(s', id))
    && (forall id :: id in s.registered && id !in s'.registered ==>
          s.heap[id].phase != Running && s.heap[id].readers == 0)
  }

  lemma SessionsKept(s: State, s': State)
    requires Wellformed(s) && Wellformed(s') && SessionsOk(s) && RecordsKept(s, s')
    ensures SessionsOk(s')
  {
    hide SessionOk;
    forall id | 0 <= id < |s.heap|
      ensures SessionOk(s'.heap[id], id in s'.registered, FlagSet(s', id), s'.now)
    {
      SessionStays(s.heap[id], id in s.registered, id in s'.registered, FlagSet(s, id), FlagSet(s', id), s.now, s'.now);
    }
  }

  /** Owners are kept: a step that orphans nothing and adds no session keeps the flag discipline. */
  lemma OwnersKept(s: State, s': State)
    requires Wellformed(s) && Wellformed(s') && FlagsOk(s)
    requires |s'.heap| == |s.heap| && s'.registered <= s.registered && OnlySet(s.flags, s'.flags)
    requires forall id :: 0 <= id < |s.heap| ==>
               s'.heap[id].flag == s.heap[id].flag && s'.heap[id].viewKey == s.heap[id].viewKey &&
               (Active(s'.heap[id].worker) ==> Active(s.heap[id].worker))
    ensures FlagsOk(s')
  {
    hide ViewKey;
  }

  lemma PreemptKept(s: State, s': State)
    requires PreemptOk(s)
    requires s'.preempt == s.preempt && |s'.flags| == |s.flags| && OnlySet(s.flags, s'.flags)
    ensures PreemptOk(s')
  {
  }

  lemma EncodersKept(s: State, s': State)
    requires Wellformed(s) && Wellformed(s') && EncodersOk(s)
    requires s'.encoders == s.encoders && s'.encoding == s.encoding && |s'.heap| == |s.heap|
    requires forall id :: 0 <= id < |s.heap| ==> s'.heap[id].readers == s.heap[id].readers
    ensures EncodersOk(s')
  {
  }

  lemma ViewsKept(s: State, s': State)
    requires Wellformed(s) && Wellformed(s') && ViewsOk(s)
    requires s'.registered == s.registered && s'.byView == s.byView && |s'.heap| == |s.heap|
    requires forall id :: 0 <= id < |s.heap| ==> s'.heap[id].viewKey == s.heap[id].viewKey
    ensures ViewsOk(s')
  {
  }

  /** Steps on flags, entries or the clock that leave the records and both registry maps alone. */
  lemma FlagStepKeeps(s: State, s': State)
    requires Inv(s) && Wellformed(s') && RecordsKept(s, s') && FlagsOk(s') && PreemptOk(s')
    requires s'.registered == s.registered && s'.byView == s.byView
    requires s'.encoders == s.encoders && s'.encoding == s.encoding
    ensures Inv(s')
  {
    hide SessionsOk, ViewsOk, FlagsOk, PreemptOk, EncodersOk;
    SessionsKept(s, s');
    ViewsKept(s, s');
    EncodersKept(s, s');
    NoGrowth(s, s');
  }

  // ---- Events -------------------------------------------------------------------------

  lemma SessionEventKeeps(s: State, e: Event, s': State)
    requires Inv(s) && IsSessionEvent(e) && Step(s, e, s')
    ensures Inv(s')
  {
    hide SessionsOk, ViewsOk, FlagsOk, PreemptOk, EncodersOk, SessionOk, SessionNext, SessionEnabled;
    var id := e.id;
    var x, y := s.heap[id], s'.heap[id];
    SessionFacts(s, id);
    SessionEventShrinks(e, x, id in s.registered, FlagSet(s, id), s.now);
    SessionEventOk(e, x, id in s.registered, FlagSet(s, id), s.now);
    assert forall i :: 0 <= i < |s.heap| && i != id ==> s'.heap[i] == s.heap[i];
    OneSessionChanged(s, s', id);
    ViewsKept(s, s');
    OwnersKept(s, s');
    PreemptKept(s, s');
    EncodersKept(s, s');
    NoGrowth(s, s');
  }

  lemma SessionFacts(s: State, id: nat)
    requires Wellformed(s) && SessionsOk(s) && id < |s.heap|
    ensures s.now > 0 && SessionOk(s.heap[id], id in s.registered, FlagSet(s, id), s.now)
  {
  }

  lemma OneSessionChanged(s: State, s': State, id: nat)
    requires Wellformed(s) && Wellformed(s') && SessionsOk(s) && id < |s.heap| == |s'.heap|
    requires s'.flags == s.flags && s'.registered == s.registered && s'.now == s.now
    requires forall i :: 0 <= i < |s.heap| && i != id ==> s'.heap[i] == s.heap[i]
    requires s'.heap[id].flag == s.heap[id].flag
    requires SessionOk(s'.heap[id], id in s.registered, FlagSet(s, id), s.now)
    ensures SessionsOk(s')
  {
    hide SessionOk;
    forall i | 0 <= i < |s'.heap|
      ensures SessionOk(s'.heap[i], i in s'.registered, FlagSet(s', i), s'.now)
    {
      SessionFacts(s, i);
    }
  }

  lemma SettingFlagsKeeps(s: State, s': State)
    requires Inv(s) && s' == s.(flags := s'.flags) && |s'.flags| == |s.flags| && OnlySet(s.flags, s'.flags)
    ensures Inv(s')
  {
    hide SessionsOk, ViewsOk, FlagsOk, PreemptOk, EncodersOk;
    OwnersKept(s, s');
    PreemptKept(s, s');
    FlagStepKeeps(s, s');
  }

  lemma RegisterKeeps(s: State, key: string, seqNo: int)
    requires Inv(s)
    ensures Inv(Register(s, key, seqNo))
    ensures OnlySet(s.flags, Register(s, key, seqNo).flags)
  {
    hide SessionsOk, ViewsOk, FlagsOk, PreemptTable, EncodersOk, RegisterIn, EntriesToConsult;
    var s' := Register(s, key, seqNo);
    RegisterInTable(s.flags, s.preempt, key, seqNo);
    OwnersKept(s, s');
    FlagStepKeeps(s, s');
  }

  lemma LiveTable(flags: seq<Flag>, preempt: map<string, Entry>)
    requires PreemptTable(flags, preempt)
    ensures PreemptTable(flags, LiveEntries(preempt, flags))
  {
    forall f | 0 <= f < |flags| && LiveFlag(flags[f])
      ensures flags[f].key in LiveEntries(preempt, flags)
    {
      assert preempt[flags[f].key].flag == f;
    }
  }

  lemma ConsultKeepsTable(flags: seq<Flag>, preempt: map<string, Entry>)
    requires PreemptTable(flags, preempt)
    ensures PreemptTable(flags, EntriesToConsult(preempt, flags))
  {
    LiveTable(flags, preempt);
  }

  lemma RegisterUnderFlags(flags: seq<Flag>, entries: map<string, Entry>, key: string, seqNo: int)
    ensures var r := RegisterUnder(flags, entries, key, seqNo);
            OnlySet(flags, r.flags) && |r.flags| == |flags| + 1
  {
  }

  lemma RegisterUnderTable(flags: seq<Flag>, entries: map<string, Entry>, key: string, seqNo: int)
    requires PreemptTable(flags, entries) && key != "" && !BadKey(key, seqNo)
    ensures var r := RegisterUnder(flags, entries, key, seqNo);
            PreemptTable(r.flags, r.preempt) && OnlySet(flags, r.flags) && |r.flags| == |flags| + 1
  {
    var r := RegisterUnder(flags, entries, key, seqNo);
    RegisterUnderFlags(flags, entries, key, seqNo);
    assert forall f :: 0 <= f < |flags| && LiveFlag(r.flags[f]) ==> LiveFlag(flags[f]);
    forall f | 0 <= f < |r.flags| && LiveFlag(r.flags[f])
      ensures r.flags[f].key in r.preempt && r.preempt[r.flags[f].key] == Entry(r.flags[f].seqNo, f)
    {
      if f < |flags| && flags[f].key == key {
        assert entries[key].flag == f;
      }
    }
    forall k | k in r.preempt
      ensures r.preempt[k].flag < |r.flags| && EntryMatches(r.flags[r.preempt[k].flag], k, r.preempt[k])
    {
    }
  }

  lemma RegisterInTable(flags: seq<Flag>, preempt: map<string, Entry>, key: string, seqNo: int)
    requires PreemptTable(flags, preempt)
    ensures var r := RegisterIn(flags, preempt, key, seqNo);
            PreemptTable(r.flags, r.preempt) && OnlySet(flags, r.flags) && |r.flags| == |flags| + 1
  {
    if key != "" && !BadKey(key, seqNo) {
      hide PreemptTable, RegisterUnder, EntriesToConsult;
      ConsultKeepsTable(flags, preempt);
      RegisterUnderTable(flags, EntriesToConsult(preempt, flags), key, seqNo);
    } else {
      var r := RegisterIn(flags, preempt, key, seqNo);
      assert forall f :: 0 <= f < |flags| ==> r.flags[f] == flags[f];
    }
  }

  lemma OrphanTable(flags: seq<Flag>, preempt: map<string, Entry>, f: nat)
    requires PreemptTable(flags, preempt) && f < |flags|
    ensures PreemptTable(flags[f := flags[f].(owned := false)], preempt)
  {
    var flags' := flags[f := flags[f].(owned := false)];
    assert forall g :: 0 <= g < |flags| && LiveFlag(flags'[g]) ==> LiveFlag(flags[g]);
  }

  lemma OrphanOwners(s: State, f: nat, s': State)
    requires Wellformed(s) && FlagsOk(s) && Step(s, Orphan(f), s') && Wellformed(s')
    ensures FlagsOk(s')
  {
    hide ViewKey;
  }

  lemma OrphanKeeps(s: State, f: nat, s': State)
    requires Inv(s) && Step(s, Orphan(f), s')
    ensures Inv(s')
  {
    hide SessionsOk, ViewsOk, FlagsOk, PreemptTable, EncodersOk;
    assert forall id :: 0 <= id < |s.heap| ==> FlagSet(s', id) == FlagSet(s, id);
    OrphanTable(s.flags, s.preempt, f);
    OrphanOwners(s, f, s');
    FlagStepKeeps(s, s');
  }

  lemma PrunePreemptKeeps(s: State, s': State)
    requires Inv(s) && Step(s, PrunePreempt, s')
    ensures Inv(s')
  {
    hide SessionsOk, ViewsOk, FlagsOk, EncodersOk, CapacityOk, PreemptTable, LiveEntries;
    LiveTable(s.flags, s.preempt);
    OwnersKept(s, s');
    FlagStepKeeps(s, s');
  }

  lemma TickKeeps(s: State, elapsed: nat)
    requires Inv(s)
    ensures Inv(s.(now := s.now + elapsed))
  {
    hide SessionsOk, ViewsOk, FlagsOk, PreemptTable, EncodersOk;
    var s' := s.(now := s.now + elapsed);
    assert forall id :: 0 <= id < |s.heap| ==> FlagSet(s', id) == FlagSet(s, id);
    OwnersKept(s, s');
    FlagStepKeeps(s, s');
  }

  lemma EraseViews(s: State, ids: set<nat>)
    requires Wellformed(s) && ViewsOk(s)
    ensures Wellformed(EraseAll(s, ids)) && ViewsOk(EraseAll(s, ids))
  {
  }

  lemma EraseKeeps(s: State, ids: set<nat>)
    requires Inv(s) && forall id :: id in ids ==> id < |s.heap| && s.heap[id].phase != Running && s.heap[id].readers == 0
    ensures Inv(EraseAll(s, ids))
  {
    hide SessionsOk, ViewsOk, FlagsOk, PreemptTable, EncodersOk, RunningCount, ReservedBytes;
    EraseViews(s, ids);
    var s' := EraseAll(s, ids);
    assert s' == s.(registered := s.registered - ids, byView := s'.byView);
    hide EraseAll;
    assert forall id :: 0 <= id < |s.heap| ==> FlagSet(s', id) == FlagSet(s, id);
    SessionsKept(s, s');
    OwnersKept(s, s');
    EncodersKept(s, s');
    NoGrowth(s, s');
  }

  lemma EraseOneIsAll(s: State, id: nat)
    requires Wellformed(s) && ViewsOk(s)
    ensures EraseOne(s, id) == EraseAll(s, {id})
  {
    var a, b := EraseOne(s, id), EraseAll(s, {id});
    assert id !in s.registered ==> s.registered - {id} == s.registered;
    assert a.byView == b.byView;
  }

  lemma PruneKeeps(s: State, s': State)
    requires Inv(s) && PruneStep(s, s')
    ensures Inv(s')
  {
    hide Inv;
    var removed := s.registered - s'.registered;
    assert forall id :: id in removed ==> Expired(s, id) || Disposable(s, id);
    EraseKeeps(s, removed);
    SettingFlagsKeeps(EraseAll(s, removed), s');
  }

  lemma MakeRoomKeeps(s: State, s': State, chosen: set<nat>)
    requires Inv(s) && MakeRoomStep(s, s', chosen)
    ensures Inv(s')
  {
    hide Inv;
    SettingFlagsKeeps(s, s');
  }

  /** Acknowledged fields without readers are already freed, so trimming finds nothing to drop. */
  lemma NothingTrimmable(s: State, id: nat)
    requires Wellformed(s) && SessionsOk(s)
    ensures !Trimmable(s, id)
  {
    if id < |s.heap| {
      SessionFacts(s, id);
    }
  }

  lemma TrimIdle(s: State, s': State, bytes: nat)
    requires Wellformed(s) && SessionsOk(s) && TrimStep(s, s', bytes)
    ensures s' == s
  {
    hide SessionsOk;
    var removed := s.registered - s'.registered;
    forall id | id in removed
      ensures false
    {
      NothingTrimmable(s, id);
    }
    assert removed == {};
    assert s'.byView == s.byView;
    assert s'.registered == s.registered;
  }

  lemma AdmitCounts(s: State, flag: nat, r: Request)
    requires ReservationBytes(r.width, r.height).Some?
    ensures RunningCount(Admit(s, flag, r)) == RunningCount(s) + 1
    ensures ReservedBytes(Admit(s, flag, r)) == ReservedBytes(s) + ReservationBytes(r.width, r.height).value
  {
    var s', id, x := Admit(s, flag, r), |s.heap|, NewSession(s, flag, r);
    assert x.phase == Running && x.reserved == ReservationBytes(r.width, r.height).value;
    assert s'.heap == s.heap + [x] && s'.registered == s.registered + {id};
    hide Admit, NewSession, ReservationBytes;
    AppendedCounts(s, s', x);
  }

  lemma AppendedCounts(s: State, s': State, x: Session)
    requires s'.heap == s.heap + [x] && s'.registered == s.registered + {|s.heap|} && x.phase == Running
    ensures RunningCount(s') == RunningCount(s) + 1
    ensures ReservedBytes(s') == ReservedBytes(s) + x.reserved
  {
    var id := |s.heap|;
    forall i: nat | i < id
      ensures RunningAt(s)(i) == RunningAt(s')(i) && ReservedAt(s)(i) == ReservedAt(s')(i)
    {
      assert s'.heap[i] == s.heap[i];
    }
    SumSame(RunningAt(s), RunningAt(s'), id);
    SumSame(ReservedAt(s), ReservedAt(s'), id);
  }

  lemma AdmitViews(s: State, flag: nat, r: Request)
    requires Wellformed(s) && ViewsOk(s) && MayAdmit(s, flag, r)
    ensures Wellformed(Admit(s, flag, r)) && ViewsOk(Admit(s, flag, r))
  {
    hide ViewKey, ReservationBytes, RunningCount, ReservedBytes;
    var s', id, x := Admit(s, flag, r), |s.heap|, NewSession(s, flag, r);
    assert s'.heap == s.heap + [x] && s'.registered == s.registered + {id};
    assert s'.byView == s.byView[x.viewKey := id] && x.viewKey !in s.byView && x.flag == flag;
    hide Admit, NewSession, MayAdmit;
  }

  lemma AdmitFlags(s: State, flag: nat, r: Request)
    requires Wellformed(s) && FlagsOk(s) && MayAdmit(s, flag, r) && Wellformed(Admit(s, flag, r))
    ensures FlagsOk(Admit(s, flag, r))
  {
    hide ViewKey, ReservationBytes, RunningCount, ReservedBytes;
    var s', id, x := Admit(s, flag, r), |s.heap|, NewSession(s, flag, r);
    assert s'.heap == s.heap + [x] && s'.registered == s.registered + {id} && s'.flags == s.flags && x.flag == flag;
    assert OwnView(x, s.flags[flag]);
    hide Admit, NewSession;
  }

  lemma AdmitKeeps(s: State, flag: nat, r: Request)
    requires Inv(s) && MayAdmit(s, flag, r)
    ensures Inv(Admit(s, flag, r))
  {
    hide SessionsOk, ViewsOk, FlagsOk, PreemptTable, EncodersOk, RunningCount, ReservedBytes;
    AdmitViews(s, flag, r);
    AdmitFlags(s, flag, r);
    AdmitSessions(s, flag, r);
    AdmitEncoders(s, flag, r);
    AdmitCounts(s, flag, r);
  }

  lemma NewSessionOk(s: State, flag: nat, r: Request, cancelled: bool)
    requires s.now > 0 && ReservationBytes(r.width, r.height).Some?
    ensures SessionOk(NewSession(s, flag, r), true, cancelled, s.now)
  {
    var x := NewSession(s, flag, r);
    SumZero(BitAt(x.published), |x.published|);
  }

  lemma AdmitSessions(s: State, flag: nat, r: Request)
    requires Wellformed(s) && SessionsOk(s) && MayAdmit(s, flag, r)
    requires Wellformed(Admit(s, flag, r))
    ensures SessionsOk(Admit(s, flag, r))
  {
    hide SessionOk, NewSession;
    var s' := Admit(s, flag, r);
    forall i | 0 <= i < |s'.heap|
      ensures SessionOk(s'.heap[i], i in s'.registered, FlagSet(s', i), s'.now)
    {
      if i < |s.heap| {
        SessionFacts(s, i);
      } else {
        NewSessionOk(s, flag, r, FlagSet(s', i));
      }
    }
  }

  lemma AdmitEncoders(s: State, flag: nat, r: Request)
    requires Wellformed(s) && EncodersOk(s) && MayAdmit(s, flag, r)
    requires Wellformed(Admit(s, flag, r))
    ensures EncodersOk(Admit(s, flag, r))
  {
    SumZero(PinAt(s.encoders, |s.heap|), |s.encoders|);
  }

  // ---- Result readers -----------------------------------------------------------------

  /** A reader step changes one session and the encoders; the other conjuncts carry over. */
  lemma ReaderStepKeeps(s: State, s': State, id: nat)
    requires Inv(s) && id < |s.heap| && |s'.heap| == |s.heap| && Wellformed(s') && EncodersOk(s')
    requires s' == s.(heap := s.heap[id := s'.heap[id]], encoders := s'.encoders, encoding := s'.encoding)
    requires SameIdentity(s.heap[id], s'.heap[id]) && s'.heap[id].reserved <= s.heap[id].reserved
    requires s'.heap[id].phase == s.heap[id].phase && s'.heap[id].worker == s.heap[id].worker
    requires SessionOk(s'.heap[id], id in s.registered, FlagSet(s, id), s.now)
    ensures Inv(s')
  {
    hide SessionsOk, ViewsOk, FlagsOk, PreemptOk, EncodersOk, SessionOk;
    assert forall i :: 0 <= i < |s.heap| && i != id ==> s'.heap[i] == s.heap[i];
    OneSessionChanged(s, s', id);
    ViewsKept(s, s');
    OwnersKept(s, s');
    PreemptKept(s, s');
    NoGrowth(s, s');
  }

  lemma PinAppended(encoders: seq<Encoder>, id: nat, i: nat)
    ensures PinCount(encoders + [Encoder(id, Pinned)], i) == PinCount(encoders, i) + (if i == id then 1 else 0)
    ensures GateCount(encoders + [Encoder(id, Pinned)]) == GateCount(encoders)
  {
    var es, k := encoders + [Encoder(id, Pinned)], |encoders|;
    SumSame(PinAt(encoders, i), PinAt(es, i), k);
    SumSame(GateAt(encoders), GateAt(es), k);
  }

  lemma PinCounts(s: State, id: nat, s': State)
    requires Wellformed(s) && EncodersOk(s) && Step(s, Pin(id), s') && Wellformed(s')
    ensures EncodersOk(s')
  {
    assert id < |s.heap| && s'.encoders == s.encoders + [Encoder(id, Pinned)];
    hide PinCount, GateCount;
    PinAppended(s.encoders, id, id);
    forall i | 0 <= i < |s'.heap|
      ensures s'.heap[i].readers == PinCount(s'.encoders, i)
    {
      PinAppended(s.encoders, id, i);
    }
  }

  lemma PinKeeps(s: State, id: nat, s': State)
    requires Inv(s) && Step(s, Pin(id), s')
    ensures Inv(s')
  {
    hide SessionsOk, ViewsOk, FlagsOk, PreemptOk, EncodersOk;
    PinCounts(s, id, s');
    SessionFacts(s, id);
    ReaderStepKeeps(s, s', id);
  }

  /** Moving one encoder to another stage moves the counts accordingly. */
  lemma StageCounts(encoders: seq<Encoder>, k: nat, stage: Stage)
    requires k < |encoders|
    ensures var es := encoders[k := encoders[k].(stage := stage)];
            GateCount(es) + GateAt(encoders)(k) == GateCount(encoders) + GateAt(es)(k)
    ensures var es := encoders[k := encoders[k].(stage := stage)];
            forall i: nat :: PinCount(es, i) + PinAt(encoders, i)(k) == PinCount(encoders, i) + PinAt(es, i)(k)
  {
    var es := encoders[k := encoders[k].(stage := stage)];
    SumPoint(GateAt(encoders), GateAt(es), |encoders|, k);
    forall i: nat
      ensures PinCount(es, i) + PinAt(encoders, i)(k) == PinCount(encoders, i) + PinAt(es, i)(k)
    {
      SumPoint(PinAt(encoders, i), PinAt(es, i), |encoders|, k);
    }
  }

  /** A pinned encoder accounts for one reader of its session. */
  lemma PinnedIsReader(s: State, k: nat)
    requires Wellformed(s) && EncodersOk(s) && (AtStage(s, k, Pinned) || AtStage(s, k, Encoding))
    ensures s.heap[s.encoders[k].session].readers > 0
  {
    SumHolds(PinAt(s.encoders, s.encoders[k].session), |s.encoders|, k);
  }

  lemma ReleaseReaderOk(x: Session, registered: bool, cancelled: bool, now: nat)
    requires SessionOk(x, registered, cancelled, now) && x.readers > 0
    ensures SessionOk(ReleaseReader(x), registered, cancelled, now)
  {
  }

  lemma UnpinCounts(s: State, k: nat, stage: Stage)
    requires Wellformed(s) && EncodersOk(s)
    requires (AtStage(s, k, Pinned) && stage == Gone) || (AtStage(s, k, Encoding) && stage == Leaving)
    requires Wellformed(Unpin(s, k, stage))
    ensures EncodersOk(Unpin(s, k, stage))
  {
    StageCounts(s.encoders, k, stage);
    PinnedIsReader(s, k);
  }

  lemma UnpinKeeps(s: State, k: nat, stage: Stage)
    requires Inv(s)
    requires (AtStage(s, k, Pinned) && stage == Gone) || (AtStage(s, k, Encoding) && stage == Leaving)
    ensures Inv(Unpin(s, k, stage))
  {
    hide SessionsOk, ViewsOk, FlagsOk, PreemptOk, EncodersOk, SessionOk;
    var s', id := Unpin(s, k, stage), s.encoders[k].session;
    UnpinCounts(s, k, stage);
    PinnedIsReader(s, k);
    SessionFacts(s, id);
    ReleaseReaderOk(s.heap[id], id in s.registered, FlagSet(s, id), s.now);
    ReaderStepKeeps(s, s', id);
  }

  lemma StageStepKeeps(s: State, s': State)
    requires Inv(s) && Wellformed(s') && EncodersOk(s')
    requires s' == s.(encoders := s'.encoders, encoding := s'.encoding)
    ensures Inv(s')
  {
    hide SessionsOk, FlagsOk, PreemptTable, EncodersOk;
    SessionsKept(s, s');
    OwnersKept(s, s');
    NoGrowth(s, s');
  }

  lemma GateCounts(s: State, k: nat)
    requires Wellformed(s) && EncodersOk(s) && AtStage(s, k, Pinned) && !s.encoding
    ensures Wellformed(Gate(s, k)) && EncodersOk(Gate(s, k))
  {
    StageCounts(s.encoders, k, Encoding);
  }

  lemma GateKeeps(s: State, k: nat)
    requires Inv(s) && AtStage(s, k, Pinned)
    ensures Inv(Gate(s, k))
  {
    if s.encoding {
      hide Inv;
      UnpinKeeps(s, k, Gone);
    } else {
      hide SessionsOk, ViewsOk, FlagsOk, PreemptTable, EncodersOk;
      GateCounts(s, k);
      StageStepKeeps(s, Gate(s, k));
    }
  }

  lemma LeaveCounts(s: State, k: nat)
    requires Wellformed(s) && EncodersOk(s) && AtStage(s, k, Leaving)
    ensures Wellformed(SetStage(s, k, Gone).(encoding := false)) && EncodersOk(SetStage(s, k, Gone).(encoding := false))
  {
    StageCounts(s.encoders, k, Gone);
    SumHolds(GateAt(s.encoders), |s.encoders|, k);
  }

  lemma LeaveKeeps(s: State, k: nat)
    requires Inv(s) && AtStage(s, k, Leaving)
    ensures Inv(SetStage(s, k, Gone).(encoding := false))
  {
    hide SessionsOk, ViewsOk, FlagsOk, PreemptTable, EncodersOk;
    LeaveCounts(s, k);
    StageStepKeeps(s, SetStage(s, k, Gone).(encoding := false));
  }

  // ---- Every event ----------------------------------------------------------------------

  lemma InitInv()
    ensures Inv(Init)
  {
  }

  lemma NoThreadIdle(s: State, id: nat)
    requires Wellformed(s) && SessionsOk(s) && id < |s.heap| && s.heap[id].worker == NoThread
    ensures s.heap[id].phase != Running && s.heap[id].readers == 0
  {
    SessionFacts(s, id);
  }

  lemma EraseFailedKeeps(s: State, id: nat)
    requires Inv(s) && id < |s.heap| && s.heap[id].worker == NoThread
    ensures Inv(EraseOne(s, id))
  {
    hide SessionsOk, FlagsOk, PreemptTable, EncodersOk, RunningCount, ReservedBytes;
    NoThreadIdle(s, id);
    EraseOneIsAll(s, id);
    hide Inv, EraseOne, EraseAll;
    EraseKeeps(s, {id});
  }

  lemma AskToStopKeeps(s: State, id: nat)
    requires Inv(s) && id in s.registered
    ensures id < |s.heap| && s.heap[id].flag < |s.flags| && Inv(s.(flags := CancelFlag(s.flags, s.heap[id].flag)))
  {
    hide Inv, SessionsOk;
    InvSessions(s);
    SettingFlagsKeeps(s, s.(flags := CancelFlag(s.flags, s.heap[id].flag)));
  }

  lemma EraseUnneededKeeps(s: State, id: nat)
    requires Inv(s) && (Expired(s, id) || Disposable(s, id))
    ensures Inv(EraseOne(s, id))
  {
    hide SessionsOk, FlagsOk, PreemptTable, EncodersOk, RunningCount, ReservedBytes;
    EraseOneIsAll(s, id);
    hide Inv, EraseOne, EraseAll;
    EraseKeeps(s, {id});
  }

  lemma FlagEventKeeps(s: State, e: Event, s': State)
    requires Inv(s) && Step(s, e, s')
    requires e.Tick? || e.RegisterFlag? || e.Orphan? || e.PrunePreempt?
    ensures Inv(s')
  {
    hide Inv, RegisterIn, LiveEntries;
    match e {
      case Tick(elapsed) => TickKeeps(s, elapsed);
      case RegisterFlag(key, seqNo) => RegisterKeeps(s, key, seqNo);
      case Orphan(f) => OrphanKeeps(s, f, s');
      case PrunePreempt => PrunePreemptKeeps(s, s');
    }
  }

  lemma PruningEventKeeps(s: State, e: Event, s': State)
    requires Inv(s) && Step(s, e, s')
    requires e.Prune? || e.MakeRoom? || e.EraseFailed? || e.AskToStop? || e.EraseUnneeded?
    ensures Inv(s')
  {
    hide Inv, EraseOne, EraseAll, PruneStep, MakeRoomStep, CancelFlag;
    match e {
      case Prune => PruneKeeps(s, s');
      case MakeRoom(chosen) => MakeRoomKeeps(s, s', chosen);
      case EraseFailed(id) => EraseFailedKeeps(s, id);
      case AskToStop(id) => AskToStopKeeps(s, id);
      case EraseUnneeded(id) => EraseUnneededKeeps(s, id);
    }
  }

  lemma AdmissionEventKeeps(s: State, e: Event, s': State)
    requires Inv(s) && Step(s, e, s') && (e.Trim? || e.AdmitSession?)
    ensures Inv(s')
  {
    hide Inv, Wellformed, SessionsOk, EraseAll, Admit, TrimStep, MayAdmit, ReservationBytes;
    InvSessions(s);
    match e {
      case Trim(bytes) => TrimIdle(s, s', bytes);
      case AdmitSession(flag, r) => AdmitKeeps(s, flag, r);
    }
  }

  lemma InvSessions(s: State)
    requires Inv(s)
    ensures Wellformed(s) && SessionsOk(s)
  {
    hide SessionOk, ViewsOk, CapacityOk, FlagsOk, PreemptOk, EncodersOk;
  }

  lemma EncoderEventKeeps(s: State, e: Event, s': State)
    requires Inv(s) && Step(s, e, s')
    requires e.Pin? || e.EnterGate? || e.FinishEncode? || e.LeaveGate?
    ensures Inv(s')
  {
    hide Inv, Unpin, Gate;
    match e {
      case Pin(id) => PinKeeps(s, id, s');
      case EnterGate(k) => GateKeeps(s, k);
      case FinishEncode(k) => UnpinKeeps(s, k, Leaving);
      case LeaveGate(k) => LeaveKeeps(s, k);
    }
  }

  /** Every event keeps the invariant. */
  lemma StepKeeps(s: State, e: Event, s': State)
    requires Inv(s) && Step(s, e, s')
    ensures Inv(s')
  {
    hide Inv, Step;
    if IsSessionEvent(e) {
      SessionEventKeeps(s, e, s');
    } else if e.Tick? || e.RegisterFlag? || e.Orphan? || e.PrunePreempt? {
      FlagEventKeeps(s, e, s');
    } else if e.Pin? || e.EnterGate? || e.FinishEncode? || e.LeaveGate? {
      EncoderEventKeeps(s, e, s');
    } else if e.Trim? || e.AdmitSession? {
      AdmissionEventKeeps(s, e, s');
    } else {
      PruningEventKeeps(s, e, s');
    }
  }
}
