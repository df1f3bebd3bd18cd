/**
 Interactive native-field sessions: the state behind the session registry, and the
 atomic steps taken by request handlers, render workers, result encoders and the
 reaper. Each event is one critical section, or one atomic flag access, of the
 implementation; handlers and workers are sequences of events that interleave freely.
 */
module FieldSessions {
  import opened Arithmetic
  import opened Grid
  import opened ViewKeys
  import opened Wrappers

  const RESULT_TTL: nat := 30_000
  const IDLE_TTL: nat := 15_000
  const MAX_RETAINED_TERMINAL: nat := 3
  const MAX_RUNNING: nat := 2
  const BYTES_PER_PIXEL: nat := 9
  const MAX_PIXELS: nat := 4096 * 4096
  const MAX_RESERVED_BYTES: nat := 512 * 1024 * 1024
  const MAX_PREEMPT_ENTRIES: nat := 256
  const MAX_PREEMPT_KEY_BYTES: nat := 128

  // ---- State ----------------------------------------------------------------

  datatype Phase = Running | Completed | Cancelled | Failed

  /** Where the thread that renders a session is; `Settled` means the whole-frame check is behind it. */
  datatype Worker =
    | NotStarted | NoThread
    | Rendering | Returned | Uncancelled | Settled | Verdict(final: Phase)
    | Done

  datatype Session = Session(
    viewKey: string, requestId: string, fingerprint: string, flag: nat, width: nat, height: nat,
    reserved: nat, delivered: bool, readers: nat,
    iterLen: nat, normLen: nat, published: seq<bool>,
    phase: Phase, revision: nat, completedPixels: nat, finished: nat, lastAccess: nat,
    worker: Worker)

  /** A cancel flag, the request it was registered for, and whether anything still owns it. */
  datatype Flag = Flag(key: string, seqNo: int, cancelled: bool, owned: bool)

  datatype Entry = Entry(seqNo: int, flag: nat)

  datatype Stage = Pinned | Encoding | Leaving | Gone

  /** A handler that is serving a result. */
  datatype Encoder = Encoder(session: nat, stage: Stage)

  /**
   Sessions, flags and encoders are numbered by creation, so a number stands for the
   shared object; `registered` and `byView` are the two registry maps.
   */
  datatype State = State(
    now: nat,
    heap: seq<Session>, registered: set<nat>, byView: map<string, nat>,
    flags: seq<Flag>, preempt: map<string, Entry>,
    encoders: seq<Encoder>, encoding: bool)

  datatype Request = Request(preemptKey: string, seqNo: nat, requestId: string, fingerprint: string,
                             width: int, height: int)

  function Pixels(x: Session): nat {
    x.width * x.height
  }

  function FullBytes(x: Session): nat {
    Pixels(x) * BYTES_PER_PIXEL
  }

  predicate FieldFull(x: Session) {
    x.iterLen == Pixels(x) && x.normLen == Pixels(x)
  }

  predicate Active(w: Worker) {
    !w.NoThread? && !w.Done?
  }

  /** The memory reservation of a native field, when its size is acceptable. */
  function ReservationBytes(width: int, height: int): (r: Option<nat>)
    ensures r.Some? <==> 0 < width && 0 < height && width * height <= MAX_PIXELS
    ensures r.Some? ==> r.value == width * height * BYTES_PER_PIXEL && r.value <= MAX_RESERVED_BYTES
  {
    if width <= 0 || height <= 0 || width * height > MAX_PIXELS ||
       width * height * BYTES_PER_PIXEL > MAX_RESERVED_BYTES then None
    else Some(width * height * BYTES_PER_PIXEL)
  }

  // ---- Publication -----------------------------------------------------------

  function Bit(b: bool): nat {
    if b then 1 else 0
  }

  function BitAt(p: seq<bool>): nat -> nat {
    (i: nat) => if i < |p| then Bit(p[i]) else 0
  }

  /** How many cells are published. */
  function Ones(p: seq<bool>): nat {
    Sum(BitAt(p), |p|)
  }

  predicate InRect(c: Cell, x: int, y: int, w: int, h: int) {
    x <= c.x < x + w && y <= c.y < y + h
  }

  /** The publication map with a rectangle added. */
  function Painted(p: seq<bool>, fullW: nat, x: int, y: int, w: int, h: int): (q: seq<bool>)
    requires fullW > 0
    ensures |q| == |p|
  {
    seq(|p|, i requires 0 <= i < |p| => p[i] || InRect(CellAt(i, fullW), x, y, w, h))
  }

  function FreshAt(p: seq<bool>, q: seq<bool>): nat -> nat {
    (i: nat) => if i < |p| && i < |q| && q[i] && !p[i] then 1 else 0
  }

  /** How many cells `q` publishes beyond `p`. */
  function FreshCount(p: seq<bool>, q: seq<bool>): nat {
    Sum(FreshAt(p, q), |q|)
  }

  predicate Publishable(s: Session, x: int, y: int, w: int, h: int) {
    && w > 0 && h > 0 && s.phase == Running
    && 0 <= x && 0 <= y && x + w <= s.width && y + h <= s.height
    && FieldFull(s)
  }

  /** A finished rectangle is published only while the session runs and its buffers are full-size. */
  function PublishRect(s: Session, x: int, y: int, w: int, h: int): Session {
    if !Publishable(s, x, y, w, h) then s
    else
      var q := Painted(s.published, s.width, x, y, w, h);
      s.(published := q, completedPixels := s.completedPixels + FreshCount(s.published, q), revision := s.revision + 1)
  }

  // ---- Buffers and readers ----------------------------------------------------

  function Release(x: Session): Session {
    x.(iterLen := 0, normLen := 0, published := [], reserved := 0)
  }

  /** One result reader leaves; the last one after an acknowledgement frees the raw field. */
  function ReleaseReader(x: Session): Session {
    var y := x.(readers := if x.readers != 0 then x.readers - 1 else 0);
    if y.delivered && y.readers == 0 then Release(y) else y
  }

  function Finish(x: Session, phase: Phase, now: nat): Session {
    var y := x.(phase := phase, finished := now, worker := Done);
    if phase != Completed then Release(y) else y
  }

  function Acknowledged(x: Session, now: nat): Session {
    if x.phase != Completed then x
    else
      var y := x.(delivered := true, lastAccess := now);
      if y.readers == 0 then Release(y) else y
  }

  // ---- Cancel flags ------------------------------------------------------------

  function CancelFlag(flags: seq<Flag>, f: nat): (r: seq<Flag>)
    requires f < |flags|
    ensures |r| == |flags|
  {
    flags[f := flags[f].(cancelled := true)]
  }

  /** Entries whose flag nobody owns any more are dropped. */
  function LiveEntries(preempt: map<string, Entry>, flags: seq<Flag>): (m: map<string, Entry>)
    ensures m.Keys <= preempt.Keys
  {
    map k | k in preempt && preempt[k].flag < |flags| && flags[preempt[k].flag].owned :: preempt[k]
  }

  predicate BadKey(key: string, seqNo: int) {
    |key| > MAX_PREEMPT_KEY_BYTES || seqNo < 0
  }

  /** The entries a registration looks at: a full table is pruned first. */
  function EntriesToConsult(preempt: map<string, Entry>, flags: seq<Flag>): (m: map<string, Entry>)
    ensures m.Keys <= preempt.Keys
  {
    if |preempt| >= MAX_PREEMPT_ENTRIES then LiveEntries(preempt, flags) else preempt
  }

  datatype Registration = Registration(flags: seq<Flag>, preempt: map<string, Entry>)

  /** A current sequence replaces its predecessor and cancels it; a stale one is born cancelled. */
  function RegisterUnder(flags: seq<Flag>, entries: map<string, Entry>, key: string, seqNo: int): Registration {
    var f := |flags|;
    if key in entries && seqNo < entries[key].seqNo then
      Registration(flags + [Flag(key, seqNo, true, true)], entries)
    else
      var before := if key in entries && entries[key].flag < |flags| && flags[entries[key].flag].owned
                    then CancelFlag(flags, entries[key].flag) else flags;
      Registration(before + [Flag(key, seqNo, false, true)], entries[key := Entry(seqNo, f)])
  }

  /** A new request registers a flag under its key; anonymous requests are on their own, malformed ones never run. */
  function RegisterIn(flags: seq<Flag>, preempt: map<string, Entry>, key: string, seqNo: int): Registration {
    if key == "" then Registration(flags + [Flag(key, seqNo, false, true)], preempt)
    else if BadKey(key, seqNo) then Registration(flags + [Flag(key, seqNo, true, true)], preempt)
    else RegisterUnder(flags, EntriesToConsult(preempt, flags), key, seqNo)
  }

  function Register(s: State, key: string, seqNo: int): State {
    var r := RegisterIn(s.flags, s.preempt, key, seqNo);
    s.(flags := r.flags, preempt := r.preempt)
  }

  // ---- Registry ------------------------------------------------------------------

  /** Erasing one session: its view entry goes only if it still points to it. */
  function EraseOne(s: State, id: nat): State {
    if id !in s.registered || id >= |s.heap| then s
    else
      var v := s.heap[id].viewKey;
      s.(registered := s.registered - {id},
         byView := if v in s.byView && s.byView[v] == id then s.byView - {v} else s.byView)
  }

  function EraseAll(s: State, ids: set<nat>): State {
    s.(registered := s.registered - ids, byView := map v | v in s.byView && s.byView[v] !in ids :: s.byView[v])
  }

  function RunningAt(s: State): nat -> nat {
    (i: nat) => if i in s.registered && i < |s.heap| && s.heap[i].phase == Running then 1 else 0
  }

  function ReservedAt(s: State): nat -> nat {
    (i: nat) => if i in s.registered && i < |s.heap| then s.heap[i].reserved else 0
  }

  /** Live workers of the registry; a cancelled worker counts until it finalizes. */
  function RunningCount(s: State): nat {
    Sum(RunningAt(s), |s.heap|)
  }

  function ReservedBytes(s: State): nat {
    Sum(ReservedAt(s), |s.heap|)
  }

  predicate Wellformed(s: State) {
    && (forall id :: id in s.registered ==> id < |s.heap|)
    && (forall id :: 0 <= id < |s.heap| ==> s.heap[id].flag < |s.flags|)
    && (forall k :: 0 <= k < |s.encoders| ==> s.encoders[k].session < |s.heap|)
  }

  predicate FlagSet(s: State, id: nat)
    requires Wellformed(s) && id < |s.heap|
  {
    s.flags[s.heap[id].flag].cancelled
  }

  // Pruning

  predicate Terminal(s: State, id: nat) {
    id in s.registered && id < |s.heap| && s.heap[id].phase != Running
  }

  predicate Expired(s: State, id: nat) {
    && Terminal(s, id) && s.heap[id].readers == 0
    && s.heap[id].finished != 0 && s.now - s.heap[id].finished > RESULT_TTL
  }

  /** Terminal sessions nobody waits for. */
  predicate Disposable(s: State, id: nat) {
    && Terminal(s, id) && s.heap[id].readers == 0
    && (s.heap[id].phase != Completed || s.heap[id].delivered)
  }

  ghost function ExpiredSet(s: State): set<nat> {
    set id | id in s.registered && Expired(s, id)
  }

  ghost function DisposableSet(s: State): set<nat> {
    set id | id in s.registered && Disposable(s, id)
  }

  ghost function KeptDisposable(s: State, removed: set<nat>): set<nat> {
    set id | id in s.registered && Disposable(s, id) && id !in removed
  }

  /** All expired sessions go, and of the other disposable ones the oldest beyond the cap. */
  ghost predicate PruneChoice(s: State, removed: set<nat>) {
    && removed <= s.registered
    && (forall id :: Expired(s, id) ==> id in removed)
    && (forall id :: id in removed ==> Expired(s, id) || Disposable(s, id))
    && |KeptDisposable(s, removed)| <= MAX_RETAINED_TERMINAL
    && (forall id :: id in removed && !Expired(s, id) ==>
          |KeptDisposable(s, removed)| == MAX_RETAINED_TERMINAL &&
          forall k :: k in KeptDisposable(s, removed) ==> s.heap[id].finished <= s.heap[k].finished)
  }

  /** A running session whose client stopped polling. */
  predicate Idle(s: State, id: nat) {
    && id in s.registered && id < |s.heap| && s.heap[id].phase == Running
    && s.now - s.heap[id].lastAccess > IDLE_TTL
  }

  /** Exactly the flags of the given sessions are additionally set. */
  ghost predicate FlagsCancelled(s: State, flags: seq<Flag>, ids: set<nat>)
    requires Wellformed(s)
  {
    && |flags| == |s.flags|
    && forall f :: 0 <= f < |flags| ==>
         flags[f] == s.flags[f].(cancelled := s.flags[f].cancelled ||
                                              exists id :: id in ids && id < |s.heap| && s.heap[id].flag == f)
  }

  ghost function IdleSet(s: State): set<nat> {
    set id | id in s.registered && Idle(s, id)
  }

  ghost predicate PruneStep(s: State, s': State)
    requires Wellformed(s)
  {
    && FlagsCancelled(s, s'.flags, IdleSet(s))
    && PruneChoice(s, s.registered - s'.registered)
    && s' == EraseAll(s, s.registered - s'.registered).(flags := s'.flags)
  }

  // Admission

  ghost function UncancelledRunning(s: State): set<nat>
    requires Wellformed(s)
  {
    set id | id in s.registered && s.heap[id].phase == Running && !FlagSet(s, id)
  }

  ghost function CancelledRunning(s: State): set<nat>
    requires Wellformed(s)
  {
    set id | id in s.registered && s.heap[id].phase == Running && FlagSet(s, id)
  }

  /** How many more workers must be asked to stop before one slot will come free. */
  function CancelCount(uncancelled: nat, cancelled: nat): nat {
    var live := uncancelled + cancelled;
    if live < MAX_RUNNING then 0
    else
      var slots := live - MAX_RUNNING + 1;
      if slots > cancelled then (if uncancelled < slots - cancelled then uncancelled else slots - cancelled) else 0
  }

  /** The longest-unattended active views are asked to stop. */
  ghost predicate MakeRoomStep(s: State, s': State, chosen: set<nat>)
    requires Wellformed(s)
  {
    && chosen <= UncancelledRunning(s)
    && |chosen| == CancelCount(|UncancelledRunning(s)|, |CancelledRunning(s)|)
    && (forall a, b :: a in chosen && b in UncancelledRunning(s) && b !in chosen ==>
          s.heap[a].lastAccess <= s.heap[b].lastAccess)
    && FlagsCancelled(s, s'.flags, chosen)
    && s' == s.(flags := s'.flags)
  }

  predicate Trimmable(s: State, id: nat) {
    && id in s.registered && id < |s.heap|
    && s.heap[id].phase == Completed && s.heap[id].delivered && s.heap[id].readers == 0 && s.heap[id].reserved != 0
  }

  predicate Fits(s: State, bytes: nat) {
    bytes <= MAX_RESERVED_BYTES && ReservedBytes(s) <= MAX_RESERVED_BYTES - bytes
  }

  /** Acknowledged fields are dropped oldest first until the request fits or none is left. */
  ghost predicate TrimStep(s: State, s': State, bytes: nat) {
    var removed := s.registered - s'.registered;
    && (forall id :: id in removed ==> Trimmable(s, id))
    && (forall a: nat, b: nat :: a in removed && Trimmable(s, b) && b !in removed ==>
          a < |s.heap| && s.heap[a].finished <= s.heap[b].finished)
    && (Fits(s, bytes) ==> removed == {})
    && (Fits(s', bytes) || forall id :: Trimmable(s, id) ==> id in removed)
    && s' == EraseAll(s, removed)
  }

  function NewSession(s: State, flag: nat, r: Request): Session
    requires ReservationBytes(r.width, r.height).Some?
  {
    Session(ViewKey(r.preemptKey, r.seqNo), r.requestId, r.fingerprint, flag, r.width, r.height,
            ReservationBytes(r.width, r.height).value, false, 0,
            0, 0, seq(r.width * r.height, _ => false),
            Running, 0, 0, 0, s.now, NotStarted)
  }

  /** Admission under the registry lock: a free worker slot, enough memory, a fresh view and the handler's own flag. */
  predicate MayAdmit(s: State, flag: nat, r: Request) {
    && ReservationBytes(r.width, r.height).Some?
    && RunningCount(s) < MAX_RUNNING
    && ReservedBytes(s) <= MAX_RESERVED_BYTES - ReservationBytes(r.width, r.height).value
    && ViewKey(r.preemptKey, r.seqNo) !in s.byView
    && flag < |s.flags| && s.flags[flag].owned
    && s.flags[flag].key == r.preemptKey && s.flags[flag].seqNo == r.seqNo && r.preemptKey != ""
    && forall id :: 0 <= id < |s.heap| ==> s.heap[id].flag != flag
  }

  function Admit(s: State, flag: nat, r: Request): State
    requires ReservationBytes(r.width, r.height).Some?
  {
    var id := |s.heap|;
    s.(heap := s.heap + [NewSession(s, flag, r)], registered := s.registered + {id},
       byView := s.byView[ViewKey(r.preemptKey, r.seqNo) := id])
  }

  // ---- Events ---------------------------------------------------------------------

  datatype Event =
    // time and flags
    | Tick(elapsed: nat)
    | RegisterFlag(key: string, seqNo: int)
    | Orphan(flag: nat)
    | PrunePreempt
    // under the registry lock
    | Prune
    | MakeRoom(chosen: set<nat>)
    | AskToStop(id: nat)
    | EraseUnneeded(id: nat)
    | Trim(bytes: nat)
    | AdmitSession(flag: nat, request: Request)
    | EraseFailed(id: nat)
    | Pin(id: nat)
    | Acknowledge(id: nat, requestId: string)
    // the handler and the worker of one session
    | Touch(id: nat)
    | Spawn(id: nat)
    | SpawnFailed(id: nat)
    | Allocate(id: nat)
    | Publish(id: nat, x: int, y: int, w: int, h: int)
    | Return(id: nat)
    | Throw(id: nat, byCancel: bool, known: bool)
    | ReadFlag(id: nat)
    | PublishRest(id: nat)
    | ReadFlagAgain(id: nat)
    | Finalize(id: nat)
    // result encoders
    | EnterGate(encoder: nat)
    | FinishEncode(encoder: nat)
    | LeaveGate(encoder: nat)

  /** Events that change one session record and nothing else. */
  predicate IsSessionEvent(e: Event) {
    e.Acknowledge? || e.Touch? || e.Spawn? || e.SpawnFailed? || e.Allocate? || e.Publish? || e.Return? || e.Throw? ||
    e.ReadFlag? || e.PublishRest? || e.ReadFlagAgain? || e.Finalize?
  }

  /** Whether the session event can happen to session `x`; `registered` and `set` are its registry and flag status. */
  predicate SessionEnabled(e: Event, x: Session, registered: bool)
    requires IsSessionEvent(e)
  {
    match e
    case Acknowledge(_, requestId) => registered && requestId != "" && requestId == x.requestId
    case Touch(_) => x.phase == Running
    case Spawn(_) => x.worker == NotStarted
    case SpawnFailed(_) => x.worker == NotStarted
    case Allocate(_) => x.worker == Rendering
    case Publish(_, _, _, _, _) => x.worker == Rendering
    // The renderer's contract: a normal return leaves a full-size field.
    case Return(_) => x.worker == Rendering && FieldFull(x)
    case Throw(_, _, _) => x.worker == Rendering
    case ReadFlag(_) => x.worker == Returned
    case PublishRest(_) => x.worker == Uncancelled
    case ReadFlagAgain(_) => x.worker == Settled
    case Finalize(_) => x.worker.Verdict?
  }

  function SessionNext(e: Event, x: Session, cancelled: bool, now: nat): Session
    requires IsSessionEvent(e)
  {
    match e
    case Acknowledge(_, _) => Acknowledged(x, now)
    case Touch(_) => x.(lastAccess := now)
    case Spawn(_) => x.(worker := Rendering)
    case SpawnFailed(_) => Release(x.(phase := Failed, finished := now, worker := NoThread))
    case Allocate(_) => x.(iterLen := Pixels(x), normLen := Pixels(x))
    case Publish(_, px, py, w, h) => PublishRect(x, px, py, w, h)
    case Return(_) => x.(worker := Returned)
    case Throw(_, byCancel, known) =>
      x.(worker := Verdict(if known && (cancelled || byCancel) then Cancelled else Failed))
    case ReadFlag(_) => x.(worker := if cancelled then Settled else Uncancelled)
    case PublishRest(_) =>
      (if x.completedPixels < Pixels(x) then PublishRect(x, 0, 0, x.width, x.height) else x).(worker := Settled)
    case ReadFlagAgain(_) => x.(worker := Verdict(if cancelled then Cancelled else Completed))
    case Finalize(_) => if x.worker.Verdict? then Finish(x, x.worker.final, now) else x
  }

  /** A flag loses its last owner only after its session left the registry and its worker ended. */
  predicate MayOrphan(s: State, f: nat) {
    f < |s.flags| &&
    forall id :: 0 <= id < |s.heap| && s.heap[id].flag == f ==> id !in s.registered && !Active(s.heap[id].worker)
  }

  predicate MayPin(s: State, id: nat) {
    && id in s.registered && id < |s.heap|
    && s.heap[id].phase == Completed && !s.heap[id].delivered && FieldFull(s.heap[id])
  }

  function SetStage(s: State, k: nat, stage: Stage): State
    requires k < |s.encoders|
  {
    s.(encoders := s.encoders[k := s.encoders[k].(stage := stage)])
  }

  function Unpin(s: State, k: nat, stage: Stage): State
    requires k < |s.encoders| && s.encoders[k].session < |s.heap|
  {
    var id := s.encoders[k].session;
    SetStage(s, k, stage).(heap := s.heap[id := ReleaseReader(s.heap[id])])
  }

  /** Two result encodings never overlap: a second reader is turned away and unpinned. */
  function Gate(s: State, k: nat): State
    requires k < |s.encoders| && s.encoders[k].session < |s.heap|
  {
    if s.encoding then Unpin(s, k, Gone) else SetStage(s, k, Encoding).(encoding := true)
  }

  predicate AtStage(s: State, k: nat, stage: Stage) {
    k < |s.encoders| && s.encoders[k].stage == stage
  }

  ghost predicate Step(s: State, e: Event, s': State)
    requires Wellformed(s)
  {
    if IsSessionEvent(e) then
      var id := e.id;
      && id < |s.heap| && SessionEnabled(e, s.heap[id], id in s.registered)
      && s' == s.(heap := s.heap[id := SessionNext(e, s.heap[id], FlagSet(s, id), s.now)])
    else
      match e
      case Tick(elapsed) => s' == s.(now := s.now + elapsed)
      case RegisterFlag(key, seqNo) => s' == Register(s, key, seqNo)
      case Orphan(f) => MayOrphan(s, f) && s' == s.(flags := s.flags[f := s.flags[f].(owned := false)])
      case PrunePreempt => s' == s.(preempt := LiveEntries(s.preempt, s.flags))
      case Prune => PruneStep(s, s')
      case MakeRoom(chosen) => MakeRoomStep(s, s', chosen)
      // The single stores and erasures that a scan which reads the sessions one by one makes.
      case AskToStop(id) => id in s.registered && s' == s.(flags := CancelFlag(s.flags, s.heap[id].flag))
      case EraseUnneeded(id) => (Expired(s, id) || Disposable(s, id)) && s' == EraseOne(s, id)
      case Trim(bytes) => TrimStep(s, s', bytes)
      case AdmitSession(flag, r) => MayAdmit(s, flag, r) && s' == Admit(s, flag, r)
      case EraseFailed(id) => id < |s.heap| && s.heap[id].worker == NoThread && s' == EraseOne(s, id)
      case Pin(id) =>
        MayPin(s, id) && s' == s.(heap := s.heap[id := s.heap[id].(readers := s.heap[id].readers + 1)],
                                  encoders := s.encoders + [Encoder(id, Pinned)])
      case EnterGate(k) => AtStage(s, k, Pinned) && s' == Gate(s, k)
      case FinishEncode(k) => AtStage(s, k, Encoding) && s' == Unpin(s, k, Leaving)
      case LeaveGate(k) => AtStage(s, k, Leaving) && s' == SetStage(s, k, Gone).(encoding := false)
      case _ => false
  }

  ghost predicate IsPath(states: seq<State>, events: seq<Event>) {
    && |states| == |events| + 1
    && forall i :: 0 <= i < |events| ==> Wellformed(states[i]) && Step(states[i], events[i], states[i + 1])
  }

  /** The registry at process start; the clock never reads zero. */
  const Init: State := State(1, [], {}, map[], [], map[], [], false)
}
