/**
 Run creation on a compute node: handlers serialize on a mutex per idempotency key
 that the lock table only remembers weakly, look the key up in the response cache,
 and otherwise create a run and record its response. Handlers interleave freely,
 may fail at the lookup, before or after creating the run, and the whole process may
 crash.
 */
module IdempotentNode {

  /** A run response names its run; conflicts and failures name none. */
  datatype Reply = Accepted(run: nat) | Conflict | Failed

  datatype Stage =
    | Arrived                 // before the lock table
    | Waiting                 // holds a reference to the mutex
    | Locked                  // owns the mutex
    | Missed                  // found no cached response
    | Created(run: nat)       // a run exists that no response records yet
    | Answered(reply: Reply)  // about to unlock
    | Unlocked(reply: Reply)  // still holds its reference
    | Replied(reply: Reply)
    | Lost                    // the process died

  datatype Handler = Handler(key: string, hash: string, mutex: nat, stage: Stage)

  datatype Cached = Cached(hash: string, run: nat)

  /** `created[n]` is the key run `n` was created for; `orphans` are runs whose response was never recorded. */
  datatype State = State(
    mutexes: nat, table: map<string, nat>, handlers: seq<Handler>,
    cache: map<string, Cached>, created: seq<string>, orphans: set<nat>)

  /** The handler keeps its mutex alive. */
  predicate Refers(h: Handler) {
    !h.stage.Arrived? && !h.stage.Replied? && !h.stage.Lost?
  }

  /** The handler is inside the critical section. */
  predicate Inside(h: Handler) {
    h.stage.Locked? || h.stage.Missed? || h.stage.Created? || h.stage.Answered?
  }

  /** A weak table entry can be upgraded exactly while some handler refers to its mutex. */
  predicate Upgradable(s: State, key: string) {
    key in s.table && exists i :: 0 <= i < |s.handlers| && Refers(s.handlers[i]) && s.handlers[i].mutex == s.table[key]
  }

  predicate Free(s: State, mutex: nat) {
    forall i :: 0 <= i < |s.handlers| && Inside(s.handlers[i]) ==> s.handlers[i].mutex != mutex
  }

  function Put(s: State, i: nat, stage: Stage): State
    requires i < |s.handlers|
  {
    s.(handlers := s.handlers[i := s.handlers[i].(stage := stage)])
  }

  /** Taking the mutex of a key from the table, or a new one when the old is gone. */
  function TakeMutex(s: State, i: nat): State
    requires i < |s.handlers|
  {
    var h := s.handlers[i];
    if Upgradable(s, h.key) then
      s.(handlers := s.handlers[i := h.(mutex := s.table[h.key], stage := Waiting)])
    else
      s.(mutexes := s.mutexes + 1, table := s.table[h.key := s.mutexes],
         handlers := s.handlers[i := h.(mutex := s.mutexes, stage := Waiting)])
  }

  /** A cached response answers the same request, and any request when it was stored without a hash. */
  function LookUp(s: State, i: nat): State
    requires i < |s.handlers|
  {
    var h := s.handlers[i];
    if h.key !in s.cache then Put(s, i, Missed)
    else if s.cache[h.key].hash != "" && s.cache[h.key].hash != h.hash then Put(s, i, Answered(Conflict))
    else Put(s, i, Answered(Accepted(s.cache[h.key].run)))
  }

  datatype Event =
    | Arrive(key: string, hash: string)
    | Acquire(i: nat)
    | Lock(i: nat)
    | Find(i: nat)
    | FindFails(i: nat)
    | Create(i: nat)
    | CreateFails(i: nat)
    | Record(i: nat)
    | RecordFails(i: nat)
    | Unlock(i: nat)
    | Drop(i: nat)
    | Crash

  function CrashedHandlers(handlers: seq<Handler>): (r: seq<Handler>)
    ensures |r| == |handlers|
  {
    seq(|handlers|, i requires 0 <= i < |handlers| =>
      if handlers[i].stage.Replied? then handlers[i] else handlers[i].(stage := Lost))
  }

  ghost function InFlight(s: State): set<nat> {
    set i | 0 <= i < |s.handlers| && s.handlers[i].stage.Created? :: s.handlers[i].stage.run
  }

  ghost predicate Step(s: State, e: Event, s': State) {
    match e
    case Arrive(key, hash) => s' == s.(handlers := s.handlers + [Handler(key, hash, 0, Arrived)])
    case Acquire(i) => i < |s.handlers| && s.handlers[i].stage.Arrived? && s' == TakeMutex(s, i)
    case Lock(i) =>
      i < |s.handlers| && s.handlers[i].stage.Waiting? && Free(s, s.handlers[i].mutex) && s' == Put(s, i, Locked)
    case Find(i) => i < |s.handlers| && s.handlers[i].stage.Locked? && s' == LookUp(s, i)
    case FindFails(i) => i < |s.handlers| && s.handlers[i].stage.Locked? && s' == Put(s, i, Answered(Failed))
    case Create(i) =>
      i < |s.handlers| && s.handlers[i].stage.Missed? &&
      s' == Put(s, i, Created(|s.created|)).(created := s.created + [s.handlers[i].key])
    case CreateFails(i) => i < |s.handlers| && s.handlers[i].stage.Missed? && s' == Put(s, i, Answered(Failed))
    case Record(i) =>
      i < |s.handlers| && s.handlers[i].stage.Created? &&
      var h := s.handlers[i];
      s' == Put(s, i, Answered(Accepted(h.stage.run))).(cache := s.cache[h.key := Cached(h.hash, h.stage.run)])
    case RecordFails(i) =>
      i < |s.handlers| && s.handlers[i].stage.Created? &&
      s' == Put(s, i, Answered(Failed)).(orphans := s.orphans + {s.handlers[i].stage.run})
    case Unlock(i) =>
      i < |s.handlers| && s.handlers[i].stage.Answered? && s' == Put(s, i, Unlocked(s.handlers[i].stage.reply))
    case Drop(i) =>
      i < |s.handlers| && s.handlers[i].stage.Unlocked? && s' == Put(s, i, Replied(s.handlers[i].stage.reply))
    case Crash =>
      s' == s.(table := map[], handlers := CrashedHandlers(s.handlers), orphans := s.orphans + InFlight(s))
  }

  const Init: State := State(0, map[], [], map[], [], {})

  // ---- Invariant ---------------------------------------------------------------------

  /** Whoever refers to a mutex of a key refers to the one the table names, and keys do not share. */
  ghost predicate TableOk(s: State) {
    && (forall k :: k in s.table ==> s.table[k] < s.mutexes)
    && (forall k, l :: k in s.table && l in s.table && k != l ==> s.table[k] != s.table[l])
    && (forall i :: 0 <= i < |s.handlers| && Refers(s.handlers[i]) ==>
          s.handlers[i].key in s.table && s.handlers[i].mutex == s.table[s.handlers[i].key])
  }

  /** At most one handler is inside per mutex. */
  ghost predicate Exclusive(s: State) {
    forall i, j :: 0 <= i < j < |s.handlers| && Inside(s.handlers[i]) && Inside(s.handlers[j]) ==>
      s.handlers[i].mutex != s.handlers[j].mutex
  }

  /** What a reply says about the cache. */
  predicate ReplyOk(cache: map<string, Cached>, h: Handler, r: Reply) {
    match r
    case Accepted(run) => h.key in cache && cache[h.key].run == run && (cache[h.key].hash == "" || cache[h.key].hash == h.hash)
    case Conflict => h.key in cache && cache[h.key].hash != "" && cache[h.key].hash != h.hash
    case Failed => true
  }

  predicate HandlerOk(s: State, h: Handler) {
    match h.stage
    case Missed => h.key !in s.cache
    case Created(run) =>
      h.key !in s.cache && run < |s.created| && s.created[run] == h.key && run !in s.orphans
    case Answered(r) => ReplyOk(s.cache, h, r)
    case Unlocked(r) => ReplyOk(s.cache, h, r)
    case Replied(r) => ReplyOk(s.cache, h, r)
    case _ => true
  }

  predicate HasRun(s: State, i: nat, n: nat) {
    i < |s.handlers| && s.handlers[i].stage == Created(n)
  }

  /** Run `n` is recorded, given up, or in the hands of the handler that created it. */
  ghost predicate Accounted(s: State, n: nat)
    requires n < |s.created|
  {
    || n in s.orphans
    || (s.created[n] in s.cache && s.cache[s.created[n]].run == n)
    || exists i: nat :: HasRun(s, i, n)
  }

  ghost predicate RunsOk(s: State) {
    && (forall k :: k in s.cache ==>
          s.cache[k].run < |s.created| && s.created[s.cache[k].run] == k && s.cache[k].run !in s.orphans)
    && (forall n: nat :: n < |s.created| ==> Accounted(s, n))
    && (forall n :: n in s.orphans ==> n < |s.created|)
  }

  ghost predicate Inv(s: State) {
    && TableOk(s) && Exclusive(s) && RunsOk(s)
    && forall i :: 0 <= i < |s.handlers| ==> HandlerOk(s, s.handlers[i])
  }

  lemma RunsKept(s: State, e: Event, s': State)
    requires Inv(s) && Step(s, e, s')
    ensures forall n: nat :: n < |s'.created| ==> Accounted(s', n)
  {
    forall n: nat | n < |s'.created|
      ensures Accounted(s', n)
    {
      if n < |s.created| {
        assert Accounted(s, n);
        if i: nat :| HasRun(s, i, n) {
          if e.Crash? {
            assert n in InFlight(s);
          } else if !(e.Record? && e.i == i) && !(e.RecordFails? && e.i == i) {
            assert HasRun(s', i, n);
          }
        }
      } else {
        assert HasRun(s', e.i, n);
      }
    }
  }

  /** A mutex taken from the table is the one everybody of that key refers to; a new one is unknown to everybody. */
  lemma TakeKeepsLocks(s: State, i: nat)
    requires TableOk(s) && Exclusive(s) && i < |s.handlers| && s.handlers[i].stage.Arrived?
    ensures TableOk(TakeMutex(s, i)) && Exclusive(TakeMutex(s, i))
  {
  }

  /** A handler that keeps its mutex moves on; it may go inside only when nobody else is. */
  lemma StageKeepsLocks(s: State, s': State, i: nat, stage: Stage)
    requires TableOk(s) && Exclusive(s) && i < |s.handlers|
    requires s'.handlers == s.handlers[i := s.handlers[i].(stage := stage)]
    requires s'.table == s.table && s'.mutexes == s.mutexes
    requires Refers(s'.handlers[i]) ==> Refers(s.handlers[i])
    requires Inside(s'.handlers[i]) ==> Inside(s.handlers[i]) || Free(s, s.handlers[i].mutex)
    ensures TableOk(s') && Exclusive(s')
  {
  }

  lemma LocksKept(s: State, e: Event, s': State)
    requires TableOk(s) && Exclusive(s) && Step(s, e, s')
    ensures TableOk(s') && Exclusive(s')
  {
    hide InFlight, TakeMutex;
    match e {
      case Arrive(key, hash) =>
      case Crash =>
      case Acquire(i) => hide TableOk, Exclusive; TakeKeepsLocks(s, i);
      case Lock(i) => hide TableOk, Exclusive; StageKeepsLocks(s, s', i, s'.handlers[i].stage);
      case Find(i) => hide TableOk, Exclusive; StageKeepsLocks(s, s', i, s'.handlers[i].stage);
      case FindFails(i) => hide TableOk, Exclusive; StageKeepsLocks(s, s', i, s'.handlers[i].stage);
      case Create(i) => hide TableOk, Exclusive; StageKeepsLocks(s, s', i, s'.handlers[i].stage);
      case CreateFails(i) => hide TableOk, Exclusive; StageKeepsLocks(s, s', i, s'.handlers[i].stage);
      case Record(i) => hide TableOk, Exclusive; StageKeepsLocks(s, s', i, s'.handlers[i].stage);
      case RecordFails(i) => hide TableOk, Exclusive; StageKeepsLocks(s, s', i, s'.handlers[i].stage);
      case Unlock(i) => hide TableOk, Exclusive; StageKeepsLocks(s, s', i, s'.handlers[i].stage);
      case Drop(i) => hide TableOk, Exclusive; StageKeepsLocks(s, s', i, s'.handlers[i].stage);
    }
  }

  lemma RecordKeepsHandlers(s: State, i: nat, s': State)
    requires Inv(s) && Step(s, Record(i), s')
    ensures forall j :: 0 <= j < |s'.handlers| ==> HandlerOk(s', s'.handlers[j])
  {
    hide Accounted, RunsOk;
  }

  /** Steps that record nothing leave what every other handler knows. */
  lemma UnrecordedKeepHandlers(s: State, e: Event, s': State)
    requires Inv(s) && Step(s, e, s') && (e.Arrive? || e.Acquire? || e.Lock? || e.Unlock? || e.Drop? || e.Crash?)
    ensures forall i :: 0 <= i < |s'.handlers| ==> HandlerOk(s', s'.handlers[i])
  {
    RunsInRange(s);
    hide Accounted, Upgradable, Free, RunsOk, TableOk, Exclusive, InFlight;
  }

  lemma ServingKeepsHandlers(s: State, e: Event, s': State)
    requires Inv(s) && Step(s, e, s') && (e.Find? || e.FindFails? || e.Create? || e.CreateFails?)
    ensures forall i :: 0 <= i < |s'.handlers| ==> HandlerOk(s', s'.handlers[i])
  {
    RunsInRange(s);
    hide Accounted, Upgradable, Free, RunsOk, TableOk, Exclusive, InFlight, TakeMutex, CrashedHandlers;
  }

  /** A run in the making belongs to one handler. */
  lemma MakerUnique(s: State, i: nat, j: nat)
    requires Inv(s) && i < |s.handlers| && j < |s.handlers|
    requires s.handlers[i].stage.Created? && s.handlers[j].stage == s.handlers[i].stage
    ensures i == j
  {
    assert HandlerOk(s, s.handlers[i]) && HandlerOk(s, s.handlers[j]);
    assert s.handlers[i].key == s.handlers[j].key;
    hide HandlerOk, RunsOk, Accounted;
    assert Refers(s.handlers[i]) && Refers(s.handlers[j]);
  }

  /** Giving up a run is no news to the handlers that made other runs. */
  lemma GivingUpKeepsHandlers(s: State, i: nat, s': State)
    requires Inv(s) && Step(s, RecordFails(i), s')
    ensures forall j :: 0 <= j < |s'.handlers| ==> HandlerOk(s', s'.handlers[j])
  {
    forall j: nat | j < |s.handlers| && j != i && s.handlers[j].stage.Created?
      ensures s.handlers[j].stage != s.handlers[i].stage
    {
      if s.handlers[j].stage == s.handlers[i].stage {
        MakerUnique(s, i, j);
      }
    }
    hide Accounted, Upgradable, Free, RunsOk, TableOk, Exclusive, InFlight, TakeMutex, CrashedHandlers;
    forall j: nat | j < |s'.handlers|
      ensures HandlerOk(s', s'.handlers[j])
    {
      assert HandlerOk(s, s.handlers[j]);
    }
  }

  /** Only the handler inside can change the cache entry of its key. */
  lemma HandlersKept(s: State, e: Event, s': State)
    requires Inv(s) && Step(s, e, s')
    ensures forall i :: 0 <= i < |s'.handlers| ==> HandlerOk(s', s'.handlers[i])
  {
    hide Inv, Step, HandlerOk;
    match e {
      case Record(i) => RecordKeepsHandlers(s, i, s');
      case RecordFails(i) => GivingUpKeepsHandlers(s, i, s');
      case Arrive(_, _) => UnrecordedKeepHandlers(s, e, s');
      case Acquire(_) => UnrecordedKeepHandlers(s, e, s');
      case Lock(_) => UnrecordedKeepHandlers(s, e, s');
      case Unlock(_) => UnrecordedKeepHandlers(s, e, s');
      case Drop(_) => UnrecordedKeepHandlers(s, e, s');
      case Crash => UnrecordedKeepHandlers(s, e, s');
      case _ => ServingKeepsHandlers(s, e, s');
    }
  }

  lemma RunsInRange(s: State)
    requires RunsOk(s)
    ensures forall n :: n in s.orphans ==> n < |s.created|
  {
  }

  lemma CacheKept(s: State, e: Event, s': State)
    requires Inv(s) && Step(s, e, s')
    ensures forall k :: k in s'.cache ==>
              s'.cache[k].run < |s'.created| && s'.created[s'.cache[k].run] == k && s'.cache[k].run !in s'.orphans
    ensures forall n :: n in s'.orphans ==> n < |s'.created|
  {
    hide Accounted, Upgradable, Free, TableOk, Exclusive;
  }

  lemma StepKeeps(s: State, e: Event, s': State)
    requires Inv(s) && Step(s, e, s')
    ensures Inv(s')
  {
    hide Step, HandlerOk, Accounted, TableOk, Exclusive;
    LocksKept(s, e, s');
    HandlersKept(s, e, s');
    CacheKept(s, e, s');
    RunsKept(s, e, s');
  }

  ghost predicate IsRun(states: seq<State>, events: seq<Event>) {
    && |states| == |events| + 1 && states[0] == Init
    && forall i :: 0 <= i < |events| ==> Step(states[i], events[i], states[i + 1])
  }

  lemma {:induction false} RunInv(states: seq<State>, events: seq<Event>, i: nat)
    requires IsRun(states, events) && i < |states|
    ensures Inv(states[i])
  {
    hide Inv, Step;
    if i == 0 {
      InitInv();
    } else {
      RunInv(states, events, i - 1);
      assert Step(states[i - 1], events[i - 1], states[i]);
      StepKeeps(states[i - 1], events[i - 1], states[i]);
    }
  }

  lemma InitInv()
    ensures Inv(Init)
  {
  }

  /** Although mutexes are dropped and recreated, two handlers of one key are never inside together. */
  lemma MutualExclusion(states: seq<State>, events: seq<Event>, t: nat, i: nat, j: nat)
    requires IsRun(states, events) && t < |states| && i < |states[t].handlers| && j < |states[t].handlers|
    requires Inside(states[t].handlers[i]) && Inside(states[t].handlers[j])
    requires states[t].handlers[i].key == states[t].handlers[j].key
    ensures i == j
  {
    RunInv(states, events, t);
    var s := states[t];
    assert Refers(s.handlers[i]) && Refers(s.handlers[j]);
  }

  /** Requests of different keys never wait for each other's mutex. */
  lemma KeysDoNotShare(states: seq<State>, events: seq<Event>, t: nat, i: nat, j: nat)
    requires IsRun(states, events) && t < |states| && i < |states[t].handlers| && j < |states[t].handlers|
    requires Refers(states[t].handlers[i]) && Refers(states[t].handlers[j])
    requires states[t].handlers[i].key != states[t].handlers[j].key
    ensures states[t].handlers[i].mutex != states[t].handlers[j].mutex
  {
    RunInv(states, events, t);
  }

  // ---- The cache over a run ------------------------------------------------------------

  lemma StepCacheGrows(s: State, e: Event, s': State, key: string)
    requires Inv(s) && Step(s, e, s') && key in s.cache
    ensures key in s'.cache && s'.cache[key] == s.cache[key]
  {
  }

  /** A recorded response is never replaced. */
  lemma {:induction false} CacheStable(states: seq<State>, events: seq<Event>, t: nat, u: nat, key: string)
    requires IsRun(states, events) && t <= u < |states| && key in states[t].cache
    ensures key in states[u].cache && states[u].cache[key] == states[t].cache[key]
    decreases u
  {
    hide Inv, Step;
    if t < u {
      CacheStable(states, events, t, u - 1, key);
      RunInv(states, events, u - 1);
      assert Step(states[u - 1], events[u - 1], states[u]);
      StepCacheGrows(states[u - 1], events[u - 1], states[u], key);
    }
  }

  /** Every accepted request of a key, at any time and across crashes, is told the same run. */
  lemma AcceptedRepliesAgree(states: seq<State>, events: seq<Event>, t: nat, u: nat, i: nat, j: nat, m: nat, n: nat)
    requires IsRun(states, events) && t < |states| && u < |states|
    requires i < |states[t].handlers| && states[t].handlers[i].stage == Replied(Accepted(m))
    requires j < |states[u].handlers| && states[u].handlers[j].stage == Replied(Accepted(n))
    requires states[t].handlers[i].key == states[u].handlers[j].key
    ensures m == n
  {
    RunInv(states, events, t);
    RunInv(states, events, u);
    var key := states[t].handlers[i].key;
    assert HandlerOk(states[t], states[t].handlers[i]) && HandlerOk(states[u], states[u].handlers[j]);
    if t <= u {
      CacheStable(states, events, t, u, key);
    } else {
      CacheStable(states, events, u, t, key);
    }
  }

  /** With the response recorded, the reply to a request is decided by its hash alone. */
  lemma ReplyDecided(states: seq<State>, events: seq<Event>, t: nat, i: nat, r: Reply)
    requires IsRun(states, events) && t < |states| && i < |states[t].handlers|
    requires states[t].handlers[i].stage == Replied(r) && r != Failed
    ensures var s, h := states[t], states[t].handlers[i];
            h.key in s.cache &&
            r == (if s.cache[h.key].hash == "" || s.cache[h.key].hash == h.hash then Accepted(s.cache[h.key].run) else Conflict)
  {
    RunInv(states, events, t);
    assert HandlerOk(states[t], states[t].handlers[i]);
  }

  /** A recorded response keeps the hash of the request it answers and the run made for it. */
  lemma RecordEffect(s: State, i: nat, s': State)
    requires Step(s, Record(i), s')
    ensures i < |s.handlers| && s.handlers[i].stage.Created?
    ensures s'.cache == s.cache[s.handlers[i].key := Cached(s.handlers[i].hash, s.handlers[i].stage.run)]
    ensures s'.handlers == s.handlers[i := s.handlers[i].(stage := Answered(Accepted(s.handlers[i].stage.run)))]
  {
  }

  /** A new run gets the next number and belongs to the key of its handler. */
  lemma CreationEffect(s: State, i: nat, s': State)
    requires Step(s, Create(i), s')
    ensures i < |s.handlers| && s'.created == s.created + [s.handlers[i].key]
    ensures s'.handlers == s.handlers[i := s.handlers[i].(stage := Created(|s.created|))] && s'.cache == s.cache
  {
  }

  /**
   Once a request was recorded, every later look-up of its key is decided by comparing
   hashes with that request: the same hash gets its run, another one a conflict, and a
   request recorded without a hash answers them all.
   */
  lemma RecordedAnswers(states: seq<State>, events: seq<Event>, t: nat, u: nat, i: nat, j: nat)
    requires IsRun(states, events) && t < u < |events| && events[t] == Record(i) && events[u] == Find(j)
    requires i < |states[t].handlers| && j < |states[u].handlers|
    requires states[t].handlers[i].key == states[u].handlers[j].key && states[t].handlers[i].stage.Created?
    ensures j < |states[u + 1].handlers|
    ensures var first, again := states[t].handlers[i], states[u].handlers[j];
            states[u + 1].handlers[j].stage ==
            Answered(if first.hash == "" || first.hash == again.hash then Accepted(first.stage.run) else Conflict)
  {
    assert Step(states[t], events[t], states[t + 1]) && Step(states[u], events[u], states[u + 1]);
    RecordEffect(states[t], i, states[t + 1]);
    CacheStable(states, events, t + 1, u, states[t].handlers[i].key);
  }

  /** A look-up of a key that was never recorded finds nothing. */
  lemma UnrecordedMisses(s: State, j: nat, s': State)
    requires Step(s, Find(j), s')
    ensures j < |s.handlers| && j < |s'.handlers| && s'.cache == s.cache
    ensures s'.handlers[j].stage == Missed <==> s.handlers[j].key !in s.cache
  {
  }

  /** A key owns at most one run that was not given up by a failed recording or a crash. */
  lemma OneRunPerKey(states: seq<State>, events: seq<Event>, t: nat, m: nat, n: nat)
    requires IsRun(states, events) && t < |states| && m < |states[t].created| && n < |states[t].created|
    requires states[t].created[m] == states[t].created[n]
    requires m !in states[t].orphans && n !in states[t].orphans
    ensures m == n
  {
    hide Inv;
    RunInv(states, events, t);
    var s := states[t];
    RunAccounted(s, m);
    RunAccounted(s, n);
    if i: nat :| HasRun(s, i, m) {
      InFlightRun(s, i, m);
      if j: nat :| HasRun(s, j, n) {
        InFlightRun(s, j, n);
        MutualExclusion(states, events, t, i, j);
      }
    } else if j: nat :| HasRun(s, j, n) {
      InFlightRun(s, j, n);
    }
  }

  lemma RunAccounted(s: State, n: nat)
    requires Inv(s) && n < |s.created|
    ensures Accounted(s, n)
  {
  }

  lemma InFlightRun(s: State, i: nat, n: nat)
    requires Inv(s) && HasRun(s, i, n)
    ensures n < |s.created| && s.handlers[i].key == s.created[n] && s.created[n] !in s.cache && Inside(s.handlers[i])
  {
    assert HandlerOk(s, s.handlers[i]);
  }
}
