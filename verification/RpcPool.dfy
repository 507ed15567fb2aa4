/** The worker pool that serves the requests of several connections, with connections that start, disconnect and
    stop while the workers run. Every access to a lock, a flag, a queue or an owner pointer is one step; the steps of
    workers, of any number of threads that stop or disconnect the same connection, of the receive path and of the
    pool interleave freely. */
module RpcPool {
  import opened Text

  /** Who holds the lock of a message owner. */
  datatype Lock = Free | ByWorker(w: nat) | ByCloser(k: nat)

  /** A message owner; one is made for each start of a connection. */
  datatype Owner = Owner(connection: nat, lock: Lock, operational: bool)

  /** How far a thread has come in `stop` or `processDisconnected`. The three uses of `m_rpc_owner` read the pointer
      anew: to lock, to clear the flag and to unlock; `stop` then resets it. */
  datatype Place = Asking | Blocked(t: nat) | Held(t: nat) | Flagged(t: nat) | Resetting(t: nat) | Done
  datatype Closer = Closer(c: nat, stopping: bool, place: Place)

  /** A pool thread: what it holds of a request `m` and of its owner `t`. */
  datatype Worker =
    | Idle
    | Popped(m: nat)
    | HasOwner(m: nat, t: nat)
    | Locked(m: nat, t: nat)
    | Processing(m: nat, t: nat)
    | Releasing(t: nat)
    | Exited

  datatype PoolPhase = Off | On | Draining

  /** `connections[c]` is the pointer `m_rpc_owner` of a connection and `pushed[m]` the owner that request `m` was
      given. `broken` tells that a thread has used an owner pointer that was null or no longer the one it had locked;
      nothing is claimed of what follows. `strays` holds the owners that a reset took away while they were still
      operational; `handled`, `dropped` and `flushed` are histories. */
  datatype State = State(
    pool: PoolPhase, workers: seq<Worker>, queue: seq<nat>,
    connections: seq<Option<nat>>, owners: seq<Owner>, closers: seq<Closer>, broken: bool, strays: set<nat>,
    pushed: seq<Option<nat>>, handled: seq<nat>, dropped: seq<nat>, flushed: seq<nat>)

  datatype Step =
    | PoolStart(threads: nat)              // RpcPool::start
    | PoolDisable                          // RpcPool::stop disables the queue
    | PoolStopEnds                         // every thread has ended; flush the queue
    | Pop(w: nat)                          // m_requests_queue.pop
    | Exit(w: nat)                         // pop fails: queue disabled, or nothing came in time
    | GetOwner(w: nat)                     // rpc_message->owner.lock()
    | LockOwner(w: nat)                    // lock(owner->lock)
    | Check(w: nat)                        // test is_operational; true leads into processIncomingRequest
    | Handled(w: nat)                      // processIncomingRequest returns
    | Release(w: nat)                      // unlock and forget the owner
    | Start(c: nat)                        // RpcBase::start
    | Close(c: nat, stopping: bool)        // a thread enters stop and passes its test, or enters processDisconnected
    | CloseAsk(k: nat)                     // m_rpc_owner->lock: read the pointer and ask for the lock
    | CloseLock(k: nat)                    // the lock is granted
    | CloseFlag(k: nat)                    // m_rpc_owner->is_operational = false
    | CloseUnlock(k: nat)                  // m_rpc_owner->lock.unlock()
    | CloseReset(k: nat)                   // m_rpc_owner.reset()
    | Push(c: nat)                         // decodeCall queues a request

  /** The owner that a thread refers to strongly. */
  function Refers(w: Worker): Option<nat> {
    match w
    case HasOwner(_, t) => Some(t)
    case Locked(_, t) => Some(t)
    case Processing(_, t) => Some(t)
    case Releasing(t) => Some(t)
    case _ => None
  }

  /** Some strong reference to the owner is left: it exists, and a weak reference can be turned into a strong one. */
  predicate Referenced(s: State, t: nat) {
    || (exists c | 0 <= c < |s.connections| :: s.connections[c] == Some(t))
    || (exists w | 0 <= w < |s.workers| :: Refers(s.workers[w]) == Some(t))
  }

  function Init(connections: nat): State {
    State(Off, [], [], seq(connections, _ => None), [], [], false, {}, [], [], [], [])
  }

  /** Closer `k` is at one of the places that concern an owner which has been made. */
  predicate CloserIs(s: State, k: nat) {
    k < |s.closers| && s.closers[k].c < |s.connections|
    && (s.closers[k].place.Asking? || s.closers[k].place.Done? || s.closers[k].place.t < |s.owners|)
  }

  predicate Enabled(s: State, e: Step) {
    !s.broken &&
    match e
    case PoolStart(n) => s.pool == Off && n > 0
    case PoolDisable => s.pool == On
    case PoolStopEnds => s.pool == Draining && forall w | 0 <= w < |s.workers| :: s.workers[w].Exited?
    case Pop(w) => w < |s.workers| && s.workers[w].Idle? && s.pool == On && s.queue != []
    case Exit(w) => w < |s.workers| && s.workers[w].Idle? && (s.pool == Draining || s.queue == [])
    case GetOwner(w) => w < |s.workers| && s.workers[w].Popped? && s.workers[w].m < |s.pushed|
    case LockOwner(w) =>
      w < |s.workers| && s.workers[w].HasOwner? && s.workers[w].t < |s.owners| && s.owners[s.workers[w].t].lock == Free
    case Check(w) => w < |s.workers| && s.workers[w].Locked? && s.workers[w].t < |s.owners|
    case Handled(w) => w < |s.workers| && s.workers[w].Processing?
    case Release(w) => w < |s.workers| && s.workers[w].Releasing? && s.workers[w].t < |s.owners|
    case Start(c) => c < |s.connections| && s.connections[c].None?
    case Close(c, stopping) => c < |s.connections| && (stopping ==> s.connections[c].Some?)
    case CloseAsk(k) => CloserIs(s, k) && s.closers[k].place.Asking?
    case CloseLock(k) => CloserIs(s, k) && s.closers[k].place.Blocked? && s.owners[s.closers[k].place.t].lock == Free
    case CloseFlag(k) => CloserIs(s, k) && s.closers[k].place.Held?
    case CloseUnlock(k) => CloserIs(s, k) && s.closers[k].place.Flagged?
    case CloseReset(k) => CloserIs(s, k) && s.closers[k].place.Resetting?
    case Push(c) => c < |s.connections|
  }

  function Set(s: State, w: nat, worker: Worker): State
    requires w < |s.workers|
  {
    s.(workers := s.workers[w := worker])
  }

  function SetLock(s: State, t: nat, lock: Lock): State
    requires t < |s.owners|
  {
    s.(owners := s.owners[t := s.owners[t].(lock := lock)])
  }

  function Move(s: State, k: nat, place: Place): State
    requires k < |s.closers|
  {
    s.(closers := s.closers[k := s.closers[k].(place := place)])
  }

  /** A step of a thread inside `stop` or `processDisconnected`. */
  function CloserNext(s: State, e: Step): State
    requires Enabled(s, e) && (e.CloseAsk? || e.CloseLock? || e.CloseFlag? || e.CloseUnlock? || e.CloseReset?)
  {
    var k := e.k;
    var x := s.closers[k];
    var now := s.connections[x.c];
    match e
    case CloseAsk(_) => if now.None? then s.(broken := true) else Move(s, k, Blocked(now.value))
    case CloseLock(_) =>
      if Referenced(s, x.place.t) then SetLock(Move(s, k, Held(x.place.t)), x.place.t, ByCloser(k))
      else s.(broken := true)
    case CloseFlag(_) =>
      var t := x.place.t;
      if now == Some(t) then Move(s, k, Flagged(t)).(owners := s.owners[t := s.owners[t].(operational := false)])
      else s.(broken := true)
    case CloseUnlock(_) =>
      var t := x.place.t;
      if now == Some(t) then SetLock(Move(s, k, if x.stopping then Resetting(t) else Done), t, Free)
      else s.(broken := true)
    case CloseReset(_) =>
      var lost := if now.Some? && now.value < |s.owners| && s.owners[now.value].operational then {now.value} else {};
      Move(s, k, Done).(connections := s.connections[x.c := None], strays := s.strays + lost)
  }

  function Next(s: State, e: Step): State
    requires Enabled(s, e)
  {
    match e
    case PoolStart(n) => s.(pool := On, workers := seq(n, _ => Idle))
    case PoolDisable => s.(pool := Draining)
    case PoolStopEnds => s.(pool := Off, workers := [], flushed := s.flushed + s.queue, queue := [])
    case Pop(w) => Set(s, w, Popped(s.queue[0])).(queue := s.queue[1..])
    case Exit(w) => Set(s, w, Exited)
    case GetOwner(w) =>
      var m := s.workers[w].m;
      var o := s.pushed[m];
      if o.Some? && Referenced(s, o.value) then Set(s, w, HasOwner(m, o.value))
      else Set(s, w, Idle).(dropped := s.dropped + [m])
    case LockOwner(w) =>
      SetLock(Set(s, w, Locked(s.workers[w].m, s.workers[w].t)), s.workers[w].t, ByWorker(w))
    case Check(w) =>
      var m, t := s.workers[w].m, s.workers[w].t;
      if s.owners[t].operational then Set(s, w, Processing(m, t)).(handled := s.handled + [m])
      else Set(s, w, Releasing(t)).(dropped := s.dropped + [m])
    case Handled(w) => Set(s, w, Releasing(s.workers[w].t))
    case Release(w) => SetLock(Set(s, w, Idle), s.workers[w].t, Free)
    case Start(c) =>
      s.(connections := s.connections[c := Some(|s.owners|)], owners := s.owners + [Owner(c, Free, true)])
    case Close(c, stopping) => s.(closers := s.closers + [Closer(c, stopping, Asking)])
    case Push(c) =>
      s.(queue := s.queue + [|s.pushed|], pushed := s.pushed + [s.connections[c]])
    case _ => CloserNext(s, e)
  }

  ghost predicate Runs(s: State, steps: seq<Step>)
    decreases |steps|
  {
    steps == [] || (Enabled(s, steps[0]) && Runs(Next(s, steps[0]), steps[1..]))
  }

  ghost function After(s: State, steps: seq<Step>): State
    requires Runs(s, steps)
    decreases |steps|
  {
    if steps == [] then s else After(Next(s, steps[0]), steps[1..])
  }

  // ---------------------------------------------------------------- the invariant

  ghost predicate HoldsLock(w: Worker) { w.Locked? || w.Processing? || w.Releasing? }

  ghost predicate WorkerOk(s: State, w: nat) {
    && w < |s.workers|
    && var x := s.workers[w];
       && (Refers(x).Some? ==> Refers(x).value < |s.owners|)
       && (HoldsLock(x) ==> s.owners[x.t].lock == ByWorker(w))
       && (x.HasOwner? || x.Locked? || x.Processing? ==> x.m < |s.pushed| && s.pushed[x.m] == Some(x.t))
       && (x.Popped? ==> x.m < |s.pushed|)
       && (x.Processing? ==> s.owners[x.t].operational)
  }

  /** A closer works on an owner of its own connection; it holds that owner's lock from being granted it to giving it
      back, and the owner is out of operation from the flag on. */
  ghost predicate CloserOk(s: State, k: nat) {
    && k < |s.closers|
    && var x := s.closers[k];
       && x.c < |s.connections|
       && (!x.place.Asking? && !x.place.Done? ==> x.place.t < |s.owners| && s.owners[x.place.t].connection == x.c)
       && (HoldsOwner(x.place) ==> s.owners[x.place.t].lock == ByCloser(k))
       && (x.place.Flagged? || x.place.Resetting? ==> !s.owners[x.place.t].operational)
       && (x.place.Resetting? ==> x.stopping)
  }

  ghost predicate HoldsOwner(p: Place) { p.Held? || p.Flagged? }

  ghost predicate ConnectionOk(s: State, c: nat) {
    && c < |s.connections|
    && (s.connections[c].Some? ==> s.connections[c].value < |s.owners| && s.owners[s.connections[c].value].connection == c)
  }

  /** An owner is operational only while it is the current one of its connection, unless a reset has taken it away. */
  ghost predicate FlagOk(s: State, t: nat) {
    && t < |s.owners|
    && var o := s.owners[t];
       && o.connection < |s.connections|
       && (o.operational ==> s.connections[o.connection] == Some(t) || t in s.strays)
       && (t in s.strays ==> s.connections[o.connection] != Some(t))
  }

  /** Whoever has the lock of an owner is at a place where it will give it back. */
  ghost predicate LockOk(s: State, t: nat) {
    && t < |s.owners|
    && var l := s.owners[t].lock;
       && (l.ByWorker? ==> l.w < |s.workers| && HoldsLock(s.workers[l.w]) && s.workers[l.w].t == t)
       && (l.ByCloser? ==> l.k < |s.closers| && HoldsOwner(s.closers[l.k].place) && s.closers[l.k].place.t == t)
  }

  ghost predicate WorkersOk(s: State) { forall w: nat | w < |s.workers| :: WorkerOk(s, w) }

  ghost predicate ClosersOk(s: State) { forall k: nat | k < |s.closers| :: CloserOk(s, k) }

  ghost predicate ConnectionsOk(s: State) { forall c: nat | c < |s.connections| :: ConnectionOk(s, c) }

  ghost predicate OwnersOk(s: State) {
    && (forall t: nat | t < |s.owners| :: FlagOk(s, t) && LockOk(s, t))
    && (forall t | t in s.strays :: t < |s.owners|)
  }

  ghost predicate RequestsOk(s: State) {
    && (forall m | 0 <= m < |s.pushed| :: s.pushed[m].Some? ==> s.pushed[m].value < |s.owners|)
    && (forall i | 0 <= i < |s.queue| :: s.queue[i] < |s.pushed|)
  }

  ghost predicate PoolOk(s: State) { s.pool == Off ==> s.workers == [] }

  ghost predicate Inv(s: State) {
    WorkersOk(s) && ClosersOk(s) && ConnectionsOk(s) && OwnersOk(s) && RequestsOk(s) && PoolOk(s)
  }

  /** A worker that stands still keeps what it holds if nobody else takes it away. */
  lemma StillWorker(s: State, n: State, w: nat)
    requires w < |s.workers| && WorkerOk(s, w) && w < |n.workers| && n.workers[w] == s.workers[w]
    requires s.pushed <= n.pushed && |s.owners| <= |n.owners|
    requires HoldsLock(s.workers[w]) ==> n.owners[s.workers[w].t] == s.owners[s.workers[w].t]
    ensures WorkerOk(n, w)
  {
  }

  lemma MovedWorker(s: State, e: Step, w: nat)
    requires Enabled(s, e) && w < |s.workers| && WorkerOk(s, w) && RequestsOk(s) && w < |Next(s, e).workers|
    requires !e.PoolStart? && Next(s, e).workers[w] != s.workers[w]
    ensures WorkerOk(Next(s, e), w)
  {
    hide Referenced;
  }

  /** Nobody but its holder touches a locked owner. */
  lemma LockedOwner(s: State, e: Step, w: nat)
    requires Enabled(s, e) && WorkersOk(s) && ClosersOk(s)
    requires w < |s.workers| && HoldsLock(s.workers[w]) && w < |Next(s, e).workers| && Next(s, e).workers[w] == s.workers[w]
    ensures s.workers[w].t < |s.owners| <= |Next(s, e).owners|
    ensures Next(s, e).owners[s.workers[w].t] == s.owners[s.workers[w].t]
  {
    hide Referenced;
    assert WorkerOk(s, w);
    match e {
      case Release(v) => assert WorkerOk(s, v);
      case CloseFlag(k) => assert CloserOk(s, k);
      case CloseUnlock(k) => assert CloserOk(s, k);
      case _ =>
    }
  }

  lemma GrowsOnly(s: State, e: Step)
    requires Enabled(s, e)
    ensures s.pushed <= Next(s, e).pushed && |s.owners| <= |Next(s, e).owners| && |s.closers| <= |Next(s, e).closers|
    ensures e.PoolStart? || e.PoolStopEnds? || |Next(s, e).workers| == |s.workers|
    ensures |Next(s, e).connections| == |s.connections| && (e.CloseReset? ==> CloserIs(s, e.k))
    ensures forall t | 0 <= t < |s.owners| :: Next(s, e).owners[t].connection == s.owners[t].connection
    ensures forall k | 0 <= k < |s.closers| :: Next(s, e).closers[k].c == s.closers[k].c
  {
    hide Referenced;
  }

  lemma WorkersKept(s: State, e: Step)
    requires Enabled(s, e) && WorkersOk(s) && ClosersOk(s) && RequestsOk(s)
    ensures WorkersOk(Next(s, e))
  {
    hide WorkerOk, CloserOk, RequestsOk;
    var n := Next(s, e);
    match e {
      case PoolStart(threads) => FreshWorkers(n);
      case PoolStopEnds =>
      case _ =>
        GrowsOnly(s, e);
        forall w: nat | w < |n.workers| ensures WorkerOk(n, w) {
          assert WorkerOk(s, w);
          OneWorkerKept(s, e, w);
        }
    }
  }

  lemma FreshWorkers(n: State)
    requires forall w | 0 <= w < |n.workers| :: n.workers[w] == Idle
    ensures WorkersOk(n)
  {
  }

  lemma OneWorkerKept(s: State, e: Step, w: nat)
    requires Enabled(s, e) && WorkersOk(s) && ClosersOk(s) && RequestsOk(s) && w < |s.workers| && WorkerOk(s, w)
    requires !e.PoolStart? && w < |Next(s, e).workers|
    ensures WorkerOk(Next(s, e), w)
  {
    hide WorkerOk, CloserOk, RequestsOk, Next, Enabled;
    var n := Next(s, e);
    if n.workers[w] == s.workers[w] {
      GrowsOnly(s, e);
      if HoldsLock(s.workers[w]) {
        LockedOwner(s, e, w);
      }
      StillWorker(s, n, w);
    } else {
      MovedWorker(s, e, w);
    }
  }

  /** A closer that stands still keeps what it holds. */
  lemma StillCloser(s: State, n: State, k: nat)
    requires k < |s.closers| && CloserOk(s, k) && k < |n.closers| && n.closers[k] == s.closers[k]
    requires |n.connections| == |s.connections| && |s.owners| <= |n.owners|
    requires forall t | 0 <= t < |s.owners| ::
      && n.owners[t].connection == s.owners[t].connection
      && (n.owners[t].operational ==> s.owners[t].operational)
      && (s.owners[t].lock == ByCloser(k) ==> n.owners[t].lock == ByCloser(k))
    ensures CloserOk(n, k)
  {
  }

  lemma MovedCloser(s: State, e: Step, k: nat)
    requires Enabled(s, e) && k < |s.closers| && CloserOk(s, k) && ConnectionsOk(s) && Next(s, e).closers[k] != s.closers[k]
    ensures CloserOk(Next(s, e), k)
  {
    hide Referenced;
    assert ConnectionOk(s, s.closers[k].c);
  }

  /** Locks are given back by their holders only, and no owner comes back into operation. */
  lemma OwnersOnlyRetire(s: State, e: Step, k: nat)
    requires Enabled(s, e) && WorkersOk(s) && ClosersOk(s) && k < |s.closers| && Next(s, e).closers[k] == s.closers[k]
    ensures forall t | 0 <= t < |s.owners| ::
      && (Next(s, e).owners[t].operational ==> s.owners[t].operational)
      && (s.owners[t].lock == ByCloser(k) ==> Next(s, e).owners[t].lock == ByCloser(k))
  {
    hide Referenced;
    match e {
      case Release(v) => assert WorkerOk(s, v);
      case CloseUnlock(j) => assert CloserOk(s, j);
      case _ =>
    }
  }

  lemma ClosersKept(s: State, e: Step)
    requires Enabled(s, e) && WorkersOk(s) && ClosersOk(s) && ConnectionsOk(s)
    ensures ClosersOk(Next(s, e))
  {
    hide WorkerOk, CloserOk, ConnectionOk, CloserNext, Referenced;
    var n := Next(s, e);
    GrowsOnly(s, e);
    forall k: nat | k < |n.closers| ensures CloserOk(n, k) {
      if k < |s.closers| {
        assert CloserOk(s, k);
        if n.closers[k] == s.closers[k] {
          OwnersOnlyRetire(s, e, k);
          StillCloser(s, n, k);
        } else {
          MovedCloser(s, e, k);
        }
      } else {
        NewCloser(s, e, k);
      }
    }
  }

  lemma NewCloser(s: State, e: Step, k: nat)
    requires Enabled(s, e) && |s.closers| <= k < |Next(s, e).closers|
    ensures CloserOk(Next(s, e), k)
  {
    hide Referenced;
  }

  lemma ConnectionsKept(s: State, e: Step)
    requires Enabled(s, e) && ConnectionsOk(s)
    ensures ConnectionsOk(Next(s, e))
  {
    hide Referenced;
    var n := Next(s, e);
    GrowsOnly(s, e);
    forall c: nat | c < |n.connections| ensures ConnectionOk(n, c) {
      assert ConnectionOk(s, c);
    }
  }

  lemma FlagKept(s: State, e: Step, t: nat)
    requires Enabled(s, e) && t < |s.owners| && FlagOk(s, t) && t < |Next(s, e).owners|
    requires e.CloseReset? ==> ConnectionOk(s, s.closers[e.k].c)
    ensures FlagOk(Next(s, e), t)
  {
    hide Referenced;
  }

  /** A lock that nobody touches stays with its holder, who goes on holding it. */
  lemma LockKept(s: State, e: Step, t: nat)
    requires Enabled(s, e) && PoolOk(s) && t < |s.owners| && LockOk(s, t) && t < |Next(s, e).owners|
    ensures LockOk(Next(s, e), t)
  {
    hide LockOk;
    match e {
      case CloseAsk(_) => CloserKeepsLock(s, e, t);
      case CloseLock(_) => CloserKeepsLock(s, e, t);
      case CloseFlag(_) => CloserKeepsLock(s, e, t);
      case CloseUnlock(_) => CloserKeepsLock(s, e, t);
      case CloseReset(_) => CloserKeepsLock(s, e, t);
      case _ => WorkerKeepsLock(s, e, t);
    }
  }

  lemma CloserKeepsLock(s: State, e: Step, t: nat)
    requires Enabled(s, e) && (e.CloseAsk? || e.CloseLock? || e.CloseFlag? || e.CloseUnlock? || e.CloseReset?)
    requires t < |s.owners| && LockOk(s, t) && t < |CloserNext(s, e).owners|
    ensures LockOk(CloserNext(s, e), t)
  {
    hide Referenced;
  }

  lemma WorkerKeepsLock(s: State, e: Step, t: nat)
    requires Enabled(s, e) && PoolOk(s) && t < |s.owners| && LockOk(s, t) && t < |Next(s, e).owners|
    requires !e.CloseAsk? && !e.CloseLock? && !e.CloseFlag? && !e.CloseUnlock? && !e.CloseReset?
    ensures LockOk(Next(s, e), t)
  {
    hide Referenced, CloserNext;
  }

  lemma NewOwner(s: State, e: Step, t: nat)
    requires Enabled(s, e) && |s.owners| !in s.strays && |s.owners| <= t < |Next(s, e).owners|
    ensures FlagOk(Next(s, e), t) && LockOk(Next(s, e), t)
  {
    hide Referenced;
  }

  lemma OwnersKept(s: State, e: Step)
    requires Enabled(s, e) && OwnersOk(s) && ConnectionsOk(s) && PoolOk(s)
    ensures OwnersOk(Next(s, e))
  {
    hide FlagOk, LockOk, Next, Enabled, ConnectionOk, PoolOk;
    var n := Next(s, e);
    GrowsOnly(s, e);
    StraysKnown(s, e);
    forall t: nat | t < |n.owners| ensures FlagOk(n, t) && LockOk(n, t) {
      if t < |s.owners| {
        assert FlagOk(s, t) && LockOk(s, t);
        if e.CloseReset? {
          assert ConnectionOk(s, s.closers[e.k].c);
        }
        FlagKept(s, e, t);
        LockKept(s, e, t);
      } else {
        NewOwner(s, e, t);
      }
    }
  }

  lemma StraysKnown(s: State, e: Step)
    requires Enabled(s, e) && forall t | t in s.strays :: t < |s.owners|
    ensures forall t | t in Next(s, e).strays :: t < |Next(s, e).owners|
  {
    hide Referenced;
  }

  lemma RequestsKept(s: State, e: Step)
    requires Enabled(s, e) && RequestsOk(s) && ConnectionsOk(s) && PoolOk(s)
    ensures RequestsOk(Next(s, e)) && PoolOk(Next(s, e))
  {
    hide RequestsOk, ConnectionOk;
    match e {
      case Push(c) =>
        assert ConnectionOk(s, c);
        PushKeepsRequests(s, c);
      case Pop(_) => QueueKeepsRequests(s, Next(s, e));
      case _ =>
        GrowsOnly(s, e);
        QueueKeepsRequests(s, Next(s, e));
    }
  }

  lemma PushKeepsRequests(s: State, c: nat)
    requires Enabled(s, Push(c)) && RequestsOk(s) && ConnectionOk(s, c)
    ensures RequestsOk(Next(s, Push(c)))
  {
  }

  lemma QueueKeepsRequests(s: State, n: State)
    requires RequestsOk(s) && n.pushed == s.pushed && |s.owners| <= |n.owners|
    requires n.queue == s.queue || n.queue == [] || (s.queue != [] && n.queue == s.queue[1..])
    ensures RequestsOk(n)
  {
  }

  lemma InvKept(s: State, e: Step)
    requires Inv(s) && Enabled(s, e)
    ensures Inv(Next(s, e))
  {
    hide Next, Enabled, WorkersOk, ClosersOk, ConnectionsOk, OwnersOk, RequestsOk, PoolOk;
    WorkersKept(s, e);
    ClosersKept(s, e);
    ConnectionsKept(s, e);
    OwnersKept(s, e);
    RequestsKept(s, e);
  }

  lemma {:induction false} EveryRunKeeps(s: State, steps: seq<Step>)
    requires Inv(s) && Runs(s, steps)
    ensures Inv(After(s, steps))
    decreases |steps|
  {
    hide Inv, Next, Enabled;
    if steps != [] {
      InvKept(s, steps[0]);
      EveryRunKeeps(Next(s, steps[0]), steps[1..]);
    }
  }

  ghost predicate Reachable(s: State) {
    exists connections: nat, steps: seq<Step> ::
      Runs(Init(connections), steps) && s == After(Init(connections), steps)
  }

  lemma ReachableInv(s: State)
    requires Reachable(s)
    ensures Inv(s)
  {
    var connections: nat, steps: seq<Step> :| Runs(Init(connections), steps) && s == After(Init(connections), steps);
    assert Inv(Init(connections));
    EveryRunKeeps(Init(connections), steps);
  }

  lemma {:induction false} RunMore(s: State, steps: seq<Step>, e: Step)
    requires Runs(s, steps) && Enabled(After(s, steps), e)
    ensures Runs(s, steps + [e]) && After(s, steps + [e]) == Next(After(s, steps), e)
    decreases |steps|
  {
    hide Next, Enabled;
    if steps == [] {
      assert [e][1..] == [];
    } else {
      RunMore(Next(s, steps[0]), steps[1..], e);
      assert (steps + [e])[1..] == steps[1..] + [e];
    }
  }

  lemma ReachableStep(s: State, e: Step)
    requires Reachable(s) && Enabled(s, e)
    ensures Reachable(Next(s, e))
  {
    hide Next, Enabled;
    var connections: nat, steps: seq<Step> :| Runs(Init(connections), steps) && s == After(Init(connections), steps);
    RunMore(Init(connections), steps, e);
  }

  // ---------------------------------------------------------------- which session handles a request

  /** A request is handled only for the owner it was queued with, while that owner is operational and locked by the
      worker. That owner is then the current one of its connection, so that neither `stop` nor `processDisconnected`
      has retired it and no later session has begun, exactly if no stray reset has taken it away. */
  lemma HandledInOwnSession(s: State, w: nat)
    requires Reachable(s) && w < |s.workers| && s.workers[w].Processing?
    ensures var m, t := s.workers[w].m, s.workers[w].t;
            && m < |s.pushed| && s.pushed[m] == Some(t) && t < |s.owners|
            && s.owners[t].operational && s.owners[t].lock == ByWorker(w)
            && s.owners[t].connection < |s.connections|
            && (s.connections[s.owners[t].connection] == Some(t) <==> t !in s.strays)
  {
    hide Reachable;
    ReachableInv(s);
    assert WorkerOk(s, w);
    assert FlagOk(s, s.workers[w].t);
  }

  /** No two workers are in handlers for the same owner, nor for the same connection unless one of the owners was
      taken away by a stray reset. */
  lemma OneHandlerPerConnection(s: State, v: nat, w: nat)
    requires Reachable(s) && v < |s.workers| && w < |s.workers| && s.workers[v].Processing? && s.workers[w].Processing?
    requires s.workers[v].t < |s.owners| && s.workers[w].t < |s.owners|
    requires s.owners[s.workers[v].t].connection == s.owners[s.workers[w].t].connection
    ensures v == w || s.workers[v].t in s.strays || s.workers[w].t in s.strays
    ensures s.workers[v].t == s.workers[w].t ==> v == w
  {
    hide Reachable;
    HandledInOwnSession(s, v);
    HandledInOwnSession(s, w);
  }

  /** An owner that is no longer operational. */
  ghost predicate Retired(s: State, t: nat) { t < |s.owners| && !s.owners[t].operational }

  /** No worker is in a handler for owner `t`. */
  ghost predicate NoHandler(s: State, t: nat) {
    forall w | 0 <= w < |s.workers| :: !(s.workers[w].Processing? && s.workers[w].t == t)
  }

  lemma RetiredStep(s: State, e: Step, t: nat)
    requires Enabled(s, e) && Retired(s, t)
    ensures Retired(Next(s, e), t)
  {
    hide Referenced;
  }

  /** Once an owner is retired, no worker is or ever comes to be in its handler. */
  lemma {:induction false} RetiredForever(s: State, steps: seq<Step>, t: nat)
    requires Inv(s) && Retired(s, t) && Runs(s, steps)
    ensures Retired(After(s, steps), t) && NoHandler(After(s, steps), t)
    decreases |steps|
  {
    hide Inv, Next, Enabled, Retired, NoHandler;
    if steps == [] {
      RetiredNow(s, t);
    } else {
      InvKept(s, steps[0]);
      RetiredStep(s, steps[0], t);
      RetiredForever(Next(s, steps[0]), steps[1..], t);
    }
  }

  lemma RetiredNow(s: State, t: nat)
    requires Inv(s) && Retired(s, t)
    ensures NoHandler(s, t)
  {
    forall w: nat | w < |s.workers| ensures !(s.workers[w].Processing? && s.workers[w].t == t) {
      assert WorkerOk(s, w);
    }
  }

  /** However many threads stop and disconnect a connection at once, each gives the lock back with the owner
      retired, unless it finds that another one has taken the owner away. */
  lemma CloseRetires(s: State, k: nat)
    requires Reachable(s) && Enabled(s, CloseUnlock(k))
    ensures var n, t := Next(s, CloseUnlock(k)), s.closers[k].place.t;
            Retired(n, t) && NoHandler(n, t) && (!n.broken ==> n.owners[t].lock == Free)
  {
    hide Reachable, Referenced, Retired, NoHandler;
    ReachableInv(s);
    assert CloserOk(s, k);
    InvKept(s, CloseUnlock(k));
    RetiredByFlag(s, k);
    RetiredNow(Next(s, CloseUnlock(k)), s.closers[k].place.t);
  }

  lemma RetiredByFlag(s: State, k: nat)
    requires Enabled(s, CloseUnlock(k)) && CloserOk(s, k)
    ensures Retired(Next(s, CloseUnlock(k)), s.closers[k].place.t)
  {
  }

  // ---------------------------------------------------------------- stops that do not overlap

  /** No two threads are in `stop` of one connection, as the mutex of the client and the life of the server's client
      object see to. Disconnections may still overlap each other and a stop. */
  ghost predicate SerialStops(s: State) {
    forall j, k | 0 <= j < k < |s.closers| ::
      !(s.closers[j].stopping && s.closers[k].stopping && s.closers[j].c == s.closers[k].c
        && !s.closers[j].place.Done? && !s.closers[k].place.Done?)
  }

  ghost predicate SerialThroughout(s: State, steps: seq<Step>)
    decreases |steps|
  {
    SerialStops(s) && (steps != [] ==> Enabled(s, steps[0]) && SerialThroughout(Next(s, steps[0]), steps[1..]))
  }

  /** A thread in `stop` finds the owner it began with. */
  ghost predicate StopperOk(s: State, k: nat) {
    && k < |s.closers|
    && var x := s.closers[k];
       x.stopping && !x.place.Done? ==>
         && x.c < |s.connections| && s.connections[x.c].Some?
         && (!x.place.Asking? ==> s.connections[x.c] == Some(x.place.t))
  }

  ghost predicate SerialInv(s: State) {
    SerialStops(s) && s.strays == {} && forall k: nat | k < |s.closers| :: StopperOk(s, k)
  }

  lemma StopperKept(s: State, e: Step, k: nat)
    requires Enabled(s, e) && SerialStops(s) && k < |s.closers| && StopperOk(s, k) && k < |Next(s, e).closers|
    requires e.CloseReset? ==> CloserOk(s, e.k)
    ensures StopperOk(Next(s, e), k)
  {
    hide Referenced;
  }

  lemma NoStrays(s: State, e: Step)
    requires Enabled(s, e) && s.strays == {} && (e.CloseReset? ==> CloserOk(s, e.k) && StopperOk(s, e.k))
    ensures Next(s, e).strays == {}
  {
    hide Referenced;
  }

  lemma NewStopper(s: State, e: Step, k: nat)
    requires Enabled(s, e) && |s.closers| <= k < |Next(s, e).closers|
    ensures StopperOk(Next(s, e), k)
  {
    hide Referenced;
  }

  lemma SerialKept(s: State, e: Step)
    requires Inv(s) && SerialInv(s) && Enabled(s, e) && SerialStops(Next(s, e))
    ensures SerialInv(Next(s, e))
  {
    hide Next, Enabled, SerialStops, StopperOk, CloserOk, WorkersOk, ConnectionsOk, OwnersOk, RequestsOk, PoolOk;
    var n := Next(s, e);
    GrowsOnly(s, e);
    if e.CloseReset? {
      assert CloserOk(s, e.k) && StopperOk(s, e.k);
    }
    NoStrays(s, e);
    forall k: nat | k < |n.closers| ensures StopperOk(n, k) {
      if k < |s.closers| {
        assert StopperOk(s, k);
        StopperKept(s, e, k);
      } else {
        NewStopper(s, e, k);
      }
    }
  }

  lemma {:induction false} SerialRunKeeps(s: State, steps: seq<Step>)
    requires Inv(s) && SerialInv(s) && Runs(s, steps) && SerialThroughout(s, steps)
    ensures SerialInv(After(s, steps))
    decreases |steps|
  {
    hide Inv, SerialInv, Next, Enabled, SerialStops;
    if steps != [] {
      InvKept(s, steps[0]);
      SerialKept(s, steps[0]);
      SerialRunKeeps(Next(s, steps[0]), steps[1..]);
    }
  }

  ghost predicate ReachableSerially(s: State) {
    exists connections: nat, steps: seq<Step> ::
      Runs(Init(connections), steps) && SerialThroughout(Init(connections), steps) && s == After(Init(connections), steps)
  }

  lemma SerialReachable(s: State)
    requires ReachableSerially(s)
    ensures Reachable(s) && Inv(s) && SerialInv(s)
  {
    var connections: nat, steps: seq<Step> :|
      Runs(Init(connections), steps) && SerialThroughout(Init(connections), steps) && s == After(Init(connections), steps);
    assert Inv(Init(connections)) && SerialInv(Init(connections));
    EveryRunKeeps(Init(connections), steps);
    SerialRunKeeps(Init(connections), steps);
  }

  /** If stops of one connection do not overlap, then whatever disconnections do, a request is handled only while
      the owner it was queued with is the current one of its connection, and by one worker at a time. */
  lemma SerialSession(s: State, v: nat, w: nat)
    requires ReachableSerially(s) && w < |s.workers| && s.workers[w].Processing?
    ensures var t := s.workers[w].t;
            t < |s.owners| && s.owners[t].connection < |s.connections| && s.connections[s.owners[t].connection] == Some(t)
    ensures (v < |s.workers| && s.workers[v].Processing? && s.workers[v].t < |s.owners|
             && s.owners[s.workers[v].t].connection == s.owners[s.workers[w].t].connection) ==> v == w
  {
    hide ReachableSerially, Reachable, Inv, SerialStops, StopperOk;
    SerialReachable(s);
    HandledInOwnSession(s, w);
    if v < |s.workers| && s.workers[v].Processing? && s.workers[v].t < |s.owners|
       && s.owners[s.workers[v].t].connection == s.owners[s.workers[w].t].connection {
      OneHandlerPerConnection(s, v, w);
    }
  }

  /** And `stop` itself never meets an owner pointer that is null or changed. */
  lemma StopIsSafe(s: State, e: Step)
    requires ReachableSerially(s) && Enabled(s, e) && (e.CloseAsk? || e.CloseLock? || e.CloseFlag? || e.CloseUnlock?)
    requires e.k < |s.closers| && s.closers[e.k].stopping
    ensures !Next(s, e).broken
  {
    hide ReachableSerially, Reachable, Inv, SerialStops;
    SerialReachable(s);
    assert StopperOk(s, e.k);
  }

  // ---------------------------------------------------------------- when the owner pointer is null

  /** The step is a reset of the owner pointer of connection `c`. */
  ghost predicate Resets(s: State, e: Step, c: nat) {
    e.CloseReset? && e.k < |s.closers| && s.closers[e.k].c == c
  }

  ghost predicate NoReset(s: State, steps: seq<Step>, c: nat)
    decreases |steps|
  {
    steps == [] || (Enabled(s, steps[0]) && !Resets(s, steps[0], c) && NoReset(Next(s, steps[0]), steps[1..], c))
  }

  /** Some start of `c` in the run is not followed by a reset. */
  ghost predicate StartStands(s: State, steps: seq<Step>, c: nat)
    decreases |steps|
  {
    steps != [] && Enabled(s, steps[0])
    && ((steps[0] == Start(c) && NoReset(Next(s, steps[0]), steps[1..], c))
                    || StartStands(Next(s, steps[0]), steps[1..], c))
  }

  lemma PointerStep(s: State, e: Step, c: nat)
    requires Enabled(s, e) && c < |s.connections|
    ensures c < |Next(s, e).connections|
    ensures Next(s, e).connections[c] ==
            if e == Start(c) then Some(|s.owners|) else if Resets(s, e, c) then None else s.connections[c]
    ensures |s.owners| <= |Next(s, e).owners|
    ensures e == Start(c) ==> s.connections[c].None? && |s.owners| < |Next(s, e).owners|
  {
    hide Referenced;
  }

  /** The pointer is set exactly if it was and no reset came, or if a start came after the last reset. */
  lemma {:induction false} PointerSet(s: State, steps: seq<Step>, c: nat)
    requires Runs(s, steps) && c < |s.connections|
    ensures c < |After(s, steps).connections|
    ensures After(s, steps).connections[c].Some? <==>
            StartStands(s, steps, c) || (s.connections[c].Some? && NoReset(s, steps, c))
    decreases |steps|
  {
    hide Next, Enabled, Resets;
    if steps != [] {
      PointerStep(s, steps[0], c);
      PointerSet(Next(s, steps[0]), steps[1..], c);
    }
  }

  /** It is still the same owner exactly if no reset came. */
  lemma {:induction false} PointerSame(s: State, steps: seq<Step>, c: nat, t: nat)
    requires Runs(s, steps) && c < |s.connections| && t < |s.owners|
    ensures c < |After(s, steps).connections|
    ensures s.connections[c] == Some(t) ==> (After(s, steps).connections[c] == Some(t) <==> NoReset(s, steps, c))
    ensures s.connections[c] != Some(t) ==> After(s, steps).connections[c] != Some(t)
    decreases |steps|
  {
    hide Next, Enabled, Resets;
    if steps != [] {
      PointerStep(s, steps[0], c);
      PointerSame(Next(s, steps[0]), steps[1..], c, t);
    }
  }

  /** The first use of the pointer in `processDisconnected` or `stop` finds it null exactly if the connection was
      never started or a stop has reset it since its last start. */
  lemma NullOwner(connections: nat, steps: seq<Step>, k: nat)
    requires Runs(Init(connections), steps) && Enabled(After(Init(connections), steps), CloseAsk(k))
    ensures var s := After(Init(connections), steps);
            Next(s, CloseAsk(k)).broken <==> !StartStands(Init(connections), steps, s.closers[k].c)
  {
    hide StartStands, NoReset;
    var s0 := Init(connections);
    ConnectionsStay(s0, steps);
    PointerSet(s0, steps, After(s0, steps).closers[k].c);
  }

  lemma {:induction false} ConnectionsStay(s: State, steps: seq<Step>)
    requires Runs(s, steps)
    ensures |After(s, steps).connections| == |s.connections|
    decreases |steps|
  {
    hide Next, Enabled;
    if steps != [] {
      GrowsOnly(s, steps[0]);
      ConnectionsStay(Next(s, steps[0]), steps[1..]);
    }
  }

  /** The two later uses find another pointer than the one that was locked exactly if a reset has come since the
      first use; the owner can be gone when its lock is granted only then. */
  lemma LostOwner(s: State, steps: seq<Step>, k: nat, t: nat)
    requires Inv(s) && k < |s.closers| && s.closers[k].place == Blocked(t)
    requires s.closers[k].c < |s.connections| && s.connections[s.closers[k].c] == Some(t)
    requires Runs(s, steps)
    ensures var n, c := After(s, steps), s.closers[k].c;
            && (Enabled(n, CloseLock(k)) && n.closers[k] == s.closers[k] && Next(n, CloseLock(k)).broken ==>
                  !NoReset(s, steps, c))
            && (Enabled(n, CloseFlag(k)) && n.closers[k] == s.closers[k].(place := Held(t)) ==>
                  (Next(n, CloseFlag(k)).broken <==> !NoReset(s, steps, c)))
            && (Enabled(n, CloseUnlock(k)) && n.closers[k] == s.closers[k].(place := Flagged(t)) ==>
                  (Next(n, CloseUnlock(k)).broken <==> !NoReset(s, steps, c)))
  {
    hide NoReset, WorkersOk, ConnectionsOk, OwnersOk, RequestsOk, PoolOk, Runs, After;
    assert CloserOk(s, k);
    PointerSame(s, steps, s.closers[k].c, t);
  }

  // ---------------------------------------------------------------- overlaps that go wrong

  /** A thread in `stop` locks, retires and unlocks the owner and is about to reset the pointer. */
  lemma StopRetires(s: State, k: nat) returns (n: State)
    requires Reachable(s) && !s.broken && k < |s.closers| && s.closers[k] == Closer(0, true, Asking)
    requires s.connections == [Some(0)] && |s.owners| == 1 && s.owners[0].lock == Free && s.owners[0].connection == 0
    ensures Reachable(n)
    ensures n == s.(closers := s.closers[k := Closer(0, true, Resetting(0))], owners := [Owner(0, Free, false)])
  {
    hide Reachable;
    ReachableStep(s, CloseAsk(k));
    var s1 := Next(s, CloseAsk(k));
    assert s1.connections[0] == Some(0);
    ReachableStep(s1, CloseLock(k));
    var s2 := Next(s1, CloseLock(k));
    ReachableStep(s2, CloseFlag(k));
    var s3 := Next(s2, CloseFlag(k));
    ReachableStep(s3, CloseUnlock(k));
    n := Next(s3, CloseUnlock(k));
    assert n.owners == [Owner(0, Free, false)];
    assert n.closers == s.closers[k := Closer(0, true, Resetting(0))];
  }

  /** One started connection and two threads that are about to close it. */
  lemma TwoClosers(stopping: bool) returns (n: State)
    ensures Reachable(n) && n == Init(1).(connections := [Some(0)], owners := [Owner(0, Free, true)],
                                          closers := [Closer(0, stopping, Asking), Closer(0, true, Asking)])
  {
    hide Reachable;
    var s := Init(1);
    InitReachable(1);
    ReachableStep(s, Start(0));
    var s1 := Next(s, Start(0));
    ReachableStep(s1, Close(0, stopping));
    var s2 := Next(s1, Close(0, stopping));
    ReachableStep(s2, Close(0, true));
    n := Next(s2, Close(0, true));
    assert n.closers == [Closer(0, stopping, Asking), Closer(0, true, Asking)] && n.connections == [Some(0)];
  }

  /** A disconnection event that overlaps a stop can find the pointer null: both began while the object was started. */
  lemma OverlapBreaks()
    ensures exists s :: Reachable(s) && s.broken && s.closers == [Closer(0, false, Asking), Closer(0, true, Done)]
  {
    hide Reachable;
    var s1 := TwoClosers(false);
    var s2 := StopRetires(s1, 1);
    ReachableStep(s2, CloseReset(1));
    var s3 := Next(s2, CloseReset(1));
    ReachableStep(s3, CloseAsk(0));
    var s4 := Next(s3, CloseAsk(0));
    assert s4.broken && s4.closers == [Closer(0, false, Asking), Closer(0, true, Done)];
  }

  /** Two overlapping stops and a start between their resets: the second reset takes away the owner of the new
      session, and a worker handles a request of a connection that has none. */
  lemma OverlappingStops()
    ensures exists s :: Reachable(s) && !s.broken && s.workers == [Processing(0, 1)] && s.connections == [None]
                        && s.closers == [Closer(0, true, Done), Closer(0, true, Done)]
  {
    hide Reachable;
    var s1 := TwoClosers(true);
    var s2 := StopRetires(s1, 0);
    var s3 := StopRetires(s2, 1);
    assert s3.closers == [Closer(0, true, Resetting(0)), Closer(0, true, Resetting(0))];
    ReachableStep(s3, CloseReset(0));
    var s4 := Next(s3, CloseReset(0));
    ReachableStep(s4, Start(0));
    var s5 := Next(s4, Start(0));
    assert s5 == Init(1).(connections := [Some(1)], owners := [Owner(0, Free, false), Owner(0, Free, true)],
                          closers := [Closer(0, true, Done), Closer(0, true, Resetting(0))]);
    var s6 := RequestTaken(s5);
    ReachableStep(s6, CloseReset(1));
    var s7 := Next(s6, CloseReset(1));
    ReachableStep(s7, LockOwner(0));
    var s8 := Next(s7, LockOwner(0));
    ReachableStep(s8, Check(0));
    var s9 := Next(s8, Check(0));
    assert s9.workers == [Processing(0, 1)] && s9.connections == [None];
    assert s9.closers == [Closer(0, true, Done), Closer(0, true, Done)];
  }

  /** A request comes in and a worker gets hold of its owner. */
  lemma RequestTaken(s: State) returns (n: State)
    requires Reachable(s) && !s.broken && s.pool == Off && s.connections == [Some(1)] && s.queue == [] && s.pushed == []
    ensures Reachable(n) && n == s.(pool := On, workers := [HasOwner(0, 1)], pushed := [Some(1)])
  {
    hide Reachable;
    ReachableStep(s, PoolStart(1));
    var s1 := Next(s, PoolStart(1));
    ReachableStep(s1, Push(0));
    var s2 := Next(s1, Push(0));
    assert s2.queue == [0] && s2.pushed == [Some(1)] && s2.workers == [Idle];
    ReachableStep(s2, Pop(0));
    var s3 := Next(s2, Pop(0));
    assert s3.connections[0] == Some(1);
    ReachableStep(s3, GetOwner(0));
    n := Next(s3, GetOwner(0));
    assert n.workers == [HasOwner(0, 1)];
  }

  lemma InitReachable(connections: nat)
    ensures Reachable(Init(connections))
  {
    assert Runs(Init(connections), []) && After(Init(connections), []) == Init(connections);
  }
}
