/** What becomes of the requests of the worker pool, and how the pool ends. */
module PoolDrain {
  import opened RpcPool

  // ---------------------------------------------------------------- no request is lost or handled twice

  /** How often request `m` occurs in a history or queue. */
  function Count(q: seq<nat>, m: nat): nat { multiset(q)[m] }

  function HoldsRequest(w: Worker, m: nat): nat {
    if (w.Popped? || w.HasOwner? || w.Locked?) && w.m == m then 1 else 0
  }

  /** How many workers hold request `m` and have not begun to handle it. */
  function Holders(ws: seq<Worker>, m: nat): nat {
    if ws == [] then 0 else HoldsRequest(ws[0], m) + Holders(ws[1..], m)
  }

  /** In how many places request `m` is: queued, held, handled, dropped or flushed. */
  function Places(s: State, m: nat): nat {
    Count(s.queue, m) + Holders(s.workers, m) + Count(s.handled, m) + Count(s.dropped, m) + Count(s.flushed, m)
  }

  lemma CountConcat(p: seq<nat>, q: seq<nat>, m: nat)
    ensures Count(p + q, m) == Count(p, m) + Count(q, m)
  {
  }

  lemma CountOne(x: nat, m: nat)
    ensures Count([x], m) == if x == m then 1 else 0
  {
  }

  lemma CountHead(q: seq<nat>, m: nat)
    requires q != []
    ensures Count(q, m) == (if q[0] == m then 1 else 0) + Count(q[1..], m)
  {
    assert q == [q[0]] + q[1..];
    CountOne(q[0], m);
  }

  lemma {:induction false} HoldersUpdate(ws: seq<Worker>, i: nat, x: Worker, m: nat)
    requires i < |ws|
    ensures Holders(ws[i := x], m) + HoldsRequest(ws[i], m) == Holders(ws, m) + HoldsRequest(x, m)
  {
    hide HoldsRequest;
    if i == 0 {
      assert ws[i := x][1..] == ws[1..];
    } else {
      HoldersUpdate(ws[1..], i - 1, x, m);
      assert ws[i := x][1..] == ws[1..][i - 1 := x];
    }
  }

  lemma {:induction false} NoHolders(ws: seq<Worker>, m: nat)
    requires forall w | 0 <= w < |ws| :: ws[w].Idle? || ws[w].Exited?
    ensures Holders(ws, m) == 0
  {
    if ws != [] {
      NoHolders(ws[1..], m);
    }
  }

  lemma PoolKeepsPlaces(s: State, e: Step, m: nat)
    requires PoolOk(s) && Enabled(s, e) && (e.PoolStart? || e.PoolStopEnds? || e.PoolDisable?)
    ensures Places(Next(s, e), m) == Places(s, m)
  {
    hide Holders, Count;
    var n := Next(s, e);
    if !e.PoolDisable? {
      NoHolders(s.workers, m);
      NoHolders(n.workers, m);
    }
    CountConcat(s.flushed, s.queue, m);
    CountNone(m);
  }

  lemma CountNone(m: nat)
    ensures Count([], m) == 0
  {
  }

  lemma WorkerKeepsPlaces(s: State, e: Step, w: nat, m: nat)
    requires Enabled(s, e) && w < |s.workers|
    requires
      || e == Pop(w) || e == Exit(w) || e == GetOwner(w) || e == LockOwner(w) || e == Check(w)
      || e == Handled(w) || e == Release(w)
    ensures Places(Next(s, e), m) == Places(s, m)
  {
    hide Holders, Count, Referenced;
    HoldersUpdate(s.workers, w, Next(s, e).workers[w], m);
    if e.Pop? {
      CountHead(s.queue, m);
    }
    if e.GetOwner? || e.Check? {
      var r := s.workers[w].m;
      CountOne(r, m);
      CountConcat(s.dropped, [r], m);
      CountConcat(s.handled, [r], m);
    }
  }

  lemma PushKeepsPlaces(s: State, c: nat, m: nat)
    requires Enabled(s, Push(c))
    ensures Places(Next(s, Push(c)), m) == Places(s, m) + if m == |s.pushed| then 1 else 0
  {
    hide Holders, Count;
    CountOne(|s.pushed|, m);
    CountConcat(s.queue, [|s.pushed|], m);
  }

  /** A step moves requests between places; only a push adds one, and a new one. */
  lemma PlacesKept(s: State, e: Step, m: nat)
    requires PoolOk(s) && Enabled(s, e)
    ensures Places(Next(s, e), m) == Places(s, m) + if e.Push? && m == |s.pushed| then 1 else 0
    ensures |Next(s, e).pushed| == |s.pushed| + if e.Push? then 1 else 0
  {
    hide Count, Holders, Referenced;
    match e {
      case Push(c) => PushKeepsPlaces(s, c, m);
      case PoolStart(_) => PoolKeepsPlaces(s, e, m);
      case PoolDisable => PoolKeepsPlaces(s, e, m);
      case PoolStopEnds => PoolKeepsPlaces(s, e, m);
      case Pop(w) => WorkerKeepsPlaces(s, e, w, m);
      case Exit(w) => WorkerKeepsPlaces(s, e, w, m);
      case GetOwner(w) => WorkerKeepsPlaces(s, e, w, m);
      case LockOwner(w) => WorkerKeepsPlaces(s, e, w, m);
      case Check(w) => WorkerKeepsPlaces(s, e, w, m);
      case Handled(w) => WorkerKeepsPlaces(s, e, w, m);
      case Release(w) => WorkerKeepsPlaces(s, e, w, m);
      case _ =>
    }
  }

  /** Where a request is: in one place once it was pushed, nowhere before. */
  ghost predicate InPlace(s: State, m: nat) {
    Places(s, m) == if m < |s.pushed| then 1 else 0
  }

  lemma {:induction false} EveryRunConserves(s: State, steps: seq<Step>, m: nat)
    requires Inv(s) && InPlace(s, m) && Runs(s, steps)
    ensures InPlace(After(s, steps), m)
    decreases |steps|
  {
    hide Next, Enabled, Places, WorkersOk, ClosersOk, ConnectionsOk, OwnersOk, RequestsOk, PoolOk;
    if steps != [] {
      InvKept(s, steps[0]);
      PlacesKept(s, steps[0], m);
      EveryRunConserves(Next(s, steps[0]), steps[1..], m);
    }
  }

  lemma InitConserved(connections: nat, m: nat)
    ensures InPlace(Init(connections), m) && Inv(Init(connections))
  {
  }

  /** Every request that was pushed is in exactly one place, so it is handled at most once. */
  lemma ExactlyOnePlace(s: State, m: nat)
    requires Reachable(s) && m < |s.pushed|
    ensures Count(s.queue, m) + Holders(s.workers, m) + Count(s.handled, m) + Count(s.dropped, m) + Count(s.flushed, m) == 1
  {
    hide Inv, Count, Holders;
    var connections: nat, steps: seq<Step> :| Runs(Init(connections), steps) && s == After(Init(connections), steps);
    InitConserved(connections, m);
    EveryRunConserves(Init(connections), steps, m);
  }

  /** When the pool's `stop` returns, no handler runs and the queue is empty. */
  lemma StoppedPoolIsQuiet(s: State, m: nat)
    requires Reachable(s)
    ensures s.pool == Off ==> s.workers == []
    ensures Enabled(s, PoolStopEnds) ==> Next(s, PoolStopEnds).queue == [] && Holders(s.workers, m) == 0
  {
    hide Reachable;
    ReachableInv(s);
    if Enabled(s, PoolStopEnds) {
      NoHolders(s.workers, m);
    }
  }

  // ---------------------------------------------------------------- stopping the pool ends

  /** A step of the pool's threads. */
  predicate OfWorker(e: Step) {
    e.Exit? || e.GetOwner? || e.LockOwner? || e.Check? || e.Handled? || e.Release?
  }

  /** A step of a closer that holds a lock. */
  predicate OfCloser(e: Step) { e.CloseFlag? || e.CloseUnlock? }

  /** Whoever holds the lock of an owner can go on. */
  lemma HolderMoves(s: State, t: nat) returns (e: Step)
    requires Inv(s) && !s.broken && t < |s.owners| && s.owners[t].lock != Free
    ensures (OfWorker(e) || OfCloser(e)) && Enabled(s, e)
  {
    hide Referenced;
    assert LockOk(s, t);
    var l := s.owners[t].lock;
    if l.ByWorker? {
      var w := l.w;
      e := if s.workers[w].Locked? then Check(w) else if s.workers[w].Processing? then Handled(w) else Release(w);
    } else {
      assert CloserOk(s, l.k);
      e := if s.closers[l.k].place.Held? then CloseFlag(l.k) else CloseUnlock(l.k);
    }
  }

  /** While the pool drains and a worker has not ended, some worker or some thread that holds an owner's lock can go
      on: no deadlock, whatever the connections are doing. */
  lemma DrainNeverStuck(s: State, w: nat) returns (e: Step)
    requires Reachable(s) && !s.broken && s.pool == Draining && w < |s.workers| && !s.workers[w].Exited?
    ensures (OfWorker(e) || OfCloser(e)) && Enabled(s, e)
  {
    hide Reachable, Referenced;
    ReachableInv(s);
    assert WorkerOk(s, w);
    match s.workers[w] {
      case Idle => e := Exit(w);
      case Popped(_) => e := GetOwner(w);
      case HasOwner(_, t) =>
        if s.owners[t].lock == Free {
          e := LockOwner(w);
        } else {
          e := HolderMoves(s, t);
        }
      case Locked(_, _) => e := Check(w);
      case Processing(_, _) => e := Handled(w);
      case Releasing(_) => e := Release(w);
    }
  }

  /** Steps that a worker has left once it gets no further request. */
  function Remaining(w: Worker): nat {
    match w
    case Popped(_) => 6
    case HasOwner(_, _) => 5
    case Locked(_, _) => 4
    case Processing(_, _) => 3
    case Releasing(_) => 2
    case Idle => 1
    case Exited => 0
  }

  function AllRemaining(ws: seq<Worker>): nat {
    if ws == [] then 0 else Remaining(ws[0]) + AllRemaining(ws[1..])
  }

  lemma {:induction false} RemainingUpdate(ws: seq<Worker>, i: nat, x: Worker)
    requires i < |ws|
    ensures AllRemaining(ws[i := x]) == AllRemaining(ws) - Remaining(ws[i]) + Remaining(x)
  {
    hide Remaining;
    if i == 0 {
      assert ws[i := x][1..] == ws[1..];
    } else {
      RemainingUpdate(ws[1..], i - 1, x);
      assert ws[i := x][1..] == ws[1..][i - 1 := x];
    }
  }

  /** In a draining pool each step of a worker brings the end nearer, and no other step puts it off. */
  lemma DrainShrinks(s: State, e: Step)
    requires s.pool == Draining && Enabled(s, e)
    ensures OfWorker(e) ==> AllRemaining(Next(s, e).workers) < AllRemaining(s.workers)
    ensures !OfWorker(e) ==> AllRemaining(Next(s, e).workers) <= AllRemaining(s.workers)
  {
    hide Referenced, AllRemaining;
    if OfWorker(e) {
      RemainingUpdate(s.workers, e.w, Next(s, e).workers[e.w]);
    } else if e.PoolStopEnds? {
      NoneRemaining();
    }
  }

  lemma NoneRemaining()
    ensures AllRemaining([]) == 0
  {
  }

  function WorkerSteps(steps: seq<Step>): nat {
    if steps == [] then 0 else (if OfWorker(steps[0]) then 1 else 0) + WorkerSteps(steps[1..])
  }

  /** Along any run of a pool that is draining all the while, the workers take at most six steps each. */
  lemma {:induction false} DrainEnds(s: State, steps: seq<Step>)
    requires Runs(s, steps) && DrainsThroughout(s, steps)
    ensures WorkerSteps(steps) <= AllRemaining(s.workers) <= 6 * |s.workers|
    decreases |steps|
  {
    hide Next, Enabled, OfWorker, AllRemaining;
    AtMostSix(s.workers);
    if steps != [] {
      DrainShrinks(s, steps[0]);
      DrainEnds(Next(s, steps[0]), steps[1..]);
    }
  }

  ghost predicate DrainsThroughout(s: State, steps: seq<Step>)
    decreases |steps|
  {
    s.pool == Draining && (steps != [] ==> Enabled(s, steps[0]) && DrainsThroughout(Next(s, steps[0]), steps[1..]))
  }

  lemma {:induction false} AtMostSix(ws: seq<Worker>)
    ensures AllRemaining(ws) <= 6 * |ws|
  {
    if ws != [] {
      AtMostSix(ws[1..]);
    }
  }

  // ---------------------------------------------------------------- a stop can always be completed

  /** Steps that a thread has left until it gives back the lock of an owner. */
  function LeftToUnlock(p: Place): nat { if p.Held? then 2 else if p.Flagged? then 1 else 0 }

  function AllLeft(closers: seq<Closer>): nat {
    if closers == [] then 0 else LeftToUnlock(closers[0].place) + AllLeft(closers[1..])
  }

  lemma {:induction false} LeftUpdate(closers: seq<Closer>, k: nat, x: Closer)
    requires k < |closers|
    ensures AllLeft(closers[k := x]) == AllLeft(closers) - LeftToUnlock(closers[k].place) + LeftToUnlock(x.place)
  {
    hide LeftToUnlock;
    if k == 0 {
      assert closers[k := x][1..] == closers[1..];
    } else {
      LeftUpdate(closers[1..], k - 1, x);
      assert closers[k := x][1..] == closers[1..][k - 1 := x];
    }
  }

  /** Every step that a draining pool waits for brings its end nearer. */
  lemma EndIsNearer(s: State, e: Step)
    requires s.pool == Draining && Enabled(s, e) && (OfWorker(e) || OfCloser(e))
    ensures Next(s, e).pool == Draining
    ensures Next(s, e).broken ||
            AllRemaining(Next(s, e).workers) + AllLeft(Next(s, e).closers) < AllRemaining(s.workers) + AllLeft(s.closers)
  {
    hide Referenced, AllRemaining, AllLeft;
    DrainShrinks(s, e);
    if OfCloser(e) {
      LeftUpdate(s.closers, e.k, Next(s, e).closers[e.k]);
    }
  }

  /** From every reachable state of a draining pool some run of steps that `stop` waits for ends it, with all workers
      gone and the queue empty, unless a thread meets an owner pointer that was taken away. */
  lemma {:induction false} DrainCompletes(s: State) returns (steps: seq<Step>)
    requires Reachable(s) && s.pool == Draining
    ensures Runs(s, steps)
    ensures var n := After(s, steps); n.broken || (n.pool == Off && n.workers == [] && n.queue == [])
    decreases if s.broken then 0 else 1 + AllRemaining(s.workers) + AllLeft(s.closers)
  {
    hide Reachable, Next, AllRemaining, AllLeft, OfWorker, OfCloser;
    if s.broken {
      steps := [];
    } else if w: nat :| w < |s.workers| && !s.workers[w].Exited? {
      var e := DrainNeverStuck(s, w);
      EndIsNearer(s, e);
      ReachableStep(s, e);
      var rest := DrainCompletes(Next(s, e));
      steps := [e] + rest;
      assert steps[0] == e && steps[1..] == rest;
    } else {
      LastStep(s);
      steps := [PoolStopEnds];
    }
  }

  lemma LastStep(s: State)
    requires Enabled(s, PoolStopEnds)
    ensures Runs(s, [PoolStopEnds])
    ensures var n := After(s, [PoolStopEnds]); n.pool == Off && n.workers == [] && n.queue == []
  {
    assert [PoolStopEnds][1..] == [];
  }

  /** The pool's `stop` can always be completed. */
  lemma StopCompletes(s: State) returns (steps: seq<Step>)
    requires Reachable(s) && !s.broken && s.pool == On
    ensures Runs(s, steps) && steps != [] && steps[0] == PoolDisable
    ensures var n := After(s, steps); n.broken || (n.pool == Off && n.workers == [] && n.queue == [])
  {
    hide Reachable;
    ReachableStep(s, PoolDisable);
    var rest := DrainCompletes(Next(s, PoolDisable));
    steps := [PoolDisable] + rest;
    assert steps[1..] == rest;
  }
}
