/** The order in which the pool takes and handles requests, and that it serves connections that stay open. */
module PoolService {
  import opened Text
  import opened RpcPool
  import opened PoolDrain

  // ---------------------------------------------------------------- requests are taken in the order of arrival

  /** The first request that has not left the queue. */
  function Frontier(s: State): int { |s.pushed| - |s.queue| }

  /** The queue holds the requests that came last, in the order in which they came. */
  ghost predicate InArrivalOrder(s: State) {
    |s.queue| <= |s.pushed| && forall i | 0 <= i < |s.queue| :: s.queue[i] == Frontier(s) + i
  }

  lemma OrderKept(s: State, e: Step)
    requires InArrivalOrder(s) && Enabled(s, e)
    ensures InArrivalOrder(Next(s, e))
  {
    hide Referenced;
  }

  lemma {:induction false} EveryRunInOrder(s: State, steps: seq<Step>)
    requires InArrivalOrder(s) && Runs(s, steps)
    ensures InArrivalOrder(After(s, steps))
    decreases |steps|
  {
    hide Next, Enabled, InArrivalOrder;
    if steps != [] {
      OrderKept(s, steps[0]);
      EveryRunInOrder(Next(s, steps[0]), steps[1..]);
    }
  }

  lemma ReachableInOrder(s: State)
    requires Reachable(s)
    ensures InArrivalOrder(s)
  {
    var connections: nat, steps: seq<Step> :| Runs(Init(connections), steps) && s == After(Init(connections), steps);
    EveryRunInOrder(Init(connections), steps);
  }

  /** A request that has left the queue came before every one that is still in it, whatever the connections. */
  lemma EarlierLeavesFirst(s: State, m: nat)
    requires Reachable(s) && m < |s.pushed| && m !in s.queue
    ensures forall i | 0 <= i < |s.queue| :: m < s.queue[i]
  {
    hide Reachable;
    ReachableInOrder(s);
    if Frontier(s) <= m {
      StillQueued(s, m);
    }
  }

  lemma StillQueued(s: State, m: nat)
    requires InArrivalOrder(s) && Frontier(s) <= m < |s.pushed|
    ensures m in s.queue
  {
    assert s.queue[m - Frontier(s)] == m;
  }

  /** The requests that workers take in a run. */
  ghost function Taken(s: State, steps: seq<Step>): seq<nat>
    requires Runs(s, steps)
    decreases |steps|
  {
    if steps == [] then []
    else
      var n := Next(s, steps[0]);
      (if steps[0].Pop? && n.workers[steps[0].w].Popped? then [n.workers[steps[0].w].m] else []) + Taken(n, steps[1..])
  }

  ghost predicate Ascends(q: seq<nat>) { forall i, j | 0 <= i < j < |q| :: q[i] < q[j] }

  /** A pop takes the request at the frontier; no step moves the frontier back. */
  lemma PopTakesNext(s: State, e: Step)
    requires InArrivalOrder(s) && Enabled(s, e)
    ensures Frontier(s) <= Frontier(Next(s, e))
    ensures e.Pop? ==>
              && Next(s, e).workers[e.w] == Popped(Frontier(s)) && Frontier(Next(s, e)) == Frontier(s) + 1
              && Next(s, e).queue == s.queue[1..]
  {
    hide Referenced;
  }

  /** In every run from every reachable state workers take requests in the order in which they were pushed. */
  lemma {:induction false} TakenInOrder(s: State, steps: seq<Step>)
    requires InArrivalOrder(s) && Runs(s, steps)
    ensures Ascends(Taken(s, steps)) && forall i | 0 <= i < |Taken(s, steps)| :: Frontier(s) <= Taken(s, steps)[i]
    decreases |steps|
  {
    hide Next, Enabled, InArrivalOrder;
    if steps != [] {
      OrderKept(s, steps[0]);
      PopTakesNext(s, steps[0]);
      TakenInOrder(Next(s, steps[0]), steps[1..]);
    }
  }

  // ---------------------------------------------------------------- and handled in that order by one worker only

  ghost predicate HoldsUnhandled(w: Worker) { w.Popped? || w.HasOwner? || w.Locked? }

  /** One worker at most: what it has handled came before what it holds, and that before what is queued. */
  ghost predicate OneByOne(s: State) {
    && |s.workers| <= 1 && InArrivalOrder(s) && Ascends(s.handled)
    && (forall i | 0 <= i < |s.handled| :: s.handled[i] < Frontier(s))
    && (s.workers != [] && HoldsUnhandled(s.workers[0]) ==>
          s.workers[0].m < Frontier(s) && forall i | 0 <= i < |s.handled| :: s.handled[i] < s.workers[0].m)
  }

  lemma OneByOneKept(s: State, e: Step)
    requires OneByOne(s) && Enabled(s, e) && (e.PoolStart? ==> e.threads == 1)
    ensures OneByOne(Next(s, e))
  {
    hide Referenced, InArrivalOrder;
    OrderKept(s, e);
    PopTakesNext(s, e);
  }

  /** A pool of one thread handles requests in the order in which they came. */
  lemma {:induction false} OneThreadInOrder(s: State, steps: seq<Step>)
    requires OneByOne(s) && Runs(s, steps) && forall i | 0 <= i < |steps| :: steps[i].PoolStart? ==> steps[i].threads == 1
    ensures OneByOne(After(s, steps)) && Ascends(After(s, steps).handled)
    decreases |steps|
  {
    hide Next, Enabled, Frontier, InArrivalOrder;
    if steps != [] {
      OneByOneKept(s, steps[0]);
      OneThreadInOrder(Next(s, steps[0]), steps[1..]);
    }
  }

  lemma InitOneByOne(connections: nat)
    ensures OneByOne(Init(connections)) && InArrivalOrder(Init(connections))
  {
  }

  /** With two threads or more, a request can be overtaken by a later one of the same connection. */
  lemma Overtaken(threads: nat)
    requires threads >= 2
    ensures exists s :: Reachable(s) && !s.broken && s.handled == [1, 0] && s.pushed == [Some(0), Some(0)]
                        && |s.workers| == threads && s.connections == [Some(0)]
  {
    hide Reachable;
    var s1 := BothTaken(threads);
    var s2 := Handles(s1, 1, 1);
    ReachableStep(s2, Handled(1));
    var s3 := Next(s2, Handled(1));
    ReachableStep(s3, Release(1));
    var s4 := Next(s3, Release(1));
    assert s4.owners == [Owner(0, Free, true)];
    var s5 := Handles(s4, 0, 0);
    assert s5.handled == [1, 0];
  }

  /** A worker that has taken a request of the only connection gets to handle it. */
  lemma Handles(s: State, w: nat, m: nat) returns (n: State)
    requires Reachable(s) && !s.broken && w < |s.workers| && s.workers[w] == Popped(m)
    requires m < |s.pushed| && s.pushed[m] == Some(0) && s.connections == [Some(0)] && s.owners == [Owner(0, Free, true)]
    ensures Reachable(n) && n == s.(workers := s.workers[w := Processing(m, 0)], owners := [Owner(0, ByWorker(w), true)],
                                    handled := s.handled + [m])
  {
    hide Reachable;
    assert s.connections[0] == Some(0);
    ReachableStep(s, GetOwner(w));
    var s1 := Next(s, GetOwner(w));
    assert s1.workers[w] == HasOwner(m, 0);
    ReachableStep(s1, LockOwner(w));
    var s2 := Next(s1, LockOwner(w));
    assert s2.owners == [Owner(0, ByWorker(w), true)];
    ReachableStep(s2, Check(w));
    n := Next(s2, Check(w));
    assert n.workers == s.workers[w := Processing(m, 0)];
  }

  /** Two requests of a started connection, taken by the first two of several workers. */
  lemma BothTaken(threads: nat) returns (n: State)
    requires threads >= 2
    ensures Reachable(n) && |n.workers| == threads && n.workers[0] == Popped(0) && n.workers[1] == Popped(1)
    ensures n == Init(1).(pool := On, workers := n.workers, connections := [Some(0)], owners := [Owner(0, Free, true)],
                          pushed := [Some(0), Some(0)])
  {
    hide Reachable;
    InitReachable(1);
    ReachableStep(Init(1), Start(0));
    var s1 := Next(Init(1), Start(0));
    assert s1.connections == [Some(0)];
    ReachableStep(s1, PoolStart(threads));
    var s2 := Next(s1, PoolStart(threads));
    ReachableStep(s2, Push(0));
    var s3 := Next(s2, Push(0));
    ReachableStep(s3, Push(0));
    var s4 := Next(s3, Push(0));
    assert s4.queue == [0, 1] && s4.pushed == [Some(0), Some(0)];
    ReachableStep(s4, Pop(0));
    var s5 := Next(s4, Pop(0));
    ReachableStep(s5, Pop(1));
    n := Next(s5, Pop(1));
    assert n.queue == [];
  }

  // ---------------------------------------------------------------- requests of open connections are served

  /** Connection `c` is served by the operational owner `t`, and nobody is closing it. None of its requests under
      this owner was dropped. */
  ghost predicate Open(s: State, c: nat, t: nat) {
    && c < |s.connections| && s.connections[c] == Some(t) && t < |s.owners| && s.owners[t].operational
    && (forall k | 0 <= k < |s.closers| :: s.closers[k].c == c ==> s.closers[k].place.Done?)
    && (forall i | 0 <= i < |s.dropped| :: NotOwned(s, s.dropped[i], t))
  }

  ghost predicate NotOwned(s: State, m: nat, t: nat) { m < |s.pushed| && s.pushed[m] != Some(t) }

  lemma WorkerKeepsOpen(s: State, e: Step, c: nat, t: nat)
    requires Inv(s) && Open(s, c, t) && Enabled(s, e) && (e.GetOwner? || e.Check?)
    ensures Open(Next(s, e), c, t)
  {
    hide ClosersOk, ConnectionsOk, OwnersOk, RequestsOk, PoolOk;
    assert WorkerOk(s, e.w);
    assert Referenced(s, t);
  }

  lemma CloserKeepsOpen(s: State, e: Step, c: nat, t: nat)
    requires Inv(s) && Open(s, c, t) && Enabled(s, e)
    requires e.CloseAsk? || e.CloseLock? || e.CloseFlag? || e.CloseUnlock? || e.CloseReset?
    ensures Open(Next(s, e), c, t)
  {
    hide Referenced, WorkersOk, RequestsOk, PoolOk;
    assert CloserOk(s, e.k) && ConnectionOk(s, c);
  }

  lemma OpenKept(s: State, e: Step, c: nat, t: nat)
    requires Inv(s) && Open(s, c, t) && Enabled(s, e) && !(e.Close? && e.c == c)
    ensures Open(Next(s, e), c, t)
  {
    hide Inv;
    match e {
      case GetOwner(_) => WorkerKeepsOpen(s, e, c, t);
      case Check(_) => WorkerKeepsOpen(s, e, c, t);
      case CloseAsk(_) => CloserKeepsOpen(s, e, c, t);
      case CloseLock(_) => CloserKeepsOpen(s, e, c, t);
      case CloseFlag(_) => CloserKeepsOpen(s, e, c, t);
      case CloseUnlock(_) => CloserKeepsOpen(s, e, c, t);
      case CloseReset(_) => CloserKeepsOpen(s, e, c, t);
      case _ =>
    }
  }

  /** No thread begins to stop or disconnect connection `c`. */
  ghost predicate NoClose(steps: seq<Step>, c: nat) { forall i | 0 <= i < |steps| :: !(steps[i].Close? && steps[i].c == c) }

  lemma {:induction false} OpenStays(s: State, steps: seq<Step>, c: nat, t: nat)
    requires Inv(s) && Open(s, c, t) && Runs(s, steps) && NoClose(steps, c)
    ensures Open(After(s, steps), c, t) && s.pushed <= After(s, steps).pushed
    decreases |steps|
  {
    hide Inv, Open, Next, Enabled;
    if steps != [] {
      InvKept(s, steps[0]);
      OpenKept(s, steps[0], c, t);
      GrowsOnly(s, steps[0]);
      OpenStays(Next(s, steps[0]), steps[1..], c, t);
    }
  }

  /** In a reachable state only requests that were pushed are dropped. */
  lemma DroppedWerePushed(s: State, i: nat)
    requires Reachable(s) && i < |s.dropped|
    ensures s.dropped[i] < |s.pushed|
  {
    hide Inv, Places;
    var connections: nat, steps: seq<Step> :| Runs(Init(connections), steps) && s == After(Init(connections), steps);
    InitConserved(connections, s.dropped[i]);
    EveryRunConserves(Init(connections), steps, s.dropped[i]);
    Present(s, i);
  }

  lemma Present(s: State, i: nat)
    requires i < |s.dropped|
    ensures Places(s, s.dropped[i]) > 0
  {
    hide Holders;
    assert s.dropped[i] in multiset(s.dropped);
  }

  /** A start opens its connection, unless threads that closed it before are still at it. */
  lemma StartOpens(s: State, c: nat)
    requires Reachable(s) && Enabled(s, Start(c))
    requires forall k | 0 <= k < |s.closers| :: s.closers[k].c == c ==> s.closers[k].place.Done?
    ensures Open(Next(s, Start(c)), c, |s.owners|)
  {
    hide Reachable, WorkersOk, ClosersOk, ConnectionsOk, OwnersOk, PoolOk;
    ReachableInv(s);
    forall i: nat | i < |s.dropped| ensures NotOwned(s, s.dropped[i], |s.owners|) {
      DroppedWerePushed(s, i);
    }
  }

  lemma PushInOpen(s: State, c: nat, t: nat)
    requires Open(s, c, t) && Enabled(s, Push(c))
    ensures Next(s, Push(c)).pushed == s.pushed + [Some(t)]
  {
  }

  /** A request that comes in while its connection is open is not dropped as long as nobody stops or disconnects
      that connection: in every continuation it is queued, held by a worker or handled, unless a stop of the whole
      pool has flushed it. */
  lemma OpenIsServed(s: State, c: nat, t: nat, steps: seq<Step>)
    requires Reachable(s) && Open(s, c, t) && Enabled(s, Push(c)) && Runs(Next(s, Push(c)), steps) && NoClose(steps, c)
    ensures var m, n := |s.pushed|, After(Next(s, Push(c)), steps);
            && Count(n.dropped, m) == 0
            && Count(n.queue, m) + Holders(n.workers, m) + Count(n.handled, m) + Count(n.flushed, m) == 1
            && ((forall i | 0 <= i < |steps| :: !steps[i].PoolStopEnds?) ==> Count(n.flushed, m) == 0)
  {
    hide Reachable, Inv, Next, Enabled, Open, Count, Holders, Runs, After;
    var m, s1 := |s.pushed|, Next(s, Push(c));
    ReachableStep(s, Push(c));
    ReachableRun(s1, steps);
    ReachableInv(s);
    PushInOpen(s, c, t);
    OpenKept(s, Push(c), c, t);
    ReachableInv(s1);
    OpenStays(s1, steps, c, t);
    var n := After(s1, steps);
    assert n.pushed[m] == s1.pushed[m];
    NeverDropped(n, c, t, m);
    ExactlyOnePlace(n, m);
    NewNotFlushed(s, c);
    if forall i | 0 <= i < |steps| :: !steps[i].PoolStopEnds? {
      FlushedByStop(s1, steps);
    }
  }

  lemma NewNotFlushed(s: State, c: nat)
    requires Reachable(s) && Enabled(s, Push(c))
    ensures Count(Next(s, Push(c)).flushed, |s.pushed|) == 0
  {
    hide Inv, Count, Holders;
    var connections: nat, steps: seq<Step> :| Runs(Init(connections), steps) && s == After(Init(connections), steps);
    InitConserved(connections, |s.pushed|);
    EveryRunConserves(Init(connections), steps, |s.pushed|);
  }

  lemma OnlyStopFlushes(s: State, e: Step)
    requires Enabled(s, e) && !e.PoolStopEnds?
    ensures Next(s, e).flushed == s.flushed
  {
    hide Referenced;
  }

  lemma {:induction false} FlushedByStop(s: State, steps: seq<Step>)
    requires Runs(s, steps) && forall i | 0 <= i < |steps| :: !steps[i].PoolStopEnds?
    ensures After(s, steps).flushed == s.flushed
    decreases |steps|
  {
    hide Next, Enabled;
    if steps != [] {
      OnlyStopFlushes(s, steps[0]);
      FlushedByStop(Next(s, steps[0]), steps[1..]);
    }
  }

  lemma NeverDropped(n: State, c: nat, t: nat, m: nat)
    requires Open(n, c, t) && m < |n.pushed| && n.pushed[m] == Some(t)
    ensures Count(n.dropped, m) == 0
  {
    forall i | 0 <= i < |n.dropped| ensures n.dropped[i] != m {
      assert NotOwned(n, n.dropped[i], t);
    }
  }

  lemma {:induction false} ReachableRun(s: State, steps: seq<Step>)
    requires Reachable(s) && Runs(s, steps)
    ensures Reachable(After(s, steps))
    decreases |steps|
  {
    hide Reachable, Next, Enabled;
    if steps != [] {
      ReachableStep(s, steps[0]);
      ReachableRun(Next(s, steps[0]), steps[1..]);
    }
  }
}
