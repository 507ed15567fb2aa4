/** `RpcClient::start` and `RpcClient::stop` run by any number of threads. A stop that finds the mutex taken returns
    at once; `start` does not take the mutex. */
module RpcClient {
  import opened Text

  /** A thread inside `stop`. */
  datatype Stopper =
    | Outside
    | Locked          // try_lock succeeded
    | FoundStarted    // m_started was true
    | Cut             // m_websocket.disconnect() was called
    | Ended           // RpcBase::stop() returned
    | Unlocking

  /** A thread inside `start`. */
  datatype Starter =
    | Away
    | FoundStopped    // m_started was false
    | Connected       // m_websocket.connect() returned true
    | BaseStarted     // RpcBase::start() returned

  /** `starts` counts successful starts and `disconnects` the calls of `disconnect`. */
  datatype State = State(
    started: bool, holder: Option<nat>, stoppers: seq<Stopper>, starters: seq<Starter>, starts: nat, disconnects: nat)

  datatype Step =
    | TryLock(i: nat)
    | ReadStarted(i: nat)
    | Disconnect(i: nat)
    | StopBase(i: nat)
    | ClearStarted(i: nat)
    | Unlock(i: nat)
    | TestStarted(j: nat)
    | Connect(j: nat, ok: bool)
    | StartBase(j: nat)
    | SetStarted(j: nat)

  function Init(stoppers: nat, starters: nat): State {
    State(false, None, seq(stoppers, _ => Outside), seq(starters, _ => Away), 0, 0)
  }

  predicate Enabled(s: State, e: Step) {
    match e
    case TryLock(i) => i < |s.stoppers| && s.stoppers[i] == Outside
    case ReadStarted(i) => i < |s.stoppers| && s.stoppers[i] == Locked
    case Disconnect(i) => i < |s.stoppers| && s.stoppers[i] == FoundStarted
    case StopBase(i) => i < |s.stoppers| && s.stoppers[i] == Cut
    case ClearStarted(i) => i < |s.stoppers| && s.stoppers[i] == Ended
    case Unlock(i) => i < |s.stoppers| && s.stoppers[i] == Unlocking
    case TestStarted(j) => j < |s.starters| && s.starters[j] == Away
    case Connect(j, _) => j < |s.starters| && s.starters[j] == FoundStopped
    case StartBase(j) => j < |s.starters| && s.starters[j] == Connected
    case SetStarted(j) => j < |s.starters| && s.starters[j] == BaseStarted
  }

  function At(s: State, i: nat, pc: Stopper): State
    requires i < |s.stoppers|
  {
    s.(stoppers := s.stoppers[i := pc])
  }

  function Next(s: State, e: Step): State
    requires Enabled(s, e)
  {
    match e
    case TryLock(i) => if s.holder.None? then At(s, i, Locked).(holder := Some(i)) else s
    case ReadStarted(i) => At(s, i, if s.started then FoundStarted else Unlocking)
    case Disconnect(i) => At(s, i, Cut).(disconnects := s.disconnects + 1)
    case StopBase(i) => At(s, i, Ended)
    case ClearStarted(i) => At(s, i, Unlocking).(started := false)
    case Unlock(i) => At(s, i, Outside).(holder := None)
    case TestStarted(j) => if s.started then s else s.(starters := s.starters[j := FoundStopped])
    case Connect(j, ok) => s.(starters := s.starters[j := if ok then Connected else Away])
    case StartBase(j) => s.(starters := s.starters[j := BaseStarted])
    case SetStarted(j) => s.(starters := s.starters[j := Away], started := true, starts := s.starts + 1)
  }

  ghost predicate Runs(s: State, steps: seq<Step>)
    decreases |steps|
  {
    steps == [] || (Enabled(s, steps[0]) && Runs(Next(s, steps[0]), steps[1..]))
  }

  ghost function After(s: State, steps: seq<Step>): State
    requires Runs(s, steps)
    decreases |steps|
  {
    if steps == [] then s else After(Next(s, steps[0]), steps[1..])
  }

  /** The holder of the mutex has called `disconnect` and not yet cleared `m_started`. */
  predicate Cutting(s: State) {
    s.holder.Some? && s.holder.value < |s.stoppers| && (s.stoppers[s.holder.value] == Cut || s.stoppers[s.holder.value] == Ended)
  }

  /** One thread at a time is in the guarded part of `stop`; a start that is still standing has not been disconnected. */
  ghost predicate Inv(s: State) {
    && (forall i | 0 <= i < |s.stoppers| :: s.stoppers[i] != Outside ==> s.holder == Some(i))
    && (forall i | 0 <= i < |s.stoppers| :: s.stoppers[i] == FoundStarted ==> s.started)
    && s.disconnects + (if s.started && !Cutting(s) then 1 else 0) <= s.starts
  }

  lemma InvKept(s: State, e: Step)
    requires Inv(s) && Enabled(s, e)
    ensures Inv(Next(s, e))
  {
  }

  /** Racing stops perform at most one disconnect per successful start. */
  lemma {:induction false} DisconnectsPerStart(s: State, steps: seq<Step>)
    requires Inv(s) && Runs(s, steps)
    ensures After(s, steps).disconnects <= After(s, steps).starts && Inv(After(s, steps))
    decreases |steps|
  {
    hide Next, Enabled;
    if steps != [] {
      InvKept(s, steps[0]);
      DisconnectsPerStart(Next(s, steps[0]), steps[1..]);
    }
  }

  /** From the initial state, in every interleaving. */
  lemma NeverMoreDisconnects(stoppers: nat, starters: nat, steps: seq<Step>)
    requires Runs(Init(stoppers, starters), steps)
    ensures After(Init(stoppers, starters), steps).disconnects <= After(Init(stoppers, starters), steps).starts
  {
    DisconnectsPerStart(Init(stoppers, starters), steps);
  }

  /** While a stop is under way no other one gets past the mutex. */
  lemma OneStopAtATime(s: State, steps: seq<Step>, i: nat, j: nat)
    requires Inv(s) && Runs(s, steps)
    requires i < |After(s, steps).stoppers| && j < |After(s, steps).stoppers|
    requires After(s, steps).stoppers[i] != Outside && After(s, steps).stoppers[j] != Outside
    ensures i == j
  {
    DisconnectsPerStart(s, steps);
  }

  // ---------------------------------------------------------------- when every start is disconnected

  /** With one starting thread: a start under way has found `m_started` false, and every successful start but one that
      still stands was disconnected. */
  ghost predicate Matched(s: State) {
    && |s.starters| <= 1 && (s.starters != [] && s.starters[0] != Away ==> !s.started) && (Cutting(s) ==> s.started)
    && s.starts == s.disconnects + if s.started && !Cutting(s) then 1 else 0
  }

  lemma MatchedKept(s: State, e: Step)
    requires Inv(s) && Matched(s) && Enabled(s, e)
    ensures Matched(Next(s, e))
  {
  }

  /** If one thread at most starts the client, every successful start is followed by exactly one disconnect, once a
      stop gets through: in every interleaving of any number of stops the two counts differ by the start that stands. */
  lemma {:induction false} EveryStartDisconnected(s: State, steps: seq<Step>)
    requires Inv(s) && Matched(s) && Runs(s, steps)
    ensures var n := After(s, steps); Matched(n) && (!n.started ==> n.disconnects == n.starts)
    decreases |steps|
  {
    hide Next, Enabled, Inv, Cutting;
    if steps != [] {
      InvKept(s, steps[0]);
      MatchedKept(s, steps[0]);
      EveryStartDisconnected(Next(s, steps[0]), steps[1..]);
    }
  }

  lemma InitMatched(stoppers: nat)
    ensures Inv(Init(stoppers, 1)) && Matched(Init(stoppers, 1))
  {
  }

  /** The start has connected and not yet set `m_started`. */
  function UnderWay(x: Starter): nat { if x == Connected || x == BaseStarted then 1 else 0 }

  function AllUnderWay(starters: seq<Starter>): nat {
    if starters == [] then 0 else UnderWay(starters[0]) + AllUnderWay(starters[1..])
  }

  /** How often `connect` has returned true. */
  function Connects(steps: seq<Step>): nat {
    if steps == [] then 0 else (if steps[0].Connect? && steps[0].ok then 1 else 0) + Connects(steps[1..])
  }

  lemma {:induction false} UnderWayUpdate(starters: seq<Starter>, j: nat, x: Starter)
    requires j < |starters|
    ensures AllUnderWay(starters[j := x]) == AllUnderWay(starters) - UnderWay(starters[j]) + UnderWay(x)
  {
    hide UnderWay;
    if j == 0 {
      assert starters[j := x][1..] == starters[1..];
    } else {
      UnderWayUpdate(starters[1..], j - 1, x);
      assert starters[j := x][1..] == starters[1..][j - 1 := x];
    }
  }

  lemma ConnectStep(s: State, e: Step)
    requires Enabled(s, e)
    ensures Next(s, e).starts + AllUnderWay(Next(s, e).starters)
            == s.starts + AllUnderWay(s.starters) + if e.Connect? && e.ok then 1 else 0
  {
    hide AllUnderWay;
    if e.TestStarted? || e.Connect? || e.StartBase? || e.SetStarted? {
      UnderWayUpdate(s.starters, e.j, Next(s, e).starters[e.j]);
    }
  }

  /** A start is successful exactly if its connect was: over every run each successful connect has led to one start or
      is about to. */
  lemma {:induction false} StartsAreConnects(s: State, steps: seq<Step>)
    requires Runs(s, steps)
    ensures var n := After(s, steps);
            n.starts + AllUnderWay(n.starters) == s.starts + AllUnderWay(s.starters) + Connects(steps)
    decreases |steps|
  {
    hide Next, Enabled, AllUnderWay;
    if steps != [] {
      ConnectStep(s, steps[0]);
      StartsAreConnects(Next(s, steps[0]), steps[1..]);
    }
  }

  /** Some run leads from `s` to `t`. */
  ghost predicate Leads(s: State, t: State) {
    exists steps :: Runs(s, steps) && After(s, steps) == t
  }

  lemma {:induction false} RunMore(s: State, steps: seq<Step>, e: Step)
    requires Runs(s, steps) && Enabled(After(s, steps), e)
    ensures Runs(s, steps + [e]) && After(s, steps + [e]) == Next(After(s, steps), e)
    decreases |steps|
  {
    hide Next, Enabled;
    if steps == [] {
      assert [e][1..] == [];
    } else {
      RunMore(Next(s, steps[0]), steps[1..], e);
      assert (steps + [e])[1..] == steps[1..] + [e];
    }
  }

  lemma LeadsStep(s: State, t: State, e: Step)
    requires Leads(s, t) && Enabled(t, e)
    ensures Leads(s, Next(t, e))
  {
    hide Next, Enabled;
    var steps :| Runs(s, steps) && After(s, steps) == t;
    RunMore(s, steps, e);
  }

  /** Two threads that start at once can both succeed; the next stop then disconnects once for both. */
  lemma RacingStarts()
    ensures Leads(Init(1, 2), State(false, None, [Outside], [Away, Away], 2, 1))
  {
    hide Leads;
    var s := BothStart(Init(1, 2));
    LeadsStep(Init(1, 2), s, TryLock(0));
    var s1 := Next(s, TryLock(0));
    LeadsStep(Init(1, 2), s1, ReadStarted(0));
    var s2 := Next(s1, ReadStarted(0));
    LeadsStep(Init(1, 2), s2, Disconnect(0));
    var s3 := Next(s2, Disconnect(0));
    LeadsStep(Init(1, 2), s3, StopBase(0));
    var s4 := Next(s3, StopBase(0));
    LeadsStep(Init(1, 2), s4, ClearStarted(0));
    var s5 := Next(s4, ClearStarted(0));
    LeadsStep(Init(1, 2), s5, Unlock(0));
    assert Next(s5, Unlock(0)) == State(false, None, [Outside], [Away, Away], 2, 1);
  }

  lemma BothStart(s: State) returns (n: State)
    requires s == Init(1, 2)
    ensures Leads(s, n) && n == State(true, None, [Outside], [Away, Away], 2, 0)
  {
    hide Leads;
    LeadsSelf(s);
    LeadsStep(s, s, TestStarted(0));
    var s1 := Next(s, TestStarted(0));
    LeadsStep(s, s1, TestStarted(1));
    var s2 := Next(s1, TestStarted(1));
    assert s2 == State(false, None, [Outside], [FoundStopped, FoundStopped], 0, 0);
    LeadsStep(s, s2, Connect(0, true));
    var s3 := Next(s2, Connect(0, true));
    LeadsStep(s, s3, Connect(1, true));
    var s4 := Next(s3, Connect(1, true));
    assert s4 == State(false, None, [Outside], [Connected, Connected], 0, 0);
    LeadsStep(s, s4, StartBase(0));
    var s5 := Next(s4, StartBase(0));
    LeadsStep(s, s5, StartBase(1));
    var s6 := Next(s5, StartBase(1));
    assert s6 == State(false, None, [Outside], [BaseStarted, BaseStarted], 0, 0);
    LeadsStep(s, s6, SetStarted(0));
    var s7 := Next(s6, SetStarted(0));
    LeadsStep(s, s7, SetStarted(1));
    n := Next(s7, SetStarted(1));
    assert n == State(true, None, [Outside], [Away, Away], 2, 0);
  }

  lemma LeadsSelf(s: State)
    ensures Leads(s, s)
  {
    assert Runs(s, []) && After(s, []) == s;
  }
}
