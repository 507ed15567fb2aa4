/** `RpcBase::call` as any number of threads run it against one connection object, while result frames of any id
    arrive at any time and the connection is stopped and started again. Every access to a shared field is one step. */
module CallProtocol {
  import opened Text

  /** Where a thread is inside `call`. */
  datatype Pc =
    | Outside
    | Entered
    | Holding
    | Serialized(id: nat, session: nat)
    | Sent(ix: nat)
    | Waiting(ix: nat, expected: nat, session: nat)
    | Finishing

  /** A CALL that was put on the wire: its id, the session in which it was serialized and its thread. */
  datatype Sending = Sending(caller: nat, id: nat, session: nat)

  /** A result frame that was queued, and how many CALLs had gone out by then. */
  datatype Arrival = Arrival(id: string, sent: nat)

  /** A call that returned true: its thread, its CALL, the id it waited for, the session in which it read that
      id, and the frame it hands back. */
  datatype Completion = Completion(caller: nat, ix: nat, expected: nat, session: nat, arrival: nat)

  /** `queue` holds positions in `arrivals`; `arrivals`, `wire` and `done` are histories; `session` counts starts. */
  datatype State = State(
    pcs: seq<Pc>, holder: Option<nat>, tid: nat, session: nat, started: bool,
    queue: seq<nat>, enabled: bool,
    arrivals: seq<Arrival>, wire: seq<Sending>, done: seq<Completion>)

  datatype Step =
    | Enter(c: nat)                        // isConnected() is true
    | Acquire(c: nat)                      // lock m_call_mutex
    | Serialize(c: nat)                    // print m_transaction_id into the message
    | Send(c: nat, out: bool, ok: bool)    // send(msg); a failed send may still have reached the wire
    | ReadExpected(c: nat)                 // print m_transaction_id into expected_id
    | Pop(c: nat)                          // take the head of m_results_queue and compare ids
    | GiveUp(c: nat)                       // the pop times out or the queue is disabled
    | Finish(c: nat)                       // m_transaction_id++, unlock, return
    | Arrive(id: string)                   // decodeCallResult or decodeCallError queues a frame
    | Disable                              // stop or processDisconnected disables the queue
    | StopEnds                             // stop flushes the queue
    | Start(r: nat)                        // start draws a new m_transaction_id and enables the queue

  function Init(callers: nat, tid: nat): State {
    State(seq(callers, _ => Outside), None, tid, 0, false, [], true, [], [], [])
  }

  predicate Enabled(s: State, e: Step) {
    match e
    case Enter(c) => c < |s.pcs| && s.pcs[c].Outside?
    case Acquire(c) => c < |s.pcs| && s.pcs[c].Entered? && s.holder.None?
    case Serialize(c) => c < |s.pcs| && s.pcs[c].Holding?
    case Send(c, out, ok) => c < |s.pcs| && s.pcs[c].Serialized? && (ok ==> out)
    case ReadExpected(c) => c < |s.pcs| && s.pcs[c].Sent?
    case Pop(c) => c < |s.pcs| && s.pcs[c].Waiting? && s.enabled && s.queue != [] && s.queue[0] < |s.arrivals|
    case GiveUp(c) => c < |s.pcs| && s.pcs[c].Waiting?
    case Finish(c) => c < |s.pcs| && s.pcs[c].Finishing?
    case Arrive(_) => true
    case Disable => s.started
    case StopEnds => s.started && !s.enabled
    case Start(_) => !s.started
  }

  function At(s: State, c: nat, pc: Pc): State
    requires c < |s.pcs|
  {
    s.(pcs := s.pcs[c := pc])
  }

  /** A caller takes the head of the queue: the frame is kept if its id is the expected one and dropped if not. */
  function PopHead(s: State, c: nat): State
    requires Enabled(s, Pop(c))
  {
    var w, a := s.pcs[c], s.queue[0];
    if s.arrivals[a].id == Digits(w.expected) then
      At(s, c, Finishing).(queue := s.queue[1..], done := s.done + [Completion(c, w.ix, w.expected, w.session, a)])
    else s.(queue := s.queue[1..])
  }

  function Next(s: State, e: Step): State
    requires Enabled(s, e)
  {
    match e
    case Enter(c) => At(s, c, Entered)
    case Acquire(c) => At(s, c, Holding).(holder := Some(c))
    case Serialize(c) => At(s, c, Serialized(s.tid, s.session))
    case Send(c, out, ok) =>
      var w := s.pcs[c];
      At(s, c, if ok then Sent(|s.wire|) else Finishing)
        .(wire := if out then s.wire + [Sending(c, w.id, w.session)] else s.wire)
    case ReadExpected(c) => At(s, c, Waiting(s.pcs[c].ix, s.tid, s.session))
    case Pop(c) => PopHead(s, c)
    case GiveUp(c) => At(s, c, Finishing)
    case Finish(c) => At(s, c, Outside).(tid := s.tid + 1, holder := None)
    case Arrive(id) =>
      s.(arrivals := s.arrivals + [Arrival(id, |s.wire|)], queue := s.queue + [|s.arrivals|])
    case Disable => s.(enabled := false)
    case StopEnds => s.(queue := [], started := false)
    case Start(r) => s.(tid := r, session := s.session + 1, started := true, enabled := true)
  }

  ghost predicate Runs(s: State, steps: seq<Step>)
    decreases |steps|
  {
    steps == [] || (Enabled(s, steps[0]) && Runs(Next(s, steps[0]), steps[1..]))
  }

  ghost function After(s: State, steps: seq<Step>): State
    requires Runs(s, steps)
    decreases |steps|
  {
    if steps == [] then s else After(Next(s, steps[0]), steps[1..])
  }

  // ---------------------------------------------------------------- the invariant

  /** The thread is between locking and unlocking the call mutex. */
  predicate InCall(pc: Pc) { !pc.Outside? && !pc.Entered? }

  /** The thread has tried to send its CALL and not yet counted it. */
  predicate PastSend(pc: Pc) { pc.Sent? || pc.Waiting? || pc.Finishing? }

  ghost predicate Exclusive(s: State) {
    && (forall c | 0 <= c < |s.pcs| :: InCall(s.pcs[c]) ==> s.holder == Some(c))
    && (s.holder.Some? ==> s.holder.value < |s.pcs| && InCall(s.pcs[s.holder.value]))
  }

  /** Ids of the CALLs of session `n` on the wire are below `bound`. */
  ghost predicate Below(wire: seq<Sending>, n: nat, bound: nat) {
    forall k | 0 <= k < |wire| :: wire[k].session == n ==> wire[k].id < bound
  }

  /** A call in progress: what it has printed agrees with the shared id unless the connection was restarted. */
  ghost predicate PcOk(s: State, c: nat) {
    c < |s.pcs| &&
    match s.pcs[c]
    case Serialized(id, n) =>
      && n <= s.session && (n == s.session ==> id == s.tid) && Below(s.wire, n, id)
      && forall k | 0 <= k < |s.wire| :: s.wire[k].session <= n
    case Sent(ix) => OwnCall(s, c, ix) && (s.wire[ix].session == s.session ==> s.wire[ix].id == s.tid)
    case Waiting(ix, expected, n) =>
      && OwnCall(s, c, ix)
      && s.wire[ix].session <= n <= s.session
      && (s.wire[ix].session == n ==> expected == s.wire[ix].id)
    case _ => true
  }

  /** The CALL at `ix` is the thread's own, the last on the wire, and not completed. */
  ghost predicate OwnCall(s: State, c: nat, ix: nat) {
    && ix + 1 == |s.wire| && s.wire[ix].caller == c && s.wire[ix].session <= s.session
    && forall d | 0 <= d < |s.done| :: s.done[d].ix < ix
  }

  ghost predicate PcsOk(s: State) { forall c: nat | c < |s.pcs| :: PcOk(s, c) }

  ghost predicate Increasing(wire: seq<Sending>) {
    forall j, k | 0 <= j < k < |wire| ::
      && wire[j].session <= wire[k].session
      && (wire[j].session == wire[k].session ==> wire[j].id < wire[k].id)
  }

  /** Sessions on the wire never go back, ids increase within a session and are not above the next id. */
  ghost predicate WireOk(s: State) {
    && Increasing(s.wire)
    && (forall k | 0 <= k < |s.wire| :: s.wire[k].session <= s.session)
    && Below(s.wire, s.session, s.tid + 1)
    && ((forall c | 0 <= c < |s.pcs| :: !PastSend(s.pcs[c])) ==> Below(s.wire, s.session, s.tid))
  }

  ghost predicate Ascending(q: seq<nat>, bound: nat) {
    && (forall i, j | 0 <= i < j < |q| :: q[i] < q[j])
    && (forall i | 0 <= i < |q| :: q[i] < bound)
  }

  /** What a completed call has handed back. */
  ghost predicate CompletionOk(s: State, d: Completion) {
    && d.ix < |s.wire| && s.wire[d.ix].caller == d.caller
    && d.arrival < |s.arrivals| && s.arrivals[d.arrival].id == Digits(d.expected)
    && s.wire[d.ix].session <= d.session
    && (s.wire[d.ix].session == d.session ==> d.expected == s.wire[d.ix].id)
  }

  ghost predicate DoneOk(s: State) {
    && Ascending(s.queue, |s.arrivals|)
    && (forall i | 0 <= i < |s.done| :: CompletionOk(s, s.done[i]))
    && (forall i, j | 0 <= i < |s.done| && 0 <= j < |s.queue| :: s.done[i].arrival < s.queue[j])
    && (forall i, j | 0 <= i < j < |s.done| :: s.done[i].arrival < s.done[j].arrival && s.done[i].ix < s.done[j].ix)
    && (forall a | 0 <= a < |s.arrivals| :: s.arrivals[a].sent <= |s.wire|)
  }

  ghost predicate Inv(s: State) { Exclusive(s) && PcsOk(s) && WireOk(s) && DoneOk(s) }

  // ---------------------------------------------------------------- every step keeps it

  lemma ExclusiveKept(s: State, e: Step)
    requires Exclusive(s) && Enabled(s, e)
    ensures Exclusive(Next(s, e))
  {
  }

  lemma WireAppend(wire: seq<Sending>, x: Sending)
    requires Increasing(wire) && Below(wire, x.session, x.id)
    requires forall k | 0 <= k < |wire| :: wire[k].session <= x.session
    ensures Increasing(wire + [x])
  {
  }

  lemma SendKeepsWire(s: State, c: nat, out: bool, ok: bool)
    requires Enabled(s, Send(c, out, ok)) && PcOk(s, c) && WireOk(s)
    ensures WireOk(Next(s, Send(c, out, ok)))
  {
    hide Increasing;
    var w, n := s.pcs[c], Next(s, Send(c, out, ok));
    WireAppend(s.wire, Sending(c, w.id, w.session));
    assert PastSend(n.pcs[c]);
  }

  lemma CountKeepsWire(s: State, e: Step)
    requires WireOk(s) && Enabled(s, e) && (e.Start? || e.Finish?)
    ensures WireOk(Next(s, e))
  {
    hide Increasing;
  }

  /** Steps that leave the wire alone and do not take a thread out of its waiting for the count. */
  lemma PcKeepsWire(s: State, n: State)
    requires WireOk(s) && n.wire == s.wire && n.session == s.session && n.tid == s.tid && |n.pcs| == |s.pcs|
    requires forall c | 0 <= c < |s.pcs| :: PastSend(s.pcs[c]) ==> PastSend(n.pcs[c])
    ensures WireOk(n)
  {
    hide Increasing, Below;
  }

  lemma WireKept(s: State, e: Step)
    requires PcsOk(s) && WireOk(s) && Enabled(s, e)
    ensures WireOk(Next(s, e))
  {
    hide WireOk, PcOk;
    match e {
      case Send(c, out, ok) => SendKeepsWire(s, c, out, ok);
      case Start(_) => CountKeepsWire(s, e);
      case Finish(_) => CountKeepsWire(s, e);
      case _ => PcKeepsWire(s, Next(s, e));
    }
  }

  lemma DropKeepsDone(s: State, n: State)
    requires DoneOk(s) && s.queue != []
    requires n.arrivals == s.arrivals && n.done == s.done && n.wire == s.wire && n.queue == s.queue[1..]
    ensures DoneOk(n)
  {
  }

  lemma TakeKeepsDone(s: State, n: State, d: Completion)
    requires DoneOk(s) && s.queue != [] && n.arrivals == s.arrivals && n.wire == s.wire
    requires n.queue == s.queue[1..] && n.done == s.done + [d]
    requires CompletionOk(s, d) && d.arrival == s.queue[0] && forall i | 0 <= i < |s.done| :: s.done[i].ix < d.ix
    ensures DoneOk(n)
  {
  }

  lemma PopKeepsDone(s: State, c: nat)
    requires DoneOk(s) && Enabled(s, Pop(c)) && PcOk(s, c)
    ensures DoneOk(Next(s, Pop(c)))
  {
    hide DoneOk;
    var w, a, n := s.pcs[c], s.queue[0], Next(s, Pop(c));
    if s.arrivals[a].id == Digits(w.expected) {
      TakeKeepsDone(s, n, Completion(c, w.ix, w.expected, w.session, a));
    } else {
      DropKeepsDone(s, n);
    }
  }

  lemma ArriveKeepsDone(s: State, id: string)
    requires DoneOk(s)
    ensures DoneOk(Next(s, Arrive(id)))
  {
  }

  /** Steps that leave the queue and the frames alone, or empty the queue. */
  lemma OtherKeepsDone(s: State, n: State)
    requires DoneOk(s) && n.arrivals == s.arrivals && n.done == s.done && s.wire <= n.wire
    requires n.queue == s.queue || n.queue == []
    ensures DoneOk(n)
  {
  }

  lemma DoneKept(s: State, e: Step)
    requires PcsOk(s) && DoneOk(s) && Enabled(s, e)
    ensures DoneOk(Next(s, e))
  {
    hide DoneOk, PcOk;
    match e {
      case Pop(c) => PopKeepsDone(s, c);
      case Arrive(id) => ArriveKeepsDone(s, id);
      case _ => OtherKeepsDone(s, Next(s, e));
    }
  }

  /** A thread that stands still is not affected by steps that leave the wire and the completions alone. */
  lemma StillPc(s: State, n: State, c: nat)
    requires c < |s.pcs| && PcOk(s, c) && |n.pcs| == |s.pcs| && n.pcs[c] == s.pcs[c]
    requires InCall(s.pcs[c]) ==>
      && n.wire == s.wire && n.done == s.done && s.session <= n.session
      && (n.session == s.session ==> n.tid == s.tid)
    ensures PcOk(n, c)
  {
  }

  lemma MovedPc(s: State, e: Step, c: nat)
    requires Enabled(s, e) && c < |s.pcs| && PcOk(s, c) && WireOk(s) && DoneOk(s)
    requires Next(s, e).pcs[c] != s.pcs[c]
    requires PastSend(s.pcs[c]) || forall d | 0 <= d < |s.pcs| :: !PastSend(s.pcs[d])
    ensures PcOk(Next(s, e), c)
  {
    hide Ascending, Increasing;
  }

  lemma PcsKept(s: State, e: Step)
    requires Inv(s) && Enabled(s, e)
    ensures PcsOk(Next(s, e))
  {
    hide WireOk, DoneOk, PcOk;
    var n := Next(s, e);
    forall c: nat | c < |n.pcs| ensures PcOk(n, c) {
      assert PcOk(s, c);
      if n.pcs[c] == s.pcs[c] {
        StillPc(s, n, c);
      } else {
        if InCall(s.pcs[c]) {
          assert forall d | 0 <= d < |s.pcs| :: PastSend(s.pcs[d]) ==> d == c;
          MovedPc(s, e, c);
        } else {
          StartPc(s, e, c);
        }
      }
    }
  }

  lemma StartPc(s: State, e: Step, c: nat)
    requires Enabled(s, e) && c < |s.pcs| && !InCall(s.pcs[c]) && Next(s, e).pcs[c] != s.pcs[c]
    ensures PcOk(Next(s, e), c)
  {
  }

  lemma InvKept(s: State, e: Step)
    requires Inv(s) && Enabled(s, e)
    ensures Inv(Next(s, e))
  {
    hide Exclusive, PcsOk, WireOk, DoneOk, Next;
    ExclusiveKept(s, e);
    WireKept(s, e);
    DoneKept(s, e);
    PcsKept(s, e);
  }

  /** The invariant holds after every run, whatever the threads, the peer and the connection do. */
  lemma {:induction false} EveryRunKeeps(s: State, steps: seq<Step>)
    requires Inv(s) && Runs(s, steps)
    ensures Inv(After(s, steps))
    decreases |steps|
  {
    hide Inv, Next, Enabled;
    if steps != [] {
      InvKept(s, steps[0]);
      EveryRunKeeps(Next(s, steps[0]), steps[1..]);
    }
  }

  /** Some run leads from `s` to `t`. */
  ghost predicate Leads(s: State, t: State) {
    exists steps :: Runs(s, steps) && After(s, steps) == t
  }

  ghost predicate Reachable(s: State) {
    exists callers: nat, tid: nat :: Leads(Init(callers, tid), s)
  }

  lemma ReachableInv(s: State)
    requires Reachable(s)
    ensures Inv(s)
  {
    var callers: nat, tid: nat :| Leads(Init(callers, tid), s);
    assert Inv(Init(callers, tid));
    var steps :| Runs(Init(callers, tid), steps) && After(Init(callers, tid), steps) == s;
    EveryRunKeeps(Init(callers, tid), steps);
  }

  lemma {:induction false} RunMore(s: State, steps: seq<Step>, e: Step)
    requires Runs(s, steps) && Enabled(After(s, steps), e)
    ensures Runs(s, steps + [e]) && After(s, steps + [e]) == Next(After(s, steps), e)
    decreases |steps|
  {
    hide Next, Enabled;
    if steps == [] {
      assert [e][1..] == [];
    } else {
      RunMore(Next(s, steps[0]), steps[1..], e);
      assert (steps + [e])[1..] == steps[1..] + [e];
    }
  }

  lemma LeadsStep(s: State, t: State, e: Step)
    requires Leads(s, t) && Enabled(t, e)
    ensures Leads(s, Next(t, e))
  {
    hide Next, Enabled;
    var steps :| Runs(s, steps) && After(s, steps) == t;
    RunMore(s, steps, e);
  }

  lemma LeadsSelf(s: State)
    ensures Leads(s, s)
  {
    assert Runs(s, []) && After(s, []) == s;
  }

  // ---------------------------------------------------------------- what this means for callers

  /** Only one CALL is outstanding at any time. */
  lemma OneOutstanding(s: State, c: nat, d: nat)
    requires Reachable(s) && c < |s.pcs| && d < |s.pcs| && InCall(s.pcs[c]) && InCall(s.pcs[d])
    ensures c == d
  {
    hide Reachable, PcsOk, WireOk, DoneOk;
    ReachableInv(s);
  }

  /** Calls never block each other for good: while some thread is in `call`, it or the one that holds the mutex can
      take a step that does not wait for the peer. */
  lemma CallsNeverStuck(s: State, c: nat) returns (e: Step)
    requires Reachable(s) && c < |s.pcs| && !s.pcs[c].Outside?
    ensures Enabled(s, e) && (e.Acquire? || e.Serialize? || e.Send? || e.ReadExpected? || e.GiveUp? || e.Finish?)
  {
    hide Reachable, PcsOk, WireOk, DoneOk;
    ReachableInv(s);
    if s.pcs[c].Entered? && s.holder.None? {
      e := Acquire(c);
    } else {
      var h := s.holder.value;
      match s.pcs[h] {
        case Holding => e := Serialize(h);
        case Serialized(_, _) => e := Send(h, false, false);
        case Sent(_) => e := ReadExpected(h);
        case Waiting(_, _, _) => e := GiveUp(h);
        case Finishing => e := Finish(h);
      }
    }
  }

  /** Ids on the wire strictly increase within a session, also across failed sends. */
  lemma WireIdsIncrease(s: State, j: nat, k: nat)
    requires Reachable(s) && j < k < |s.wire| && s.wire[j].session == s.wire[k].session
    ensures s.wire[j].id < s.wire[k].id
  {
    hide Reachable, Exclusive, PcsOk, DoneOk;
    ReachableInv(s);
  }

  /** A call that returns true hands back a frame with the decimal id of its own CALL, provided the connection was
      not restarted between printing the CALL and printing the expected id; in general, exactly when the id that
      it printed the second time is the one it printed first. */
  lemma AnswerCarriesOwnId(s: State, i: nat)
    requires Reachable(s) && i < |s.done|
    ensures var d := s.done[i];
            && d.ix < |s.wire| && d.arrival < |s.arrivals| && s.wire[d.ix].caller == d.caller
            && (s.wire[d.ix].session == d.session ==> s.arrivals[d.arrival].id == Digits(s.wire[d.ix].id))
            && (s.arrivals[d.arrival].id == Digits(s.wire[d.ix].id) <==> d.expected == s.wire[d.ix].id)
  {
    hide Reachable, Exclusive, PcsOk, WireOk, Digits;
    ReachableInv(s);
    var d := s.done[i];
    assert CompletionOk(s, d);
    if s.arrivals[d.arrival].id == Digits(s.wire[d.ix].id) {
      DigitsInjective(d.expected, s.wire[d.ix].id);
    }
  }

  /** A frame completes at most one call, and a call is completed at most once. */
  lemma AnswersAreDistinct(s: State, i: nat, j: nat)
    requires Reachable(s) && i < |s.done| && j < |s.done| && i != j
    ensures s.done[i].arrival != s.done[j].arrival && s.done[i].ix != s.done[j].ix
  {
    hide Reachable, Exclusive, PcsOk, WireOk;
    ReachableInv(s);
    if i < j {
      assert s.done[i].arrival < s.done[j].arrival && s.done[i].ix < s.done[j].ix;
    } else {
      assert s.done[j].arrival < s.done[i].arrival && s.done[j].ix < s.done[i].ix;
    }
  }

  /** The peer had already been sent a CALL with this id when its answer arrived. */
  ghost predicate Honest(s: State, a: nat) {
    && a < |s.arrivals|
    && (exists k | 0 <= k < |s.wire| :: k < s.arrivals[a].sent && s.arrivals[a].id == Digits(s.wire[k].id))
  }

  /** Completion `d` is by an honest answer that had arrived before the completed CALL went out. */
  ghost predicate IsStale(s: State, d: Completion) {
    && d.ix < |s.wire| && d.arrival < |s.arrivals|
    && Honest(s, d.arrival) && s.arrivals[d.arrival].sent <= d.ix
  }

  /** A late answer completes a later call only if an older session sent a CALL with the very id that the call waits
      for: within a session an honest answer that completes a call arrived after that call's CALL went out. */
  lemma StaleIsOlder(s: State, i: nat)
    requires Reachable(s) && i < |s.done| && IsStale(s, s.done[i])
    ensures var d := s.done[i];
            exists k | 0 <= k < d.ix :: s.wire[k].id == d.expected && s.wire[k].session < d.session
  {
    hide Reachable, Digits, PcsOk, Exclusive;
    ReachableInv(s);
    var d := s.done[i];
    assert CompletionOk(s, d);
    var k :| 0 <= k < |s.wire| && k < s.arrivals[d.arrival].sent && s.arrivals[d.arrival].id == Digits(s.wire[k].id);
    DigitsInjective(s.wire[k].id, d.expected);
  }

  /** Without a CALL of an older session that has the awaited id, the answer came after the CALL. */
  lemma AnswerIsFresh(s: State, i: nat)
    requires Reachable(s) && i < |s.done| && s.done[i].arrival < |s.arrivals| && Honest(s, s.done[i].arrival)
    requires forall k | 0 <= k < |s.wire| && k < s.done[i].ix ::
               s.wire[k].session < s.done[i].session ==> s.wire[k].id != s.done[i].expected
    ensures s.done[i].ix < s.arrivals[s.done[i].arrival].sent
  {
    hide Reachable;
    ReachableInv(s);
    assert CompletionOk(s, s.done[i]);
    if s.arrivals[s.done[i].arrival].sent <= s.done[i].ix {
      StaleIsOlder(s, i);
      assert false;
    }
  }

  /** Conversely, wherever a thread is about to send, a restart lets a late answer to any earlier CALL complete it. */
  lemma StalePossible(s: State, c: nat, k: nat)
    requires c < |s.pcs| && s.pcs[c].Serialized? && k < |s.wire|
    ensures exists t :: Leads(s, t) && |t.done| == |s.done| + 1
                        && t.wire == s.wire + [Sending(c, s.pcs[c].id, s.pcs[c].session)]
                        && IsStale(t, t.done[|s.done|]) && t.done[|s.done|].ix == |s.wire|
                        && t.done[|s.done|].expected == s.wire[k].id
  {
    hide Leads;
    LeadsSelf(s);
    var u := Restarted(s, s, s.wire[k].id);
    var t := LateAnswer(s, u, c, k);
  }

  /** An answer to the old CALL at `k` comes just before thread `c` sends, and completes its call. */
  lemma LateAnswer(s: State, u: State, c: nat, k: nat) returns (t: State)
    requires Leads(s, u) && c < |u.pcs| && u.pcs[c].Serialized? && u.enabled && u.queue == []
    requires k < |u.wire| && u.wire[k].id == u.tid
    ensures Leads(s, t) && t.wire == u.wire + [Sending(c, u.pcs[c].id, u.pcs[c].session)]
    ensures t.done == u.done + [Completion(c, |u.wire|, u.tid, u.session, |u.arrivals|)]
    ensures t.arrivals == u.arrivals + [Arrival(Digits(u.tid), |u.wire|)]
    ensures IsStale(t, t.done[|u.done|])
  {
    hide Leads;
    var u1 := Next(u, Arrive(Digits(u.tid)));
    var u2 := Next(u1, Send(c, true, true));
    var u3 := Next(u2, ReadExpected(c));
    assert u3.queue == [|u.arrivals|] && u3.pcs[c] == Waiting(|u.wire|, u.tid, u.session);
    t := Next(u3, Pop(c));
    assert t.wire[k] == u.wire[k] && t.arrivals[|u.arrivals|] == Arrival(Digits(u.tid), |u.wire|);
    LeadsStep(s, u, Arrive(Digits(u.tid)));
    LeadsStep(s, u1, Send(c, true, true));
    LeadsStep(s, u2, ReadExpected(c));
    LeadsStep(s, u3, Pop(c));
  }

  /** A run in which the CALL after the restart has a new id, and one in which the same id is drawn again. */
  lemma StaleWitness(m: nat)
    ensures exists s :: Reachable(s) && |s.done| == 1 && IsStale(s, s.done[0]) && s.done[0].ix == 1
                        && s.wire == [Sending(0, m, 1), Sending(0, m + 1, 1)]
    ensures exists s :: Reachable(s) && |s.done| == 1 && IsStale(s, s.done[0]) && s.done[0].ix == 1
                        && s.wire == [Sending(0, m, 1), Sending(0, m, 2)]
  {
    hide Leads;
    var s := Init(1, 0);
    LeadsSelf(s);
    var s1 := SerializedIn(s, m);
    var s2 := Unanswered(s, s1);
    var a1 := SerializedNext(s, s2);
    var a2 := Restarted(s, a1, m);
    var a := LateAnswer(s, a2, 0, 0);
    assert a.wire == [Sending(0, m, 1), Sending(0, m + 1, 1)] && Reachable(a);
    var b1 := Restarted(s, s2, m);
    var b2 := SerializedNext(s, b1);
    var b := LateAnswer(s, b2, 0, 0);
    assert b.wire == [Sending(0, m, 1), Sending(0, m, 2)] && Reachable(b);
  }

  /** The CALL goes out and no answer comes in time. */
  lemma Unanswered(s: State, t: State) returns (u: State)
    requires Leads(s, t) && |t.pcs| == 1 && t.pcs[0].Serialized?
    ensures Leads(s, u)
    ensures u == t.(pcs := [Outside], holder := None, tid := t.tid + 1,
                    wire := t.wire + [Sending(0, t.pcs[0].id, t.pcs[0].session)])
  {
    hide Leads;
    LeadsStep(s, t, Send(0, true, true));
    var t1 := Next(t, Send(0, true, true));
    LeadsStep(s, t1, ReadExpected(0));
    var t2 := Next(t1, ReadExpected(0));
    LeadsStep(s, t2, GiveUp(0));
    var t3 := Next(t2, GiveUp(0));
    LeadsStep(s, t3, Finish(0));
    u := Next(t3, Finish(0));
    assert u.pcs == [Outside];
  }

  /** With a restart between the two printings the frame handed back may carry any other id. */
  lemma RestartMisdelivers(m: nat, r: nat)
    ensures exists s :: Reachable(s) && |s.done| == 1 && s.wire == [Sending(0, m, 1)]
                        && s.arrivals == [Arrival(Digits(r), 1)] && s.done[0].arrival == 0 && s.done[0].ix == 0
  {
    hide Leads;
    var s := Init(1, 0);
    LeadsSelf(s);
    var s1 := SerializedIn(s, m);
    var s2 := Restarted(s, s1, r);
    LeadsStep(s, s2, Send(0, true, true));
    var s3 := Next(s2, Send(0, true, true));
    LeadsStep(s, s3, ReadExpected(0));
    var s4 := Next(s3, ReadExpected(0));
    LeadsStep(s, s4, Arrive(Digits(r)));
    var s5 := Next(s4, Arrive(Digits(r)));
    assert s5.pcs == [Waiting(0, r, s2.session)] && s5.queue == [0];
    LeadsStep(s, s5, Pop(0));
    var s6 := Next(s5, Pop(0));
    assert s6.wire == [Sending(0, m, 1)] && s6.arrivals == [Arrival(Digits(r), 1)];
    assert Reachable(s6);
  }

  lemma SerializedIn(s: State, m: nat) returns (t: State)
    requires s == Init(1, 0) && Leads(s, s)
    ensures Leads(s, t) && t == s.(pcs := [Serialized(m, 1)], holder := Some(0), tid := m, session := 1, started := true)
  {
    hide Leads;
    LeadsStep(s, s, Start(m));
    t := SerializedNext(s, Next(s, Start(m)));
  }

  lemma SerializedNext(s: State, t: State) returns (u: State)
    requires Leads(s, t) && t.pcs == [Outside] && t.holder == None
    ensures Leads(s, u) && u == t.(pcs := [Serialized(t.tid, t.session)], holder := Some(0))
  {
    hide Leads;
    LeadsStep(s, t, Enter(0));
    var t1 := Next(t, Enter(0));
    LeadsStep(s, t1, Acquire(0));
    var t2 := Next(t1, Acquire(0));
    LeadsStep(s, t2, Serialize(0));
    u := Next(t2, Serialize(0));
    assert u.pcs == [Serialized(t.tid, t.session)];
  }

  /** A stop, if started, and a start that draws `r`. */
  lemma Restarted(s: State, t: State, r: nat) returns (u: State)
    requires Leads(s, t)
    ensures Leads(s, u) && u.session == t.session + if t.started then 1 else 2
    ensures u == t.(queue := [], tid := r, session := u.session, enabled := true, started := true)
  {
    hide Leads;
    var t0 := t;
    if !t.started {
      LeadsStep(s, t, Start(r));
      t0 := Next(t, Start(r));
    }
    LeadsStep(s, t0, Disable);
    var t1 := Next(t0, Disable);
    LeadsStep(s, t1, StopEnds);
    var t2 := Next(t1, StopEnds);
    LeadsStep(s, t2, Start(r));
    u := Next(t2, Start(r));
  }

  // ---------------------------------------------------------------- answers are delivered

  /** The first frame in the queue with the awaited id is at position `p`. */
  ghost predicate FirstMatch(s: State, expected: nat, p: nat) {
    && p < |s.queue| && s.queue[p] < |s.arrivals| && s.arrivals[s.queue[p]].id == Digits(expected)
    && forall i | 0 <= i < p :: s.queue[i] < |s.arrivals| && s.arrivals[s.queue[i]].id != Digits(expected)
  }

  function Pops(c: nat, n: nat): seq<Step> {
    if n == 0 then [] else [Pop(c)] + Pops(c, n - 1)
  }

  /** A waiting call takes the frames before its answer, drops them, and completes with the answer. */
  lemma {:induction false} AnswerIsDelivered(s: State, c: nat, p: nat)
    requires c < |s.pcs| && s.pcs[c].Waiting? && s.enabled && FirstMatch(s, s.pcs[c].expected, p)
    ensures Runs(s, Pops(c, p + 1))
    ensures var t, w := After(s, Pops(c, p + 1)), s.pcs[c];
            && t.done == s.done + [Completion(c, w.ix, w.expected, w.session, s.queue[p])]
            && t.queue == s.queue[p + 1..] && t.pcs == s.pcs[c := Finishing]
    decreases p
  {
    hide Digits;
    var w, t := s.pcs[c], Next(s, Pop(c));
    assert Pops(c, p + 1)[0] == Pop(c) && Pops(c, p + 1)[1..] == Pops(c, p);
    if p > 0 {
      assert FirstMatch(t, w.expected, p - 1);
      AnswerIsDelivered(t, c, p - 1);
    }
  }

  // ---------------------------------------------------------------- what a stop ends

  /** Everything that is queued, or has completed a call since `n` completions, arrived from `a` on. */
  ghost predicate OnlySince(s: State, a: nat, n: nat) {
    && a <= |s.arrivals| && n <= |s.done|
    && (forall i | 0 <= i < |s.queue| :: a <= s.queue[i])
    && (forall i | n <= i < |s.done| :: a <= s.done[i].arrival)
  }

  lemma OnlySinceKept(s: State, e: Step, a: nat, n: nat)
    requires OnlySince(s, a, n) && Enabled(s, e)
    ensures OnlySince(Next(s, e), a, n)
  {
    hide Digits;
  }

  lemma {:induction false} OnlySinceStays(s: State, steps: seq<Step>, a: nat, n: nat)
    requires OnlySince(s, a, n) && Runs(s, steps)
    ensures OnlySince(After(s, steps), a, n)
    decreases |steps|
  {
    hide OnlySince, Next, Enabled;
    if steps != [] {
      OnlySinceKept(s, steps[0], a, n);
      OnlySinceStays(Next(s, steps[0]), steps[1..], a, n);
    }
  }

  /** A frame that had arrived when a stop flushed the queue completes no call after that, in any continuation. */
  lemma FlushedNeverAnswers(s: State, steps: seq<Step>, i: nat)
    requires Enabled(s, StopEnds) && Runs(Next(s, StopEnds), steps)
    requires |s.done| <= i < |After(Next(s, StopEnds), steps).done|
    ensures |s.arrivals| <= After(Next(s, StopEnds), steps).done[i].arrival
  {
    OnlySinceStays(Next(s, StopEnds), steps, |s.arrivals|, |s.done|);
  }

  lemma DisabledStep(s: State, e: Step)
    requires Enabled(s, e) && !s.enabled && !e.Start?
    ensures !Next(s, e).enabled && Next(s, e).done == s.done
  {
    hide Digits;
  }

  /** From a disconnection or the beginning of a stop until the next start no call completes. */
  lemma {:induction false} NothingAfterDisable(s: State, steps: seq<Step>)
    requires !s.enabled && Runs(s, steps) && forall i | 0 <= i < |steps| :: !steps[i].Start?
    ensures !After(s, steps).enabled && After(s, steps).done == s.done
    decreases |steps|
  {
    hide Next, Enabled;
    if steps != [] {
      DisabledStep(s, steps[0]);
      NothingAfterDisable(Next(s, steps[0]), steps[1..]);
    }
  }
}
