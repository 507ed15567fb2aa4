/** A connection without a pool: its reception thread takes requests from the queue and answers them while the
    receive path goes on queueing, and while the connection is disconnected, stopped and started again. */
module RxThread {
  import opened Text
  import opened Json
  import opened Frames
  import opened Dispatcher
  import RpcBase

  /** A CALL that was received: after how many starts, and whether the object was started then. */
  datatype Arrived = Arrived(id: string, action: string, payload: Json, session: nat, started: bool)

  /** How a CALL was handled, in which session, and what its handler says when it is called. */
  datatype Verdict = Verdict(outcome: Outcome, session: nat, says: Outcome)

  /** A text that was handed to `send`. */
  datatype Sending = ReplyTo(call: nat, text: string) | ProtocolError(text: string)

  /** `calls` lists all CALLs ever received and `queue` holds positions in it; those from `base` on have come since
      the last flush, and those from `next` on have not been taken. `sent` is what was handed to `send`, in order. */
  datatype State = State(
    table: Table, started: bool, enabled: bool, alive: bool, session: nat,
    calls: seq<Arrived>, queue: seq<nat>, base: nat, next: nat, handling: Option<nat>,
    verdicts: map<nat, Verdict>, sent: seq<Sending>)

  datatype Step =
    | Receive(text: string)     // processReceivedData
    | Take                      // the thread pops a request
    | Answer(says: Outcome)     // processIncomingRequest; `says` is what a registered handler answers
    | ThreadEnds                // pop fails: queue disabled, or nothing came in time
    | Disable                   // stop or processDisconnected disables the queue
    | StopEnds                  // stop has joined the thread and flushes the queue
    | Start                     // start enables the queue and starts a thread

  function Init(table: Table): State {
    State(table, false, true, false, 0, [], [], 0, 0, None, map[], [])
  }

  predicate Enabled(s: State, e: Step) {
    match e
    case Receive(_) => true
    case Take => s.alive && s.enabled && s.handling.None? && s.queue != []
    case Answer(_) => s.handling.Some? && s.handling.value < |s.calls|
    case ThreadEnds => s.alive && s.handling.None? && (!s.enabled || s.queue == [])
    case Disable => s.started
    case StopEnds => s.started && !s.enabled && !s.alive
    case Start => !s.started
  }

  function Replies(call: nat, texts: seq<string>): seq<Sending> {
    if texts == [] then [] else [ReplyTo(call, texts[0])]
  }

  function AnswerNext(s: State, i: nat, o: Outcome, says: Outcome): State
    requires i < |s.calls|
  {
    s.(handling := None, verdicts := s.verdicts[i := Verdict(o, s.session, says)],
       sent := s.sent + Replies(i, Reply(s.calls[i].id, o)))
  }

  function ReceiveNext(s: State, f: Frame): State {
    match f
    case Call(id, action, payload) =>
      s.(calls := s.calls + [Arrived(id, action, payload, s.session, s.started)], queue := s.queue + [|s.calls|])
    case Malformed => s.(sent := s.sent + [ProtocolError(PROTOCOL_ERROR_FRAME)])
    case _ => s
  }

  function Next(s: State, e: Step): State
    requires Enabled(s, e) && NoNullValidator(s.table)
  {
    match e
    case Receive(text) => ReceiveNext(s, Decode(text))
    case Take => s.(handling := Some(s.queue[0]), queue := s.queue[1..], next := s.queue[0] + 1)
    case Answer(says) =>
      var i := s.handling.value;
      AnswerNext(s, i, Dispatch(s.table, s.calls[i].action, s.calls[i].payload, says), says)
    case ThreadEnds => s.(alive := false)
    case Disable => s.(enabled := false)
    case StopEnds => s.(started := false, queue := [], base := |s.calls|, next := |s.calls|)
    case Start => s.(started := true, enabled := true, alive := true, session := s.session + 1)
  }

  ghost predicate Runs(s: State, steps: seq<Step>)
    decreases |steps|
  {
    NoNullValidator(s.table) && (steps == [] || (Enabled(s, steps[0]) && Runs(Next(s, steps[0]), steps[1..])))
  }

  ghost function After(s: State, steps: seq<Step>): State
    requires Runs(s, steps)
    decreases |steps|
  {
    if steps == [] then s else After(Next(s, steps[0]), steps[1..])
  }

  // ---------------------------------------------------------------- the invariant

  /** The session that a CALL is for: the one it came in, or, if it came between two, the next. */
  function Due(c: Arrived): nat { if c.started then c.session else c.session + 1 }

  /** The session that queued requests wait for. */
  function Current(s: State): nat { if s.started then s.session else s.session + 1 }

  /** The queue holds the positions from `next` to the last, the CALL that is being handled is the one before. */
  ghost predicate QueueOk(s: State) {
    && s.base <= s.next <= |s.calls| && |s.queue| == |s.calls| - s.next
    && (forall i | 0 <= i < |s.queue| :: s.queue[i] == s.next + i)
    && (s.handling.Some? ==> s.base <= s.handling.value && s.handling.value + 1 == s.next && s.alive)
    && (s.alive ==> s.started)
    && (!s.started ==> s.base == s.next)
  }

  /** CALLs since the last flush are due in the current session, earlier ones before it. */
  ghost predicate DueOk(s: State) {
    && (forall i | s.base <= i < |s.calls| :: Due(s.calls[i]) == Current(s))
    && (forall i | 0 <= i < |s.calls| && i < s.base :: Due(s.calls[i]) < Current(s))
  }

  /** Exactly the CALLs that were taken and are not being handled have a verdict among those since the last flush. */
  ghost predicate TakenOk(s: State) {
    && (forall i | i in s.verdicts :: i < s.next && s.handling != Some(i))
    && (forall i | s.base <= i < s.next :: s.handling == Some(i) || i in s.verdicts)
  }

  /** A handled CALL was handled in the session it was due in, and all CALLs due in it that came before were too. */
  ghost predicate VerdictOk(s: State, i: nat) {
    i in s.verdicts && i < |s.calls| ==>
      && s.verdicts[i].session == Due(s.calls[i])
      && Judged(s.table, s.calls[i], s.verdicts[i])
      && (forall j | 0 <= j < i :: Due(s.calls[j]) == Due(s.calls[i]) ==> j in s.verdicts)
      && (Reply(s.calls[i].id, s.verdicts[i].outcome) != [] ==> Replied(s, i))
  }

  /** The outcome is what the dispatcher makes of the CALL. */
  ghost predicate Judged(table: Table, c: Arrived, v: Verdict) {
    NoNullValidator(table) && v.outcome == Dispatch(table, c.action, c.payload, v.says)
  }

  ghost predicate Replied(s: State, i: nat) {
    exists k | 0 <= k < |s.sent| :: s.sent[k].ReplyTo? && s.sent[k].call == i
  }

  /** Every reply is the one that the verdict on its CALL calls for. */
  ghost predicate SendingOk(s: State, x: Sending) {
    x.ReplyTo? ==>
      && x.call in s.verdicts && x.call < |s.calls|
      && Reply(s.calls[x.call].id, s.verdicts[x.call].outcome) == [x.text]
  }

  ghost predicate SentOk(s: State) {
    && (forall k | 0 <= k < |s.sent| :: SendingOk(s, s.sent[k]))
    && (forall j, k | 0 <= j < k < |s.sent| && s.sent[j].ReplyTo? && s.sent[k].ReplyTo? :: s.sent[j].call < s.sent[k].call)
  }

  ghost predicate Inv(s: State) {
    QueueOk(s) && DueOk(s) && TakenOk(s) && SentOk(s) && forall i: nat :: VerdictOk(s, i)
  }

  lemma QueueKept(s: State, e: Step)
    requires Enabled(s, e) && NoNullValidator(s.table) && QueueOk(s)
    ensures QueueOk(Next(s, e)) && Next(s, e).table == s.table
  {
    hide Decode, Dispatch, Reply, NoNullValidator;
  }

  lemma DueKept(s: State, e: Step)
    requires Enabled(s, e) && NoNullValidator(s.table) && QueueOk(s) && DueOk(s)
    ensures DueOk(Next(s, e))
  {
    hide Decode, Dispatch, Reply, NoNullValidator;
  }

  lemma TakenKept(s: State, e: Step)
    requires Enabled(s, e) && NoNullValidator(s.table) && QueueOk(s) && TakenOk(s)
    ensures TakenOk(Next(s, e))
  {
    hide Decode, Dispatch, Reply, NoNullValidator;
  }

  /** A verdict is not affected by further CALLs, verdicts on others and further sending. */
  lemma VerdictStays(s: State, n: State, i: nat)
    requires VerdictOk(s, i) && (i in s.verdicts ==> i < |s.calls|)
    requires n.table == s.table && s.calls <= n.calls && s.sent <= n.sent && s.verdicts.Keys <= n.verdicts.Keys
    requires i in n.verdicts ==> i in s.verdicts && n.verdicts[i] == s.verdicts[i]
    ensures VerdictOk(n, i)
  {
    hide Reply, Judged;
    if i in n.verdicts && Replied(s, i) {
      var k :| 0 <= k < |s.sent| && s.sent[k].ReplyTo? && s.sent[k].call == i;
      assert n.sent[k] == s.sent[k];
    }
  }

  lemma NewVerdict(s: State, i: nat, o: Outcome, says: Outcome)
    requires QueueOk(s) && DueOk(s) && TakenOk(s) && s.handling == Some(i) && i < |s.calls|
    requires Judged(s.table, s.calls[i], Verdict(o, s.session, says))
    ensures VerdictOk(AnswerNext(s, i, o, says), i)
  {
    hide Reply, Judged;
    var n := AnswerNext(s, i, o, says);
    var r := Replies(i, Reply(s.calls[i].id, o));
    if r != [] {
      assert n.sent[|s.sent|] == r[0];
    }
  }

  lemma OtherVerdicts(s: State, i: nat, j: nat, o: Outcome, says: Outcome)
    requires VerdictOk(s, j) && (j in s.verdicts ==> j < |s.calls|) && i < |s.calls| && i != j
    ensures VerdictOk(AnswerNext(s, i, o, says), j)
  {
    hide Reply, VerdictOk;
    VerdictStays(s, AnswerNext(s, i, o, says), j);
  }

  lemma ReceiveKeepsVerdict(s: State, f: Frame, i: nat)
    requires VerdictOk(s, i) && (i in s.verdicts ==> i < |s.calls|)
    ensures VerdictOk(ReceiveNext(s, f), i)
  {
    hide VerdictOk, ErrorText;
    VerdictStays(s, ReceiveNext(s, f), i);
  }

  lemma VerdictsKept(s: State, e: Step, i: nat)
    requires Enabled(s, e) && NoNullValidator(s.table) && QueueOk(s) && DueOk(s) && TakenOk(s) && VerdictOk(s, i)
    ensures VerdictOk(Next(s, e), i)
  {
    hide Decode, Dispatch, Reply, VerdictOk, DueOk, NoNullValidator, AnswerNext, ReceiveNext;
    match e {
      case Answer(says) =>
        var j := s.handling.value;
        var o := Dispatch(s.table, s.calls[j].action, s.calls[j].payload, says);
        if i == j {
          NewVerdict(s, i, o, says);
        } else {
          OtherVerdicts(s, j, i, o, says);
        }
      case Receive(text) => ReceiveKeepsVerdict(s, Decode(text), i);
      case _ => VerdictStays(s, Next(s, e), i);
    }
  }

  /** What was sent stays right when CALLs, verdicts and other texts are added. */
  lemma SentStays(s: State, n: State)
    requires SentOk(s) && s.calls <= n.calls && n.sent == s.sent && s.verdicts.Keys <= n.verdicts.Keys
    requires forall i | i in s.verdicts :: n.verdicts[i] == s.verdicts[i]
    ensures SentOk(n)
  {
    hide Reply;
    forall k | 0 <= k < |n.sent| ensures SendingOk(n, n.sent[k]) {
      assert SendingOk(s, s.sent[k]);
    }
  }

  /** A further text keeps the order if it is no reply, or one to a later CALL than all before. */
  lemma SentAppend(s: State, n: State, x: Sending)
    requires SentOk(s) && n == s.(sent := s.sent + [x]) && SendingOk(s, x)
    requires x.ReplyTo? ==> forall k | 0 <= k < |s.sent| && s.sent[k].ReplyTo? :: s.sent[k].call < x.call
    ensures SentOk(n)
  {
    hide Reply;
    forall k | 0 <= k < |n.sent| ensures SendingOk(n, n.sent[k]) {
      if k < |s.sent| {
        assert SendingOk(s, s.sent[k]);
      }
    }
  }

  lemma AnswerKeepsSent(s: State, i: nat, o: Outcome, says: Outcome)
    requires QueueOk(s) && TakenOk(s) && SentOk(s) && s.handling == Some(i) && i < |s.calls|
    ensures SentOk(AnswerNext(s, i, o, says))
  {
    hide Reply;
    var n := AnswerNext(s, i, o, says);
    var judged := n.(sent := s.sent);
    SentStays(s, judged);
    var texts := Reply(s.calls[i].id, o);
    ReplyAtMostOnce(s.calls[i].id, o);
    if texts != [] {
      forall k | 0 <= k < |s.sent| && s.sent[k].ReplyTo? ensures s.sent[k].call < i {
        assert SendingOk(s, s.sent[k]);
      }
      SentAppend(judged, n, ReplyTo(i, texts[0]));
    } else {
      assert n.sent == s.sent;
    }
  }

  lemma SentKept(s: State, e: Step)
    requires Enabled(s, e) && NoNullValidator(s.table) && QueueOk(s) && TakenOk(s) && SentOk(s)
    ensures SentOk(Next(s, e))
  {
    hide Decode, Dispatch, Reply, NoNullValidator, SentOk, ErrorText;
    if e.Answer? {
      var i := s.handling.value;
      AnswerKeepsSent(s, i, Dispatch(s.table, s.calls[i].action, s.calls[i].payload, e.says), e.says);
    } else if e.Receive? && Decode(e.text).Malformed? {
      SentAppend(s, Next(s, e), ProtocolError(PROTOCOL_ERROR_FRAME));
    } else {
      SentStays(s, Next(s, e));
    }
  }

  lemma InvKept(s: State, e: Step)
    requires Inv(s) && Enabled(s, e) && NoNullValidator(s.table)
    ensures Inv(Next(s, e)) && Next(s, e).table == s.table
  {
    hide Next, Enabled, QueueOk, DueOk, TakenOk, SentOk, VerdictOk, NoNullValidator;
    QueueKept(s, e);
    DueKept(s, e);
    TakenKept(s, e);
    SentKept(s, e);
    forall i: nat ensures VerdictOk(Next(s, e), i) {
      VerdictsKept(s, e, i);
    }
  }

  lemma {:induction false} EveryRunKeeps(s: State, steps: seq<Step>)
    requires Inv(s) && Runs(s, steps)
    ensures Inv(After(s, steps)) && After(s, steps).table == s.table
    decreases |steps|
  {
    hide Inv, Next, Enabled, NoNullValidator;
    if steps != [] {
      InvKept(s, steps[0]);
      EveryRunKeeps(Next(s, steps[0]), steps[1..]);
    }
  }

  /** The handler table is one that registrations build. */
  ghost predicate Reachable(s: State) {
    exists rs: seq<Registration>, steps: seq<Step> ::
      Runs(Init(RegisterAll(map[], rs)), steps) && s == After(Init(RegisterAll(map[], rs)), steps)
  }

  lemma NoTable()
    ensures NoNullValidator(map[])
  {
  }

  lemma InitInv(table: Table)
    ensures Inv(Init(table)) && Init(table).table == table
  {
    hide Reply, Judged;
  }

  lemma ReachableInv(s: State)
    requires Reachable(s)
    ensures Inv(s) && NoNullValidator(s.table)
  {
    hide Inv, Init, RegisterAll, NoNullValidator;
    var rs: seq<Registration>, steps: seq<Step> :|
      Runs(Init(RegisterAll(map[], rs)), steps) && s == After(Init(RegisterAll(map[], rs)), steps);
    NoTable();
    RegistrationsKeepValidators(map[], rs);
    InitInv(RegisterAll(map[], rs));
    EveryRunKeeps(Init(RegisterAll(map[], rs)), steps);
  }

  // ---------------------------------------------------------------- what this means

  /** In every run replies are attempted in the order in which their CALLs arrived, at most one for each, and each is
      the reply that the outcome of that CALL calls for, with its id. */
  lemma RepliesFollowArrival(s: State, j: nat, k: nat)
    requires Reachable(s) && j < |s.sent| && k < |s.sent| && s.sent[j].ReplyTo? && s.sent[k].ReplyTo?
    ensures j < k <==> s.sent[j].call < s.sent[k].call
    ensures var x := s.sent[k];
            && x.call < |s.calls| && x.call in s.verdicts
            && Reply(s.calls[x.call].id, s.verdicts[x.call].outcome) == [x.text]
  {
    hide Reachable, Reply, VerdictOk, DueOk, QueueOk, TakenOk, NoNullValidator;
    ReachableInv(s);
    assert SendingOk(s, s.sent[k]);
  }

  /** The CALLs handled in a session are a prefix of those due in it: of those that came since the flush at the end
      of the session before. A CALL that comes while the object is stopped waits for the next session. */
  lemma HandledPrefix(s: State, i: nat, j: nat)
    requires Reachable(s) && i < j < |s.calls| && j in s.verdicts && Due(s.calls[i]) == Due(s.calls[j])
    ensures i in s.verdicts && s.verdicts[i].session == s.verdicts[j].session == Due(s.calls[j])
  {
    hide Reachable, Reply, Judged, DueOk, QueueOk, TakenOk, SentOk, NoNullValidator;
    ReachableInv(s);
    assert VerdictOk(s, j);
    assert VerdictOk(s, i);
  }

  /** A CALL that calls for a reply gets it when it is handled. */
  lemma HandledIsReplied(s: State, i: nat)
    requires Reachable(s) && i < |s.calls| && i in s.verdicts && Reply(s.calls[i].id, s.verdicts[i].outcome) != []
    ensures exists k | 0 <= k < |s.sent| :: s.sent[k] == ReplyTo(i, Reply(s.calls[i].id, s.verdicts[i].outcome)[0])
  {
    hide Reachable, Reply, Judged, DueOk, QueueOk, TakenOk, NoNullValidator;
    ReachableInv(s);
    assert VerdictOk(s, i);
    var k :| 0 <= k < |s.sent| && s.sent[k].ReplyTo? && s.sent[k].call == i;
    assert SendingOk(s, s.sent[k]);
    assert s.sent[k] == ReplyTo(i, s.sent[k].text);
  }

  /** Position of the one reply to CALL `i`. */
  ghost predicate OnlyReply(s: State, i: nat, k: nat) {
    && k < |s.sent| && s.sent[k].ReplyTo? && s.sent[k].call == i
    && forall j | 0 <= j < |s.sent| && s.sent[j].ReplyTo? :: s.sent[j].call == i ==> j == k
  }

  /** A handler got to see the CALL: its action is registered with a validator that accepts its payload. */
  ghost predicate Accepted(s: State, c: Arrived) {
    c.action in s.table && s.table[c.action].validator.Some? && s.table[c.action].validator.value.accepts(c.payload)
  }

  /** A CALL with an unregistered action or a payload that the validator does not accept, once handled, has exactly
      one reply in the history: a CALLERROR with its id, and the code and message that tell why. */
  lemma RejectedGetsOneError(s: State, i: nat) returns (k: nat)
    requires Reachable(s) && i < |s.calls| && i in s.verdicts
    requires var c := s.calls[i];
             c.action !in s.table || s.table[c.action].validator.None? || !s.table[c.action].validator.value.accepts(c.payload)
    ensures OnlyReply(s, i, k)
    ensures var c := s.calls[i];
            && (c.action !in s.table ==> s.sent[k].text == ErrorText(c.id, NOT_IMPLEMENTED, ""))
            && (c.action in s.table ==>
                  && s.table[c.action].validator.Some?
                  && s.sent[k].text
                     == ErrorText(c.id, TYPE_CONSTRAINT_VIOLATION, s.table[c.action].validator.value.lastError(c.payload)))
  {
    hide Reachable, ErrorText, ResultText, DueOk, QueueOk, TakenOk, SentOk;
    ReachableInv(s);
    assert VerdictOk(s, i);
    k := TheReply(s, i);
  }

  /** The one reply to a handled CALL whose outcome calls for one. */
  lemma TheReply(s: State, i: nat) returns (k: nat)
    requires Reachable(s) && i < |s.calls| && i in s.verdicts && Reply(s.calls[i].id, s.verdicts[i].outcome) != []
    ensures OnlyReply(s, i, k) && s.sent[k].text == Reply(s.calls[i].id, s.verdicts[i].outcome)[0]
  {
    hide Reachable, Reply;
    HandledIsReplied(s, i);
    k :| 0 <= k < |s.sent| && s.sent[k] == ReplyTo(i, Reply(s.calls[i].id, s.verdicts[i].outcome)[0]);
    forall j: nat | j < |s.sent| && s.sent[j].ReplyTo? && s.sent[j].call == i ensures j == k {
      RepliesFollowArrival(s, j, k);
      RepliesFollowArrival(s, k, j);
    }
  }

  /** A CALL that its handler gets to see has, once handled, exactly one reply if the handler answers or refuses with
      a code: the CALLRESULT with its id and the response, or the CALLERROR with its id, the code and the message. If
      the handler refuses without a code, it has none. */
  lemma AcceptedGetsAnswer(s: State, i: nat) returns (k: nat)
    requires Reachable(s) && i < |s.calls| && i in s.verdicts && Accepted(s, s.calls[i])
    ensures match s.verdicts[i].says
            case Accepted(response) => OnlyReply(s, i, k) && s.sent[k].text == ResultText(s.calls[i].id, response)
            case Refused(code, message) =>
              if code == [] then !Replied(s, i)
              else OnlyReply(s, i, k) && s.sent[k].text == ErrorText(s.calls[i].id, code, message)
  {
    hide Reachable, ErrorText, ResultText, DueOk, QueueOk, TakenOk;
    ReachableInv(s);
    assert VerdictOk(s, i);
    k := 0;
    if Reply(s.calls[i].id, s.verdicts[i].outcome) != [] {
      k := TheReply(s, i);
    }
  }

  /** No CALL is lost but by the flush at the end of a session: each is handled, being handled, queued or flushed. */
  lemma NothingLost(s: State, i: nat)
    requires Reachable(s) && i < |s.calls|
    ensures i in s.verdicts || s.handling == Some(i) || i in s.queue || i < s.base
  {
    hide Reachable, VerdictOk, DueOk, SentOk, NoNullValidator;
    ReachableInv(s);
    if s.next <= i {
      assert s.queue[i - s.next] == i;
    }
  }

  /** The reception thread takes and answers one request after the other. */
  function Rounds(says: seq<Outcome>): seq<Step> {
    if says == [] then [] else [Take, Answer(says[0])] + Rounds(says[1..])
  }

  lemma OneRound(s: State, says: Outcome)
    requires NoNullValidator(s.table) && QueueOk(s) && s.alive && s.enabled && s.handling.None? && s.queue != []
    ensures Enabled(s, Take) && Enabled(Next(s, Take), Answer(says))
    ensures var n := Next(Next(s, Take), Answer(says));
            && n.table == s.table && n.alive && n.enabled && n.handling.None? && n.calls == s.calls
            && n.queue == s.queue[1..] && n.next == s.next + 1 && n.verdicts.Keys == s.verdicts.Keys + {s.next}
            && n.verdicts[s.next].says == says && n.verdicts[s.next].session == s.session == n.session
            && forall i | i in s.verdicts && i != s.next :: n.verdicts[i] == s.verdicts[i]
  {
    hide Dispatch, Reply, NoNullValidator;
  }

  /** The requests in `queue` were answered in session `session` as `says` tells. */
  ghost predicate AnsweredAs(n: State, queue: seq<nat>, says: seq<Outcome>, session: nat) {
    |says| == |queue| && forall k | 0 <= k < |queue| ::
      queue[k] in n.verdicts && n.verdicts[queue[k]].says == says[k] && n.verdicts[queue[k]].session == session
  }

  lemma AnsweredCons(n: State, queue: seq<nat>, says: seq<Outcome>, session: nat)
    requires queue != [] && says != [] && AnsweredAs(n, queue[1..], says[1..], session)
    requires queue[0] in n.verdicts && n.verdicts[queue[0]].says == says[0] && n.verdicts[queue[0]].session == session
    ensures AnsweredAs(n, queue, says, session)
  {
    forall k | 0 < k < |queue|
      ensures queue[k] in n.verdicts && n.verdicts[queue[k]].says == says[k] && n.verdicts[queue[k]].session == session
    {
      assert queue[k] == queue[1..][k - 1] && says[k] == says[1..][k - 1];
    }
  }

  lemma {:induction false} RoundsRun(s: State, says: seq<Outcome>)
    requires says != [] && NoNullValidator(s.table) && Enabled(s, Take) && Enabled(Next(s, Take), Answer(says[0]))
    requires var n := Next(Next(s, Take), Answer(says[0])); Runs(n, Rounds(says[1..]))
    requires Next(s, Take).table == s.table
    ensures Runs(s, Rounds(says))
    ensures After(s, Rounds(says)) == After(Next(Next(s, Take), Answer(says[0])), Rounds(says[1..]))
  {
    hide Next, Enabled, NoNullValidator;
    var t, rest := Next(s, Take), Rounds(says[1..]);
    assert Rounds(says)[0] == Take && Rounds(says)[1..] == [Answer(says[0])] + rest;
    assert Rounds(says)[1..][1..] == rest;
    assert Runs(t, [Answer(says[0])] + rest);
  }

  /** While the queue is enabled the thread can answer all that is queued, in order, each as its handler says. */
  lemma {:induction false} AllCanBeAnswered(s: State, says: seq<Outcome>)
    requires NoNullValidator(s.table) && QueueOk(s) && s.alive && s.enabled && s.handling.None? && |says| == |s.queue|
    ensures Runs(s, Rounds(says))
    ensures var n := After(s, Rounds(says));
            && n.queue == [] && n.calls == s.calls && n.session == s.session && AnsweredAs(n, s.queue, says, s.session)
            && (forall i | i in s.verdicts && i < s.next :: i in n.verdicts && n.verdicts[i] == s.verdicts[i])
    decreases |says|
  {
    hide Next, Enabled, NoNullValidator, Rounds, AnsweredAs;
    if says == [] {
      NoRounds(s);
    } else {
      OneRound(s, says[0]);
      QueueKept(s, Take);
      QueueKept(Next(s, Take), Answer(says[0]));
      var n := Next(Next(s, Take), Answer(says[0]));
      AllCanBeAnswered(n, says[1..]);
      RoundsRun(s, says);
      AnsweredCons(After(n, Rounds(says[1..])), s.queue, says, s.session);
    }
  }

  lemma NoRounds(s: State)
    ensures Rounds([]) == [] && AnsweredAs(s, [], [], s.session)
  {
  }

  // ---------------------------------------------------------------- the steps are those of the object

  function MessageOf(c: Arrived): RpcBase.Message { RpcBase.Message(c.id, c.action, c.payload, None, None, None) }

  /** The requests that wait in the queue. */
  function Waiting(s: State): seq<RpcBase.Message>
    requires QueueOk(s)
  {
    seq(|s.queue|, i requires 0 <= i < |s.queue| => MessageOf(s.calls[s.queue[i]]))
  }

  function TextsOf(sent: seq<Sending>): seq<string> {
    seq(|sent|, i requires 0 <= i < |sent| => sent[i].text)
  }

  /** The object without a pool and the state of the step relation agree. */
  ghost predicate Agrees(s: State, o: RpcBase.Core) {
    && QueueOk(s) && !o.pool && o.owner.None? && o.rxThread == s.started && o.enabled == s.enabled
    && o.requests == Waiting(s) && o.sent == TextsOf(s.sent)
  }

  /** What the object does in a step. Taking a request and answering it are the two halves of a round of the
      reception thread. */
  ghost predicate Follows(s: State, e: Step, o: RpcBase.Core, p: RpcBase.Core)
    requires Enabled(s, e) && NoNullValidator(s.table)
  {
    match e
    case Receive(text) => p == RpcBase.ReceiveCore(o, text)
    case Take => o.requests != [] && p == o.(requests := o.requests[1..])
    case Answer(says) =>
      var c := s.calls[s.handling.value];
      p == o.(sent := o.sent + Reply(c.id, Dispatch(s.table, c.action, c.payload, says)))
    case ThreadEnds => p == o
    case Disable => !o.pool && p == RpcBase.DisconnectCore(o)
    case StopEnds => p == RpcBase.StopCore(o)
    case Start => exists r :: p == RpcBase.StartCore(o, r)
  }

  lemma TextsAppend(sent: seq<Sending>, x: Sending)
    ensures TextsOf(sent + [x]) == TextsOf(sent) + [x.text]
  {
  }

  lemma ReceiveFollows(s: State, text: string, o: RpcBase.Core)
    requires Agrees(s, o)
    ensures Agrees(ReceiveNext(s, Decode(text)), RpcBase.ReceiveCore(o, text))
  {
    hide Decode, ErrorText, Agrees;
    match Decode(text) {
      case Call(id, action, payload) => CallFollows(s, id, action, payload, o);
      case Malformed => MalformedFollows(s, o);
      case _ => ResultFollows(s, o, RpcBase.ReceiveCore(o, text).results);
    }
  }

  lemma CallFollows(s: State, id: string, action: string, payload: Json, o: RpcBase.Core)
    requires Agrees(s, o)
    ensures !o.pool && Agrees(ReceiveNext(s, Call(id, action, payload)),
              o.(requests := o.requests + [RpcBase.Message(id, action, payload, None, None, o.owner).(owner := None)]))
  {
    var n := ReceiveNext(s, Call(id, action, payload));
    assert Waiting(n) == Waiting(s) + [MessageOf(n.calls[|s.calls|])];
  }

  lemma MalformedFollows(s: State, o: RpcBase.Core)
    requires Agrees(s, o)
    ensures Agrees(ReceiveNext(s, Malformed), o.(sent := o.sent + [PROTOCOL_ERROR_FRAME]))
  {
    hide ErrorText;
    TextsAppend(s.sent, ProtocolError(PROTOCOL_ERROR_FRAME));
    assert Waiting(ReceiveNext(s, Malformed)) == Waiting(s);
  }

  lemma ResultFollows(s: State, o: RpcBase.Core, results: seq<RpcBase.Message>)
    requires Agrees(s, o)
    ensures Agrees(s, o.(results := results))
  {
  }

  lemma AnswerFollows(s: State, i: nat, v: Outcome, says: Outcome, o: RpcBase.Core)
    requires Agrees(s, o) && i < |s.calls|
    ensures Agrees(AnswerNext(s, i, v, says), o.(sent := o.sent + Reply(s.calls[i].id, v)))
  {
    hide Reply;
    var texts := Reply(s.calls[i].id, v);
    ReplyAtMostOnce(s.calls[i].id, v);
    if texts != [] {
      TextsAppend(s.sent, ReplyTo(i, texts[0]));
      assert texts == [texts[0]];
    } else {
      assert s.sent + Replies(i, texts) == s.sent && o.sent + texts == o.sent;
    }
    assert Waiting(AnswerNext(s, i, v, says)) == Waiting(s);
  }

  lemma LifeFollows(s: State, e: Step, o: RpcBase.Core, p: RpcBase.Core)
    requires Enabled(s, e) && NoNullValidator(s.table) && Agrees(s, o) && Follows(s, e, o, p) && QueueOk(Next(s, e))
    requires e.Take? || e.ThreadEnds? || e.Disable? || e.StopEnds? || e.Start?
    ensures Agrees(Next(s, e), p)
  {
    var n := Next(s, e);
    assert e.Take? ==> Waiting(n) == Waiting(s)[1..];
    assert !e.Take? && !e.StopEnds? ==> Waiting(n) == Waiting(s);
  }

  /** Every step of the relation is what the methods of the object do: they agree at the beginning, and if they agree
      before a step, they agree after it. */
  lemma StepsOfTheObject(s: State, e: Step, o: RpcBase.Core, p: RpcBase.Core)
    requires Enabled(s, e) && NoNullValidator(s.table) && Agrees(s, o) && Follows(s, e, o, p)
    ensures Agrees(Next(s, e), p)
    ensures Agrees(Init(s.table), RpcBase.Create(false))
  {
    hide Decode, Dispatch, Agrees, Reply, NoNullValidator;
    InitAgrees(s.table);
    match e {
      case Receive(text) => ReceiveFollows(s, text, o);
      case Answer(says) =>
        var c := s.calls[s.handling.value];
        AnswerFollows(s, s.handling.value, Dispatch(s.table, c.action, c.payload, says), says, o);
      case _ =>
        AgreesQueue(s, o);
        QueueKept(s, e);
        LifeFollows(s, e, o, p);
    }
  }

  lemma InitAgrees(table: Table)
    ensures Agrees(Init(table), RpcBase.Create(false))
  {
  }

  lemma AgreesQueue(s: State, o: RpcBase.Core)
    requires Agrees(s, o)
    ensures QueueOk(s)
  {
  }
}
