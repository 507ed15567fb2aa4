/** The connection object on one thread of events: its lifecycle, the classification of received texts, the
    handling of queued requests and a call with its wait loop. */
module RpcBase {
  import opened Text
  import opened Json
  import opened Frames
  import opened Dispatcher

  /** A decoded message (`RpcMessage`). `error` and `message` are null but for a CALLERROR. */
  datatype Message = Message(
    id: string, action: string, payload: Json, error: Option<string>, message: Option<string>, owner: Option<nat>)

  /** The state fields. `rxThread` tells whether `m_rx_thread` is set, `owner` is `m_rpc_owner`, `owners` counts the
      owners made so far, and `sent` lists the texts that were handed to `send`. */
  datatype Core = Core(
    pool: bool, rxThread: bool, owner: Option<nat>, owners: nat, operational: bool, enabled: bool,
    tid: nat, requests: seq<Message>, results: seq<Message>, pooled: seq<Message>, sent: seq<string>)

  predicate Started(s: Core) { s.rxThread || s.owner.Some? }

  /** While started, the reception thread is set without a pool and the owner with one; never both. The owner is the
      last that was made, and it is operational exactly while the queues are enabled. */
  predicate Sound(s: Core) {
    && (s.pool ==> !s.rxThread && (s.operational <==> s.owner.Some? && s.enabled))
    && (!s.pool ==> s.owner.None? && !s.operational)
    && (s.owner.Some? ==> s.owner.value + 1 == s.owners)
  }

  function Create(pool: bool): Core { Core(pool, false, None, 0, false, true, 0, [], [], [], []) }

  function StartCore(s: Core, r: nat): Core {
    if Started(s) then s
    else if s.pool then s.(tid := r, enabled := true, owner := Some(s.owners), owners := s.owners + 1, operational := true)
    else s.(tid := r, enabled := true, rxThread := true)
  }

  function StopCore(s: Core): Core {
    if !Started(s) then s
    else s.(enabled := false, rxThread := false, owner := None, operational := false, requests := [], results := [])
  }

  /** Dereferences the owner if there is a pool. */
  function DisconnectCore(s: Core): Core
    requires s.pool ==> s.owner.Some?
  {
    if s.pool then s.(enabled := false, operational := false) else s.(enabled := false)
  }

  /** What a received text does. */
  function ReceiveCore(s: Core, data: string): Core {
    match Decode(data)
    case Call(id, action, payload) =>
      var m := Message(id, action, payload, None, None, s.owner);
      if s.pool then s.(pooled := s.pooled + [m]) else s.(requests := s.requests + [m.(owner := None)])
    case Result(id, payload) => s.(results := s.results + [Message(id, "", payload, None, None, None)])
    case Error(id, code, message, payload) =>
      s.(results := s.results + [Message(id, "", payload, Some(code), Some(message), None)])
    case Malformed => s.(sent := s.sent + [PROTOCOL_ERROR_FRAME])
  }

  /** The texts with which requests are answered, in the order in which the requests are taken. */
  function Replies(requests: seq<Message>, outcomes: seq<Outcome>): seq<string>
    requires |requests| <= |outcomes|
  {
    if requests == [] then [] else Reply(requests[0].id, outcomes[0]) + Replies(requests[1..], outcomes[1..])
  }

  class RpcBase {
    const pool: bool
    var rxThread: bool
    var owner: Option<nat>
    var owners: nat
    var operational: bool
    var enabled: bool
    var tid: nat
    var requests: seq<Message>
    var results: seq<Message>
    var pooled: seq<Message>
    var sent: seq<string>

    ghost function State(): Core
      reads this
    {
      Core(pool, rxThread, owner, owners, operational, enabled, tid, requests, results, pooled, sent)
    }

    constructor (pool: bool)
      ensures State() == Create(pool)
    {
      this.pool := pool;
      rxThread, owner, owners, operational, enabled := false, None, 0, false, true;
      tid, requests, results, pooled, sent := 0, [], [], [], [];
    }

    /** `r` is what `std::rand` draws. */
    method Start(r: nat)
      modifies this
      ensures State() == StartCore(old(State()), r)
    {
      if !rxThread && owner.None? {
        tid := r;
        enabled := true;
        if pool {
          owner, owners, operational := Some(owners), owners + 1, true;
        } else {
          rxThread := true;
        }
      }
    }

    /** The thread that is joined has ended by then: its queue is disabled. */
    method Stop()
      requires Sound(State())
      modifies this
      ensures State() == StopCore(old(State()))
    {
      if rxThread || owner.Some? {
        enabled := false;
        if pool {
          assert owner.Some?;
          operational := false;
          owner := None;
        } else {
          assert rxThread;
          rxThread := false;
        }
        requests := [];
        results := [];
      }
    }

    method ProcessDisconnected()
      requires pool ==> owner.Some?
      modifies this
      ensures State() == DisconnectCore(old(State()))
    {
      enabled := false;
      if pool {
        operational := false;
      }
    }

    method Send(msg: string)
      modifies this`sent
      ensures sent == old(sent) + [msg]
    {
      sent := sent + [msg];
    }

    method SendCallError(id: string, error: string, message: string)
      modifies this`sent
      ensures sent == old(sent) + [ErrorText(id, error, message)]
    {
      Send(ErrorText(id, error, message));
    }

    method DecodeCall(id: string, action: Json, payload: Json) returns (ret: bool)
      modifies this`pooled, this`requests
      ensures ret <==> action.Str? && payload.Obj?
      ensures var m := Message(id, if action.Str? then CStr(action.s) else "", payload, None, None, None);
        && pooled == old(pooled) + (if ret && pool then [m.(owner := owner)] else [])
        && requests == old(requests) + if ret && !pool then [m] else []
    {
      ret := false;
      if action.Str? && payload.Obj? {
        var msg := Message(id, CStr(action.s), payload, None, None, None);
        if pool {
          pooled := pooled + [msg.(owner := owner)];
        } else {
          requests := requests + [msg];
        }
        ret := true;
      }
    }

    method DecodeCallResult(id: string, payload: Json) returns (ret: bool)
      modifies this`results
      ensures ret <==> payload.Obj?
      ensures results == old(results) + if ret then [Message(id, "", payload, None, None, None)] else []
    {
      ret := false;
      if payload.Obj? {
        results := results + [Message(id, "", payload, None, None, None)];
        ret := true;
      }
    }

    method DecodeCallError(id: string, error: Json, message: Json, payload: Json) returns (ret: bool)
      modifies this`results
      ensures ret <==> error.Str? && message.Str? && payload.Obj?
      ensures results == old(results) +
        if ret then [Message(id, "", payload, Some(CStr(error.s)), Some(CStr(message.s)), None)] else []
    {
      ret := false;
      if error.Str? && message.Str? && payload.Obj? {
        results := results + [Message(id, "", payload, Some(CStr(error.s)), Some(CStr(message.s)), None)];
        ret := true;
      }
    }

    /** Classifies a received text: queues a request or a result, or sends the protocol error. */
    method ProcessReceivedData(data: string)
      modifies this
      ensures State() == ReceiveCore(old(State()), data)
    {
      hide Parse, ErrorText, CStr;
      var frame := Parse(CStr(data));
      var valid := frame.Some?;
      if valid && frame.value.Arr? && |frame.value.items| >= 3 {
        var t := frame.value.items;
        if t[0].Num? && 0 <= t[0].n < 0x1_0000_0000 {
          match t[0].n {
            case 2 => valid := |t| == 4;
            case 3 => valid := |t| == 3;
            case 4 => valid := |t| == 5;
            case _ => valid := false;
          }
          if valid {
            if t[1].Str? {
              var id := CStr(t[1].s);
              if t[0].n == 2 {
                valid := DecodeCall(id, t[2], t[3]);
              } else if t[0].n == 3 {
                valid := DecodeCallResult(id, t[2]);
              } else {
                valid := DecodeCallError(id, t[2], t[3], t[4]);
              }
              if !valid {
                SendCallError("", PROTOCOL_ERROR, "");
              }
            } else {
              SendCallError("", PROTOCOL_ERROR, "");
            }
          } else {
            SendCallError("", PROTOCOL_ERROR, "");
          }
        } else {
          SendCallError("", PROTOCOL_ERROR, "");
        }
      } else {
        SendCallError("", PROTOCOL_ERROR, "");
      }
    }

    /** The listener forwards to the dispatcher; `says` is what the handler answers if it is called. */
    method ProcessIncomingRequest(m: Message, dispatcher: MessageDispatcher, says: Outcome)
      requires NoNullValidator(dispatcher.handlers)
      modifies this`sent
      ensures sent == old(sent) + Reply(m.id, Dispatch(dispatcher.handlers, m.action, m.payload, says))
    {
      var called, outcome := dispatcher.DispatchMessage(m.action, m.payload, says);
      if outcome.Accepted? {
        Send(ResultText(m.id, outcome.response));
      } else if outcome.code != [] {
        SendCallError(m.id, outcome.code, outcome.message);
      }
    }

    /** The reception thread. `arrives` are the requests that the receive path queues while the loop runs, batch by
        batch between its pops; the queue stays enabled until they are handled, or was disabled before. */
    method RxThread(dispatcher: MessageDispatcher, arrives: seq<seq<Message>>, says: seq<Outcome>)
      requires NoNullValidator(dispatcher.handlers) && |requests| + |Flatten(arrives)| <= |says|
      modifies this`sent, this`requests
      ensures !enabled ==> requests == old(requests) && sent == old(sent)
      ensures enabled ==> requests == []
      ensures enabled ==>
        var all := old(requests) + Flatten(arrives);
        sent == old(sent) + Replies(all, Outcomes(dispatcher.handlers, all, says))
    {
      hide Replies, Flatten, Reply, Dispatch;
      var k, b := 0, 0;
      ghost var all := requests + Flatten(arrives);
      ghost var outcomes := Outcomes(dispatcher.handlers, all, says);
      assert arrives[0..] == arrives && all[0..] == all && outcomes[0..] == outcomes;
      while enabled && (requests != [] || b < |arrives|)
        invariant k <= |all| && b <= |arrives| && requests + Flatten(arrives[b..]) == all[k..]
        invariant sent + Replies(all[k..], outcomes[k..]) == old(sent) + Replies(all, outcomes)
        invariant !enabled ==> requests == old(requests) && sent == old(sent)
        decreases |all| - k + |arrives| - b
      {
        if b < |arrives| {
          NextBatch(requests, arrives, b);
          requests := requests + arrives[b];
          b := b + 1;
        }
        if requests != [] {
          var m := requests[0];
          NextRequest(requests, Flatten(arrives[b..]), all, k);
          NextReply(sent, all, outcomes, k);
          requests := requests[1..];
          ProcessIncomingRequest(m, dispatcher, says[k]);
          k := k + 1;
        }
      }
      if enabled {
        AllHandled(sent, all, outcomes, k, arrives, b);
      }
    }

    /** The loop in which `call` waits for its answer. `arrives` are the frames that the receive path queues before
        the first, the second and each further pop that the deadline leaves time for; a pop of an empty queue times
        out. The loop ends with the first frame that carries the expected id, having removed the frames before it. */
    method AwaitAnswer(expected: string, arrives: seq<seq<Message>>)
        returns (ret: bool, answer: Option<Message>, ghost taken: nat, ghost waited: nat)
      modifies this`results
      ensures waited <= |arrives| && LeftAfter(old(results), arrives, waited, taken, results) && (ret ==> waited == taken)
      ensures taken <= |Yielded(old(results), enabled, arrives)|
      ensures var frames := Yielded(old(results), enabled, arrives);
        && (ret <==> exists i | 0 <= i < |frames| :: frames[i].id == expected)
        && (forall i | 0 <= i < (if ret then taken - 1 else taken) :: frames[i].id != expected)
        && (if ret then 0 < taken && answer == Some(frames[taken - 1]) && frames[taken - 1].id == expected
            else answer == None && taken == |frames|)
    {
      hide LeftAfter, Yielded;
      ret, answer, taken := true, None, 0;
      ghost var frames := Yielded(results, enabled, arrives);
      var n := 0;
      LeftAtFirst(results, arrives);
      assert arrives[0..] == arrives && frames[0..] == frames;
      while ret && answer == None
        invariant taken <= |frames| && n <= |arrives| && LeftAfter(old(results), arrives, n, taken, results)
        invariant answer != None ==> taken == n
        invariant ret && answer == None ==> taken == n && Yielded(results, enabled, arrives[n..]) == frames[taken..]
        invariant answer == None ==> forall i | 0 <= i < taken :: frames[i].id != expected
        invariant answer != None ==>
          && ret && 0 < taken && answer == Some(frames[taken - 1]) && answer.value.id == expected
          && forall i | 0 <= i < taken - 1 :: frames[i].id != expected
        invariant !ret ==> taken == |frames|
        decreases ret, |arrives| - n, answer == None
      {
        ret := false;
        NoYield(results, enabled, arrives[n..]);
        if enabled && n < |arrives| {
          NextYield(results, arrives, n);
          LeftNext(old(results), arrives, n, taken, results);
          results := results + arrives[n];
          n := n + 1;
          if results != [] {
            ret := true;
            answer := Some(results[0]);
            results := results[1..];
            taken := taken + 1;
            if answer.value.id != expected {
              answer := None;
            }
          }
        }
      }
      waited := n;
    }

    /** A call on one thread: the CALL carries the current id, the answer the same id, and the id is used up even if
        sending fails or no answer comes. */
    method Call(connected: bool, action: string, payload: Json, sendOk: bool, arrives: seq<seq<Message>>)
        returns (ret: bool, answer: Option<Message>, error: string, message: string)
      modifies this`tid, this`results, this`sent
      ensures !connected ==> !ret && tid == old(tid) && sent == old(sent) && results == old(results)
      ensures connected ==>
        tid == old(tid) + 1 && sent == old(sent) + [CallText(Digits(old(tid)), action, payload)]
      ensures answer == if connected && sendOk then FirstWith(Yielded(old(results), enabled, arrives), Digits(old(tid))) else None
      ensures ret <==> answer.Some?
      ensures ret ==> error == OrEmpty(answer.value.error) && message == OrEmpty(answer.value.message)
    {
      hide CallText, Digits;
      ret, answer, error, message := false, None, "", "";
      if connected {
        Send(CallText(Digits(tid), action, payload));
        if sendOk {
          ghost var taken, waited;
          ret, answer, taken, waited := AwaitAnswer(Digits(tid), arrives);
          FirstIs(Yielded(old(results), enabled, arrives), Digits(tid), answer, taken);
          if answer.Some? {
            error, message := OrEmpty(answer.value.error), OrEmpty(answer.value.message);
          } else {
            ret := false;
          }
        }
        tid := tid + 1;
      }
    }
  }

  function OrEmpty(s: Option<string>): string { if s.Some? then s.value else "" }

  function Flatten(batches: seq<seq<Message>>): seq<Message> {
    if batches == [] then [] else batches[0] + Flatten(batches[1..])
  }

  /** The frames that successive pops yield: none from a disabled queue, and none after a pop that finds the queue
      still empty when its time is up. */
  function Yielded(results: seq<Message>, enabled: bool, arrives: seq<seq<Message>>): seq<Message>
    decreases |arrives|
  {
    if !enabled || arrives == [] || results + arrives[0] == [] then []
    else [(results + arrives[0])[0]] + Yielded((results + arrives[0])[1..], enabled, arrives[1..])
  }

  /** The first of the frames that carries the id. */
  function FirstWith(frames: seq<Message>, id: string): (r: Option<Message>)
    ensures r.Some? ==> r.value in frames && r.value.id == id
    ensures r.None? ==> forall m | m in frames :: m.id != id
  {
    if frames == [] then None else if frames[0].id == id then Some(frames[0]) else FirstWith(frames[1..], id)
  }

  lemma {:induction false} FirstIs(frames: seq<Message>, id: string, r: Option<Message>, n: nat)
    requires n <= |frames|
    requires if r.Some? then 0 < n && r.value == frames[n - 1] && r.value.id == id else n == |frames|
    requires forall i | 0 <= i < (if r.Some? then n - 1 else n) :: frames[i].id != id
    ensures FirstWith(frames, id) == r
  {
    if frames != [] && !(r.Some? && n == 1) {
      FirstIs(frames[1..], id, r, n - 1);
    }
  }

  /** What is left in the queue when `waited` batches have come and `taken` frames were popped. */
  ghost predicate LeftAfter(
    before: seq<Message>, arrives: seq<seq<Message>>, waited: nat, taken: nat, results: seq<Message>)
    requires waited <= |arrives|
  {
    var come := before + Flatten(arrives[..waited]);
    taken <= |come| && results == come[taken..]
  }

  lemma LeftAtFirst(before: seq<Message>, arrives: seq<seq<Message>>)
    ensures LeftAfter(before, arrives, 0, 0, before)
  {
    assert arrives[..0] == [];
  }

  /** One more batch, and one more pop if there is something to pop. */
  lemma LeftNext(before: seq<Message>, arrives: seq<seq<Message>>, n: nat, taken: nat, results: seq<Message>)
    requires n < |arrives| && LeftAfter(before, arrives, n, taken, results)
    ensures LeftAfter(before, arrives, n + 1, taken, results + arrives[n])
    ensures results + arrives[n] != [] ==> LeftAfter(before, arrives, n + 1, taken + 1, (results + arrives[n])[1..])
  {
    FlattenNext(arrives, n);
    var come, more := before + Flatten(arrives[..n]), before + Flatten(arrives[..n + 1]);
    assert more == come + arrives[n];
    assert more[taken..] == come[taken..] + arrives[n];
  }

  lemma {:induction false} FlattenNext(arrives: seq<seq<Message>>, n: nat)
    requires n < |arrives|
    ensures Flatten(arrives[..n + 1]) == Flatten(arrives[..n]) + arrives[n]
    decreases n
  {
    if n == 0 {
      assert arrives[..0] == [] && arrives[..1][1..] == [];
    } else {
      FlattenNext(arrives[1..], n - 1);
      assert arrives[..n + 1][1..] == arrives[1..][..n] && arrives[..n][1..] == arrives[1..][..n - 1];
      RegroupMessages(arrives[0], Flatten(arrives[1..][..n - 1]), arrives[n]);
    }
  }

  lemma NoYield(results: seq<Message>, enabled: bool, arrives: seq<seq<Message>>)
    ensures !enabled || arrives == [] ==> Yielded(results, enabled, arrives) == []
  {
  }

  lemma NextYield(results: seq<Message>, arrives: seq<seq<Message>>, n: nat)
    requires n < |arrives|
    ensures var r := results + arrives[n];
      Yielded(results, true, arrives[n..]) == if r == [] then [] else [r[0]] + Yielded(r[1..], true, arrives[n + 1..])
  {
    assert arrives[n..][1..] == arrives[n + 1..];
  }

  /** Frames come out in the order in which they were queued, none skipped. */
  lemma {:induction false} YieldedInOrder(results: seq<Message>, enabled: bool, arrives: seq<seq<Message>>)
    ensures Yielded(results, enabled, arrives) <= results + Flatten(arrives)
    decreases |arrives|
  {
    if enabled && arrives != [] && results + arrives[0] != [] {
      var r := results + arrives[0];
      YieldedInOrder(r[1..], enabled, arrives[1..]);
      assert results + Flatten(arrives) == [r[0]] + (r[1..] + Flatten(arrives[1..]));
    }
  }

  lemma NextBatch(requests: seq<Message>, arrives: seq<seq<Message>>, b: nat)
    requires b < |arrives|
    ensures requests + Flatten(arrives[b..]) == (requests + arrives[b]) + Flatten(arrives[b + 1..])
  {
    assert arrives[b..][1..] == arrives[b + 1..];
    RegroupMessages(requests, arrives[b], Flatten(arrives[b + 1..]));
  }

  lemma NextRequest(requests: seq<Message>, rest: seq<Message>, all: seq<Message>, k: nat)
    requires requests != [] && k <= |all| && requests + rest == all[k..]
    ensures k < |all| && all[k] == requests[0] && requests[1..] + rest == all[k + 1..]
  {
    assert all[k] == (requests + rest)[0];
    assert requests[1..] + rest == (requests + rest)[1..];
  }

  lemma NextReply(sent: seq<string>, all: seq<Message>, outcomes: seq<Outcome>, k: nat)
    requires k < |all| == |outcomes|
    ensures sent + Replies(all[k..], outcomes[k..])
            == (sent + Reply(all[k].id, outcomes[k])) + Replies(all[k + 1..], outcomes[k + 1..])
  {
    hide Reply;
    assert all[k..][1..] == all[k + 1..] && outcomes[k..][1..] == outcomes[k + 1..];
    Regrouped(sent, Reply(all[k].id, outcomes[k]), Replies(all[k + 1..], outcomes[k + 1..]));
  }

  lemma AllHandled(sent: seq<string>, all: seq<Message>, outcomes: seq<Outcome>, k: nat, arrives: seq<seq<Message>>, b: nat)
    requires k <= |all| == |outcomes| && b == |arrives| && Flatten(arrives[b..]) == all[k..]
    ensures sent + Replies(all[k..], outcomes[k..]) == sent
  {
    assert arrives[b..] == [];
  }

  /** Requests are answered one after the other: first those in front, then the rest. */
  lemma {:induction false} RepliesConcat(a: seq<Message>, b: seq<Message>, oa: seq<Outcome>, ob: seq<Outcome>)
    requires |a| == |oa| && |b| == |ob|
    ensures Replies(a + b, oa + ob) == Replies(a, oa) + Replies(b, ob)
    decreases |a|
  {
    hide Reply;
    if a == [] {
      assert a + b == b && oa + ob == ob;
    } else {
      RepliesConcat(a[1..], b, oa[1..], ob);
      assert (a + b)[1..] == a[1..] + b && (oa + ob)[1..] == oa[1..] + ob;
      Regrouped(Reply(a[0].id, oa[0]), Replies(a[1..], oa[1..]), Replies(b, ob));
    }
  }

  lemma Regrouped(a: seq<string>, b: seq<string>, c: seq<string>)
    ensures a + (b + c) == (a + b) + c
  {
  }

  /** What the dispatcher makes of each request. */
  function Outcomes(table: Table, requests: seq<Message>, says: seq<Outcome>): (r: seq<Outcome>)
    requires NoNullValidator(table) && |requests| <= |says|
    ensures |r| == |requests|
    ensures forall i | 0 <= i < |r| :: r[i] == Dispatch(table, requests[i].action, requests[i].payload, says[i])
  {
    seq(|requests|, i requires 0 <= i < |requests| => Dispatch(table, requests[i].action, requests[i].payload, says[i]))
  }

  // ---------------------------------------------------------------- arrival

  function ReceiveAll(s: Core, texts: seq<string>): Core
    decreases |texts|
  {
    if texts == [] then s else ReceiveAll(ReceiveCore(s, texts[0]), texts[1..])
  }

  /** The request in a received text, if it is one. */
  function CallOf(text: string): seq<Message> {
    match Decode(text)
    case Call(id, action, payload) => [Message(id, action, payload, None, None, None)]
    case _ => []
  }

  function CallsIn(texts: seq<string>): seq<Message> {
    if texts == [] then [] else CallOf(texts[0]) + CallsIn(texts[1..])
  }

  lemma ReceiveOne(s: Core, text: string)
    requires !s.pool
    ensures var n := ReceiveCore(s, text);
      && n.requests == s.requests + CallOf(text) && n.pool == s.pool
      && |n.requests| + |n.results| + |n.sent| == |s.requests| + |s.results| + |s.sent| + 1
  {
    hide Decode, ErrorText;
  }

  lemma RegroupMessages(a: seq<Message>, b: seq<Message>, c: seq<Message>)
    ensures (a + b) + c == a + (b + c)
  {
  }

  /** Without a pool the queue gains the decoded CALLs in the order of their arrival, and every text has exactly one
      effect: a request, a result or a protocol error. */
  lemma {:induction false} ArrivalOrder(s: Core, texts: seq<string>)
    requires !s.pool
    ensures var n := ReceiveAll(s, texts);
      && n.requests == s.requests + CallsIn(texts)
      && |n.requests| + |n.results| + |n.sent| == |s.requests| + |s.results| + |s.sent| + |texts|
    decreases |texts|
  {
    hide ReceiveCore, CallOf;
    if texts != [] {
      ReceiveOne(s, texts[0]);
      ArrivalOrder(ReceiveCore(s, texts[0]), texts[1..]);
      RegroupMessages(s.requests, CallOf(texts[0]), CallsIn(texts[1..]));
    }
  }

  // ---------------------------------------------------------------- what a peer's texts become

  /** A result frame that is queued: no action, and no owner. */
  predicate IsAnswer(m: Message, id: string, payload: Json, error: Option<string>, message: Option<string>) {
    m.id == id && m.action == "" && m.payload == payload && m.error == error && m.message == message && m.owner == None
  }

  /** A CALLERROR of the peer becomes one result with its id, its code as the error, its message and no payload. */
  lemma ReceivesError(s: Core, id: string, code: string, message: string) returns (m: Message)
    requires Plain(id) && Plain(code) && Plain(message)
    ensures ReceiveCore(s, ErrorText(id, code, message)) == s.(results := s.results + [m])
    ensures IsAnswer(m, id, Obj([]), Some(code), Some(message))
  {
    hide Decode, ErrorText, Plain;
    ErrorRoundTrip(id, code, message);
    m := Message(id, "", Obj([]), Some(code), Some(message), None);
  }

  /** A CALLRESULT of the peer becomes one result with its id and payload and no error. */
  lemma ReceivesResult(s: Core, id: string, payload: Json) returns (m: Message)
    requires Plain(id) && Exact(payload) && payload.Obj?
    ensures ReceiveCore(s, ResultText(id, payload)) == s.(results := s.results + [m])
    ensures IsAnswer(m, id, payload, None, None)
  {
    hide Decode, ResultText, Plain, Exact, ErrorText;
    ResultRoundTrip(id, payload);
    m := Message(id, "", payload, None, None, None);
  }

  /** A CALL of the peer becomes one request with its id, action and payload: in the pool with the current owner, or
      in the queue of the reception thread. */
  lemma ReceivesCall(s: Core, id: string, action: string, payload: Json) returns (m: Message)
    requires Plain(id) && Plain(action) && Exact(payload) && payload.Obj?
    ensures m.id == id && m.action == action && m.payload == payload && m.error == None && m.message == None
    ensures s.pool ==> m.owner == s.owner && ReceiveCore(s, CallText(id, action, payload)) == s.(pooled := s.pooled + [m])
    ensures !s.pool ==> m.owner == None && ReceiveCore(s, CallText(id, action, payload)) == s.(requests := s.requests + [m])
  {
    hide Decode, CallText, Plain, Exact, ErrorText;
    CallRoundTrip(id, action, payload);
    m := Message(id, action, payload, None, None, if s.pool then s.owner else None);
  }

  /** The result in a received text, if it is one. */
  function ResultOf(text: string): seq<Message> { ReceiveCore(Create(false), text).results }

  function ResultsIn(texts: seq<string>): seq<Message> {
    if texts == [] then [] else ResultOf(texts[0]) + ResultsIn(texts[1..])
  }

  lemma ReceiveResult(s: Core, text: string)
    ensures ReceiveCore(s, text).results == s.results + ResultOf(text)
  {
    hide Decode, ErrorText;
  }

  /** Whatever else is received, the queue of results gains the result frames in the order of their arrival. */
  lemma {:induction false} ResultsInOrder(s: Core, texts: seq<string>)
    ensures ReceiveAll(s, texts).results == s.results + ResultsIn(texts)
    decreases |texts|
  {
    hide ReceiveCore, ResultOf;
    if texts != [] {
      ReceiveResult(s, texts[0]);
      ResultsInOrder(ReceiveCore(s, texts[0]), texts[1..]);
      RegroupMessages(s.results, ResultOf(texts[0]), ResultsIn(texts[1..]));
    }
  }

  lemma {:induction false} ResultsConcat(a: seq<string>, b: seq<string>)
    ensures ResultsIn(a + b) == ResultsIn(a) + ResultsIn(b)
  {
    hide ResultOf;
    if a == [] {
      assert a + b == b;
    } else {
      ResultsConcat(a[1..], b);
      assert (a + b)[1..] == a[1..] + b;
      RegroupMessages(ResultOf(a[0]), ResultsIn(a[1..]), ResultsIn(b));
    }
  }

  /** While there is something queued and time left, pops go on. */
  lemma {:induction false} YieldedLong(results: seq<Message>, arrives: seq<seq<Message>>, n: nat)
    requires n <= |arrives| && (arrives != [] ==> n <= |results + arrives[0]|)
    ensures n <= |Yielded(results, true, arrives)|
    decreases |arrives|
  {
    if n > 0 {
      var r := (results + arrives[0])[1..];
      if |arrives| > 1 {
        assert n - 1 <= |r + arrives[1..][0]|;
      }
      YieldedLong(r, arrives[1..], n - 1);
    }
  }

  lemma {:induction false} FirstAt(frames: seq<Message>, id: string, p: nat)
    requires p < |frames| && frames[p].id == id && forall i | 0 <= i < p :: frames[i].id != id
    ensures FirstWith(frames, id) == Some(frames[p])
  {
    FirstIs(frames, id, Some(frames[p]), p + 1);
  }

  /** The answer to a call is the first frame with its id among those queued and those of the first batch, if the
      deadline leaves time for the frames before it. */
  lemma FirstOfBatch(results: seq<Message>, arrives: seq<seq<Message>>, id: string, p: nat)
    requires p < |arrives| && p < |results + arrives[0]| && (results + arrives[0])[p].id == id
    requires forall i | 0 <= i < p :: (results + arrives[0])[i].id != id
    ensures FirstWith(Yielded(results, true, arrives), id) == Some((results + arrives[0])[p])
  {
    hide Yielded, FirstWith;
    var frames, all := Yielded(results, true, arrives), results + Flatten(arrives);
    YieldedLong(results, arrives, p + 1);
    YieldedInOrder(results, true, arrives);
    assert all == (results + arrives[0]) + Flatten(arrives[1..]);
    forall i | 0 <= i <= p ensures frames[i] == (results + arrives[0])[i] {
      assert frames[i] == all[i];
    }
    FirstAt(frames, id, p);
  }

  /** A text of the peer that becomes the result `m`, received after `before` and with `after` in the first batch. */
  lemma AnswerInBatch(
    results: seq<Message>, before: seq<string>, text: string, after: seq<string>, more: seq<seq<Message>>, m: Message)
    requires ResultOf(text) == [m] && |results| + |ResultsIn(before)| <= |more|
    requires forall x | x in results + ResultsIn(before) :: x.id != m.id
    ensures FirstWith(Yielded(results, true, [ResultsIn(before + ([text] + after))] + more), m.id) == Some(m)
  {
    hide ResultOf, ResultsIn, Yielded, FirstWith;
    BatchSplit(before, text, after);
    AnswerAfter(results, ResultsIn(before), m, ResultsIn(after), more);
  }

  lemma BatchSplit(before: seq<string>, text: string, after: seq<string>)
    ensures ResultsIn(before + ([text] + after)) == ResultsIn(before) + (ResultOf(text) + ResultsIn(after))
  {
    hide ResultOf;
    ResultsConcat(before, [text] + after);
    assert ([text] + after)[1..] == after;
  }

  lemma AnswerAfter(results: seq<Message>, xs: seq<Message>, m: Message, ys: seq<Message>, more: seq<seq<Message>>)
    requires |results| + |xs| <= |more| && forall x | x in results + xs :: x.id != m.id
    ensures FirstWith(Yielded(results, true, [xs + ([m] + ys)] + more), m.id) == Some(m)
  {
    hide Yielded, FirstWith;
    var arrives, p := [xs + ([m] + ys)] + more, |results| + |xs|;
    RegroupMessages(results, xs, [m] + ys);
    var q := (results + xs) + ([m] + ys);
    assert arrives[0] == xs + ([m] + ys) && q[p] == m;
    forall i | 0 <= i < p ensures q[i].id != m.id {
      assert q[i] == (results + xs)[i];
    }
    FirstOfBatch(results, arrives, m.id, p);
  }

  /** The first call after a start, answered in time by a text of the peer: `call` returns true and hands back what
      the peer wrote. Other frames may come before and after, as long as none before has the id. */
  lemma StartThenResult(s: Core, r: nat, payload: Json, before: seq<string>, after: seq<string>, more: seq<seq<Message>>)
      returns (m: Message)
    requires !Started(s) && Exact(payload) && payload.Obj? && |s.results| + |ResultsIn(before)| <= |more|
    requires forall x | x in s.results + ResultsIn(before) :: x.id != Digits(r)
    ensures var n := StartCore(s, r);
      var batch := ResultsIn(before + ([ResultText(Digits(r), payload)] + after));
      FirstWith(Yielded(n.results, n.enabled, [batch] + more), Digits(n.tid)) == Some(m)
    ensures IsAnswer(m, Digits(r), payload, None, None) && OrEmpty(m.error) == "" && OrEmpty(m.message) == ""
  {
    hide ResultsIn, ResultText, Yielded, FirstWith, Exact, Digits, ReceiveCore;
    DigitsPlain(r);
    m := ReceivesResult(Create(false), Digits(r), payload);
    AnswerInBatch(s.results, before, ResultText(Digits(r), payload), after, more, m);
  }

  /** The same with a CALLERROR: `call` hands back its code and its message. */
  lemma StartThenError(
    s: Core, r: nat, code: string, message: string, before: seq<string>, after: seq<string>, more: seq<seq<Message>>)
      returns (m: Message)
    requires !Started(s) && Plain(code) && Plain(message) && |s.results| + |ResultsIn(before)| <= |more|
    requires forall x | x in s.results + ResultsIn(before) :: x.id != Digits(r)
    ensures var n := StartCore(s, r);
      var batch := ResultsIn(before + ([ErrorText(Digits(r), code, message)] + after));
      FirstWith(Yielded(n.results, n.enabled, [batch] + more), Digits(n.tid)) == Some(m)
    ensures IsAnswer(m, Digits(r), Obj([]), Some(code), Some(message)) && OrEmpty(m.error) == code && OrEmpty(m.message) == message
  {
    hide ResultsIn, ErrorText, Yielded, FirstWith, Plain, Digits, ReceiveCore;
    DigitsPlain(r);
    m := ReceivesError(Create(false), Digits(r), code, message);
    AnswerInBatch(s.results, before, ErrorText(Digits(r), code, message), after, more, m);
  }

  // ---------------------------------------------------------------- lifecycle

  datatype Event = Starting(r: nat) | Stopping | Disconnecting | Receiving(data: string)

  predicate Possible(s: Core, e: Event) { e.Disconnecting? && s.pool ==> s.owner.Some? }

  function Apply(s: Core, e: Event): Core
    requires Possible(s, e)
  {
    match e
    case Starting(r) => StartCore(s, r)
    case Stopping => StopCore(s)
    case Disconnecting => DisconnectCore(s)
    case Receiving(data) => ReceiveCore(s, data)
  }

  ghost predicate Lives(s: Core, events: seq<Event>)
    decreases |events|
  {
    events == [] || (Possible(s, events[0]) && Lives(Apply(s, events[0]), events[1..]))
  }

  ghost function LifeAfter(s: Core, events: seq<Event>): Core
    requires Lives(s, events)
    decreases |events|
  {
    if events == [] then s else LifeAfter(Apply(s, events[0]), events[1..])
  }

  lemma ApplySound(s: Core, e: Event)
    requires Sound(s) && Possible(s, e)
    ensures Sound(Apply(s, e)) && Apply(s, e).pool == s.pool && s.owners <= Apply(s, e).owners
    ensures s.pooled <= Apply(s, e).pooled && s.sent <= Apply(s, e).sent
  {
    hide Decode, ErrorText;
  }

  /** Over every sequence of starts, stops, disconnections and received texts, what is set while started is exactly
      what the configuration calls for: the owner with a pool, the reception thread without one. What was handed to
      the pool or sent stays so. */
  lemma {:induction false} LifecycleSound(s: Core, events: seq<Event>)
    requires Sound(s) && Lives(s, events)
    ensures var n := LifeAfter(s, events);
      && Sound(n) && n.pool == s.pool && (Started(n) ==> n.owner.Some? == s.pool && n.rxThread == !s.pool)
      && s.owners <= n.owners && s.pooled <= n.pooled && s.sent <= n.sent
    decreases |events|
  {
    hide Apply;
    if events != [] {
      ApplySound(s, events[0]);
      LifecycleSound(Apply(s, events[0]), events[1..]);
    }
  }

  /** The event is a stop that finds the object started. */
  predicate Stops(s: Core, e: Event) { e.Stopping? && Started(s) }

  /** The event ends what a start has begun: a disconnection, or a stop of a started object. */
  predicate Ends(s: Core, e: Event) { e.Disconnecting? || Stops(s, e) }

  ghost predicate NoEnd(s: Core, events: seq<Event>)
    requires Lives(s, events)
    decreases |events|
  {
    events == [] || (!Ends(s, events[0]) && NoEnd(Apply(s, events[0]), events[1..]))
  }

  /** A start that took effect: the number it drew, and the owner it made if there is a pool. */
  datatype Begun = Begun(r: nat, owner: nat)

  /** The start that took effect and that nothing has ended since, if there is one. */
  ghost function Standing(s: Core, events: seq<Event>): Option<Begun>
    requires Lives(s, events)
    decreases |events|
  {
    if events == [] then None
    else
      var n, rest := Apply(s, events[0]), events[1..];
      if Standing(n, rest).Some? then Standing(n, rest)
      else if events[0].Starting? && !Started(s) && NoEnd(n, rest) then Some(Begun(events[0].r, s.owners))
      else None
  }

  lemma StepEnables(s: Core, e: Event)
    requires Sound(s) && Possible(s, e)
    ensures var n := Apply(s, e);
      && (Ends(s, e) ==> !n.enabled && !n.operational)
      && (e.Starting? && !Started(s) ==>
            n.enabled && n.tid == e.r && Started(n) && (n.pool ==> n.operational && n.owner == Some(s.owners)))
      && (!Ends(s, e) && !(e.Starting? && !Started(s)) ==>
            n.enabled == s.enabled && n.tid == s.tid && Started(n) == Started(s) && n.owner == s.owner)
  {
    hide Decode, ErrorText;
  }

  /** Nothing changes a start that stands. */
  lemma {:induction false} NoEndKeeps(s: Core, events: seq<Event>)
    requires Sound(s) && Started(s) && Lives(s, events) && NoEnd(s, events)
    ensures var n := LifeAfter(s, events);
      n.enabled == s.enabled && n.tid == s.tid && Started(n) && n.owner == s.owner
    decreases |events|
  {
    hide Apply, Started, Sound, Ends;
    if events != [] {
      StepEnables(s, events[0]);
      ApplySound(s, events[0]);
      NoEndKeeps(Apply(s, events[0]), events[1..]);
    }
  }

  /** From a start that takes effect until the next stop or disconnection the queues are enabled, the next id is the
      number drawn, and with a pool a new owner is operational. */
  lemma {:induction false} StartStands(s: Core, events: seq<Event>)
    requires Sound(s) && Lives(s, events) && Standing(s, events).Some?
    ensures var n, b := LifeAfter(s, events), Standing(s, events).value;
      && Started(n) && n.enabled && n.tid == b.r && s.owners <= b.owner
      && (n.pool ==> n.operational && n.owner == Some(b.owner) && n.owners == b.owner + 1)
    decreases |events|
  {
    hide Apply, NoEnd;
    var n := Apply(s, events[0]);
    StepEnables(s, events[0]);
    ApplySound(s, events[0]);
    LifecycleSound(s, events);
    if Standing(n, events[1..]).Some? {
      StartStands(n, events[1..]);
    } else {
      NoEndKeeps(n, events[1..]);
    }
  }

  /** The queues are enabled exactly if a start stands, or if they were and nothing has ended it: a stop of a started
      object and a disconnection disable them, and only a start that takes effect enables them again. */
  lemma {:induction false} EnabledExactly(s: Core, events: seq<Event>)
    requires Sound(s) && Lives(s, events)
    ensures LifeAfter(s, events).enabled <==> Standing(s, events).Some? || (s.enabled && NoEnd(s, events))
    decreases |events|
  {
    hide Apply, Sound;
    if events != [] {
      StepEnables(s, events[0]);
      ApplySound(s, events[0]);
      EnabledExactly(Apply(s, events[0]), events[1..]);
    }
  }

  /** The texts that the object receives. */
  function Texts(events: seq<Event>): seq<string> {
    if events == [] then [] else (if events[0].Receiving? then [events[0].data] else []) + Texts(events[1..])
  }

  ghost predicate NoStop(s: Core, events: seq<Event>)
    requires Lives(s, events)
    decreases |events|
  {
    events == [] || (!Stops(s, events[0]) && NoStop(Apply(s, events[0]), events[1..]))
  }

  lemma OnlyTextsQueue(s: Core, e: Event)
    requires Possible(s, e) && !Stops(s, e) && !e.Receiving?
    ensures var n := Apply(s, e); n.requests == s.requests && n.results == s.results && n.pooled == s.pooled && n.sent == s.sent
  {
  }

  /** Unless a stop takes effect, starts and disconnections leave both queues alone: without a pool they hold what
      they held and the decoded texts, in the order of arrival. */
  lemma {:induction false} QueuedUntilStop(s: Core, events: seq<Event>)
    requires !s.pool && Sound(s) && Lives(s, events) && NoStop(s, events)
    ensures var n := LifeAfter(s, events);
      n.requests == s.requests + CallsIn(Texts(events)) && n.results == s.results + ResultsIn(Texts(events))
    decreases |events|
  {
    hide CallOf, ResultOf, Sound, ReceiveCore;
    if events != [] {
      var e, n, ts := events[0], Apply(s, events[0]), Texts(events[1..]);
      ApplySound(s, e);
      QueuedUntilStop(n, events[1..]);
      if e.Receiving? {
        ReceiveOne(s, e.data);
        ReceiveResult(s, e.data);
        assert ([e.data] + ts)[1..] == ts;
        RegroupMessages(s.requests, CallOf(e.data), CallsIn(ts));
        RegroupMessages(s.results, ResultOf(e.data), ResultsIn(ts));
      } else {
        OnlyTextsQueue(s, e);
        assert Texts(events) == ts;
      }
    }
  }

  /** `stop` dereferences what is set; after it neither is set and both queues of a started object are empty. */
  lemma StopEmptiesQueues(s: Core)
    requires Sound(s)
    ensures Started(s) ==> (if s.pool then s.owner.Some? else s.rxThread)
    ensures !Started(StopCore(s)) && (Started(s) ==> StopCore(s).requests == [] && StopCore(s).results == [])
  {
  }

  /** The dereference in `processDisconnected` is safe exactly when there is no pool or the object is started. */
  lemma DisconnectSafety(s: Core)
    requires Sound(s)
    ensures Possible(s, Disconnecting) <==> !s.pool || Started(s)
  {
  }

  /** With a pool a disconnection event finds no owner before `start`, as when it comes between the registration of
      the listener and the start in the constructor of a server's client, nor after `stop`. */
  lemma DisconnectWithoutOwner(r: nat)
    ensures !Possible(Create(true), Disconnecting)
    ensures !Possible(StopCore(StartCore(Create(true), r)), Disconnecting)
  {
  }
}
