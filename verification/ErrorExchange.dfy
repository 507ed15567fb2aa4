/** Two RPC endpoints that answer each other's frames, with no new application calls. Frames in flight and queued
    requests are delivered and handled in any order; handlers and peers are arbitrary and sending may fail. */
module ErrorExchange {
  import opened Text
  import opened Json
  import opened Frames
  import RpcBase

  /** A text on its way to one of the two endpoints. */
  datatype Packet = Packet(toFirst: bool, text: string)

  /** A CALL that an endpoint has decoded and queued. */
  datatype Request = Request(atFirst: bool, id: string, action: string, payload: Json)

  datatype Net = Net(wire: seq<Packet>, queued: seq<Request>)

  datatype Step =
    | Deliver(packet: nat, sent: bool)
    | Handle(request: nat, outcome: Outcome, sent: bool)

  predicate Enabled(n: Net, e: Step) {
    match e
    case Deliver(i, _) => i < |n.wire|
    case Handle(i, _, _) => i < |n.queued|
  }

  function Towards(toFirst: bool, texts: seq<string>, sent: bool): seq<Packet> {
    if sent && texts != [] then [Packet(toFirst, texts[0])] else []
  }

  function WithoutPacket(wire: seq<Packet>, i: nat): seq<Packet>
    requires i < |wire|
  {
    wire[..i] + wire[i + 1..]
  }

  function WithoutRequest(queued: seq<Request>, i: nat): seq<Request>
    requires i < |queued|
  {
    queued[..i] + queued[i + 1..]
  }

  function Next(n: Net, e: Step): Net
    requires Enabled(n, e)
  {
    match e
    case Deliver(i, sent) =>
      var p := n.wire[i];
      var rest := WithoutPacket(n.wire, i);
      (match Decode(p.text)
       case Call(id, action, payload) => Net(rest, n.queued + [Request(p.toFirst, id, action, payload)])
       case Malformed => Net(rest + Towards(!p.toFirst, [PROTOCOL_ERROR_FRAME], sent), n.queued)
       case _ => Net(rest, n.queued))
    case Handle(i, o, sent) =>
      var r := n.queued[i];
      Net(n.wire + Towards(!r.atFirst, Reply(r.id, o), sent), WithoutRequest(n.queued, i))
  }

  /** The state after a run of steps, each of which is possible where it is taken. */
  ghost predicate Runs(n: Net, steps: seq<Step>)
    decreases |steps|
  {
    steps == [] || (Enabled(n, steps[0]) && Runs(Next(n, steps[0]), steps[1..]))
  }

  ghost function After(n: Net, steps: seq<Step>): Net
    requires Runs(n, steps)
    decreases |steps|
  {
    if steps == [] then n else After(Next(n, steps[0]), steps[1..])
  }

  // ---------------------------------------------------------------- how much answering is left

  function Worth(text: string): nat {
    match Decode(text)
    case Call(_, _, _) => 4
    case Malformed => 2
    case _ => 1
  }

  function WireWorth(wire: seq<Packet>): nat {
    if wire == [] then 0 else Worth(wire[0].text) + WireWorth(wire[1..])
  }

  /** An upper bound on the steps that can still follow. */
  function Bound(n: Net): nat { WireWorth(n.wire) + 3 * |n.queued| }

  lemma {:induction false} WireWorthConcat(a: seq<Packet>, b: seq<Packet>)
    ensures WireWorth(a + b) == WireWorth(a) + WireWorth(b)
  {
    hide Worth;
    if a == [] {
      assert a + b == b;
    } else {
      WireWorthConcat(a[1..], b);
      assert (a + b)[1..] == a[1..] + b;
    }
  }

  lemma WithoutWorth(wire: seq<Packet>, i: nat)
    requires i < |wire|
    ensures WireWorth(WithoutPacket(wire, i)) == WireWorth(wire) - Worth(wire[i].text)
  {
    hide Worth;
    WireWorthConcat(wire[..i], wire[i + 1..]);
    WireWorthConcat(wire[..i], [wire[i]] + wire[i + 1..]);
    assert wire == wire[..i] + ([wire[i]] + wire[i + 1..]);
    assert ([wire[i]] + wire[i + 1..])[1..] == wire[i + 1..];
  }

  lemma SentWorth(wire: seq<Packet>, toFirst: bool, texts: seq<string>, sent: bool, w: nat)
    requires texts != [] ==> Worth(texts[0]) <= w
    ensures WireWorth(wire + Towards(toFirst, texts, sent)) <= WireWorth(wire) + w
  {
    hide Worth;
    WireWorthConcat(wire, Towards(toFirst, texts, sent));
    assert forall p: Packet :: [p][1..] == [];
  }

  /** Whatever the handler says, the reply to a CALL is not decoded as a CALL. */
  lemma ReplyWorth(id: string, o: Outcome)
    ensures |Reply(id, o)| <= 1
    ensures Reply(id, o) != [] ==> Worth(Reply(id, o)[0]) <= 2
  {
    hide Decode, Print, Quoted;
    if Reply(id, o) != [] {
      ReplyIsNoCall(Reply(id, o)[0]);
    }
  }

  lemma ProtocolErrorWorth()
    ensures Worth(PROTOCOL_ERROR_FRAME) == 1
  {
    hide Decode, ErrorText;
    ProtocolErrorFrame(0);
  }

  lemma DeliverBound(n: Net, i: nat, sent: bool)
    requires i < |n.wire|
    ensures Bound(Next(n, Deliver(i, sent))) < Bound(n)
  {
    hide Decode, WireWorth, WithoutPacket, Towards, ErrorText;
    var p, rest := n.wire[i], WithoutPacket(n.wire, i);
    WithoutWorth(n.wire, i);
    ProtocolErrorWorth();
    SentWorth(rest, !p.toFirst, [PROTOCOL_ERROR_FRAME], sent, 1);
  }

  lemma HandleBound(n: Net, i: nat, o: Outcome, sent: bool)
    requires i < |n.queued|
    ensures Bound(Next(n, Handle(i, o, sent))) < Bound(n)
  {
    hide Decode, WireWorth, Worth, Towards, Reply;
    var r := n.queued[i];
    ReplyWorth(r.id, o);
    SentWorth(n.wire, !r.atFirst, Reply(r.id, o), sent, 2);
  }

  /** Every step uses up some of what is left. */
  lemma StepBound(n: Net, e: Step)
    requires Enabled(n, e)
    ensures Bound(Next(n, e)) < Bound(n)
  {
    hide Next, Bound;
    match e {
      case Deliver(i, sent) => DeliverBound(n, i, sent);
      case Handle(i, o, sent) => HandleBound(n, i, o, sent);
    }
  }

  /** Errors never bounce forever: a run is no longer than the bound of the state it starts in. */
  lemma {:induction false} ExchangeEnds(n: Net, steps: seq<Step>)
    requires Runs(n, steps)
    ensures |steps| + Bound(After(n, steps)) <= Bound(n)
    decreases |steps|
  {
    hide Bound, Next;
    if steps != [] {
      StepBound(n, steps[0]);
      ExchangeEnds(Next(n, steps[0]), steps[1..]);
    }
  }

  /** The bound is proportional to what is there at the start. */
  lemma {:induction false} BoundSize(wire: seq<Packet>)
    ensures |wire| <= WireWorth(wire) <= 4 * |wire|
  {
    if wire != [] {
      BoundSize(wire[1..]);
    }
  }

  /** An exchange that cannot go on has nothing in flight and nothing queued, and conversely. */
  lemma QuietIffEmpty(n: Net)
    ensures (forall e: Step :: !Enabled(n, e)) <==> n == Net([], [])
  {
    if n.wire != [] {
      assert Enabled(n, Deliver(0, true));
    }
    if n.queued != [] {
      assert Enabled(n, Handle(0, Refused([], []), true));
    }
  }

  // ---------------------------------------------------------------- the steps are those of the objects

  function MessageOf(r: Request): RpcBase.Message { RpcBase.Message(r.id, r.action, r.payload, None, None, None) }

  /** The requests of one endpoint, and the texts that it sends, among those added by a step. */
  function Queued(rs: seq<Request>, atFirst: bool): seq<RpcBase.Message> {
    if rs == [] then []
    else (if rs[0].atFirst == atFirst then [MessageOf(rs[0])] else []) + Queued(rs[1..], atFirst)
  }

  function SentBy(ps: seq<Packet>, first: bool): seq<string> {
    if ps == [] then [] else (if ps[0].toFirst != first then [ps[0].text] else []) + SentBy(ps[1..], first)
  }

  /** A delivery takes the packet off the wire and has the effects that receiving its text has on the endpoint it is
      for: the same request is queued or the same text is sent, if sending works, and nothing at the other endpoint. */
  lemma DeliveryIsReceipt(n: Net, i: nat, sent: bool, o: RpcBase.Core)
    requires i < |n.wire| && !o.pool
    ensures var p, q, m := n.wire[i], RpcBase.ReceiveCore(o, n.wire[i].text), Next(n, Deliver(i, sent));
            && n.queued <= m.queued && WithoutPacket(n.wire, i) <= m.wire
            && q.requests == o.requests + Queued(m.queued[|n.queued|..], p.toFirst)
            && Queued(m.queued[|n.queued|..], !p.toFirst) == []
            && (sent ==> q.sent == o.sent + SentBy(m.wire[|n.wire| - 1..], p.toFirst))
            && SentBy(m.wire[|n.wire| - 1..], !p.toFirst) == []
  {
    hide Decode, ErrorText;
    var p, m := n.wire[i], Next(n, Deliver(i, sent));
    var added, texts := m.queued[|n.queued|..], m.wire[|n.wire| - 1..];
    match Decode(p.text) {
      case Call(id, action, payload) =>
        assert added == [Request(p.toFirst, id, action, payload)] && texts == [];
        assert added[1..] == [];
      case Malformed =>
        assert added == [] && texts == Towards(!p.toFirst, [PROTOCOL_ERROR_FRAME], sent);
        assert texts != [] ==> texts[1..] == [];
      case _ => assert added == [] && texts == [];
    }
  }

  /** A CALL that is delivered, handled and answered puts exactly one text on the wire: to its sender, decoded there as
      the answer to that very call. */
  lemma CallIsAnswered(toFirst: bool, n: nat, action: string, payload: Json, o: Outcome)
    requires Plain(action) && Exact(payload) && payload.Obj?
    requires match o
             case Accepted(response) => Exact(response) && response.Obj?
             case Refused(code, message) => code != [] && Plain(code) && Plain(message)
    ensures var net := Net([Packet(toFirst, CallText(Digits(n), action, payload))], []);
            var steps := [Deliver(0, true), Handle(0, o, true)];
            && Runs(net, steps) && After(net, steps).queued == [] && |After(net, steps).wire| == 1
            && After(net, steps).wire[0].toFirst == !toFirst
            && Decode(After(net, steps).wire[0].text) ==
               match o
               case Accepted(response) => Result(Digits(n), response)
               case Refused(code, message) => Error(Digits(n), code, message, Obj([]))
  {
    hide Decode, CallText, Reply, Plain, Exact, Digits, ErrorText;
    CallAndReply(n, action, payload, o);
    var net := Net([Packet(toFirst, CallText(Digits(n), action, payload))], []);
    var steps := [Deliver(0, true), Handle(0, o, true)];
    var net1 := Next(net, steps[0]);
    assert net1 == Net([], [Request(toFirst, Digits(n), action, payload)]);
    var net2 := Next(net1, steps[1]);
    assert net2 == Net([Packet(!toFirst, Reply(Digits(n), o)[0])], []);
    assert steps[1..] == [Handle(0, o, true)] && steps[1..][1..] == [];
    assert Runs(net2, []) && Runs(net1, steps[1..]);
    assert After(net1, steps[1..]) == net2;
  }
}
