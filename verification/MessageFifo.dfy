/** Sending of requests with an offline FIFO: the fast path that bypasses the FIFO only when it is
    empty, the retry loop that drains it, and the persistent FIFO itself. */
module MessageFifo {
  import opened Text

  datatype Request = Request(connector: nat, action: string, payload: string)

  datatype CallResult = Ok | Delayed | Failed | Error

  /** What came back for a call that was answered: an error frame or not, whether there is a validator
      for the response, whether the response is valid, and whether it could be converted. */
  datatype Answer = Answer(error: bool, validator: bool, valid: bool, converted: bool)

  function ResultOf(a: Answer): CallResult {
    if a.error then Error
    else if a.validator && a.valid && a.converted then Ok
    else Failed
  }

  /** How a request left the pipeline. */
  datatype Settled = Answered(req: Request) | Dropped(req: Request, failures: nat, limit: nat)

  /** The FIFO, the failures of its head, and the history of the pipeline. */
  datatype Pipeline = Pipeline(fifo: seq<Request>, retries: nat, settled: seq<Settled>, submitted: seq<Request>)

  function Requests(ss: seq<Settled>): (r: seq<Request>)
    ensures |r| == |ss| && forall i | 0 <= i < |r| :: r[i] == ss[i].req
  {
    seq(|ss|, i requires 0 <= i < |ss| => ss[i].req)
  }

  /** A request that can be converted is submitted; `answer` is what a call would bring, if anything. */
  function Submit(s: Pipeline, req: Request, answer: Option<Answer>): Pipeline {
    var t := s.(submitted := s.submitted + [req]);
    if s.fifo == [] && answer.Some? then t.(settled := s.settled + [Answered(req)])
    else t.(fifo := s.fifo + [req])
  }

  /** One round of the drain: the head leaves on success or after too many failures. */
  function DrainOnce(s: Pipeline, r: CallResult, attempts: nat): Pipeline {
    if s.fifo == [] then s
    else if r == Ok then
      s.(fifo := s.fifo[1..], retries := 0, settled := s.settled + [Answered(s.fifo[0])])
    else if s.retries + 1 > attempts then
      s.(fifo := s.fifo[1..], retries := 0,
         settled := s.settled + [Dropped(s.fifo[0], s.retries + 1, attempts)])
    else s.(retries := s.retries + 1)
  }

  function DrainMany(s: Pipeline, rs: seq<CallResult>, attempts: nat): Pipeline {
    if rs == [] then s else DrainOnce(DrainMany(s, rs[..|rs| - 1], attempts), rs[|rs| - 1], attempts)
  }

  // ---------------------------------------------------------------- the order law

  /** What has left the pipeline, followed by what waits in it, is what was submitted: nothing is
      lost, duplicated or overtaken. Only requests that failed too often are dropped. */
  ghost predicate InOrder(s: Pipeline) {
    && s.submitted == Requests(s.settled) + s.fifo
    && (forall i | 0 <= i < |s.settled| :: s.settled[i].Dropped? ==> s.settled[i].failures > s.settled[i].limit)
    && (s.fifo == [] ==> s.retries == 0)
  }

  datatype Event =
    | Submission(req: Request, answer: Option<Answer>)
    | Round(result: CallResult, attempts: nat)

  function Next(s: Pipeline, e: Event): Pipeline {
    match e
    case Submission(req, answer) => Submit(s, req, answer)
    case Round(r, attempts) => DrainOnce(s, r, attempts)
  }

  function After(s: Pipeline, es: seq<Event>): Pipeline {
    if es == [] then s else Next(After(s, es[..|es| - 1]), es[|es| - 1])
  }

  const EMPTY := Pipeline([], 0, [], [])

  lemma NextInOrder(s: Pipeline, e: Event)
    requires InOrder(s)
    ensures InOrder(Next(s, e))
    ensures s.submitted <= Next(s, e).submitted && s.settled <= Next(s, e).settled
  {
    var t := Next(s, e);
    if e.Submission? {
      if t.fifo == [] {
        assert Requests(t.settled) == Requests(s.settled) + [e.req];
      }
    } else if s.fifo != [] && t.fifo != s.fifo {
      assert Requests(t.settled) == Requests(s.settled) + [s.fifo[0]];
      assert s.fifo == [s.fifo[0]] + s.fifo[1..];
    }
  }

  /** Over every run of serialised submissions and drain rounds, with failures anywhere, the order of
      submission is kept. */
  lemma {:induction false} EveryRunInOrder(es: seq<Event>)
    ensures InOrder(After(EMPTY, es))
  {
    if es != [] {
      EveryRunInOrder(es[..|es| - 1]);
      NextInOrder(After(EMPTY, es[..|es| - 1]), es[|es| - 1]);
    }
  }

  /** The event does not make the drain give up on a request. */
  predicate Spares(s: Pipeline, e: Event) {
    e.Round? ==> s.fifo == [] || e.result == Ok || s.retries < e.attempts
  }

  ghost predicate AllAnswered(s: Pipeline) { forall i | 0 <= i < |s.settled| :: s.settled[i].Answered? }

  lemma SparedOrDropped(s: Pipeline, e: Event)
    ensures AllAnswered(Next(s, e)) <==> AllAnswered(s) && Spares(s, e)
  {
    var n := Next(s, e);
    assert forall i | 0 <= i < |s.settled| :: n.settled[i] == s.settled[i];
    if !Spares(s, e) {
      assert n.settled[|s.settled|].Dropped?;
    }
  }

  ghost predicate AllSpare(es: seq<Event>) {
    es == [] || (AllSpare(es[..|es| - 1]) && Spares(After(EMPTY, es[..|es| - 1]), es[|es| - 1]))
  }

  /** Every request that left was answered, exactly if every drain round found nothing to do, succeeded or had
      attempts left. */
  lemma {:induction false} NothingDropped(es: seq<Event>)
    ensures AllAnswered(After(EMPTY, es)) <==> AllSpare(es)
  {
    hide AllAnswered, Spares, Next;
    if es == [] {
      EmptyAnswered();
    } else {
      NothingDropped(es[..|es| - 1]);
      SparedOrDropped(After(EMPTY, es[..|es| - 1]), es[|es| - 1]);
    }
  }

  lemma EmptyAnswered()
    ensures AllAnswered(EMPTY)
  {
  }

  /** How many rounds of the run failed to send the request that is the `k`-th to leave. */
  function FailedRounds(es: seq<Event>, k: nat): nat {
    if es == [] then 0
    else
      var e, s := es[|es| - 1], After(EMPTY, es[..|es| - 1]);
      FailedRounds(es[..|es| - 1], k) + if e.Round? && e.result != Ok && s.fifo != [] && |s.settled| == k then 1 else 0
  }

  /** The failures that are counted are those of the request at the head, and a request that was dropped is recorded
      with all of its failures: a success, a drop and other requests do not count. */
  ghost predicate Counted(es: seq<Event>, s: Pipeline) {
    && s.retries == FailedRounds(es, |s.settled|)
    && (forall k: nat | k > |s.settled| :: FailedRounds(es, k) == 0)
    && (forall k | 0 <= k < |s.settled| :: s.settled[k].Dropped? ==> s.settled[k].failures == FailedRounds(es, k))
  }

  lemma CountedNext(es: seq<Event>, e: Event)
    requires Counted(es, After(EMPTY, es)) && InOrder(After(EMPTY, es))
    ensures Counted(es + [e], Next(After(EMPTY, es), e))
  {
    hide After;
    var s, n := After(EMPTY, es), Next(After(EMPTY, es), e);
    assert (es + [e])[..|es|] == es;
    forall k: nat ensures FailedRounds(es + [e], k) == FailedRounds(es, k)
                          + if e.Round? && e.result != Ok && s.fifo != [] && |s.settled| == k then 1 else 0 {
    }
    assert forall k | 0 <= k < |s.settled| :: n.settled[k] == s.settled[k];
  }

  /** Over every run the attempts of a request are counted for it alone: a request is dropped after as many failed
      rounds at the head as are recorded with it, which exceed the limit of the last one. */
  lemma {:induction false} EveryFailureCounted(es: seq<Event>)
    ensures Counted(es, After(EMPTY, es))
  {
    hide Counted, Next;
    if es == [] {
      NothingCounted();
    } else {
      var front := es[..|es| - 1];
      EveryFailureCounted(front);
      EveryRunInOrder(front);
      CountedNext(front, es[|es| - 1]);
      assert front + [es[|es| - 1]] == es;
    }
  }

  lemma NothingCounted()
    ensures Counted([], EMPTY)
  {
  }

  // ---------------------------------------------------------------- the amount of work in a drain

  function Least(a: nat, b: nat): nat { if a < b then a else b }

  /** An upper bound on the rounds that a drain can take. */
  function Work(s: Pipeline, attempts: nat): int {
    |s.fifo| * (attempts + 1) - if s.fifo == [] then 0 else Least(s.retries, attempts)
  }

  lemma WorkStep(n: nat, a: nat)
    ensures n * a == (n - 1) * a + a && (n > 0 ==> (n - 1) * a >= 0)
    ensures n >= 2 ==> (n - 1) * a >= a
  {
    if n >= 2 {
      assert (n - 1) * a == (n - 2) * a + a && (n - 2) * a >= 0;
    }
  }

  lemma WorkShrinks(s: Pipeline, r: CallResult, attempts: nat)
    requires s.fifo != []
    ensures 0 <= Work(DrainOnce(s, r, attempts), attempts) < Work(s, attempts)
  {
    var n, a, t := |s.fifo|, attempts + 1, DrainOnce(s, r, attempts);
    WorkStep(n, a);
    ghost var whole, rest := n * a, (n - 1) * a;
    assert Work(s, attempts) == whole - Least(s.retries, attempts);
    if t.fifo == s.fifo {
      assert Work(t, attempts) == whole - Least(s.retries + 1, attempts);
    } else {
      assert |t.fifo| == n - 1 && t.retries == 0;
      assert Work(t, attempts) == rest - 0;
    }
  }

  // ---------------------------------------------------------------- the classes

  /** What the environment does in one round of the drain loop: the answer, if any; whether there is a
      converter for the response; the connection state when a retry is scheduled and when the loop
      condition is evaluated; and whether the retry timer is running then for another reason than this
      round: started by a push, or by an earlier failure and not expired. */
  datatype RoundEnv = RoundEnv(
    answer: Option<Answer>, converter: bool, connected: bool, connectedAfter: bool, timerRuns: bool)

  /** The actions that the drain knows how to send. */
  predicate KnownAction(action: string) {
    action == "StartTransaction" || action == "StopTransaction" || action == "MeterValues"
    || action == "SecurityEventNotification"
  }

  /** Result of sending the head of the FIFO. */
  function RoundResult(req: Request, env: RoundEnv): CallResult {
    if !KnownAction(req.action) || !env.converter || env.answer.None? then Failed
    else ResultOf(env.answer.value)
  }

  /** The sender with its request FIFO and the manager that drains it. */
  class MessageSender {
    var fifo: seq<Request>
    var retryCount: nat
    var timerStarted: bool
    ghost var settled: seq<Settled>
    ghost var submitted: seq<Request>

    ghost function State(): Pipeline
      reads this
    {
      Pipeline(fifo, retryCount, settled, submitted)
    }

    constructor ()
      ensures State() == EMPTY && !timerStarted
    {
      fifo, retryCount, timerStarted, settled, submitted := [], 0, false, [], [];
    }

    /** Send a request, or queue it when something is queued already or no answer comes. */
    method Call(req: Request, converters: bool, toJson: bool, answer: Option<Answer>, connected: bool)
      returns (ret: CallResult)
      requires InOrder(State())
      modifies this
      ensures InOrder(State())
      ensures State() == if converters && toJson then Submit(old(State()), req, answer) else old(State())
      ensures ret == Delayed <==> converters && toJson && (old(fifo) != [] || answer.None?)
      ensures ret == Error <==> converters && toJson && old(fifo) == [] && answer.Some? && answer.value.error
      ensures ret == Ok <==>
        && converters && toJson && old(fifo) == [] && answer.Some?
        && !answer.value.error && answer.value.validator && answer.value.valid && answer.value.converted
      ensures ret == Delayed <==> |fifo| == |old(fifo)| + 1
      ensures timerStarted == (old(timerStarted) || (ret == Delayed && connected))
    {
      ret := Failed;
      if converters && toJson {
        NextInOrder(State(), Submission(req, answer));
        submitted := submitted + [req];
        if fifo == [] {
          if answer.Some? {
            settled := settled + [Answered(req)];
            if !answer.value.error {
              if answer.value.validator {
                if answer.value.valid {
                  if answer.value.converted {
                    ret := Ok;
                  }
                }
              }
            } else {
              ret := Error;
            }
          } else {
            fifo := fifo + [req];
            RequestQueued(connected);
            ret := Delayed;
          }
        } else {
          fifo := fifo + [req];
          RequestQueued(connected);
          ret := Delayed;
        }
      }
    }

    /** A push starts the retry timer if the connection is up. */
    method RequestQueued(connected: bool)
      modifies this`timerStarted
      ensures timerStarted == (old(timerStarted) || connected)
    {
      if connected && !timerStarted {
        timerStarted := true;
      }
    }

    /** One round of the drain loop: send the head of the FIFO, and remove it or count a failure. */
    method DrainRound(e: RoundEnv, attempts: nat) returns (r: CallResult)
      requires InOrder(State()) && fifo != []
      modifies this
      ensures InOrder(State()) && State() == DrainOnce(old(State()), r, attempts) && submitted == old(submitted)
      ensures r == RoundResult(old(fifo[0]), e)
      ensures r == Ok <==>
        && old(fifo[0]).action in ["StartTransaction", "StopTransaction", "MeterValues", "SecurityEventNotification"]
        && e.converter && e.answer.Some?
        && !e.answer.value.error && e.answer.value.validator && e.answer.value.valid && e.answer.value.converted
      ensures r == Ok ==> fifo == old(fifo)[1..] && retryCount == 0 && settled == old(settled) + [Answered(old(fifo[0]))]
      ensures r != Ok && old(retryCount) < attempts ==>
        fifo == old(fifo) && retryCount == old(retryCount) + 1 && settled == old(settled)
      ensures r != Ok && old(retryCount) >= attempts ==>
        && fifo == old(fifo)[1..] && retryCount == 0
        && settled == old(settled) + [Dropped(old(fifo[0]), old(retryCount) + 1, attempts)]
      ensures 0 <= Work(State(), attempts) < Work(old(State()), attempts)
      ensures timerStarted <==> e.timerRuns || (r != Ok && old(retryCount) < attempts && e.connected)
    {
      r := RoundResult(fifo[0], e);
      timerStarted := e.timerRuns;
      WorkShrinks(State(), r, attempts);
      NextInOrder(State(), Round(r, attempts));
      if r == Ok {
        settled := settled + [Answered(fifo[0])];
        fifo := fifo[1..];
        retryCount := 0;
      } else {
        retryCount := retryCount + 1;
        if retryCount > attempts {
          settled := settled + [Dropped(fifo[0], retryCount, attempts)];
          fifo := fifo[1..];
          retryCount := 0;
        } else if e.connected {
          timerStarted := true;
        }
      }
    }

    /** Drain the FIFO until it is empty, the retry timer runs or the connection is lost. `env` tells what happens in
        each round, for as many rounds as there can be. */
    method ProcessFifoRequest(connected: bool, accepted: bool, attempts: nat, env: seq<RoundEnv>)
      returns (results: seq<CallResult>)
      requires InOrder(State()) && Work(State(), attempts) <= |env|
      modifies this
      ensures InOrder(State()) && submitted == old(submitted)
      ensures State() == DrainMany(old(State()), results, attempts)
      ensures forall k | 0 <= k < |results| :: FromEnv(old(State()), results, attempts, env, k)
      ensures |results| <= Work(old(State()), attempts) - Work(State(), attempts) && |results| <= |env|
      ensures !(connected && accepted) ==> results == [] && timerStarted == (connected || old(timerStarted))
      ensures connected && accepted && fifo != [] ==> results != [] && (timerStarted || !env[|results| - 1].connectedAfter)
      ensures WentOn(env, |results| - 1)
    {
      hide Work, InOrder, RoundResult, DrainMany, DrainOnce, FromEnv;
      results := [];
      DrainManyNone(State(), attempts);
      WorkPositive(State(), attempts);
      if connected {
        if accepted {
          ghost var start := State();
          var again := true;
          while again
            invariant InOrder(State()) && submitted == start.submitted && State() == DrainMany(start, results, attempts)
            invariant |results| <= Work(start, attempts) - Work(State(), attempts) && 0 <= Work(State(), attempts)
            invariant forall k | 0 <= k < |results| :: FromEnv(start, results, attempts, env, k)
            invariant if again then WentOn(env, |results|) && (results != [] ==> fifo != []) else WentOn(env, |results| - 1)
            invariant !again && fifo != [] ==> results != [] && (timerStarted || !env[|results| - 1].connectedAfter)
            decreases again, Work(State(), attempts)
          {
            again := false;
            if fifo != [] {
              WorkPositive(State(), attempts);
              var e := env[|results|];
              var r := DrainRound(e, attempts);
              DrainManyNext(start, results, r, attempts);
              FromEnvNext(start, results, r, attempts, env);
              results := results + [r];
              again := fifo != [] && !timerStarted && e.connectedAfter;
            }
          }
        } else {
          timerStarted := true;
        }
      }
    }
  }

  /** Round `k` sent the request that was at the head then, and its result is what the environment of that round made
      of it. */
  ghost predicate FromEnv(s: Pipeline, results: seq<CallResult>, attempts: nat, env: seq<RoundEnv>, k: nat) {
    && k < |results| && k < |env|
    && var now := DrainMany(s, results[..k], attempts); now.fifo != [] && results[k] == RoundResult(now.fifo[0], env[k])
  }

  lemma FromEnvNext(s: Pipeline, results: seq<CallResult>, r: CallResult, attempts: nat, env: seq<RoundEnv>)
    requires |results| < |env| && forall k | 0 <= k < |results| :: FromEnv(s, results, attempts, env, k)
    requires var now := DrainMany(s, results, attempts); now.fifo != [] && r == RoundResult(now.fifo[0], env[|results|])
    ensures forall k | 0 <= k <= |results| :: FromEnv(s, results + [r], attempts, env, k)
  {
    hide DrainMany, RoundResult;
    forall k | 0 <= k <= |results| ensures FromEnv(s, results + [r], attempts, env, k) {
      if k < |results| {
        assert FromEnv(s, results, attempts, env, k);
        assert (results + [r])[..k] == results[..k];
      } else {
        assert (results + [r])[..k] == results;
      }
    }
  }

  /** The first `n` rounds ended with the timer at rest and the connection up. */
  ghost predicate WentOn(env: seq<RoundEnv>, n: int) {
    n <= |env| && forall k | 0 <= k < n :: !env[k].timerRuns && env[k].connectedAfter
  }

  lemma DrainManyNone(s: Pipeline, attempts: nat)
    ensures DrainMany(s, [], attempts) == s
  {
  }

  lemma DrainManyNext(s: Pipeline, results: seq<CallResult>, r: CallResult, attempts: nat)
    ensures DrainMany(s, results + [r], attempts) == DrainOnce(DrainMany(s, results, attempts), r, attempts)
  {
    assert (results + [r])[..|results|] == results;
  }

  lemma WorkPositive(s: Pipeline, attempts: nat)
    ensures Work(s, attempts) >= 0 && (s.fifo != [] ==> Work(s, attempts) > 0)
  {
    if s.fifo != [] {
      WorkShrinks(s, Failed, attempts);
    }
  }

  /** A request that is queued while a round is under way may as well be queued after it. */
  lemma PushDuringRound(s: Pipeline, req: Request, r: CallResult, attempts: nat)
    requires s.fifo != []
    ensures DrainOnce(Submit(s, req, None), r, attempts) == Submit(DrainOnce(s, r, attempts), req, None)
  {
    assert (s.fifo + [req])[1..] == s.fifo[1..] + [req];
  }

  /** A request that is answered with errors until the attempts are used up is dropped. */
  lemma DropWitness(req: Request)
    ensures After(EMPTY, [Submission(req, None), Round(Error, 0)]).settled == [Dropped(req, 1, 0)]
    ensures !AllSpare([Submission(req, None), Round(Error, 0)])
  {
    var es := [Submission(req, None), Round(Error, 0)];
    assert es[..1] == [Submission(req, None)] && es[..1][..0] == [];
    assert After(EMPTY, es[..1]) == Pipeline([req], 0, [], [req]);
  }

  // ---------------------------------------------------------------- the persistent FIFO

  datatype Entry = Entry(id: nat, req: Request)

  ghost predicate Ascending(es: seq<Entry>) {
    forall i, j | 0 <= i < j < |es| :: es[i].id < es[j].id
  }

  ghost predicate Listed(es: seq<Entry>, id: nat) {
    exists i :: 0 <= i < |es| && es[i].id == id
  }

  /** `rows` is the content of the table. */
  ghost predicate Holds(es: seq<Entry>, rows: map<nat, Request>) {
    && (forall i | 0 <= i < |es| :: es[i].id in rows && rows[es[i].id] == es[i].req)
    && (forall id | id in rows :: Listed(es, id))
  }

  /** The row with the smallest id is the head of the listing. */
  lemma SmallestIsHead(a: seq<Entry>, rows: map<nat, Request>, id: nat)
    requires Ascending(a) && Holds(a, rows) && id in rows && forall j | j in rows :: id <= j
    ensures a != [] && a[0] == Entry(id, rows[id])
  {
    assert Listed(a, id);
    var i :| 0 <= i < |a| && a[i].id == id;
    assert a[0].id in rows && a[0].id <= a[i].id;
  }

  lemma HoldsRest(a: seq<Entry>, rows: map<nat, Request>)
    requires a != [] && Ascending(a) && Holds(a, rows)
    ensures Ascending(a[1..]) && Holds(a[1..], rows - {a[0].id})
  {
    var rest, less := a[1..], rows - {a[0].id};
    forall i | 0 <= i < |rest| ensures rest[i].id in less && less[rest[i].id] == rest[i].req {
      assert rest[i] == a[i + 1];
    }
    forall id | id in less ensures Listed(rest, id) {
      assert Listed(a, id);
      var i :| 0 <= i < |a| && a[i].id == id;
      assert rest[i - 1] == a[i];
    }
  }

  lemma HoldsMore(a: seq<Entry>, rows: map<nat, Request>, e: Entry)
    requires Ascending(a) && Holds(a, rows) && forall i | 0 <= i < |a| :: a[i].id < e.id
    ensures Ascending(a + [e]) && Holds(a + [e], rows[e.id := e.req])
  {
    var b, more := a + [e], rows[e.id := e.req];
    forall id | id in more ensures Listed(b, id) {
      if id == e.id {
        assert b[|a|].id == id;
      } else {
        assert Listed(a, id);
        var i :| 0 <= i < |a| && a[i].id == id;
        assert b[i].id == id;
      }
    }
  }

  /** The FIFO in memory and the table that survives a restart. */
  class RequestFifo {
    var fifo: seq<Entry>
    var nextId: nat
    var table: map<nat, Request>

    ghost predicate Valid()
      reads this
    {
      && Ascending(fifo) && Holds(fifo, table)
      && forall i | 0 <= i < |fifo| :: fifo[i].id < nextId
    }

    constructor ()
      ensures Valid() && fifo == [] && table == map[]
    {
      fifo, nextId, table := [], 0, map[];
    }

    method Push(req: Request)
      requires Valid()
      modifies this
      ensures Valid() && fifo == old(fifo) + [Entry(old(nextId), req)]
    {
      HoldsMore(fifo, table, Entry(nextId, req));
      table := table[nextId := req];
      fifo := fifo + [Entry(nextId, req)];
      nextId := nextId + 1;
    }

    method Front() returns (front: Option<Request>)
      ensures front == if fifo == [] then None else Some(fifo[0].req)
    {
      front := if fifo == [] then None else Some(fifo[0].req);
    }

    method Pop()
      requires Valid() && fifo != []
      modifies this
      ensures Valid() && fifo == old(fifo)[1..] && nextId == old(nextId)
    {
      HoldsRest(fifo, table);
      table := table - {fifo[0].id};
      fifo := fifo[1..];
    }

    /** Reading the table back in ascending order of ids restores the FIFO, so the order of requests
        survives a restart: whatever was in memory is rebuilt from the table alone. */
    method Load()
      requires Valid()
      modifies this
      ensures Valid() && fifo == old(fifo)
    {
      ghost var was := fifo;
      var rows := table;
      fifo := [];
      ghost var k := 0;
      while rows != map[]
        invariant 0 <= k <= |was| && fifo == was[..k]
        invariant Ascending(was[k..]) && Holds(was[k..], rows)
        invariant table == old(table) && nextId == old(nextId)
        decreases rows.Keys
      {
        var id := Smallest(rows);
        TakeRow(was, k, rows, id);
        fifo := fifo + [Entry(id, rows[id])];
        rows := rows - {id};
        k := k + 1;
      }
      EmptyTable(was[k..], rows);
      assert was[..k] == was;
      if fifo != [] {
        nextId := fifo[|fifo| - 1].id + 1;
      }
    }
  }

  lemma EmptyTable(a: seq<Entry>, rows: map<nat, Request>)
    requires Holds(a, rows)
    ensures a == [] <==> rows == map[]
  {
    if a != [] {
      assert a[0].id in rows;
    }
  }

  /** One row of the ascending query. */
  lemma TakeRow(was: seq<Entry>, k: nat, rows: map<nat, Request>, id: nat)
    requires k <= |was| && Ascending(was[k..]) && Holds(was[k..], rows)
    requires id in rows && forall j | j in rows :: id <= j
    ensures k < |was| && was[..k + 1] == was[..k] + [Entry(id, rows[id])]
    ensures Ascending(was[k + 1..]) && Holds(was[k + 1..], rows - {id})
  {
    SmallestIsHead(was[k..], rows, id);
    HoldsRest(was[k..], rows);
    assert was[k..][1..] == was[k + 1..] && was[k] == was[k..][0];
  }

  method Smallest(rows: map<nat, Request>) returns (id: nat)
    requires rows != map[]
    ensures id in rows && forall j | j in rows :: id <= j
  {
    id :| id in rows;
    var others := rows.Keys - {id};
    while others != {}
      invariant id in rows && others <= rows.Keys
      invariant forall j | j in rows && j !in others :: id <= j
      decreases others
    {
      var j :| j in others;
      if j < id {
        id := j;
      }
      others := others - {j};
    }
  }
}
