/** Spreading of websocket clients over the pools that serve them. */
module ClientPools {

  /** The first pool with the fewest clients. */
  ghost predicate FirstLeastLoaded(counts: seq<nat>, k: nat) {
    && k < |counts|
    && (forall i | 0 <= i < |counts| :: counts[k] <= counts[i])
    && (forall i | 0 <= i < k :: counts[k] < counts[i])
  }

  /** The static list of client pools, each with the number of clients it serves. */
  class WebsocketFactory {
    var counts: seq<nat>

    constructor ()
      ensures counts == []
    {
      counts := [];
    }

    /** The number of pools can be set once. */
    method SetClientPoolCount(count: nat) returns (ret: bool)
      modifies this
      ensures ret <==> old(counts) == [] && count > 0
      ensures counts == if ret then seq(count, _ => 0) else old(counts)
    {
      ret := false;
      if counts == [] && count > 0 {
        var i := 0;
        while i < count
          invariant 0 <= i <= count && counts == seq(i, _ => 0)
        {
          counts := counts + [0];
          i := i + 1;
        }
        ret := true;
      }
    }

    /** A new client goes to the first least loaded pool; without pools there is none (-1). */
    method NewClientFromPool() returns (pool: int)
      modifies this
      ensures old(counts) == [] ==> pool == -1 && counts == []
      ensures old(counts) != [] ==>
                && 0 <= pool && FirstLeastLoaded(old(counts), pool)
                && counts == old(counts)[pool := old(counts)[pool] + 1]
    {
      pool := -1;
      if counts != [] {
        var selected, i := 0, 0;
        while i < |counts|
          invariant 0 <= i <= |counts| && 0 <= selected < |counts| && (selected < i || i == 0 == selected)
          invariant forall j | 0 <= j < i :: counts[selected] <= counts[j]
          invariant forall j | 0 <= j < selected :: counts[selected] < counts[j]
        {
          if counts[i] < counts[selected] {
            selected := i;
          }
          i := i + 1;
        }
        counts := counts[selected := counts[selected] + 1];
        pool := selected;
      }
    }
  }

  /** After `k` arrivals into `n` empty pools: pool `i` has its fair share. */
  ghost function RoundRobin(n: nat, k: nat): (counts: seq<nat>)
    requires n > 0
    ensures |counts| == n
  {
    seq(n, i => k / n + (if i < k % n then 1 else 0))
  }

  lemma DivModStep(k: nat, n: nat)
    requires n > 0
    ensures if k % n + 1 < n then (k + 1) / n == k / n && (k + 1) % n == k % n + 1
            else (k + 1) / n == k / n + 1 && (k + 1) % n == 0
  {
    var q, r := k / n, k % n;
    assert k == q * n + r;
    if r + 1 < n {
      DivModUnique(k + 1, n, q, r + 1);
    } else {
      assert (q + 1) * n == q * n + n;
      DivModUnique(k + 1, n, q + 1, 0);
    }
  }

  lemma DivModUnique(m: nat, n: nat, q: nat, r: nat)
    requires r < n && m == q * n + r
    ensures m / n == q && m % n == r
  {
    var d := m / n - q;
    assert m == (m / n) * n + m % n;
    assert d * n == (m / n) * n - q * n;
    assert d * n == r - m % n;
    assert d >= 1 ==> d * n >= n;
    assert d <= -1 ==> d * n <= 0 - n;
  }

  /** Without departures the `k`-th client (from zero) goes to pool `k mod n`. */
  lemma FairTurn(n: nat, k: nat, pool: nat)
    requires n > 0
    ensures FirstLeastLoaded(RoundRobin(n, k), pool) <==> pool == k % n
    ensures var c := RoundRobin(n, k); c[k % n := c[k % n] + 1] == RoundRobin(n, k + 1)
  {
    DivModStep(k, n);
    var c, t := RoundRobin(n, k), k % n;
    assert c[t] == k / n;
    assert FirstLeastLoaded(c, t);
    if pool < n && pool < t {
      assert c[pool] > c[t];
    } else if pool < n && pool > t {
      assert c[pool] == c[t];
    }
  }

  /** `log` lists the pools chosen for successive clients, starting from `counts`, without departures. */
  ghost predicate Allocations(counts: seq<nat>, log: seq<nat>)
    decreases |log|
  {
    log == [] || (FirstLeastLoaded(counts, log[0])
                  && Allocations(counts[log[0] := counts[log[0]] + 1], log[1..]))
  }

  lemma {:induction false} RoundRobinFrom(n: nat, k: nat, log: seq<nat>)
    requires n > 0
    ensures Allocations(RoundRobin(n, k), log) <==> forall i | 0 <= i < |log| :: log[i] == (k + i) % n
    decreases |log|
  {
    if log != [] {
      FairTurn(n, k, log[0]);
      if log[0] == k % n {
        RoundRobinFrom(n, k + 1, log[1..]);
        if forall i | 0 <= i < |log| :: log[i] == (k + i) % n {
          assert forall i | 0 <= i < |log[1..]| :: log[1..][i] == log[i + 1] == (k + 1 + i) % n;
        }
        if forall i | 0 <= i < |log[1..]| :: log[1..][i] == (k + 1 + i) % n {
          forall i | 0 <= i < |log| ensures log[i] == (k + i) % n {
            if i > 0 { assert log[i] == log[1..][i - 1]; }
          }
        }
      } else {
        assert log[0] != (k + 0) % n;
      }
    }
  }

  /** From empty pools and without departures, client `i` is served by pool `i mod n`. */
  lemma RoundRobinFromEmpty(n: nat, log: seq<nat>)
    requires n > 0 && Allocations(seq(n, _ => 0), log)
    ensures forall i | 0 <= i < |log| :: log[i] == i % n
  {
    assert 0 / n == 0 && 0 % n == 0;
    assert RoundRobin(n, 0) == seq(n, _ => 0);
    RoundRobinFrom(n, 0, log);
  }

  datatype Event = Arrival(pool: nat) | Departure(pool: nat)

  /** Arrivals go to the first least loaded pool, departures are arbitrary. */
  ghost predicate Step(before: seq<nat>, e: Event, after: seq<nat>) {
    match e
    case Arrival(p) => FirstLeastLoaded(before, p) && after == before[p := before[p] + 1]
    case Departure(p) => p < |before| && before[p] > 0 && after == before[p := before[p] - 1]
  }

  ghost predicate Run(states: seq<seq<nat>>, events: seq<Event>) {
    |states| == |events| + 1 && forall i | 0 <= i < |events| :: Step(states[i], events[i], states[i + 1])
  }

  ghost predicate AtMostOneAbove(counts: seq<nat>, p: nat) {
    p < |counts| && forall j | 0 <= j < |counts| :: counts[p] <= counts[j] + 1
  }

  /** In every run each arrival leaves its pool at most one above every other pool, and the number
      of clients is the number of arrivals minus the number of departures. */
  lemma {:induction false} EveryRunBalanced(states: seq<seq<nat>>, events: seq<Event>)
    requires Run(states, events)
    ensures forall i | 0 <= i < |events| && events[i].Arrival? ::
              AtMostOneAbove(states[i + 1], events[i].pool)
    ensures Total(states[|events|]) == Total(states[0]) + Balance(events)
  {
    if events != [] {
      var n := |events| - 1;
      var es, ss := events[..n], states[..n + 1];
      assert forall i | 0 <= i < n :: Step(ss[i], es[i], ss[i + 1]) by {
        forall i | 0 <= i < n ensures Step(ss[i], es[i], ss[i + 1]) {
          assert Step(states[i], events[i], states[i + 1]);
        }
      }
      EveryRunBalanced(ss, es);
      assert Step(states[n], events[n], states[n + 1]);
      TotalUpdate(states[n], events[n].pool, states[n + 1][events[n].pool]);
    }
  }

  ghost function Total(counts: seq<nat>): int {
    if counts == [] then 0 else counts[0] + Total(counts[1..])
  }

  ghost function Balance(events: seq<Event>): int {
    if events == [] then 0
    else Balance(events[..|events| - 1]) + (if events[|events| - 1].Arrival? then 1 else -1)
  }

  lemma {:induction false} TotalUpdate(counts: seq<nat>, k: nat, v: nat)
    requires k < |counts|
    ensures Total(counts[k := v]) == Total(counts) - counts[k] + v
  {
    if k > 0 {
      assert counts[k := v][1..] == counts[1..][k - 1 := v];
      TotalUpdate(counts[1..], k - 1, v);
    } else {
      assert counts[0 := v][1..] == counts[1..];
    }
  }
}
