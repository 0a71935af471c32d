/** The re-entrant middleware chain of server/router/context_base.go. A middleware is what it does
    to the chain: how many times it calls Next. The endpoint never calls it. */
module MiddlewareChain {
  import opened Numbers

  datatype Entry = Enter(position: nat) | Endpoint

  /** What the t-th call of Next runs. */
  function Ran(n: nat, endpoint: bool, t: nat): seq<Entry> {
    if t < n then [Enter(t)] else if endpoint then [Endpoint] else []
  }

  /** What calls a, a + 1, ..., b - 1 of Next run, in order. */
  function Log(n: nat, endpoint: bool, a: nat, b: nat): seq<Entry>
    requires a <= b
  {
    if a == b then [] else Log(n, endpoint, a, b - 1) + Ran(n, endpoint, b - 1)
  }

  function Left(calls: seq<nat>, done: nat): nat {
    if done <= |calls| then |calls| - done else 0
  }

  /** Calls of Next made in total once a call made after `done` earlier ones has returned, where
      the middleware at position i makes calls[i] calls. */
  function AfterNext(calls: seq<nat>, done: nat): (total: nat)
    ensures total > done
    decreases Left(calls, done), 0
  {
    if done >= |calls| then done + 1 else AfterCalls(calls, done + 1, calls[done])
  }

  function AfterCalls(calls: seq<nat>, done: nat, k: nat): (total: nat)
    ensures total >= done
    decreases Left(calls, done), k
  {
    if k == 0 then done else AfterCalls(calls, AfterNext(calls, done), k - 1)
  }

  class BaseContext {
    const chain: seq<nat>
    const endpoint: bool
    var index: int
    var log: seq<Entry>

    constructor (chain: seq<nat>, endpoint: bool)
      ensures this.chain == chain && this.endpoint == endpoint && index == -1 && log == []
    {
      this.chain, this.endpoint, index, log := chain, endpoint, -1, [];
    }

    method Next()
      requires index >= -1
      modifies this
      ensures index == AfterNext(chain, old(index) + 1) - 1
      ensures log == old(log) + Log(|chain|, endpoint, old(index) + 1, index + 1)
      decreases Left(chain, index + 1), 0
    {
      index := index + 1;
      LogOne(|chain|, endpoint, index);
      if index >= |chain| {
        if endpoint {
          log := log + [Endpoint];
        }
        return;
      }
      ghost var here := index;
      log := log + [Enter(index)];
      RunMiddleware(index);
      LogExtend(old(log), |chain|, endpoint, here, here + 1, index + 1);
    }

    /** The middleware at `position`, entered with the index on it. */
    method RunMiddleware(position: nat)
      requires position == index < |chain|
      modifies this
      ensures index == AfterCalls(chain, position + 1, chain[position]) - 1
      ensures log == old(log) + Log(|chain|, endpoint, position + 1, index + 1)
      decreases Left(chain, index + 1), 1
    {
      var k := 0;
      while k < chain[position]
        invariant 0 <= k <= chain[position] && index >= position
        invariant AfterCalls(chain, position + 1, chain[position]) == AfterCalls(chain, index + 1, chain[position] - k)
        invariant log == old(log) + Log(|chain|, endpoint, position + 1, index + 1)
      {
        ghost var before := index;
        Next();
        LogExtend(old(log), |chain|, endpoint, position + 1, before + 1, index + 1);
        k := k + 1;
      }
    }
  }

  lemma LogOne(n: nat, endpoint: bool, a: nat)
    ensures Log(n, endpoint, a, a + 1) == Ran(n, endpoint, a)
  {
    assert Log(n, endpoint, a, a) == [];
  }

  lemma {:induction false} LogConcat(n: nat, endpoint: bool, a: nat, b: nat, c: nat)
    requires a <= b <= c
    ensures Log(n, endpoint, a, b) + Log(n, endpoint, b, c) == Log(n, endpoint, a, c)
  {
    if b < c {
      LogConcat(n, endpoint, a, b, c - 1);
    }
  }

  lemma LogExtend(log: seq<Entry>, n: nat, endpoint: bool, a: nat, b: nat, c: nat)
    requires a <= b <= c
    ensures (log + Log(n, endpoint, a, b)) + Log(n, endpoint, b, c) == log + Log(n, endpoint, a, c)
  {
    LogConcat(n, endpoint, a, b, c);
  }

  // ---------------------------------------------------------------- conservation

  /** Positions 0 .. k - 1 entered once each, in order. */
  function Positions(k: nat): (es: seq<Entry>)
    ensures |es| == k && forall i :: 0 <= i < k ==> es[i] == Enter(i)
  {
    if k == 0 then [] else Positions(k - 1) + [Enter(k - 1)]
  }

  function Repeat(e: Entry, k: nat): seq<Entry> { seq(k, _ => e) }

  /** A run with T calls enters positions 0 .. min(T, n) - 1 once each, in order, and then runs the
      endpoint max(0, T - n) times. */
  lemma {:induction false} RunOfCalls(n: nat, total: nat)
    ensures Log(n, true, 0, total) ==
            Positions(Min(total, n)) + Repeat(Endpoint, if total > n then total - n else 0)
  {
    if total > 0 {
      RunOfCalls(n, total - 1);
    }
  }

  function Sum(calls: seq<nat>, a: nat, b: nat): nat
    requires a <= b <= |calls|
  {
    if a == b then 0 else Sum(calls, a, b - 1) + calls[b - 1]
  }

  lemma {:induction false} SumSplit(calls: seq<nat>, a: nat, b: nat, c: nat)
    requires a <= b <= c <= |calls|
    ensures Sum(calls, a, c) == Sum(calls, a, b) + Sum(calls, b, c)
  {
    if b < c {
      SumSplit(calls, a, b, c - 1);
    }
  }

  /** Calls requested by the middlewares that calls a .. t - 1 have entered. */
  function Requested(calls: seq<nat>, a: nat, t: nat): nat
    requires a <= t
  {
    Sum(calls, Min(a, |calls|), Min(t, |calls|))
  }

  lemma RequestedSplit(calls: seq<nat>, a: nat, b: nat, c: nat)
    requires a <= b <= c
    ensures Requested(calls, a, c) == Requested(calls, a, b) + Requested(calls, b, c)
  {
    SumSplit(calls, Min(a, |calls|), Min(b, |calls|), Min(c, |calls|));
  }

  lemma RequestedOne(calls: seq<nat>, a: nat)
    ensures Requested(calls, a, a + 1) == if a < |calls| then calls[a] else 0
  {
    if a < |calls| {
      assert Sum(calls, a, a) == 0;
    }
  }

  /** Every call is accounted for: a returned call stands for itself and for what the middlewares
      entered under it requested, and until it returns there is always a call outstanding. */
  lemma {:induction false} NextConserves(calls: seq<nat>, done: nat)
    ensures AfterNext(calls, done) == done + 1 + Requested(calls, done, AfterNext(calls, done))
    ensures forall t :: done <= t < AfterNext(calls, done) ==> t < done + 1 + Requested(calls, done, t)
    decreases Left(calls, done), 0
  {
    var total := AfterNext(calls, done);
    RequestedSplit(calls, done, done + 1, total);
    RequestedOne(calls, done);
    if done < |calls| {
      CallsConserve(calls, done + 1, calls[done]);
      forall t | done < t < total ensures t < done + 1 + Requested(calls, done, t) {
        RequestedSplit(calls, done, done + 1, t);
      }
    } else {
      RequestedOne(calls, done + 1);
    }
  }

  lemma {:induction false} CallsConserve(calls: seq<nat>, done: nat, k: nat)
    ensures AfterCalls(calls, done, k) == done + k + Requested(calls, done, AfterCalls(calls, done, k))
    ensures forall t :: done <= t < AfterCalls(calls, done, k) ==> t < done + k + Requested(calls, done, t)
    decreases Left(calls, done), k
  {
    if k > 0 {
      var mid := AfterNext(calls, done);
      var total := AfterCalls(calls, mid, k - 1);
      NextConserves(calls, done);
      CallsConserve(calls, mid, k - 1);
      RequestedSplit(calls, done, mid, total);
      forall t | done <= t < total ensures t < done + k + Requested(calls, done, t) {
        if t >= mid {
          RequestedSplit(calls, done, mid, t);
        }
      }
    }
  }

  /** The number of calls of a whole run is the least T with T = 1 + the calls requested by the
      first min(T, n) middlewares. */
  lemma TotalIsLeast(calls: seq<nat>)
    ensures var total := AfterNext(calls, 0);
      && total == 1 + Requested(calls, 0, total)
      && forall t :: 0 <= t < total ==> t != 1 + Requested(calls, 0, t)
  {
    NextConserves(calls, 0);
  }

  lemma {:induction false} SumOnes(calls: seq<nat>, t: nat)
    requires t <= |calls| && forall i :: 0 <= i < t ==> calls[i] == 1
    ensures Sum(calls, 0, t) == t
  {
    if t > 0 {
      SumOnes(calls, t - 1);
    }
  }

  /** If every middleware calls Next at most once, the endpoint runs exactly once when all of them
      call it, and never otherwise. */
  lemma AtMostOnce(calls: seq<nat>, first: nat)
    requires forall i :: 0 <= i < |calls| ==> calls[i] <= 1
    requires first <= |calls| && (forall i :: 0 <= i < first ==> calls[i] == 1)
    requires first < |calls| ==> calls[first] == 0
    ensures AfterNext(calls, 0) == first + 1
    ensures Log(|calls|, true, 0, AfterNext(calls, 0)) ==
            if first == |calls| then Positions(|calls|) + [Endpoint] else Positions(first + 1)
  {
    TotalIsLeast(calls);
    var total := AfterNext(calls, 0);
    forall t | 0 <= t <= first ensures Requested(calls, 0, t) == t {
      SumOnes(calls, t);
    }
    RequestedSplit(calls, 0, first, first + 1);
    RequestedOne(calls, first);
    assert 1 + Requested(calls, 0, first + 1) == first + 1;
    assert forall t :: 0 <= t <= first ==> t < 1 + Requested(calls, 0, t);
    RunOfCalls(|calls|, total);
    assert Repeat(Endpoint, 1) == [Endpoint] && Repeat(Endpoint, 0) == [];
  }

  // ---------------------------------------------------------------- a middleware that refuses

  /** The log of a whole run. */
  function LogOf(calls: seq<nat>): seq<Entry> {
    Log(|calls|, true, 0, AfterNext(calls, 0))
  }

  /** Something after position g was entered, another middleware or the endpoint. */
  ghost predicate GoesPast(log: seq<Entry>, g: nat) {
    exists i :: 0 <= i < |log| && (log[i].Endpoint? || log[i].position > g)
  }

  lemma GoesPastIff(calls: seq<nat>, g: nat)
    requires g < |calls|
    ensures GoesPast(LogOf(calls), g) <==> AfterNext(calls, 0) > g + 1
  {
    var n, total := |calls|, AfterNext(calls, 0);
    RunOfCalls(n, total);
    var log := LogOf(calls);
    assert log == Positions(Min(total, n)) + Repeat(Endpoint, if total > n then total - n else 0);
    if total > g + 1 {
      assert if n > g + 1 then log[g + 1] == Enter(g + 1) else log[n] == Endpoint;
    }
  }

  /** A middleware at position g that does not call Next stops the chain if and only if, for some t,
      the first t of the positions up to g call Next less than t times in all. */
  lemma StopsIff(calls: seq<nat>, g: nat)
    requires g < |calls| && calls[g] == 0
    ensures !GoesPast(LogOf(calls), g) <==> exists t :: 0 <= t <= g + 1 && Sum(calls, 0, t) < t
  {
    NextConserves(calls, 0);
    GoesPastIff(calls, g);
    var total := AfterNext(calls, 0);
    if total <= g + 1 {
      assert Sum(calls, 0, total) < total;
    } else {
      forall t | 0 <= t <= g + 1 ensures Sum(calls, 0, t) >= t {
        assert t < 1 + Requested(calls, 0, t);
      }
    }
  }

  lemma {:induction false} SumAtMost(calls: seq<nat>, t: nat)
    requires t <= |calls| && forall i :: 0 <= i < t ==> calls[i] <= 1
    ensures Sum(calls, 0, t) <= t
  {
    if t > 0 {
      SumAtMost(calls, t - 1);
    }
  }

  /** So it does whenever each middleware before it calls Next at most once, whatever comes after. */
  lemma RefusalHolds(calls: seq<nat>, g: nat)
    requires g < |calls| && calls[g] == 0 && forall i :: 0 <= i < g ==> calls[i] <= 1
    ensures !GoesPast(LogOf(calls), g)
  {
    SumAtMost(calls, g);
    assert Sum(calls, 0, g + 1) < g + 1;
    StopsIff(calls, g);
  }

  /** But a middleware before it that calls Next twice gets past it to the endpoint. */
  lemma RefusalBypassed()
    ensures LogOf([2, 0]) == [Enter(0), Enter(1), Endpoint]
  {
    var calls := [2, 0];
    assert AfterNext(calls, 2) == 3;
    assert AfterNext(calls, 1) == 2;
    assert AfterCalls(calls, 1, 2) == AfterCalls(calls, 2, 1) == AfterCalls(calls, 3, 0) == 3;
    RunOfCalls(2, 3);
    assert Positions(2) == [Enter(0), Enter(1)] && Repeat(Endpoint, 1) == [Endpoint];
  }
}
