/** `mapPool` (ui/src/classify.ts): workers that share a counter, a results array and a
    list of errors. Between two awaits a worker runs alone, so every interleaving is a
    sequence of two kinds of step: a ready worker claims the next index, or the call a
    worker waits for settles. The loop below takes those steps in an arbitrary order. */
module MapPool {
  import opened Common

  datatype Outcome<+R, +E> = Fulfilled(value: R) | Rejected(error: E)
  datatype Worker = Ready | Waiting(i: nat) | Done
  datatype Failure<+E> = Failure(index: nat, error: E)

  function Min(a: int, b: int): (m: int)
    ensures m <= a && m <= b && (m == a || m == b)
  {
    if a < b then a else b
  }

  function Max(a: int, b: int): (m: int)
    ensures a <= m && b <= m && (m == a || m == b)
  {
    if a < b then b else a
  }

  // ---- worker counts -------------------------------------------------------

  function InFlight(ws: seq<Worker>): (k: nat)
    ensures k <= |ws|
  {
    if ws == [] then 0 else InFlight(ws[..|ws| - 1]) + if ws[|ws| - 1].Waiting? then 1 else 0
  }

  /** Steps the workers still owe: one to stop, one more to settle a call. */
  function Owed(ws: seq<Worker>): nat {
    if ws == [] then 0 else
    Owed(ws[1..]) + match ws[0] case Done => 0 case Ready => 1 case Waiting(_) => 2
  }

  lemma {:induction false} OwedUpdate(ws: seq<Worker>, w: nat, x: Worker)
    requires w < |ws|
    ensures Owed(ws[w := x]) == Owed(ws) - Owed([ws[w]]) + Owed([x])
  {
    if w == 0 {
      assert ws[w := x][1..] == ws[1..];
    } else {
      assert ws[w := x][1..] == ws[1..][w - 1 := x];
      OwedUpdate(ws[1..], w - 1, x);
    }
  }

  // ---- what every step keeps -----------------------------------------------

  ghost predicate Awaited(ws: seq<Worker>, i: nat) {
    exists w :: 0 <= w < |ws| && ws[w] == Waiting(i)
  }

  ghost predicate HasError<E(!new)>(errors: seq<Failure<E>>, i: nat) {
    exists k :: 0 <= k < |errors| && errors[k].index == i
  }

  /** Index `i` holds its outcome, in the one place that outcome belongs. */
  ghost predicate Settled<R(!new), E(!new)>(out: Outcome<R, E>, results: seq<Option<R>>, errors: seq<Failure<E>>, i: nat)
    requires i < |results|
  {
    match out
    case Fulfilled(v) => results[i] == Some(v) && !HasError(errors, i)
    case Rejected(e) => results[i] == None && Failure(i, e) in errors
  }

  ghost predicate Untouched<R(!new), E(!new)>(results: seq<Option<R>>, errors: seq<Failure<E>>, i: nat)
    requires i < |results|
  {
    results[i] == None && !HasError(errors, i)
  }

  ghost predicate WorkersOk(ws: seq<Worker>, next: nat, n: nat) {
    && (forall w :: 0 <= w < |ws| && ws[w].Waiting? ==> ws[w].i < next && ws[w].i < n)
    && (forall u, w :: 0 <= u < w < |ws| && ws[u].Waiting? ==> ws[u] != ws[w])
    && (forall w :: 0 <= w < |ws| && ws[w].Done? ==> n <= next)
  }

  ghost predicate ErrorsOk<R(!new), E(!new)>(outs: seq<Outcome<R, E>>, errors: seq<Failure<E>>) {
    && (forall k :: 0 <= k < |errors| ==> errors[k].index < |outs| && outs[errors[k].index] == Rejected(errors[k].error))
    && (forall j, k :: 0 <= j < k < |errors| ==> errors[j].index != errors[k].index)
  }

  ghost predicate ItemsOk<R(!new), E(!new)>(outs: seq<Outcome<R, E>>, next: nat, results: seq<Option<R>>, errors: seq<Failure<E>>, ws: seq<Worker>)
    requires |results| == |outs|
  {
    forall i :: 0 <= i < |outs| ==> ItemOk(outs[i], i < next && !Awaited(ws, i), results, errors, i)
  }

  ghost predicate ItemOk<R(!new), E(!new)>(out: Outcome<R, E>, over: bool, results: seq<Option<R>>, errors: seq<Failure<E>>, i: nat)
    requires i < |results|
  {
    if over then Settled(out, results, errors, i) else Untouched(results, errors, i)
  }

  ghost predicate PoolOk<R(!new), E(!new)>(outs: seq<Outcome<R, E>>, next: nat, results: seq<Option<R>>, errors: seq<Failure<E>>, ws: seq<Worker>) {
    && |results| == |outs|
    && WorkersOk(ws, next, |outs|) && ErrorsOk(outs, errors) && ItemsOk(outs, next, results, errors, ws)
  }

  lemma AwaitedUpdate(ws: seq<Worker>, w: nat, x: Worker)
    requires w < |ws| && (forall u :: 0 <= u < |ws| && u != w && ws[w].Waiting? ==> ws[u] != ws[w])
    ensures forall i :: Awaited(ws[w := x], i) <==> (Awaited(ws, i) && ws[w] != Waiting(i)) || x == Waiting(i)
  {
    forall i: nat ensures Awaited(ws[w := x], i) <==> (Awaited(ws, i) && ws[w] != Waiting(i)) || x == Waiting(i) {
      if Awaited(ws, i) && ws[w] != Waiting(i) {
        var u :| 0 <= u < |ws| && ws[u] == Waiting(i);
        assert ws[w := x][u] == Waiting(i);
      }
      if x == Waiting(i) { assert ws[w := x][w] == Waiting(i); }
    }
  }

  /** Claiming: the counter advances and the claimed index is awaited by this worker alone. */
  lemma ClaimKeeps<R(!new), E(!new)>(outs: seq<Outcome<R, E>>, next: nat, results: seq<Option<R>>, errors: seq<Failure<E>>, ws: seq<Worker>, w: nat)
    requires PoolOk(outs, next, results, errors, ws) && w < |ws| && ws[w].Ready?
    ensures PoolOk(outs, next + 1, results, errors, ws[w := if next < |outs| then Waiting(next) else Done])
  {
    AwaitedUpdate(ws, w, if next < |outs| then Waiting(next) else Done);
  }

  function Results<R, E>(results: seq<Option<R>>, i: nat, out: Outcome<R, E>): (r: seq<Option<R>>)
    requires i < |results|
    ensures |r| == |results|
  {
    if out.Fulfilled? then results[i := Some(out.value)] else results
  }

  function Errors<R, E>(errors: seq<Failure<E>>, i: nat, out: Outcome<R, E>): seq<Failure<E>> {
    if out.Rejected? then errors + [Failure(i, out.error)] else errors
  }

  lemma SettledWorkers(ws: seq<Worker>, next: nat, n: nat, w: nat)
    requires WorkersOk(ws, next, n) && w < |ws| && ws[w].Waiting?
    ensures WorkersOk(ws[w := Ready], next, n)
    ensures forall i :: Awaited(ws[w := Ready], i) <==> Awaited(ws, i) && i != ws[w].i
  {
    AwaitedUpdate(ws, w, Ready);
  }

  lemma SettledErrors<R(!new), E(!new)>(outs: seq<Outcome<R, E>>, errors: seq<Failure<E>>, i: nat)
    requires ErrorsOk(outs, errors) && i < |outs| && !HasError(errors, i)
    ensures ErrorsOk(outs, Errors(errors, i, outs[i]))
  {
  }

  /** The settled index holds its outcome. */
  lemma SettledItem<R(!new), E(!new)>(out: Outcome<R, E>, results: seq<Option<R>>, errors: seq<Failure<E>>, i: nat)
    requires i < |results| && Untouched(results, errors, i)
    ensures Settled(out, Results(results, i, out), Errors(errors, i, out), i)
  {
  }

  /** No other index notices. */
  lemma OtherItem<R(!new), E(!new)>(out: Outcome<R, E>, i: nat, results: seq<Option<R>>, errors: seq<Failure<E>>, mine: Outcome<R, E>, over: bool, j: nat)
    requires i < |results| && j < |results| && i != j && ItemOk(mine, over, results, errors, j)
    ensures ItemOk(mine, over, Results(results, i, out), Errors(errors, i, out), j)
  {
    var errors' := Errors(errors, i, out);
    assert HasError(errors', j) ==> HasError(errors, j);
  }

  /** Settling: the awaited index moves to the one place its outcome belongs. */
  lemma SettleKeeps<R(!new), E(!new)>(outs: seq<Outcome<R, E>>, next: nat, results: seq<Option<R>>, errors: seq<Failure<E>>, ws: seq<Worker>, w: nat)
    requires PoolOk(outs, next, results, errors, ws) && w < |ws| && ws[w].Waiting?
    ensures var i := ws[w].i;
            PoolOk(outs, next, Results(results, i, outs[i]), Errors(errors, i, outs[i]), ws[w := Ready])
  {
    var i := ws[w].i;
    var results', errors' := Results(results, i, outs[i]), Errors(errors, i, outs[i]);
    SettledWorkers(ws, next, |outs|, w);
    assert Awaited(ws, i) && ItemOk(outs[i], false, results, errors, i);
    SettledErrors(outs, errors, i);
    SettledItem(outs[i], results, errors, i);
    forall j | 0 <= j < |outs| ensures ItemOk(outs[j], j < next && !Awaited(ws[w := Ready], j), results', errors', j) {
      if j != i {
        OtherItem(outs[i], i, results, errors, outs[j], j < next && !Awaited(ws, j), j);
      }
    }
  }

  // ---- the sort at the end -------------------------------------------------

  ghost predicate Increasing<E>(errors: seq<Failure<E>>) {
    forall j, k :: 0 <= j < k < |errors| ==> errors[j].index < errors[k].index
  }

  function Insert<E>(x: Failure<E>, errors: seq<Failure<E>>): (r: seq<Failure<E>>)
    ensures multiset(r) == multiset(errors) + multiset{x}
  {
    if errors == [] || x.index <= errors[0].index then [x] + errors
    else
      assert errors == [errors[0]] + errors[1..];
      [errors[0]] + Insert(x, errors[1..])
  }

  function SortByIndex<E>(errors: seq<Failure<E>>): (r: seq<Failure<E>>)
    ensures multiset(r) == multiset(errors)
  {
    if errors == [] then [] else
    assert errors == [errors[0]] + errors[1..];
    Insert(errors[0], SortByIndex(errors[1..]))
  }

  lemma {:induction false} InsertIncreasing<E>(x: Failure<E>, errors: seq<Failure<E>>)
    requires Increasing(errors) && forall k :: 0 <= k < |errors| ==> errors[k].index != x.index
    ensures Increasing(Insert(x, errors))
    ensures forall y <- Insert(x, errors) :: y == x || y in errors
  {
    if errors != [] && errors[0].index < x.index {
      InsertIncreasing(x, errors[1..]);
      assert forall y <- Insert(x, errors[1..]) :: errors[0].index < y.index;
    }
  }

  lemma {:induction false} SortIncreasing<E>(errors: seq<Failure<E>>)
    requires forall j, k :: 0 <= j < k < |errors| ==> errors[j].index != errors[k].index
    ensures Increasing(SortByIndex(errors))
  {
    if errors != [] {
      var rest := SortByIndex(errors[1..]);
      SortIncreasing(errors[1..]);
      forall k | 0 <= k < |rest| ensures rest[k].index != errors[0].index {
        assert rest[k] in multiset(errors[1..]);
      }
      InsertIncreasing(errors[0], rest);
    }
  }

  lemma {:induction false} NoneInFlight(ws: seq<Worker>)
    requires forall w :: 0 <= w < |ws| ==> ws[w].Ready?
    ensures InFlight(ws) == 0
  {
    if ws != [] { NoneInFlight(ws[..|ws| - 1]); }
  }

  // ---- the pool ------------------------------------------------------------

  /** Everything the workers share, with `calls` and `peak` to tell what happened. */
  datatype Pool<+R, +E> = Pool(next: nat, results: seq<Option<R>>, errors: seq<Failure<E>>, ws: seq<Worker>, calls: seq<nat>, peak: nat)

  ghost predicate PoolFits<R(!new), E(!new)>(outs: seq<Outcome<R, E>>, p: Pool<R, E>) {
    && PoolOk(outs, p.next, p.results, p.errors, p.ws)
    && |p.calls| == Min(p.next, |outs|) && (forall i :: 0 <= i < |p.calls| ==> p.calls[i] == i)
    && InFlight(p.ws) <= p.peak <= |p.ws|
  }

  /** Steps left to take. */
  ghost function Left<R(!new), E(!new)>(outs: seq<Outcome<R, E>>, p: Pool<R, E>): int {
    2 * (|outs| - Min(p.next, |outs|)) + Owed(p.ws)
  }

  /** The pool before any worker has moved. */
  function Start<R, E>(n: nat, limit: int): Pool<R, E> {
    Pool(0, seq(n, _ => None), [], seq(Min(Max(limit, 1), n), _ => Ready), [], 0)
  }

  /** A ready worker takes the next of `n` indices, or stops. */
  function ClaimOf<R, E>(n: nat, p: Pool<R, E>, w: nat): Pool<R, E>
    requires w < |p.ws|
  {
    var ws := p.ws[w := if p.next < n then Waiting(p.next) else Done];
    p.(next := p.next + 1, ws := ws, calls := if p.next < n then p.calls + [p.next] else p.calls, peak := Max(p.peak, InFlight(ws)))
  }

  /** The pool once its first `k` workers have each claimed. */
  function AfterClaims<R, E>(n: nat, limit: int, k: nat): (p: Pool<R, E>)
    requires k <= Min(Max(limit, 1), n)
    ensures |p.ws| == Min(Max(limit, 1), n)
  {
    if k == 0 then Start(n, limit) else ClaimOf(n, AfterClaims(n, limit, k - 1), k - 1)
  }

  /** Workers waiting, as a set. */
  ghost function WaitingIn(ws: seq<Worker>): set<int> {
    set w | 0 <= w < |ws| && ws[w].Waiting?
  }

  lemma {:induction false} InFlightCounts(ws: seq<Worker>)
    ensures InFlight(ws) == |WaitingIn(ws)|
  {
    if ws == [] {
      assert WaitingIn(ws) == {};
    } else {
      var rest, last := ws[..|ws| - 1], ws[|ws| - 1];
      InFlightCounts(rest);
      assert WaitingIn(ws) == WaitingIn(rest) + if last.Waiting? then {|ws| - 1} else {};
    }
  }

  lemma {:induction false} FirstInFlight(ws: seq<Worker>, k: nat)
    requires k <= |ws| && forall w :: 0 <= w < |ws| ==> (ws[w].Waiting? <==> w < k)
    ensures InFlight(ws) == k
  {
    if ws != [] { FirstInFlight(ws[..|ws| - 1], if k < |ws| then k else k - 1); }
  }

  /** Only the first `k` workers have moved, and each waits for its own index. */
  ghost predicate FirstWait<R, E>(p: Pool<R, E>, k: nat) {
    && p.next == k && |p.calls| == k
    && forall w :: 0 <= w < |p.ws| ==> p.ws[w] == if w < k then Waiting(w) else Ready
  }

  lemma {:induction false} ClaimsWait<R, E>(n: nat, limit: int, k: nat)
    requires k <= Min(Max(limit, 1), n)
    ensures FirstWait(AfterClaims<R, E>(n, limit, k), k)
  {
    if k > 0 {
      ClaimsWait<R, E>(n, limit, k - 1);
      OneMoreClaim(n, AfterClaims<R, E>(n, limit, k - 1), k - 1);
    }
  }

  /** The pool uses what it is allowed: after every worker's first claim, min(max(limit, 1), n)
      calls are in flight, one for each of the first indices. */
  lemma ClaimsFillThePool<R, E>(n: nat, limit: int)
    ensures var k := Min(Max(limit, 1), n);
            k >= 0 && FirstWait(AfterClaims<R, E>(n, limit, k), k) && InFlight(AfterClaims<R, E>(n, limit, k).ws) == k
  {
    var k := Min(Max(limit, 1), n);
    ClaimsWait<R, E>(n, limit, k);
    FirstInFlight(AfterClaims<R, E>(n, limit, k).ws, k);
  }

  lemma OneMoreClaim<R, E>(n: nat, p: Pool<R, E>, k: nat)
    requires k < n && k < |p.ws| && FirstWait(p, k)
    ensures FirstWait(ClaimOf(n, p, k), k + 1)
  {
  }

  /** A ready worker takes the next index, or stops. */
  method Claim<R(!new), E(!new)>(outs: seq<Outcome<R, E>>, p: Pool<R, E>, w: nat) returns (q: Pool<R, E>)
    requires PoolFits(outs, p) && w < |p.ws| && p.ws[w].Ready?
    ensures PoolFits(outs, q) && |q.ws| == |p.ws| && Left(outs, q) < Left(outs, p)
    ensures q == ClaimOf(|outs|, p, w)
  {
    var i := p.next;
    ClaimKeeps(outs, i, p.results, p.errors, p.ws, w);
    if i >= |outs| {
      OwedUpdate(p.ws, w, Done);
      var ws := p.ws[w := Done];
      q := p.(next := i + 1, ws := ws, peak := Max(p.peak, InFlight(ws)));
    } else {
      OwedUpdate(p.ws, w, Waiting(i));
      var ws := p.ws[w := Waiting(i)];
      q := p.(next := i + 1, ws := ws, calls := p.calls + [i], peak := Max(p.peak, InFlight(ws)));
    }
  }

  /** The call a worker waits for settles. */
  method Settle<R(!new), E(!new)>(outs: seq<Outcome<R, E>>, p: Pool<R, E>, w: nat) returns (q: Pool<R, E>)
    requires PoolFits(outs, p) && w < |p.ws| && p.ws[w].Waiting?
    ensures PoolFits(outs, q) && |q.ws| == |p.ws| && Left(outs, q) < Left(outs, p)
  {
    var i := p.ws[w].i;
    OwedUpdate(p.ws, w, Ready);
    SettleKeeps(outs, p.next, p.results, p.errors, p.ws, w);
    var ws := p.ws[w := Ready];
    q := p.(ws := ws, peak := Max(p.peak, InFlight(ws)));
    if outs[i].Fulfilled? {
      q := q.(results := p.results[i := Some(outs[i].value)]);
    } else {
      q := q.(errors := p.errors + [Failure(i, outs[i].error)]);
    }
  }

  /** Call `i` settles with `outs[i]`, at a moment nobody controls. Whatever the order:
      every index is called exactly once (`calls` lists them), at most
      min(max(limit, 1), n) calls are ever in flight (`peak`), the loop ends, every index
      ends as exactly one of fulfilled or failed, and the errors come out by index. */
  method MapPool<R(!new), E(!new)>(outs: seq<Outcome<R, E>>, limit: int)
    returns (results: seq<Option<R>>, errors: seq<Failure<E>>, calls: seq<nat>, peak: nat)
    ensures |calls| == |outs| && forall i :: 0 <= i < |calls| ==> calls[i] == i
    ensures peak <= Min(Max(limit, 1), |outs|)
    ensures |results| == |outs|
    ensures forall i :: 0 <= i < |outs| ==> Settled(outs[i], results, errors, i)
    ensures forall k :: 0 <= k < |errors| ==> errors[k].index < |outs| && outs[errors[k].index] == Rejected(errors[k].error)
    ensures Increasing(errors)
  {
    var n := |outs|;
    var p: Pool<R, E> := Start(n, limit);
    NoneInFlight(p.ws);
    while exists w :: 0 <= w < |p.ws| && !p.ws[w].Done?
      invariant |p.ws| == Min(Max(limit, 1), n) && PoolFits(outs, p)
      decreases Left(outs, p)
    {
      var w: nat :| w < |p.ws| && !p.ws[w].Done?;
      if p.ws[w].Ready? {
        p := Claim(outs, p, w);
      } else {
        p := Settle(outs, p, w);
      }
    }
    AllDone(outs, p.next, p.results, p.errors, p.ws);
    SortIncreasing(p.errors);
    SortKeepsSettled(outs, p.results, p.errors);
    results, errors, calls, peak := p.results, SortByIndex(p.errors), p.calls, p.peak;
  }

  /** Once every worker has stopped, every index is settled. */
  lemma AllDone<R(!new), E(!new)>(outs: seq<Outcome<R, E>>, next: nat, results: seq<Option<R>>, errors: seq<Failure<E>>, ws: seq<Worker>)
    requires PoolOk(outs, next, results, errors, ws) && (outs != [] ==> ws != [])
    requires forall w :: 0 <= w < |ws| ==> ws[w].Done?
    ensures outs != [] ==> |outs| <= next
    ensures forall i :: 0 <= i < |outs| ==> Settled(outs[i], results, errors, i)
  {
    assert outs != [] ==> ws[0].Done?;
    forall i | 0 <= i < |outs| ensures Settled(outs[i], results, errors, i) {
      assert !Awaited(ws, i);
    }
  }

  lemma SortKeepsSettled<R(!new), E(!new)>(outs: seq<Outcome<R, E>>, results: seq<Option<R>>, errors: seq<Failure<E>>)
    requires |results| == |outs| && ErrorsOk(outs, errors)
    requires forall i :: 0 <= i < |outs| ==> Settled(outs[i], results, errors, i)
    ensures var s := SortByIndex(errors);
            && (forall k :: 0 <= k < |s| ==> s[k].index < |outs| && outs[s[k].index] == Rejected(s[k].error))
            && (forall i :: 0 <= i < |outs| ==> Settled(outs[i], results, s, i))
  {
    var s := SortByIndex(errors);
    forall x ensures x in s <==> x in errors {
      assert x in multiset(s) <==> x in multiset(errors);
    }
    forall k | 0 <= k < |s| ensures s[k].index < |outs| && outs[s[k].index] == Rejected(s[k].error) {
      assert s[k] in errors;
    }
    forall i | 0 <= i < |outs| ensures Settled(outs[i], results, s, i) {
      SameErrors(errors, s, i);
    }
  }

  lemma SameErrors<E(!new)>(errors: seq<Failure<E>>, s: seq<Failure<E>>, i: nat)
    requires forall x :: x in s <==> x in errors
    ensures HasError(s, i) ==> HasError(errors, i)
  {
    if HasError(s, i) {
      var k :| 0 <= k < |s| && s[k].index == i;
      assert s[k] in errors;
    }
  }
}
