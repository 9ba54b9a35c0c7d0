/** The bounded worker pool: every schedule of its runners, and the pool gauge around it. */
module WorkerPool {
  import opened Counting

  /** Where a runner is: about to take an index, in `worker(index)`, out of indexes, or its worker threw. */
  datatype Runner = Ready | Working(index: nat) | Stopped | Threw(index: nat)

  /** `next` and `results` are shared; a result carries the index it is for. `dispatched` lists the
      worker calls in order. */
  datatype Pool<T> = Pool(count: nat, next: nat, runners: seq<Runner>, results: seq<(nat, T)>, dispatched: seq<nat>)

  datatype Action<T> =
    | Take(r: nat)                // `next++`, and the worker call unless the indexes have run out
    | Finish(r: nat, result: T)   // the worker resolves, its result is pushed
    | Throw(r: nat)               // the worker rejects

  predicate Enabled<T>(p: Pool<T>, a: Action<T>) {
    && a.r < |p.runners|
    && match a {
         case Take(r) => p.runners[r].Ready?
         case Finish(r, _) => p.runners[r].Working?
         case Throw(r) => p.runners[r].Working?
       }
  }

  function After<T>(p: Pool<T>, a: Action<T>): Pool<T>
    requires Enabled(p, a)
  {
    match a
    case Take(r) =>
      if p.next >= p.count then p.(next := p.next + 1, runners := p.runners[r := Stopped])
      else p.(next := p.next + 1, runners := p.runners[r := Working(p.next)], dispatched := p.dispatched + [p.next])
    case Finish(r, result) =>
      p.(runners := p.runners[r := Ready], results := p.results + [(p.runners[r].index, result)])
    case Throw(r) => p.(runners := p.runners[r := Threw(p.runners[r].index)])
  }

  ghost predicate Initial<T>(p: Pool<T>, concurrency: nat) {
    && p.next == 0 && p.results == [] && p.dispatched == []
    && |p.runners| == (if concurrency <= p.count then concurrency else p.count)
    && forall r | 0 <= r < |p.runners| :: p.runners[r].Ready?
  }

  datatype Schedule<T> = Start | Then(before: Schedule<T>, a: Action<T>)

  ghost predicate Reaches<T(!new)>(p0: Pool<T>, s: Schedule<T>, p: Pool<T>) {
    match s
    case Start => p == p0
    case Then(before, a) => exists m: Pool<T> :: Reaches(p0, before, m) && Enabled(m, a) && p == After(m, a)
  }

  // ----- who has which index -----

  predicate Holds(r: Runner) { r.Working? || r.Threw? }

  /** The indexes given out so far. */
  function Given<T>(p: Pool<T>): nat { if p.next <= p.count then p.next else p.count }

  predicate HeldBy(runners: seq<Runner>, i: nat) {
    exists r | 0 <= r < |runners| :: Holds(runners[r]) && runners[r].index == i
  }

  predicate HasResult<T>(results: seq<(nat, T)>, i: nat) { exists k | 0 <= k < |results| :: results[k].0 == i }

  ghost predicate HeldOnce(runners: seq<Runner>, given: nat) {
    && (forall r | 0 <= r < |runners| && Holds(runners[r]) :: runners[r].index < given)
    && (forall q, r | 0 <= q < r < |runners| && Holds(runners[q]) && Holds(runners[r]) ::
          runners[q].index != runners[r].index)
  }

  ghost predicate ResultsOnce<T>(results: seq<(nat, T)>, given: nat) {
    && (forall k | 0 <= k < |results| :: results[k].0 < given)
    && (forall j, k | 0 <= j < k < |results| :: results[j].0 != results[k].0)
  }

  function Range(n: nat): (s: seq<nat>)
    ensures |s| == n && forall k | 0 <= k < n :: s[k] == k
  {
    seq(n, k requires k >= 0 => k)
  }

  /** Every index given out has one runner or one result, never both. */
  ghost predicate Invariant<T>(p: Pool<T>) {
    && HeldOnce(p.runners, Given(p)) && ResultsOnce(p.results, Given(p))
    && (forall i: nat | i < Given(p) :: HeldBy(p.runners, i) <==> !HasResult(p.results, i))
    && p.dispatched == Range(Given(p))
    && (forall r | 0 <= r < |p.runners| && p.runners[r].Stopped? :: p.next >= p.count)
  }

  predicate HeldByOther(runners: seq<Runner>, r: nat, i: nat) {
    exists q | 0 <= q < |runners| && q != r :: Holds(runners[q]) && runners[q].index == i
  }

  lemma HeldAfter(runners: seq<Runner>, r: nat, x: Runner)
    requires r < |runners|
    ensures forall i: nat :: HeldBy(runners, i) <==>
                             (Holds(runners[r]) && runners[r].index == i) || HeldByOther(runners, r, i)
    ensures forall i: nat :: HeldBy(runners[r := x], i) <==>
                             (Holds(x) && x.index == i) || HeldByOther(runners, r, i)
  {
    var after := runners[r := x];
    assert forall q | 0 <= q < |runners| && q != r :: after[q] == runners[q];
    forall i: nat
      ensures HeldBy(after, i) <==> (Holds(x) && x.index == i) || HeldByOther(runners, r, i)
    {
      if HeldBy(after, i) {
        var q :| 0 <= q < |after| && Holds(after[q]) && after[q].index == i;
        assert q != r ==> Holds(runners[q]);
      }
      if HeldByOther(runners, r, i) {
        var q :| 0 <= q < |runners| && q != r && Holds(runners[q]) && runners[q].index == i;
        assert Holds(after[q]);
      }
      if Holds(x) && x.index == i {
        assert Holds(after[r]);
      }
    }
  }

  lemma HeldOnceAfter(runners: seq<Runner>, given: nat, r: nat, x: Runner, given': nat)
    requires HeldOnce(runners, given) && r < |runners| && given <= given'
    requires Holds(x) ==> x.index < given' && !HeldByOther(runners, r, x.index)
    ensures HeldOnce(runners[r := x], given')
  {
  }

  lemma HeldByOne(runners: seq<Runner>, given: nat, r: nat)
    requires HeldOnce(runners, given) && r < |runners| && Holds(runners[r])
    ensures runners[r].index < given && !HeldByOther(runners, r, runners[r].index)
  {
    assert forall q | 0 <= q < |runners| && q != r && Holds(runners[q]) :: q < r || r < q;
  }

  lemma ResultAfter<T>(results: seq<(nat, T)>, x: (nat, T))
    ensures forall i: nat :: HasResult(results + [x], i) <==> HasResult(results, i) || x.0 == i
  {
    var after := results + [x];
    assert after[|results|] == x && forall k | 0 <= k < |results| :: after[k] == results[k];
  }

  lemma ResultsOnceAfter<T>(results: seq<(nat, T)>, given: nat, x: (nat, T))
    requires ResultsOnce(results, given) && x.0 < given && !HasResult(results, x.0)
    ensures ResultsOnce(results + [x], given)
  {
  }

  lemma InvariantStep<T>(p: Pool<T>, a: Action<T>)
    requires Invariant(p) && Enabled(p, a)
    ensures Invariant(After(p, a))
  {
    hide HeldBy, HeldByOther, HasResult, HeldOnce;
    match a {
      case Take(r) =>
        var x := if p.next >= p.count then Stopped else Working(p.next);
        HeldAfter(p.runners, r, x);
        NotGivenYet(p);
        HeldOnceAfter(p.runners, Given(p), r, x, Given(After(p, a)));
      case Finish(r, result) =>
        HeldAfter(p.runners, r, Ready);
        HeldByOne(p.runners, Given(p), r);
        HeldOnceAfter(p.runners, Given(p), r, Ready, Given(p));
        ResultAfter(p.results, (p.runners[r].index, result));
        ResultsOnceAfter(p.results, Given(p), (p.runners[r].index, result));
      case Throw(r) =>
        HeldAfter(p.runners, r, Threw(p.runners[r].index));
        HeldByOne(p.runners, Given(p), r);
        HeldOnceAfter(p.runners, Given(p), r, Threw(p.runners[r].index), Given(p));
    }
  }

  lemma NotGivenYet<T>(p: Pool<T>)
    requires Invariant(p)
    ensures !HeldBy(p.runners, Given(p)) && !HasResult(p.results, Given(p))
  {
  }

  lemma {:induction false} InvariantRun<T(!new)>(p0: Pool<T>, concurrency: nat, s: Schedule<T>, p: Pool<T>)
    requires Initial(p0, concurrency) && Reaches(p0, s, p)
    ensures Invariant(p) && p.count == p0.count && |p.runners| == |p0.runners|
  {
    if s.Then? {
      var m: Pool<T> :| Reaches(p0, s.before, m) && Enabled(m, s.a) && p == After(m, s.a);
      InvariantRun(p0, concurrency, s.before, m);
      InvariantStep(m, s.a);
    }
  }

  // ----- what a schedule keeps -----

  predicate IsWorking(r: Runner) { r.Working? }

  function InFlight(runners: seq<Runner>): nat {
    if runners == [] then 0
    else InFlight(runners[..|runners| - 1]) + if IsWorking(runners[|runners| - 1]) then 1 else 0
  }

  lemma {:induction false} InFlightBound(runners: seq<Runner>)
    ensures InFlight(runners) <= |runners|
  {
    if runners != [] {
      InFlightBound(runners[..|runners| - 1]);
    }
  }

  /** In every schedule the indexes are dispatched in order, each at most once, and never more workers
      are in flight than the smaller of the concurrency and the count. */
  lemma DispatchedInOrder<T(!new)>(p0: Pool<T>, concurrency: nat, s: Schedule<T>, p: Pool<T>)
    requires Initial(p0, concurrency) && Reaches(p0, s, p)
    ensures p.dispatched == Range(Given(p)) && Given(p) <= p.count
    ensures InFlight(p.runners) <= concurrency && InFlight(p.runners) <= p.count
  {
    InvariantRun(p0, concurrency, s, p);
    InFlightBound(p.runners);
  }

  /** `Promise.all` resolves: every runner has run out of indexes. */
  predicate Completed<T>(p: Pool<T>) { forall r | 0 <= r < |p.runners| :: p.runners[r].Stopped? }

  /** One result for every index below the count. */
  ghost predicate AllResults<T>(p: Pool<T>) {
    && |p.results| == p.count && ResultsOnce(p.results, p.count)
    && forall i: nat | i < p.count :: HasResult(p.results, i)
  }

  /** A completed pool has dispatched every index exactly once and holds one result for each, if and
      only if it had a runner or nothing to do. */
  lemma CompletedIsComplete<T(!new)>(p0: Pool<T>, concurrency: nat, s: Schedule<T>, p: Pool<T>)
    requires Initial(p0, concurrency) && Reaches(p0, s, p) && Completed(p)
    ensures concurrency >= 1 || p.count == 0 <==> p.dispatched == Range(p.count) && AllResults(p)
  {
    InvariantRun(p0, concurrency, s, p);
    if concurrency >= 1 || p.count == 0 {
      assert p.count > 0 ==> p.runners[0].Stopped?;
      assert Given(p) == p.count;
      assert forall i: nat :: !HeldBy(p.runners, i);
      CountResults(p.results, p.count);
    } else {
      NoRunnerNoStep(p0, s, p);
    }
  }

  lemma {:induction false} NoRunnerNoStep<T(!new)>(p0: Pool<T>, s: Schedule<T>, p: Pool<T>)
    requires p0.runners == [] && Reaches(p0, s, p)
    ensures p == p0
  {
    if s.Then? {
      var m: Pool<T> :| Reaches(p0, s.before, m) && Enabled(m, s.a) && p == After(m, s.a);
      NoRunnerNoStep(p0, s.before, m);
    }
  }

  function Indexes<T>(results: seq<(nat, T)>): (s: seq<nat>)
    ensures |s| == |results| && forall k | 0 <= k < |s| :: s[k] == results[k].0
  {
    seq(|results|, k requires 0 <= k < |results| => results[k].0)
  }

  lemma CountResults<T>(results: seq<(nat, T)>, n: nat)
    requires ResultsOnce(results, n) && forall i: nat | i < n :: HasResult(results, i)
    ensures |results| == n
  {
    var indexes := Indexes(results);
    CountDistinct(indexes);
    forall i: nat
      ensures i in ToSet(indexes) <==> i in Below(n)
    {
      if i < n {
        assert HasResult(results, i);
        var k :| 0 <= k < |results| && results[k].0 == i;
        assert indexes[k] == i;
      }
    }
    assert ToSet(indexes) == Below(n);
  }

  lemma {:induction false} InFlightAfter(runners: seq<Runner>, r: nat, x: Runner)
    requires r < |runners|
    ensures InFlight(runners[r := x]) ==
            InFlight(runners) - (if IsWorking(runners[r]) then 1 else 0) + (if IsWorking(x) then 1 else 0)
  {
    var last := |runners| - 1;
    if r < last {
      InFlightAfter(runners[..last], r, x);
      assert runners[r := x][..last] == runners[..last][r := x];
    } else {
      assert runners[r := x][..last] == runners[..last];
    }
  }
}
