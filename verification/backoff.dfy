/**
  The backoff circuit of src/Backoff.ts: a callable is invoked until it
  resolves to true; after each false result the pair (prevDelay, nextDelay)
  advances by the strategy's calculator, the circuit sleeps for the delay that
  was current before the advance, and it gives up with an error once the newly
  computed delay reaches `maxWait` (when `maxWait` is positive).

  Delays are in seconds. The callable's results are an input sequence; timers
  are abstracted into the sleeps the circuit requests.
 */
module Backoff {
  import opened Results

  /** `BackoffStrategy`. */
  datatype Strategy = Linear | Fibonacci | Exponential

  const TwoTo30: int := 0x4000_0000
  const TwoTo31: int := 0x8000_0000
  const TwoTo32: int := 0x1_0000_0000

  /** JavaScript's ToInt32 on an integral number: wrap into [-2^31, 2^31). */
  function ToInt32(x: int): (r: int)
    ensures -TwoTo31 <= r < TwoTo31
    ensures (r - x) % TwoTo32 == 0
  {
    var m := x % TwoTo32;
    if m >= TwoTo31 then m - TwoTo32 else m
  }

  /** JavaScript's `n << 1`: a 32-bit shift of the ToInt32 image of `n`. */
  function ShiftLeftOne(n: int): (r: int)
    ensures -TwoTo31 <= r < TwoTo31
    ensures (r - 2 * n) % TwoTo32 == 0
  {
    var a := ToInt32(n);
    var r := ToInt32(a * 2);
    SumOfMultiples(r - 2 * a, a - n);
    r
  }

  /** Multiples of 2^32 are closed under doubling and addition. */
  lemma SumOfMultiples(x: int, y: int)
    requires x % TwoTo32 == 0 && y % TwoTo32 == 0
    ensures (x + 2 * y) % TwoTo32 == 0
  {
    var p, q := x / TwoTo32, y / TwoTo32;
    assert x == p * TwoTo32;
    assert y == q * TwoTo32;
    assert x + 2 * y == (p + 2 * q) * TwoTo32;
    MultipleOfTwoTo32(p + 2 * q);
  }

  lemma MultipleOfTwoTo32(k: int)
    ensures (k * TwoTo32) % TwoTo32 == 0
  {
  }

  /** `CALCULATORS[strategy](prev, n)`. */
  function Calculate(s: Strategy, prev: int, n: int): (r: int)
    ensures s == Linear ==> r == n + 1
    ensures s == Fibonacci ==> r == prev + n
    ensures s == Exponential ==> -TwoTo31 <= r < TwoTo31 && (r - 2 * n) % TwoTo32 == 0
    ensures s == Exponential && 0 <= n < TwoTo30 ==> r == 2 * n
  {
    match s
    case Linear => n + 1
    case Fibonacci => prev + n
    case Exponential =>
      if 0 <= n < TwoTo30 then ShiftLeftOneDoubles(n); ShiftLeftOne(n) else ShiftLeftOne(n)
  }

  /** The state of a `Backoff` instance: its configuration and the delay pair. */
  datatype Circuit = Circuit(strategy: Strategy, maxWait: int, prevDelay: int, nextDelay: int)

  /** `new Backoff(strategy, maxWait, callable)`: LINEAR seeds (0, 1), the others (1, 1). */
  function NewCircuit(s: Strategy, maxWait: int): (c: Circuit)
    ensures c.strategy == s && c.maxWait == maxWait && c.nextDelay == 1
    ensures c.prevDelay == if s == Linear then 0 else 1
  {
    if s != Linear then Circuit(s, maxWait, 1, 1) else Circuit(s, maxWait, 0, 1)
  }

  /** The advance of the delay pair after one failed attempt. */
  function Shift(c: Circuit): (r: Circuit)
    ensures r.strategy == c.strategy && r.maxWait == c.maxWait
    ensures r.prevDelay == c.nextDelay
    ensures r.nextDelay == Calculate(c.strategy, c.prevDelay, c.nextDelay)
  {
    c.(prevDelay := c.nextDelay, nextDelay := Calculate(c.strategy, c.prevDelay, c.nextDelay))
  }

  /** The circuit after `k` failed attempts. */
  function After(c: Circuit, k: nat): Circuit
  {
    if k == 0 then c else Shift(After(c, k - 1))
  }

  /** What one attempt of `next()` leads to. */
  datatype Step =
    /** The callable resolved true: nothing changes and nothing is scheduled. */
    | Resolved(circuit: Circuit)
    /** It resolved false: the next attempt runs after `sleep` seconds. */
    | Retry(circuit: Circuit, sleep: int)
    /** It resolved false and the budget is reached: wait `wait` seconds, then throw. */
    | GiveUp(circuit: Circuit, wait: int, error: Error)
  {
    function CircuitAfter(): Circuit
    {
      match this
      case Resolved(c) => c
      case Retry(c, _) => c
      case GiveUp(c, _, _) => c
    }
  }

  /** One call of `next()`, given what the callable resolved to. */
  function Next(c: Circuit, resolved: bool): (r: Step)
    ensures r.Resolved? <==> resolved
    ensures resolved ==> r.CircuitAfter() == c
    ensures !resolved ==> r.CircuitAfter() == Shift(c)
    ensures r.GiveUp? <==> !resolved && c.maxWait > 0 && Calculate(c.strategy, c.prevDelay, c.nextDelay) >= c.maxWait
    ensures r.Retry? ==> r.sleep == c.nextDelay
    ensures r.GiveUp? ==> r.wait == c.maxWait - c.nextDelay && r.error == MaxWaitReached(c.maxWait)
  {
    if resolved then Resolved(c)
    else
      var currentDelay := c.nextDelay;
      var shifted := Shift(c);
      if c.maxWait > 0 && shifted.nextDelay >= c.maxWait then
        GiveUp(shifted, c.maxWait - shifted.prevDelay, MaxWaitReached(c.maxWait))
      else
        Retry(shifted, currentDelay)
  }

  /** Where a session stands once the given callable results are used up. */
  datatype Status =
    /** Still polling: another attempt is scheduled. */
    | Running
    /** The callable resolved true. */
    | Succeeded
    /** The budget was reached: the final wait, then the thrown error. */
    | TimedOut(wait: int, error: Error)

  /** A session: the final circuit, attempts made, sleeps between attempts, status. */
  datatype Session = Session(circuit: Circuit, attempts: nat, sleeps: seq<int>, status: Status)

  /** Runs the circuit over the callable's successive results; results past the end
      of the session (after success or timeout) are never requested. */
  function Run(c: Circuit, results: seq<bool>): (r: Session)
    ensures r.attempts <= |results|
    ensures forall i :: 0 <= i < r.attempts - 1 ==> !results[i]
    ensures r.status.Running? ==> r.attempts == |results| && |r.sleeps| == |results|
    ensures r.status.Running? ==> forall i :: 0 <= i < |results| ==> !results[i]
    ensures !r.status.Running? ==> 1 <= r.attempts && |r.sleeps| == r.attempts - 1
    ensures r.status.Succeeded? <==> 1 <= r.attempts && results[r.attempts - 1]
    decreases |results|
  {
    if |results| == 0 then Session(c, 0, [], Running)
    else
      match Next(c, results[0])
      case Resolved(c') => Session(c', 1, [], Succeeded)
      case GiveUp(c', wait, error) => Session(c', 1, [], TimedOut(wait, error))
      case Retry(c', sleep) =>
        var tail := Run(c', results[1..]);
        Session(tail.circuit, tail.attempts + 1, [sleep] + tail.sleeps, tail.status)
  }

  /** `start(initialDelay)`: an optional wait before the session's first attempt. */
  datatype Started = Started(initialWait: Option<int>, session: Session)

  /** `start(initialDelay)` on an instance whose delay pair is `c`: `start` does not reseed
      the pair, so a fresh instance starts from `NewCircuit` and a restarted one resumes
      from where its last session left it. */
  function Start(c: Circuit, initialDelay: int, results: seq<bool>): (r: Started)
    ensures r.initialWait.Some? <==> initialDelay > 0
    ensures r.initialWait.Some? ==> r.initialWait.value == initialDelay
    ensures r.session == Run(c, results)
    ensures forall i :: 0 <= i < |r.session.sleeps| ==> r.session.sleeps[i] == After(c, i).nextDelay
  {
    var initialWait := if initialDelay > 0 then Some(initialDelay) else None;
    RunFollowsAfter(c, results);
    Started(initialWait, Run(c, results))
  }

  /** `n << 1` doubles `n` as long as the doubled value fits in 31 bits. */
  lemma ShiftLeftOneDoubles(n: int)
    requires 0 <= n < TwoTo30
    ensures ShiftLeftOne(n) == 2 * n
  {
  }

  /** At 2^30 the shift leaves 32-bit range and wraps to a negative delay. */
  lemma ShiftLeftOneWraps()
    ensures ShiftLeftOne(TwoTo30) == -TwoTo31
    ensures ShiftLeftOne(-TwoTo31) == 0
  {
  }

  function Fib(n: nat): nat
  {
    if n < 2 then n else Fib(n - 1) + Fib(n - 2)
  }

  function Pow2(n: nat): nat
  {
    if n == 0 then 1 else 2 * Pow2(n - 1)
  }

  /** The delay the documentation promises before retry `i + 1`:
      LINEAR 1, 2, 3, ...; FIBONACCI 1, 2, 3, 5, 8, ...; EXPONENTIAL 1, 2, 4, 8, .... */
  function DocumentedDelay(s: Strategy, i: nat): int
  {
    match s
    case Linear => i + 1
    case Fibonacci => Fib(i + 2)
    case Exponential => Pow2(i)
  }

  lemma {:induction false} Pow2Monotonic(n: nat, m: nat)
    requires n <= m
    ensures Pow2(n) <= Pow2(m)
    decreases m
  {
    if n < m {
      Pow2Monotonic(n, m - 1);
    }
  }

  lemma Pow2Bound(n: nat)
    requires n <= 29
    ensures Pow2(n) < TwoTo30
  {
    Pow2Monotonic(n, 29);
    assert Pow2(5) == 32;
    assert Pow2(10) == 1024;
    assert Pow2(15) == 32 * 1024;
    assert Pow2(20) == 1024 * 1024;
    assert Pow2(25) == 32 * 1024 * 1024;
    assert Pow2(29) == 0x2000_0000;
  }

  /** The delay pair after `k` failures, in closed form for each strategy. */
  lemma {:induction false} AfterClosedForm(s: Strategy, maxWait: int, k: nat)
    requires s == Exponential ==> k <= 30
    ensures After(NewCircuit(s, maxWait), k).strategy == s
    ensures After(NewCircuit(s, maxWait), k).nextDelay == DocumentedDelay(s, k)
    ensures s == Linear ==> After(NewCircuit(s, maxWait), k).prevDelay == k
    ensures s == Fibonacci ==> After(NewCircuit(s, maxWait), k).prevDelay == Fib(k + 1)
    ensures s == Exponential ==> After(NewCircuit(s, maxWait), k).prevDelay == if k == 0 then 1 else Pow2(k - 1)
  {
    if k > 0 {
      AfterClosedForm(s, maxWait, k - 1);
      var c := After(NewCircuit(s, maxWait), k - 1);
      match s
      case Linear =>
      case Fibonacci =>
      case Exponential =>
        Pow2Bound(k - 1);
        ShiftLeftOneDoubles(c.nextDelay);
    }
  }

  /** Shifting first and then failing `k` times is failing `k + 1` times. */
  lemma {:induction false} AfterShift(c: Circuit, k: nat)
    ensures After(Shift(c), k) == After(c, k + 1)
  {
    if k > 0 {
      AfterShift(c, k - 1);
    }
  }

  /** The sleep before retry `i + 1` is the `nextDelay` reached after `i` failures,
      and a session ends in the circuit reached after its failures. */
  lemma RunFollowsAfter(c: Circuit, results: seq<bool>)
    ensures var r := Run(c, results);
      forall i :: 0 <= i < |r.sleeps| ==> r.sleeps[i] == After(c, i).nextDelay
    ensures var r := Run(c, results);
      r.circuit == After(c, if r.status.Succeeded? then r.attempts - 1 else r.attempts)
  {
    SleepsFollowAfter(c, results);
    RunEndsAfter(c, results);
  }

  /** The sleep before retry `i + 1` is the `nextDelay` reached after `i` failures. */
  lemma {:induction false} SleepsFollowAfter(c: Circuit, results: seq<bool>)
    ensures var r := Run(c, results);
      forall i :: 0 <= i < |r.sleeps| ==> r.sleeps[i] == After(c, i).nextDelay
    decreases |results|
  {
    if |results| > 0 && !results[0] && Next(c, false).Retry? {
      var c' := Shift(c);
      SleepsFollowAfter(c', results[1..]);
      var tail := Run(c', results[1..]);
      var sleeps := [c.nextDelay] + tail.sleeps;
      assert Run(c, results).sleeps == sleeps;
      forall i | 0 <= i < |sleeps|
        ensures sleeps[i] == After(c, i).nextDelay
      {
        if i > 0 {
          assert sleeps[i] == tail.sleeps[i - 1];
          AfterShift(c, i - 1);
        }
      }
    }
  }

  /** A session ends in the circuit reached after its failures. */
  lemma {:induction false} RunEndsAfter(c: Circuit, results: seq<bool>)
    ensures var r := Run(c, results);
      r.circuit == After(c, if r.status.Succeeded? then r.attempts - 1 else r.attempts)
    decreases |results|
  {
    if |results| > 0 && !results[0] && Next(c, false).Retry? {
      var c' := Shift(c);
      RunEndsAfter(c', results[1..]);
      var tail := Run(c', results[1..]);
      assert Run(c, results) == Session(tail.circuit, tail.attempts + 1, [c.nextDelay] + tail.sleeps, tail.status);
      AfterShift(c, if tail.status.Succeeded? then tail.attempts - 1 else tail.attempts);
    }
  }

  /** The sleeps of any session follow the strategy's documented sequence
      (for EXPONENTIAL, while the doubled delays fit in 32 bits). */
  lemma SleepsFollowStrategy(s: Strategy, maxWait: int, results: seq<bool>)
    requires s == Exponential ==> |results| <= 31
    ensures var r := Run(NewCircuit(s, maxWait), results);
      forall i :: 0 <= i < |r.sleeps| ==> r.sleeps[i] == DocumentedDelay(s, i)
  {
    RunFollowsAfter(NewCircuit(s, maxWait), results);
    var r := Run(NewCircuit(s, maxWait), results);
    forall i | 0 <= i < |r.sleeps|
      ensures r.sleeps[i] == DocumentedDelay(s, i)
    {
      AfterClosedForm(s, maxWait, i);
    }
  }

  /** A callable that first resolves true on call `n + 1` is called exactly `n + 1` times,
      with `n` sleeps in between, provided none of the `n` failures reaches the budget. */
  lemma {:induction false} SucceedsOnCall(c: Circuit, results: seq<bool>, n: nat)
    requires n < |results| && results[n]
    requires forall i :: 0 <= i < n ==> !results[i]
    requires c.maxWait <= 0 || forall j :: 1 <= j <= n ==> After(c, j).nextDelay < c.maxWait
    ensures Run(c, results).status.Succeeded?
    ensures Run(c, results).attempts == n + 1
    ensures |Run(c, results).sleeps| == n
    decreases n
  {
    if n > 0 {
      var c' := Shift(c);
      assert After(c, 1) == c';
      if c.maxWait > 0 {
        assert After(c, 1).nextDelay < c.maxWait;
        forall j | 1 <= j <= n - 1
          ensures After(c', j).nextDelay < c'.maxWait
        {
          AfterShift(c, j);
        }
      }
      assert Next(c, results[0]) == Retry(c', c.nextDelay);
      SucceedsOnCall(c', results[1..], n - 1);
    }
  }

  /** With `maxWait <= 0` no failure, however many, raises the timeout. */
  lemma {:induction false} NoTimeoutWhenUnbounded(c: Circuit, results: seq<bool>)
    requires c.maxWait <= 0
    ensures !Run(c, results).status.TimedOut?
    decreases |results|
  {
    if |results| > 0 && !results[0] {
      NoTimeoutWhenUnbounded(Shift(c), results[1..]);
    }
  }

  /** A session times out exactly at the first failure whose new delay reaches `maxWait`,
      waiting `maxWait` minus the delay current before that failure. */
  lemma TimeoutIsFirstOverrun(c: Circuit, results: seq<bool>)
    ensures var r := Run(c, results);
      r.status.TimedOut? ==>
        && c.maxWait > 0
        && After(c, r.attempts).nextDelay >= c.maxWait
        && (forall j :: 1 <= j < r.attempts ==> After(c, j).nextDelay < c.maxWait)
        && r.status.wait == c.maxWait - After(c, r.attempts - 1).nextDelay
        && r.status.error == MaxWaitReached(c.maxWait)
  {
    TimeoutOverruns(c, results);
    NoOverrunBeforeTimeout(c, results);
  }

  /** The failure that times a session out computed a delay reaching `maxWait`. */
  lemma {:induction false} TimeoutOverruns(c: Circuit, results: seq<bool>)
    ensures var r := Run(c, results);
      r.status.TimedOut? ==>
        && c.maxWait > 0
        && After(c, r.attempts).nextDelay >= c.maxWait
        && r.status.wait == c.maxWait - After(c, r.attempts - 1).nextDelay
        && r.status.error == MaxWaitReached(c.maxWait)
    decreases |results|
  {
    if |results| > 0 && !results[0] && Next(c, false).Retry? {
      var c' := Shift(c);
      TimeoutOverruns(c', results[1..]);
      var tail := Run(c', results[1..]);
      assert Run(c, results) == Session(tail.circuit, tail.attempts + 1, [c.nextDelay] + tail.sleeps, tail.status);
      if tail.status.TimedOut? {
        AfterShift(c, tail.attempts);
        AfterShift(c, tail.attempts - 1);
      }
    }
  }

  /** Every failure before the one that times a session out stayed below `maxWait`. */
  lemma {:induction false} NoOverrunBeforeTimeout(c: Circuit, results: seq<bool>)
    ensures var r := Run(c, results);
      r.status.TimedOut? ==> forall j :: 1 <= j < r.attempts ==> After(c, j).nextDelay < c.maxWait
    decreases |results|
  {
    if |results| > 0 && !results[0] && Next(c, false).Retry? {
      var c' := Shift(c);
      NoOverrunBeforeTimeout(c', results[1..]);
      var tail := Run(c', results[1..]);
      assert Run(c, results) == Session(tail.circuit, tail.attempts + 1, [c.nextDelay] + tail.sleeps, tail.status);
      if tail.status.TimedOut? {
        TimeoutOverruns(c', results[1..]);
        assert After(c, 1) == c';
        forall j | 1 <= j < tail.attempts + 1
          ensures After(c, j).nextDelay < c.maxWait
        {
          AfterShift(c, j - 1);
        }
      }
    }
  }

  /** A session that did not time out never met an overrun: under a positive budget,
      every failure it went through computed a delay below `maxWait`. */
  lemma {:induction false} NoOverrunBeforeEnd(c: Circuit, results: seq<bool>)
    ensures var r := Run(c, results);
      !r.status.TimedOut? && c.maxWait > 0 ==>
        forall j :: 1 <= j <= (if r.status.Succeeded? then r.attempts - 1 else r.attempts) ==>
          After(c, j).nextDelay < c.maxWait
    decreases |results|
  {
    if |results| > 0 && !results[0] && Next(c, false).Retry? {
      var c' := Shift(c);
      NoOverrunBeforeEnd(c', results[1..]);
      var tail := Run(c', results[1..]);
      forall j | 1 <= j <= (if tail.status.Succeeded? then tail.attempts - 1 else tail.attempts) + 1
        ensures !tail.status.TimedOut? && c.maxWait > 0 ==> After(c, j).nextDelay < c.maxWait
      {
        AfterShift(c, j - 1);
      }
    }
  }

  /** A callable that never resolves true. */
  function Failures(n: nat): (r: seq<bool>)
    ensures |r| == n && forall i :: 0 <= i < n ==> !r[i]
  {
    seq(n, _ => false)
  }

  /** The circuit's delays grow by at least one second per failure. */
  predicate Growing(c: Circuit)
  {
    && 1 <= c.nextDelay
    && (c.strategy == Fibonacci ==> 1 <= c.prevDelay)
    && (c.strategy == Exponential ==> c.nextDelay < TwoTo30)
  }

  lemma {:induction false} FailingRunTimesOut(c: Circuit, n: nat)
    requires Growing(c) && c.maxWait > 0
    requires c.strategy == Exponential ==> c.maxWait <= TwoTo30
    requires n >= 1 && n >= c.maxWait - c.nextDelay
    ensures Run(c, Failures(n)).status.TimedOut?
    decreases n
  {
    var c' := Shift(c);
    if c.strategy == Exponential {
      ShiftLeftOneDoubles(c.nextDelay);
    }
    assert c'.nextDelay >= c.nextDelay + 1;
    if c'.nextDelay < c.maxWait {
      assert Failures(n)[1..] == Failures(n - 1);
      FailingRunTimesOut(c', n - 1);
    }
  }

  /** With a positive budget (at most 2^30 seconds for EXPONENTIAL), a callable that
      always fails times out within `maxWait` attempts. */
  lemma AlwaysFailingTimesOut(s: Strategy, maxWait: int)
    requires maxWait > 0
    requires s == Exponential ==> maxWait <= TwoTo30
    ensures Run(NewCircuit(s, maxWait), Failures(maxWait)).status.TimedOut?
  {
    FailingRunTimesOut(NewCircuit(s, maxWait), maxWait);
  }

  /** Without a budget, a callable that keeps failing keeps the circuit running, and the
      sleeps between its calls are the strategy's documented sequence. */
  lemma UnboundedFailingSleeps(s: Strategy, maxWait: int, n: nat)
    requires maxWait <= 0
    requires s == Exponential ==> n <= 31
    ensures Run(NewCircuit(s, maxWait), Failures(n)).status.Running?
    ensures |Run(NewCircuit(s, maxWait), Failures(n)).sleeps| == n
    ensures forall i :: 0 <= i < n ==> Run(NewCircuit(s, maxWait), Failures(n)).sleeps[i] == DocumentedDelay(s, i)
  {
    NoTimeoutWhenUnbounded(NewCircuit(s, maxWait), Failures(n));
    SleepsFollowStrategy(s, maxWait, Failures(n));
  }

  /** The first sleeps of an unbounded LINEAR session: 1, 2, 3, 4, 5. */
  lemma LinearSequence()
    ensures Run(NewCircuit(Linear, 0), Failures(5)).sleeps == [1, 2, 3, 4, 5]
  {
    UnboundedFailingSleeps(Linear, 0, 5);
  }

  /** The first sleeps of an unbounded FIBONACCI session: 1, 2, 3, 5, 8. */
  lemma FibonacciSequence()
    ensures Run(NewCircuit(Fibonacci, 0), Failures(5)).sleeps == [1, 2, 3, 5, 8]
  {
    UnboundedFailingSleeps(Fibonacci, 0, 5);
    assert Fib(6) == 8;
  }

  /** The first sleeps of an unbounded EXPONENTIAL session: 1, 2, 4, 8, 16. */
  lemma ExponentialSequence()
    ensures Run(NewCircuit(Exponential, -1), Failures(5)).sleeps == [1, 2, 4, 8, 16]
  {
    UnboundedFailingSleeps(Exponential, -1, 5);
    assert Pow2(4) == 16;
  }
}
