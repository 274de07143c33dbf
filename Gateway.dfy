/**
 * The remote command gateway `run_cli` (internxt_backup.py:183-245): one
 * external command, tried up to a bounded number of times with a geometric
 * pause between attempts.
 *
 * The process call, JSON parsing and the sleeping itself are not
 * modelled: each attempt's observable outcome (what its stdout parses to
 * and its return code) is an input, and every pause is appended to a list
 * of delays instead of being slept. The pauses `time.sleep` refuses are
 * modelled, as the exceptions they raise.
 */
module Gateway {
  import opened Wrappers
  import opened Text

  /** What `json.loads(result.stdout)` yields; `P` stands for the parsed object. */
  datatype Stdout<P> =
    | Unparseable
    | NonObject
      /** `successIsTrue` is `out.get("success") is True`; `message` is `out.get("message")` when it is a string. */
    | Object(successIsTrue: bool, message: Option<string>, payload: P)

  datatype Attempt<P> = Attempt(stdout: Stdout<P>, returncode: int)

  /** Exceptions the loop body can raise instead of returning. */
  datatype Exception =
    | AssertionFailed  // `assert(result.returncode != 0)` for non-object output
    | NotIterable      // `stop_on_message in msg` with no message
    | NegativeSleep    // `time.sleep` of a negative pause its clock can hold (ValueError)
    | SleepOverflow    // `time.sleep` of a pause its clock cannot hold (OverflowError)

  /** How one attempt ends the loop body. */
  datatype Verdict<P> = Succeeded(payload: P) | StoppedOnMessage | Retryable | Crashed(e: Exception)

  /** `(out, num_retries, stopped_on_message)` */
  datatype CliResult<P> = CliResult(out: Option<P>, numRetries: nat, stoppedOnMessage: bool)

  /**
   * How a call ends: a returned triple, falling off the loop without a
   * `return` (no attempt at all: Python returns a bare `None`), or an
   * exception.
   */
  datatype Return<P> = Returned(result: CliResult<P>) | FellThrough | Raised(e: Exception)

  /** The checks of one attempt, in the order the loop body makes them. */
  function Classify<P>(a: Attempt<P>, stop: Option<string>): (v: Verdict<P>)
    ensures v.Succeeded? <==> a.stdout.Object? && a.stdout.successIsTrue && a.returncode == 0
    ensures v.Succeeded? ==> v.payload == a.stdout.payload
    ensures v.StoppedOnMessage? <==>
      a.stdout.Object? && !a.stdout.successIsTrue && stop.Some? && a.stdout.message.Some?
      && Contains(a.stdout.message.value, stop.value)
    ensures v.Crashed? <==>
      (a.stdout.NonObject? && a.returncode == 0)
      || (a.stdout.Object? && !a.stdout.successIsTrue && stop.Some? && a.stdout.message.None?)
  {
    match a.stdout
    case Unparseable => Retryable
    case NonObject => if a.returncode != 0 then Retryable else Crashed(AssertionFailed)
    case Object(ok, msg, p) =>
      if !ok then
        if stop.Some? && msg.None? then Crashed(NotIterable)
        else if stop.Some? && Contains(msg.value, stop.value) then StoppedOnMessage
        else Retryable
      else if a.returncode != 0 then Retryable
      else Succeeded(p)
  }

  /** `base ** k` */
  function Pow(base: int, k: nat): int {
    if k == 0 then 1 else base * Pow(base, k - 1)
  }

  /**
   * The longest pause `time.sleep` takes, in whole seconds: it converts the
   * pause to nanoseconds in a signed 64-bit integer, so a pause beyond
   * `MaxSleep` either way overflows that conversion.
   */
  const MaxSleep := 9223372036

  /** `time.sleep(p)` sleeps rather than raising. */
  predicate SleepAccepts(p: int) {
    0 <= p <= MaxSleep
  }

  /**
   * The exception `time.sleep(p)` raises for a pause it does not accept:
   * the conversion to nanoseconds overflows first, and only a pause that
   * converts is then refused for being negative.
   */
  function SleepError(p: int): Exception {
    if -MaxSleep <= p < 0 then NegativeSleep else SleepOverflow
  }

  /** The pauses slept after attempts `lo` .. `hi - 1`: `base ** lo`, ..., `base ** (hi - 1)`. */
  function Backoff(base: int, lo: nat, hi: nat): (d: seq<int>)
    requires lo <= hi
    ensures |d| == hi - lo
    ensures forall i :: 0 <= i < |d| ==> d[i] == Pow(base, lo + i)
    decreases hi - lo
  {
    if lo == hi then [] else [Pow(base, lo)] + Backoff(base, lo + 1, hi)
  }

  /** How the call ends once attempt `n` (1-based) has been made. */
  function Conclude<P>(v: Verdict<P>, n: nat): Return<P>
    requires n >= 1
  {
    match v
    case Succeeded(p) => Returned(CliResult(Some(p), n - 1, false))
    case StoppedOnMessage => Returned(CliResult(None, n - 1, true))
    case Retryable => Returned(CliResult(None, n - 1, false))
    case Crashed(e) => Raised(e)
  }

  /**
   * The loop from attempt `attempt` on: the result of the call and the
   * pauses slept on the way.
   */
  function AttemptsFrom<P>(outcomes: seq<Attempt<P>>, max: int, stop: Option<string>, base: int, attempt: nat)
    : (Return<P>, seq<int>)
    requires 1 <= attempt <= max <= |outcomes|
    decreases max - attempt
  {
    var v := Classify(outcomes[attempt - 1], stop);
    if v.Retryable? && attempt < max then
      if !SleepAccepts(Pow(base, attempt)) then (Raised(SleepError(Pow(base, attempt))), [])
      else
        var (r, d) := AttemptsFrom(outcomes, max, stop, base, attempt + 1);
        (r, [Pow(base, attempt)] + d)
    else
      (Conclude(v, attempt), [])
  }

  /**
   * `run_cli` with at most `max` attempts (`cur_max_num_retries`), whose
   * outcomes are `outcomes[0]`, `outcomes[1]`, ... in turn.
   */
  function Gateway<P>(outcomes: seq<Attempt<P>>, max: int, stop: Option<string>, base: int): (Return<P>, seq<int>)
    requires max <= |outcomes|
  {
    if max < 1 then (FellThrough, []) else AttemptsFrom(outcomes, max, stop, base, 1)
  }

  /** `base ** k` is never negative for a non-negative base. */
  lemma {:induction false} PowNonNegative(base: int, k: nat)
    requires base >= 0
    ensures Pow(base, k) >= 0
  {
    if k > 0 {
      PowNonNegative(base, k - 1);
    }
  }

  /**
   * The attempt that ends the loop when it starts at `attempt`: the first
   * one that does not ask for a retry, the last allowed one, or the first
   * one whose pause `time.sleep` would refuse.
   */
  function FinalAttempt<P>(outcomes: seq<Attempt<P>>, max: int, stop: Option<string>, base: int, attempt: nat)
    : (n: nat)
    requires 1 <= attempt <= max <= |outcomes|
    ensures attempt <= n <= max
    decreases max - attempt
  {
    if Classify(outcomes[attempt - 1], stop).Retryable? && attempt < max && SleepAccepts(Pow(base, attempt))
    then FinalAttempt(outcomes, max, stop, base, attempt + 1)
    else attempt
  }

  /**
   * Every attempt before the last one asked for a retry and slept a pause
   * `time.sleep` accepts.
   */
  lemma {:induction false} RetriedBefore<P>(
    outcomes: seq<Attempt<P>>, max: int, stop: Option<string>, base: int, attempt: nat, j: int)
    requires 1 <= attempt <= max <= |outcomes|
    requires attempt - 1 <= j < FinalAttempt(outcomes, max, stop, base, attempt) - 1
    ensures Classify(outcomes[j], stop).Retryable? && SleepAccepts(Pow(base, j + 1))
    decreases max - attempt
  {
    if j >= attempt {
      RetriedBefore(outcomes, max, stop, base, attempt + 1, j);
    }
  }

  /**
   * A last attempt that asks for a retry without being the last allowed one
   * met a pause `time.sleep` refuses.
   */
  lemma {:induction false} StopsOnRefusedPause<P>(
    outcomes: seq<Attempt<P>>, max: int, stop: Option<string>, base: int, attempt: nat)
    requires 1 <= attempt <= max <= |outcomes|
    ensures var n := FinalAttempt(outcomes, max, stop, base, attempt);
      n < max && Classify(outcomes[n - 1], stop).Retryable? ==> !SleepAccepts(Pow(base, n))
    decreases max - attempt
  {
    if Classify(outcomes[attempt - 1], stop).Retryable? && attempt < max && SleepAccepts(Pow(base, attempt)) {
      StopsOnRefusedPause(outcomes, max, stop, base, attempt + 1);
    }
  }

  /**
   * How the call ends after attempt `n`: as that attempt says, or with the
   * exception of `time.sleep` when it asks for a retry that is not its last
   * one (its pause is then refused).
   */
  function Ending<P>(outcomes: seq<Attempt<P>>, max: int, stop: Option<string>, base: int, n: nat): Return<P>
    requires 1 <= n <= max <= |outcomes|
  {
    var v := Classify(outcomes[n - 1], stop);
    if v.Retryable? && n < max then Raised(SleepError(Pow(base, n))) else Conclude(v, n)
  }

  /**
   * The loop makes attempts up to the first one that does not ask for a
   * retry (or up to the last allowed one), sleeps `base ** k` after each
   * attempt `k` but that last one, and ends as that attempt says; a pause
   * `time.sleep` refuses ends it with that exception instead.
   */
  lemma {:induction false} AttemptsFromCharacterised<P>(
    outcomes: seq<Attempt<P>>, max: int, stop: Option<string>, base: int, attempt: nat)
    requires 1 <= attempt <= max <= |outcomes|
    ensures var n := FinalAttempt(outcomes, max, stop, base, attempt);
      AttemptsFrom(outcomes, max, stop, base, attempt)
        == (Ending(outcomes, max, stop, base, n), Backoff(base, attempt, n))
    decreases max - attempt
  {
    if Classify(outcomes[attempt - 1], stop).Retryable? && attempt < max && SleepAccepts(Pow(base, attempt)) {
      AttemptsFromCharacterised(outcomes, max, stop, base, attempt + 1);
    }
  }

  /**
   * Retry bound: at most `max` attempts; the reported retry count is the
   * number of attempts made minus one, hence below `max`; exactly that many
   * pauses are slept, `base ** 1`, ..., `base ** numRetries`, each of them
   * one `time.sleep` accepts.
   */
  lemma RetryBound<P>(outcomes: seq<Attempt<P>>, max: int, stop: Option<string>, base: int)
    requires max <= |outcomes|
    ensures var (r, delays) := Gateway(outcomes, max, stop, base);
      && (r.FellThrough? <==> max < 1)
      && (r.Returned? ==> r.result.numRetries < max && |delays| == r.result.numRetries)
      && (max >= 1 ==> |delays| < max)
      && (max < 1 ==> delays == [])
      && forall i :: 0 <= i < |delays| ==> delays[i] == Pow(base, i + 1) && 0 <= delays[i] <= MaxSleep
  {
    if max >= 1 {
      AttemptsFromCharacterised(outcomes, max, stop, base, 1);
      var delays := Backoff(base, 1, FinalAttempt(outcomes, max, stop, base, 1));
      forall i | 0 <= i < |delays|
        ensures 0 <= delays[i] <= MaxSleep
      {
        RetriedBefore(outcomes, max, stop, base, 1, i);
      }
    }
  }

  /**
   * A negative retry base: the first retry sleeps `base ** 1 < 0`, and
   * `time.sleep` raises before any pause is slept: `ValueError` when the
   * pause converts to nanoseconds, `OverflowError` when it is below
   * `-MaxSleep`. With a non-negative base `ValueError` never occurs.
   */
  lemma NegativePause<P>(outcomes: seq<Attempt<P>>, max: int, stop: Option<string>, base: int)
    requires max <= |outcomes|
    ensures var (r, delays) := Gateway(outcomes, max, stop, base);
      && (r == Raised(NegativeSleep) <==>
            -MaxSleep <= base < 0 && max >= 2 && Classify(outcomes[0], stop).Retryable?)
      && (base < -MaxSleep && max >= 2 && Classify(outcomes[0], stop).Retryable? ==>
            r == Raised(SleepOverflow))
      && (base < 0 ==> delays == [])
  {
    if max >= 1 {
      AttemptsFromCharacterised(outcomes, max, stop, base, 1);
      StopsOnRefusedPause(outcomes, max, stop, base, 1);
      var n := FinalAttempt(outcomes, max, stop, base, 1);
      if base >= 0 {
        PowNonNegative(base, n);
      } else {
        assert Pow(base, 1) == base;
      }
    }
  }

  /**
   * A result is returned only for an attempt whose output parsed to an
   * object with `success` True and whose return code was 0; that object is
   * what is returned.
   */
  lemma SuccessOnlyFromCleanAttempt<P>(outcomes: seq<Attempt<P>>, max: int, stop: Option<string>, base: int)
    requires max <= |outcomes|
    ensures var (r, _) := Gateway(outcomes, max, stop, base);
      r.Returned? && r.result.out.Some? ==>
        r.result.numRetries < max &&
        var a := outcomes[r.result.numRetries];
        && a.stdout.Object? && a.stdout.successIsTrue && a.returncode == 0
        && r.result.out.value == a.stdout.payload
        && !r.result.stoppedOnMessage
  {
    if max >= 1 {
      AttemptsFromCharacterised(outcomes, max, stop, base, 1);
    }
  }

  /**
   * The third component is True only when the failure message of the last
   * attempt made contains `stop`; every other return has it False.
   */
  lemma StoppedOnlyOnMessage<P>(outcomes: seq<Attempt<P>>, max: int, stop: Option<string>, base: int)
    requires max <= |outcomes|
    ensures var (r, _) := Gateway(outcomes, max, stop, base);
      r.Returned? && r.result.stoppedOnMessage ==>
        r.result.numRetries < max &&
        var a := outcomes[r.result.numRetries];
        && r.result.out.None?
        && a.stdout.Object? && !a.stdout.successIsTrue
        && stop.Some? && a.stdout.message.Some? && Contains(a.stdout.message.value, stop.value)
  {
    if max >= 1 {
      AttemptsFromCharacterised(outcomes, max, stop, base, 1);
    }
  }

  /**
   * Short circuit: when attempts 1..k failed in a retryable way and attempt
   * k + 1 fails with a message containing `stop`, the call returns
   * `(None, k, True)` at once and sleeps only the k pauses before it, when
   * `time.sleep` accepts those pauses.
   */
  lemma StopShortCircuits<P>(outcomes: seq<Attempt<P>>, max: int, stop: Option<string>, base: int, k: nat)
    requires k < max <= |outcomes|
    requires forall j :: 0 <= j < k ==> Classify(outcomes[j], stop).Retryable?
    requires forall j :: 1 <= j <= k ==> SleepAccepts(Pow(base, j))
    requires Classify(outcomes[k], stop).StoppedOnMessage?
    ensures Gateway(outcomes, max, stop, base) == (Returned(CliResult(None, k, true)), Backoff(base, 1, k + 1))
  {
    AttemptsFromCharacterised(outcomes, max, stop, base, 1);
    StopsOnRefusedPause(outcomes, max, stop, base, 1);
    var n := FinalAttempt(outcomes, max, stop, base, 1);
    if n - 1 < k {
      assert false;
    } else if n - 1 > k {
      RetriedBefore(outcomes, max, stop, base, 1, k);
    }
    assert n == k + 1;
  }

  /**
   * A call whose every attempt fails in a retryable way makes all `max`
   * attempts, returns `(None, max - 1, False)` and sleeps exactly `max - 1`
   * times, `base ** 1`, ..., `base ** (max - 1)`, when `time.sleep` accepts
   * those pauses.
   */
  lemma PersistentFailure<P>(outcomes: seq<Attempt<P>>, max: int, stop: Option<string>, base: int)
    requires 1 <= max <= |outcomes|
    requires forall j :: 0 <= j < max ==> Classify(outcomes[j], stop).Retryable?
    requires forall j :: 1 <= j < max ==> SleepAccepts(Pow(base, j))
    ensures Gateway(outcomes, max, stop, base) == (Returned(CliResult(None, max - 1, false)), Backoff(base, 1, max))
  {
    AttemptsFromCharacterised(outcomes, max, stop, base, 1);
    StopsOnRefusedPause(outcomes, max, stop, base, 1);
    var n := FinalAttempt(outcomes, max, stop, base, 1);
    if n < max {
      assert false;
    }
    assert n == max;
  }

  /** Three attempts with base 2 that all fail: pauses of 2 and then 4 seconds. */
  lemma ThreeFailuresBaseTwo(outcomes: seq<Attempt<int>>)
    requires |outcomes| == 3
    requires forall j :: 0 <= j < 3 ==> outcomes[j].stdout.Unparseable?
    ensures Gateway(outcomes, 3, None, 2) == (Returned(CliResult(None, 2, false)), [2, 4])
  {
    assert Pow(2, 1) == 2 && Pow(2, 2) == 4;
    PersistentFailure(outcomes, 3, None, 2);
    assert Backoff(2, 1, 3) == [2, 4];
  }

  /**
   * A retry base of 100000 with three attempts that all fail: the first
   * pause is slept, and the second, 10^10 seconds, makes `time.sleep` raise.
   */
  lemma HugeBaseOverflows(outcomes: seq<Attempt<int>>)
    requires |outcomes| == 3
    requires forall j :: 0 <= j < 3 ==> outcomes[j].stdout.Unparseable?
    ensures Gateway(outcomes, 3, None, 100000) == (Raised(SleepOverflow), [100000])
  {
    assert Pow(100000, 1) == 100000 && Pow(100000, 2) == 10000000000;
    AttemptsFromCharacterised(outcomes, 3, None, 100000, 1);
    assert FinalAttempt(outcomes, 3, None, 100000, 2) == 2;
    assert Backoff(100000, 1, 2) == [100000];
  }

  /**
   * A retry base of -10^10 with two attempts, the first of which fails: its
   * pause overflows the conversion to nanoseconds before it could be found
   * negative, so `time.sleep` raises `OverflowError` and nothing is slept.
   */
  lemma HugeNegativeBaseOverflows(outcomes: seq<Attempt<int>>)
    requires |outcomes| == 2 && outcomes[0].stdout.Unparseable?
    ensures Gateway(outcomes, 2, None, -10000000000) == (Raised(SleepOverflow), [])
  {
    assert Pow(-10000000000, 1) == -10000000000;
  }

  /**
   * The attempt loop of `run_cli`. A pause `base ** attempt` is recorded
   * only when another attempt follows; one `time.sleep` refuses raises instead.
   */
  method RunCli<P>(outcomes: seq<Attempt<P>>, max: int, stop: Option<string>, base: int)
    returns (r: Return<P>, delays: seq<int>)
    requires max <= |outcomes|
    ensures (r, delays) == Gateway(outcomes, max, stop, base)
  {
    delays := [];
    var attempt: nat := 1;
    assert max >= 1 ==> [] + AttemptsFrom(outcomes, max, stop, base, 1).1 == AttemptsFrom(outcomes, max, stop, base, 1).1;
    while attempt <= max
      invariant 1 <= attempt
      invariant max >= 1 ==> attempt <= max
      invariant max < 1 ==> delays == []
      invariant attempt <= max ==>
        && Gateway(outcomes, max, stop, base).0 == AttemptsFrom(outcomes, max, stop, base, attempt).0
        && Gateway(outcomes, max, stop, base).1 == delays + AttemptsFrom(outcomes, max, stop, base, attempt).1
      decreases max - attempt
    {
      var v := Examine(outcomes[attempt - 1], stop);
      AttemptStep(outcomes, max, stop, base, attempt, delays);
      if !v.Retryable? {
        return Conclude(v, attempt), delays;
      } else if attempt < max {
        var pause := Pow(base, attempt);
        if !SleepAccepts(pause) {
          return Raised(SleepError(pause)), delays;
        }
        delays := delays + [pause];
        attempt := attempt + 1;
      } else {
        return Returned(CliResult(None, attempt - 1, false)), delays;
      }
    }
    r := FellThrough;
  }

  /** One turn of the attempt loop, stated against the whole call. */
  lemma AttemptStep<P>(outcomes: seq<Attempt<P>>, max: int, stop: Option<string>, base: int, attempt: nat, delays: seq<int>)
    requires 1 <= attempt <= max <= |outcomes|
    requires Gateway(outcomes, max, stop, base).0 == AttemptsFrom(outcomes, max, stop, base, attempt).0
    requires Gateway(outcomes, max, stop, base).1 == delays + AttemptsFrom(outcomes, max, stop, base, attempt).1
    ensures var v := Classify(outcomes[attempt - 1], stop);
      && (!v.Retryable? ==> Gateway(outcomes, max, stop, base) == (Conclude(v, attempt), delays))
      && (v.Retryable? && attempt == max ==>
            Gateway(outcomes, max, stop, base) == (Returned(CliResult(None, attempt - 1, false)), delays))
      && (v.Retryable? && attempt < max && !SleepAccepts(Pow(base, attempt)) ==>
            Gateway(outcomes, max, stop, base) == (Raised(SleepError(Pow(base, attempt))), delays))
      && (v.Retryable? && attempt < max && SleepAccepts(Pow(base, attempt)) ==>
            && Gateway(outcomes, max, stop, base).0 == AttemptsFrom(outcomes, max, stop, base, attempt + 1).0
            && Gateway(outcomes, max, stop, base).1
               == delays + [Pow(base, attempt)] + AttemptsFrom(outcomes, max, stop, base, attempt + 1).1)
  {
    var v := Classify(outcomes[attempt - 1], stop);
    if v.Retryable? && attempt < max && SleepAccepts(Pow(base, attempt)) {
      assert delays + [Pow(base, attempt)] + AttemptsFrom(outcomes, max, stop, base, attempt + 1).1
        == delays + ([Pow(base, attempt)] + AttemptsFrom(outcomes, max, stop, base, attempt + 1).1);
    } else {
      assert delays + [] == delays;
    }
  }

  /** The checks the loop body of `run_cli` makes on one attempt, in its order. */
  method Examine<P>(result: Attempt<P>, stop: Option<string>) returns (v: Verdict<P>)
    ensures v == Classify(result, stop)
  {
    match result.stdout {
      case Unparseable =>
        v := Retryable;
      case NonObject =>
        if result.returncode == 0 {
          return Crashed(AssertionFailed);
        }
        v := Retryable;
      case Object(success, msg, payload) =>
        if !success {
          if stop.Some? {
            if msg.None? {
              return Crashed(NotIterable);
            }
            if Contains(msg.value, stop.value) {
              return StoppedOnMessage;
            }
          }
          v := Retryable;
        } else if result.returncode != 0 {
          v := Retryable;
        } else {
          v := Succeeded(payload);
        }
    }
  }
}
