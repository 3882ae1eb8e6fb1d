/** doJSONRequest and backoffDelay (internal/gateway/transport.go), and what errors mean to the fallback
    chain (classifyError in internal/gateway/fallback.go). Network, clock and random draws are given. */
module Retry {
  import opened Text

  /** Durations in nanoseconds. */
  datatype Policy = Policy(maxAttempts: int, baseDelay: nat, maxDelay: nat)

  const DEFAULT_POLICY := Policy(3, 200_000_000, 5_000_000_000)

  /** A policy without attempts is replaced by the default one. */
  function Effective(p: Policy): (q: Policy)
    ensures q.maxAttempts >= 1
  {
    if p.maxAttempts <= 0 then DEFAULT_POLICY else p
  }

  /** `deadline` says whether the error is or wraps context.DeadlineExceeded. */
  datatype Error =
    | Plain(deadline: bool)
    | Provider(status: int)
    | InvalidModel
    | UnknownProvider
    | Exhausted(primary: string, cause: Error)

  datatype Trigger = RateLimit | AnyError | Timeout

  /** classifyError; wrapping does not hide the cause. */
  function Classify(e: Error): Trigger {
    match e
    case Plain(deadline) => if deadline then Timeout else AnyError
    case Provider(status) => if status == 429 then RateLimit else if status == 504 || status == 408 then Timeout else AnyError
    case Exhausted(_, cause) => Classify(cause)
    case _ => AnyError
  }

  /** What one HTTP attempt comes to. */
  datatype Attempt = Broken(deadline: bool) | Answered(status: int, body: string)

  predicate Success(a: Attempt) {
    a.Answered? && 200 <= a.status < 300
  }

  /** Network and read errors, 429 and 5xx are tried again. */
  predicate Transient(a: Attempt) {
    a.Broken? || a.status == 429 || a.status >= 500
  }

  function ErrorOf(a: Attempt): Error {
    match a
    case Broken(deadline) => Plain(deadline)
    case Answered(status, _) => Provider(status)
  }

  datatype Outcome<T> = Ok(value: T) | Err(error: Error)

  // ---------- back-off ----------

  function Pow2(n: nat): (r: nat)
    ensures r >= 1
  {
    if n == 0 then 1 else 2 * Pow2(n - 1)
  }

  /** Exponential growth under the cap. */
  function Ceiling(p: Policy, attempt: nat): nat
    requires attempt >= 1
  {
    var exp := p.baseDelay * Pow2(attempt - 1);
    if exp > p.maxDelay then p.maxDelay else exp
  }

  lemma Reduced(draw: nat, exp: nat)
    ensures draw % (exp + 1) <= exp
    ensures draw <= exp ==> draw % (exp + 1) == draw
  {
  }

  /** Full jitter: a random draw reduced to the range up to and including the ceiling. Every delay in the
      range is possible and none outside it. */
  function BackoffDelay(p: Policy, attempt: nat, draw: nat): (delay: nat)
    requires attempt >= 1
    ensures delay <= p.maxDelay && delay <= p.baseDelay * Pow2(attempt - 1)
    ensures draw <= p.maxDelay && draw <= p.baseDelay * Pow2(attempt - 1) ==> delay == draw
  {
    Reduced(draw, Ceiling(p, attempt));
    draw % (Ceiling(p, attempt) + 1)
  }

  // ---------- the loop ----------

  /** `malformed` says that no request can be made of the URL; `cancelled` is the context's error when it
      ends during the wait before an attempt, `draw` the random number that wait is made from. */
  datatype World = World(
    malformed: bool, cancelled: nat -> Option<Error>, reply: nat -> Attempt, draw: nat -> nat)

  /** The requests made and the delays armed; a wait that the context cuts short counts in full. */
  datatype Ran = Ran(outcome: Outcome<string>, requests: nat, slept: nat)

  /** The wait before attempt k. */
  function Delay(p: Policy, w: World, k: nat): nat {
    if k == 0 then 0 else BackoffDelay(p, k, w.draw(k))
  }

  /** The loop from attempt k on. */
  function RunFrom(p: Policy, w: World, max: nat, k: nat): Ran
    requires k < max
    decreases max - k
  {
    var wait := Delay(p, w, k);
    if k > 0 && w.cancelled(k).Some? then Ran(Err(w.cancelled(k).value), 0, wait)
    else if w.malformed then Ran(Err(Plain(false)), 0, wait)
    else
      var a := w.reply(k);
      if Success(a) then Ran(Ok(a.body), 1, wait)
      else if !Transient(a) || k + 1 == max then Ran(Err(ErrorOf(a)), 1, wait)
      else
        var rest := RunFrom(p, w, max, k + 1);
        Ran(rest.outcome, rest.requests + 1, wait + rest.slept)
  }

  function Run(p: Policy, w: World): Ran {
    RunFrom(Effective(p), w, Effective(p).maxAttempts, 0)
  }

  method DoJsonRequest(policy: Policy, w: World) returns (outcome: Outcome<string>, requests: nat, slept: nat)
    ensures Ran(outcome, requests, slept) == Run(policy, w)
  {
    var p := policy;
    if p.maxAttempts <= 0 {
      p := DEFAULT_POLICY;
    }
    var lastErr: Option<Error> := None;
    requests, slept := 0, 0;
    var attempt := 0;
    while attempt < p.maxAttempts
      invariant 0 <= attempt <= p.maxAttempts && requests == attempt && p == Effective(policy)
      invariant attempt > 0 ==> lastErr.Some?
      invariant attempt < p.maxAttempts ==>
                  var r := RunFrom(p, w, p.maxAttempts, attempt);
                  Run(policy, w) == Ran(r.outcome, r.requests + requests, r.slept + slept)
      invariant attempt == p.maxAttempts ==> Run(policy, w) == Ran(Err(lastErr.value), requests, slept)
    {
      if attempt > 0 {
        var delay := BackoffDelay(p, attempt, w.draw(attempt));
        slept := slept + delay;
        if w.cancelled(attempt).Some? {
          return Err(w.cancelled(attempt).value), requests, slept;
        }
      }
      if w.malformed {
        return Err(Plain(false)), requests, slept;
      }
      var a := w.reply(attempt);
      requests := requests + 1;
      if a.Answered? && a.status >= 200 && a.status < 300 {
        return Ok(a.body), requests, slept;
      }
      if !Transient(a) {
        return Err(Provider(a.status)), requests, slept;
      }
      lastErr := Some(ErrorOf(a));
      attempt := attempt + 1;
    }
    outcome := Err(lastErr.value);
  }

  /** The attempts made are all transient failures but the last, there are at most MaxAttempts of them, and
      the loop ends early only on success, on a terminal status or on the end of the context. */
  lemma {:induction false} RunShape(p: Policy, w: World, max: nat, k: nat)
    requires k < max && !w.malformed
    ensures var r := RunFrom(p, w, max, k);
            && k + r.requests <= max
            && (forall i :: k <= i < k + r.requests - 1 ==> Transient(w.reply(i)) && !Success(w.reply(i)))
            && (forall i :: k < i < k + r.requests ==> w.cancelled(i).None?)
            && (r.outcome.Ok? <==> r.requests > 0 && Success(w.reply(k + r.requests - 1)))
            && (r.outcome.Ok? ==> r.outcome.value == w.reply(k + r.requests - 1).body)
    ensures var r := RunFrom(p, w, max, k);
            r.outcome.Err? && k + r.requests < max ==>
              || (k + r.requests > 0 && w.cancelled(k + r.requests) == Some(r.outcome.error))
              || (r.requests > 0 && !Transient(w.reply(k + r.requests - 1)))
    decreases max - k
  {
    if !(k > 0 && w.cancelled(k).Some?) && !Success(w.reply(k)) && Transient(w.reply(k)) && k + 1 < max {
      RunShape(p, w, max, k + 1);
    }
  }

  /** Unless the context ends first, a failure has the class of the last HTTP attempt. */
  lemma {:induction false} FailureIsOfLastAttempt(p: Policy, w: World, max: nat, k: nat)
    requires k < max && !w.malformed && RunFrom(p, w, max, k).outcome.Err?
    requires forall i: nat :: k <= i < max ==> w.cancelled(i).None?
    ensures var r := RunFrom(p, w, max, k);
            r.requests > 0 && r.outcome.error == ErrorOf(w.reply(k + r.requests - 1))
    decreases max - k
  {
    if Transient(w.reply(k)) && k + 1 < max { FailureIsOfLastAttempt(p, w, max, k + 1); }
  }

  lemma {:induction false} RequestBound(p: Policy, w: World, max: nat, k: nat)
    requires k < max
    ensures k + RunFrom(p, w, max, k).requests <= max
    decreases max - k
  {
    if k + 1 < max { RequestBound(p, w, max, k + 1); }
  }

  /** What the loop makes of the attempts, with the statuses spelled out: it goes on after network errors,
      429 and 5xx, and returns the body of a 2xx or the last attempt's error. */
  lemma AttemptsMade(p: Policy, w: World, max: nat)
    requires max > 0 && !w.malformed
    ensures var r := RunFrom(p, w, max, 0);
            && 1 <= r.requests <= max
            && (forall i :: 0 <= i < r.requests - 1 ==>
                  match w.reply(i) case Broken(_) => true case Answered(status, _) => status == 429 || status >= 500)
            && (forall i :: 0 < i < r.requests ==> w.cancelled(i).None?)
    ensures var r := RunFrom(p, w, max, 0);
            match w.reply(r.requests - 1)
            case Answered(status, body) =>
              if 200 <= status < 300 then r.outcome == Ok(body)
              else if status != 429 && status < 500 then r.outcome == Err(Provider(status))
              else if r.requests == max then r.outcome == Err(Provider(status))
              else r.outcome.Err? && w.cancelled(r.requests) == Some(r.outcome.error)
            case Broken(deadline) =>
              if r.requests == max then r.outcome == Err(Plain(deadline))
              else r.outcome.Err? && w.cancelled(r.requests) == Some(r.outcome.error)
    ensures var r := RunFrom(p, w, max, 0);
            w.cancelled(r.requests).None? ==>
              r.requests == max || match w.reply(r.requests - 1) case Broken(_) => false case Answered(s, _) => s != 429 && s < 500
  {
    RunShape(p, w, max, 0);
    LastOutcome(p, w, max, 0);
  }

  lemma {:induction false} LastOutcome(p: Policy, w: World, max: nat, k: nat)
    requires k < max && !w.malformed && (k == 0 || w.cancelled(k).None?)
    ensures var r := RunFrom(p, w, max, k);
            && r.requests > 0
            && (r.outcome.Err? ==>
                  if k + r.requests < max && Transient(w.reply(k + r.requests - 1))
                  then w.cancelled(k + r.requests) == Some(r.outcome.error)
                  else r.outcome.error == ErrorOf(w.reply(k + r.requests - 1)))
    decreases max - k
  {
    if !Success(w.reply(k)) && Transient(w.reply(k)) && k + 1 < max && w.cancelled(k + 1).None? {
      LastOutcome(p, w, max, k + 1);
    }
  }

  /** A policy with attempts is used as it is, one without is replaced by three attempts with a first delay of up
      to 0.2 seconds and delays of 5 at most. */
  lemma PolicyUsed(policy: Policy, w: World)
    ensures Run(policy, w) ==
            if policy.maxAttempts >= 1 then RunFrom(policy, w, policy.maxAttempts, 0)
            else RunFrom(Policy(3, 200_000_000, 5_000_000_000), w, 3, 0)
  {
  }

  /** A policy without attempts makes at most three requests and sleeps at most 0.6 seconds. */
  lemma DefaultBounds(policy: Policy, w: World)
    requires policy.maxAttempts <= 0
    ensures Run(policy, w).requests <= 3 && Run(policy, w).slept <= 600_000_000
    ensures (forall i: nat :: i < 3 ==> w.reply(i) == Answered(503, "") && w.cancelled(i).None?) && !w.malformed ==>
              Run(policy, w).requests == 3
  {
    var p := Effective(policy);
    RequestBound(p, w, 3, 0);
    SleptBound(policy, w, p, 3);
    assert Pow2(2) == 4;
    if !w.malformed {
      AttemptsMade(p, w, 3);
    }
  }

  // ---------- the time slept ----------

  /** The longest the loop can sleep before its k-th retry. */
  function Ceilings(p: Policy, retries: nat): nat {
    if retries == 0 then 0 else Ceilings(p, retries - 1) + Ceiling(p, retries)
  }

  lemma GeometricSum(base: nat, q: nat)
    requires q >= 1
    ensures base * (q - 1) + base * q == base * (2 * q - 1)
  {
  }

  lemma OneMoreRetry(retries: int, max: nat)
    ensures retries * max == (retries - 1) * max + max
  {
  }

  /** The delays of attempts k and later stay under their ceilings. */
  lemma {:induction false} SleptUnderCeilings(p: Policy, w: World, max: nat, k: nat)
    requires 1 <= k < max
    ensures Ceilings(p, k - 1) + RunFrom(p, w, max, k).slept <= Ceilings(p, max - 1)
    decreases max - k
  {
    DelayUnderCeiling(p, w, k);
    CeilingsGrow(p, k, max - 1);
    if k + 1 < max { SleptUnderCeilings(p, w, max, k + 1); }
  }

  lemma DelayUnderCeiling(p: Policy, w: World, k: nat)
    requires k >= 1
    ensures Delay(p, w, k) <= Ceiling(p, k)
  {
  }

  lemma {:induction false} CeilingsGrow(p: Policy, m: nat, n: nat)
    requires m <= n
    ensures Ceilings(p, m) <= Ceilings(p, n)
  {
    if m < n { CeilingsGrow(p, m, n - 1); }
  }

  /** One call of doJSONRequest waits at most BaseDelay * (2^(MaxAttempts - 1) - 1), and at most MaxDelay for
      each of its MaxAttempts - 1 retries, whatever the random draws are. */
  lemma SleptBound(policy: Policy, w: World, p: Policy, max: nat)
    requires p == Effective(policy) && max == p.maxAttempts
    ensures Run(policy, w).slept <= p.baseDelay * (Pow2(max - 1) - 1)
    ensures Run(policy, w).slept <= (max - 1) * p.maxDelay
  {
    SleptFromStart(p, w, max);
    TotalSleepGrowth(p, max - 1);
    TotalSleepCap(p, max - 1);
  }

  lemma SleptFromStart(p: Policy, w: World, max: nat)
    requires max >= 1
    ensures RunFrom(p, w, max, 0).slept <= Ceilings(p, max - 1)
  {
    if max > 1 { SleptUnderCeilings(p, w, max, 1); }
  }

  /** The ceilings together stay under the geometric sum. */
  lemma {:induction false} TotalSleepGrowth(p: Policy, retries: nat)
    ensures Ceilings(p, retries) <= p.baseDelay * (Pow2(retries) - 1)
  {
    if retries > 0 {
      TotalSleepGrowth(p, retries - 1);
      GeometricSum(p.baseDelay, Pow2(retries - 1));
    }
  }

  /** And under the capped total. */
  lemma {:induction false} TotalSleepCap(p: Policy, retries: nat)
    ensures Ceilings(p, retries) <= retries * p.maxDelay
  {
    if retries > 0 {
      TotalSleepCap(p, retries - 1);
      OneMoreRetry(retries, p.maxDelay);
    }
  }
}
