/**
 The two hand-written retry loops, for embedding and for chat providers, proved against one
 specification. Calls and random draws follow a script, and seconds are reals.
 */
module Backoff {
  import opened Options

  datatype Config = Config(maxAttempts: int, base: real, cap: real, codes: set<int>)

  /** What one attempt does: it answers, signals a retriable HTTP failure, or raises anything else. */
  datatype Outcome = Answer(value: string) | Signal(status: int, retryAfter: Option<real>) | Raise(error: string)

  /** What each attempt does, should it be made, and what the random draw between 0 and a bound gives after it. */
  datatype Script = Script(outcome: nat -> Outcome, uniform: (nat, real) -> real)

  datatype Ending =
    | Returned(value: string)
    | NotRetryable(status: int)
    | Unavailable(lastStatus: Option<int>, lastRetryAfter: Option<real>, attempts: int)
    | Propagated(error: string)

  datatype Trace = Trace(calls: nat, sleeps: seq<real>, ending: Ending)

  /** The base delay doubled once per earlier attempt. */
  function Doubled(base: real, attempt: nat): real {
    if attempt == 0 then base else 2.0 * Doubled(base, attempt - 1)
  }

  function Min(a: real, b: real): real {
    if a <= b then a else b
  }

  function Max(a: real, b: real): real {
    if a >= b then a else b
  }

  /** The bound of the jitter before the given attempt is retried. */
  function JitterCap(cfg: Config, attempt: nat): real {
    Min(cfg.cap, Doubled(cfg.base, attempt))
  }

  /** A Retry-After beyond the cap is honoured as it is; otherwise it is a lower bound for the capped jitter. */
  function Delay(cfg: Config, retryAfter: Option<real>, jitter: real): real {
    var wanted := retryAfter.GetOr(0.0);
    if wanted > cfg.cap then wanted else Min(Max(jitter, wanted), cfg.cap)
  }

  // ----- what a retry loop has to do -----

  predicate Retries(cfg: Config, o: Outcome) {
    o.Signal? && o.status in cfg.codes
  }

  /** The first attempt from the given one that ends the loop by itself, within the budget. */
  function FirstFinal(cfg: Config, script: Script, attempt: nat): (k: nat)
    requires attempt <= cfg.maxAttempts
    ensures attempt <= k <= cfg.maxAttempts
    ensures forall i | attempt <= i < k :: Retries(cfg, script.outcome(i))
    ensures k < cfg.maxAttempts ==> !Retries(cfg, script.outcome(k))
    decreases cfg.maxAttempts - attempt
  {
    if attempt == cfg.maxAttempts || !Retries(cfg, script.outcome(attempt)) then attempt
    else FirstFinal(cfg, script, attempt + 1)
  }

  function DelayOf(cfg: Config, script: Script, i: nat): real
    requires script.outcome(i).Signal?
  {
    Delay(cfg, script.outcome(i).retryAfter, script.uniform(i, JitterCap(cfg, i)))
  }

  /** The sleeps after the first n attempts. */
  function Sleeps(cfg: Config, script: Script, n: nat): (s: seq<real>)
    requires forall i | 0 <= i < n :: script.outcome(i).Signal?
    ensures |s| == n && forall i | 0 <= i < n :: s[i] == DelayOf(cfg, script, i)
  {
    seq(n, i requires 0 <= i < n => DelayOf(cfg, script, i))
  }

  /**
   The attempts up to the first that does not ask for a retry, with a delay after each one
   before it; a loop that runs out of attempts does not sleep after the last.
   */
  function Expected(cfg: Config, script: Script): Trace {
    if cfg.maxAttempts <= 0 then Trace(0, [], Unavailable(None, None, cfg.maxAttempts))
    else
      var k := FirstFinal(cfg, script, 0);
      if k < cfg.maxAttempts then
        Trace(k + 1, Sleeps(cfg, script, k),
              match script.outcome(k)
              case Answer(value) => Returned(value)
              case Signal(status, _) => NotRetryable(status)
              case Raise(error) => Propagated(error))
      else
        var last := script.outcome(k - 1);
        Trace(k, Sleeps(cfg, script, k - 1), Unavailable(Some(last.status), last.retryAfter, cfg.maxAttempts))
  }

  lemma {:induction false} FirstFinalFrom(cfg: Config, script: Script, attempt: nat)
    requires attempt <= cfg.maxAttempts && forall i | 0 <= i < attempt :: Retries(cfg, script.outcome(i))
    ensures FirstFinal(cfg, script, attempt) == FirstFinal(cfg, script, 0)
  {
    var a, b := FirstFinal(cfg, script, attempt), FirstFinal(cfg, script, 0);
    assert attempt <= b;
    assert b <= a;
    assert a <= b;
  }

  // ----- the two loops -----

  /** The embedding providers' loop: everything happens where the signal is caught. */
  method RetryWithBackoff(cfg: Config, script: Script) returns (trace: Trace)
    ensures trace == Expected(cfg, script)
  {
    var lastStatus: Option<int> := None;
    var lastRetryAfter: Option<real> := None;
    var sleeps: seq<real> := [];
    var attempt: nat := 0;
    while attempt < cfg.maxAttempts
      invariant cfg.maxAttempts <= 0 ==> attempt == 0 && lastStatus == None && lastRetryAfter == None && sleeps == []
      invariant 0 < cfg.maxAttempts ==> attempt < cfg.maxAttempts
      invariant forall i | 0 <= i < attempt :: Retries(cfg, script.outcome(i))
      invariant |sleeps| == attempt && forall i | 0 <= i < attempt :: sleeps[i] == DelayOf(cfg, script, i)
    {
      FirstFinalFrom(cfg, script, attempt);
      match script.outcome(attempt) {
        case Answer(value) =>
          assert sleeps == Sleeps(cfg, script, attempt);
          return Trace(attempt + 1, sleeps, Returned(value));
        case Raise(error) =>
          assert sleeps == Sleeps(cfg, script, attempt);
          return Trace(attempt + 1, sleeps, Propagated(error));
        case Signal(status, after) =>
          if status !in cfg.codes {
            assert sleeps == Sleeps(cfg, script, attempt);
            return Trace(attempt + 1, sleeps, NotRetryable(status));
          }
          lastStatus := Some(status);
          lastRetryAfter := after;
          if attempt + 1 >= cfg.maxAttempts {
            FirstFinalFrom(cfg, script, attempt + 1);
            assert sleeps == Sleeps(cfg, script, attempt);
            return Trace(attempt + 1, sleeps, Unavailable(lastStatus, lastRetryAfter, cfg.maxAttempts));
          }
          var cap := Min(cfg.cap, Doubled(cfg.base, attempt));
          var jitter := script.uniform(attempt, cap);
          var retryAfter := after.GetOr(0.0);
          var delay;
          if retryAfter > cfg.cap {
            delay := retryAfter;
          } else {
            delay := Max(jitter, retryAfter);
            delay := Min(delay, cfg.cap);
          }
          sleeps := sleeps + [delay];
      }
      attempt := attempt + 1;
    }
    return Trace(0, sleeps, Unavailable(lastStatus, lastRetryAfter, cfg.maxAttempts));
  }

  /** The chat providers' loop: the handler only records what happened, and the loop acts on it afterwards. */
  method LlmRetryWithBackoff(cfg: Config, script: Script) returns (trace: Trace)
    ensures trace == Expected(cfg, script)
  {
    var lastStatus: Option<int> := None;
    var lastRetryAfter: Option<real> := None;
    var sleeps: seq<real> := [];
    var calls: nat := 0;
    var attempt: nat := 0;
    while attempt < cfg.maxAttempts
      invariant cfg.maxAttempts <= 0 ==> lastStatus == None && lastRetryAfter == None
      invariant calls == attempt == |sleeps|
      invariant 0 < cfg.maxAttempts ==> attempt < cfg.maxAttempts
      invariant cfg.maxAttempts <= 0 ==> attempt == 0
      invariant forall i | 0 <= i < attempt :: Retries(cfg, script.outcome(i))
      invariant forall i | 0 <= i < attempt :: sleeps[i] == DelayOf(cfg, script, i)
    {
      FirstFinalFrom(cfg, script, attempt);
      var nonRetryableStatus: Option<int> := None;
      var retryableStatus: Option<int> := None;
      var retryableRetryAfter: Option<real> := None;
      calls := calls + 1;
      match script.outcome(attempt) {
        case Answer(value) =>
          assert sleeps == Sleeps(cfg, script, attempt);
          return Trace(calls, sleeps, Returned(value));
        case Raise(error) =>
          assert sleeps == Sleeps(cfg, script, attempt);
          return Trace(calls, sleeps, Propagated(error));
        case Signal(status, after) =>
          if status !in cfg.codes {
            nonRetryableStatus := Some(status);
          } else {
            retryableStatus := Some(status);
            retryableRetryAfter := after;
          }
      }
      if nonRetryableStatus.Some? {
        assert sleeps == Sleeps(cfg, script, attempt);
        return Trace(calls, sleeps, NotRetryable(nonRetryableStatus.value));
      }
      if retryableStatus.Some? {
        lastStatus := retryableStatus;
        lastRetryAfter := retryableRetryAfter;
        if attempt + 1 >= cfg.maxAttempts {
          FirstFinalFrom(cfg, script, attempt + 1);
          assert sleeps == Sleeps(cfg, script, attempt);
          break;
        }
        var cap := Min(cfg.cap, Doubled(cfg.base, attempt));
        var jitter := script.uniform(attempt, cap);
        var retryAfter := retryableRetryAfter.GetOr(0.0);
        var delay;
        if retryAfter > cfg.cap {
          delay := retryAfter;
        } else {
          delay := Max(jitter, retryAfter);
          delay := Min(delay, cfg.cap);
        }
        sleeps := sleeps + [delay];
      }
      attempt := attempt + 1;
    }
    return Trace(calls, sleeps, Unavailable(lastStatus, lastRetryAfter, cfg.maxAttempts));
  }

  // ----- how a call ends, and how long it sleeps -----

  /** With a budget, every attempt but the last asked for a retry, and the last one decides how the call ends. */
  lemma CallEndsExactly(cfg: Config, script: Script)
    requires cfg.maxAttempts > 0
    ensures var t := Expected(cfg, script);
            && 1 <= t.calls <= cfg.maxAttempts && |t.sleeps| == t.calls - 1
            && (forall i | 0 <= i < t.calls - 1 :: script.outcome(i).Signal? && script.outcome(i).status in cfg.codes)
            && match script.outcome(t.calls - 1)
               case Answer(value) => t.ending == Returned(value)
               case Raise(error) => t.ending == Propagated(error)
               case Signal(status, after) =>
                 if status in cfg.codes then
                   t.calls == cfg.maxAttempts && t.ending == Unavailable(Some(status), after, cfg.maxAttempts)
                 else t.ending == NotRetryable(status)
  {
    var k := FirstFinal(cfg, script, 0);
    assert forall i | 0 <= i < k :: Retries(cfg, script.outcome(i));
  }

  /** Read backwards: which attempts lead to which ending. */
  lemma EndingsExactly(cfg: Config, script: Script)
    requires cfg.maxAttempts > 0
    ensures var t := Expected(cfg, script);
            && (t.ending.Unavailable? <==>
                  forall i | 0 <= i < cfg.maxAttempts ::
                    script.outcome(i).Signal? && script.outcome(i).status in cfg.codes)
            && (t.ending.NotRetryable? <==>
                  script.outcome(t.calls - 1).Signal? && script.outcome(t.calls - 1).status !in cfg.codes)
            && (t.ending.Returned? <==> script.outcome(t.calls - 1).Answer?)
            && (t.ending.Propagated? <==> script.outcome(t.calls - 1).Raise?)
  {
    CallEndsExactly(cfg, script);
    var t := Expected(cfg, script);
    assert 0 <= t.calls - 1 < cfg.maxAttempts;
  }

  /** Without a budget nothing is called. */
  lemma NoBudgetNoCall(cfg: Config, script: Script)
    requires cfg.maxAttempts <= 0
    ensures Expected(cfg, script) == Trace(0, [], Unavailable(None, None, cfg.maxAttempts))
  {
  }

  lemma DelayExactly(cfg: Config, retryAfter: Option<real>, jitter: real)
    requires 0.0 <= jitter <= cfg.cap
    ensures Delay(cfg, retryAfter, jitter) ==
              match retryAfter
              case None => jitter
              case Some(wanted) => if wanted > cfg.cap || wanted >= jitter then wanted else jitter
  {
  }

  lemma JitterCapExactly(cfg: Config, i: nat)
    ensures var doubled := cfg.base * Pow2(i) as real;
            JitterCap(cfg, i) == if cfg.cap <= doubled then cfg.cap else doubled
  {
    DoubledIsProduct(cfg.base, i);
  }

  lemma SleepIsDelay(cfg: Config, script: Script, i: nat)
    requires i < |Expected(cfg, script).sleeps|
    ensures i < cfg.maxAttempts && script.outcome(i).Signal?
    ensures Expected(cfg, script).sleeps[i] == DelayOf(cfg, script, i)
  {
    assert Retries(cfg, script.outcome(i));
  }

  /**
   Each sleep: the draw below the smaller of the cap and base * 2^i without Retry-After; a Retry-After
   beyond the cap as it is; otherwise the larger of the draw and the Retry-After.
   */
  lemma SleepsExactly(cfg: Config, script: Script, i: nat)
    requires Sensible(cfg, script, cfg.maxAttempts) && i < |Expected(cfg, script).sleeps|
    ensures script.outcome(i).Signal?
    ensures var slept, doubled := Expected(cfg, script).sleeps[i], cfg.base * Pow2(i) as real;
            var drawn := script.uniform(i, if cfg.cap <= doubled then cfg.cap else doubled);
            match script.outcome(i).retryAfter
            case None => slept == drawn
            case Some(wanted) => slept == if wanted > cfg.cap || wanted >= drawn then wanted else drawn
  {
    SleepIsDelay(cfg, script, i);
    JitterCapExactly(cfg, i);
    DelayExactly(cfg, script.outcome(i).retryAfter, script.uniform(i, JitterCap(cfg, i)));
  }

  // ----- bounds -----

  /** The configured delays are not negative and the draws stay within their bounds. */
  predicate Sensible(cfg: Config, script: Script, n: int) {
    && cfg.base >= 0.0 && cfg.cap >= 0.0
    && forall i | 0 <= i < n :: 0.0 <= script.uniform(i, JitterCap(cfg, i)) <= JitterCap(cfg, i)
  }

  /** A delay is never shorter than the server asked for and never longer than the larger of that and the cap. */
  lemma DelayWithin(cfg: Config, retryAfter: Option<real>, jitter: real, bound: real)
    requires 0.0 <= jitter <= bound <= cfg.cap
    ensures var d := Delay(cfg, retryAfter, jitter);
            && 0.0 <= d && (retryAfter.Some? ==> retryAfter.value <= d)
            && d <= Max(cfg.cap, retryAfter.GetOr(0.0))
            && (retryAfter.None? ==> d <= bound)
  {
  }

  function Total(s: seq<real>): real {
    if s == [] then 0.0 else Total(s[..|s| - 1]) + s[|s| - 1]
  }

  function Times(n: nat, x: real): real {
    if n == 0 then 0.0 else Times(n - 1, x) + x
  }

  function Pow2(n: nat): nat {
    if n == 0 then 1 else 2 * Pow2(n - 1)
  }

  /** Ten doublings, and adding exponents. */
  lemma {:induction false} Pow2OfSum(m: nat, n: nat)
    ensures Pow2(m + n) == Pow2(m) * Pow2(n) && Pow2(10) == 1024
  {
    if m > 0 {
      Pow2OfSum(m - 1, n);
      TwiceProduct(Pow2(m - 1), Pow2(n));
      assert m + n - 1 == (m - 1) + n;
    }
    assert Pow2(5) == 32;
  }

  lemma TwiceProduct(a: nat, b: nat)
    ensures 2 * a * b == 2 * (a * b)
  {
  }

  lemma {:induction false} DoubledIsProduct(base: real, n: nat)
    ensures Doubled(base, n) == base * Pow2(n) as real
  {
    if n > 0 {
      DoubledIsProduct(base, n - 1);
      var p := Pow2(n - 1) as real;
      assert Pow2(n) as real == 2.0 * p;
      assert 2.0 * (base * p) == base * (2.0 * p);
    }
  }

  lemma {:induction false} TimesIsProduct(n: nat, x: real)
    ensures Times(n, x) == n as real * x
  {
    if n > 0 {
      TimesIsProduct(n - 1, x);
      var m := (n - 1) as real;
      assert n as real == m + 1.0;
      assert m * x + x == (m + 1.0) * x;
    }
  }

  /** With no Retry-After the first n sleeps stay below the doubling sum and below n caps. */
  lemma {:induction false} TotalWithin(cfg: Config, script: Script, n: nat)
    requires Sensible(cfg, script, n)
    requires forall i | 0 <= i < n :: script.outcome(i).Signal? && script.outcome(i).retryAfter.None?
    ensures 0.0 <= Total(Sleeps(cfg, script, n)) <= Doubled(cfg.base, n) - cfg.base
    ensures Total(Sleeps(cfg, script, n)) <= Times(n, cfg.cap)
  {
    if n > 0 {
      TotalWithin(cfg, script, n - 1);
      var s := Sleeps(cfg, script, n);
      assert s[..n - 1] == Sleeps(cfg, script, n - 1);
      var bound := JitterCap(cfg, n - 1);
      DelayWithin(cfg, None, script.uniform(n - 1, bound), bound);
    }
  }

  lemma {:induction false} BoundsGrow(cfg: Config, m: nat, n: nat)
    requires m <= n && cfg.base >= 0.0 && cfg.cap >= 0.0
    ensures 0.0 <= Doubled(cfg.base, m) <= Doubled(cfg.base, n)
    ensures Times(m, cfg.cap) <= Times(n, cfg.cap)
  {
    if m < n {
      BoundsGrow(cfg, m, n - 1);
    } else if m > 0 {
      BoundsGrow(cfg, m - 1, m - 1);
    }
  }

  /** Either loop makes at most maxAttempts calls, sleeps between calls only, and within the delays' bounds. */
  lemma LoopIsBounded(cfg: Config, script: Script)
    requires Sensible(cfg, script, cfg.maxAttempts)
    ensures var t := Expected(cfg, script);
            && (t.calls == 0 <==> cfg.maxAttempts <= 0)
            && (cfg.maxAttempts >= 0 ==> t.calls <= cfg.maxAttempts)
            && |t.sleeps| == (if t.calls == 0 then 0 else t.calls - 1)
            && (t.ending.Unavailable? && cfg.maxAttempts >= 0 ==> t.calls == cfg.maxAttempts)
            && forall i | 0 <= i < |t.sleeps| ::
                 && script.outcome(i).Signal?
                 && 0.0 <= t.sleeps[i] <= Max(cfg.cap, script.outcome(i).retryAfter.GetOr(0.0))
                 && (script.outcome(i).retryAfter.Some? ==> script.outcome(i).retryAfter.value <= t.sleeps[i])
  {
    var t := Expected(cfg, script);
    if 0 < cfg.maxAttempts {
      forall i | 0 <= i < |t.sleeps|
        ensures script.outcome(i).Signal?
        ensures 0.0 <= t.sleeps[i] <= Max(cfg.cap, script.outcome(i).retryAfter.GetOr(0.0))
        ensures script.outcome(i).retryAfter.Some? ==> script.outcome(i).retryAfter.value <= t.sleeps[i]
      {
        assert Retries(cfg, script.outcome(i));
        var bound := JitterCap(cfg, i);
        DelayWithin(cfg, script.outcome(i).retryAfter, script.uniform(i, bound), bound);
      }
    }
  }

  /**
   Without Retry-After a whole call waits at most base doubled maxAttempts-1 times less base,
   that is base * (2^(maxAttempts-1) - 1), and at most maxAttempts-1 times the cap.
   */
  lemma TotalSleepIsBounded(cfg: Config, script: Script)
    requires cfg.maxAttempts >= 1 && Sensible(cfg, script, cfg.maxAttempts)
    requires forall i | 0 <= i < cfg.maxAttempts && script.outcome(i).Signal? :: script.outcome(i).retryAfter.None?
    ensures Total(Expected(cfg, script).sleeps) <= Doubled(cfg.base, cfg.maxAttempts - 1) - cfg.base
    ensures Total(Expected(cfg, script).sleeps) <= Times(cfg.maxAttempts - 1, cfg.cap)
  {
    var n := |Expected(cfg, script).sleeps|;
    assert forall i | 0 <= i < n :: Retries(cfg, script.outcome(i));
    TotalWithin(cfg, script, n);
    assert Expected(cfg, script).sleeps == Sleeps(cfg, script, n);
    BoundsGrow(cfg, n, cfg.maxAttempts - 1);
  }
}
