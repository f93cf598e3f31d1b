/** Polling with exponential backoff, over every trace of poll outcomes, and the state waiter built on it. */
module Backoff {
  import opened Text

  // ---- 64-bit durations ----

  const TWO_62 := 0x4000_0000_0000_0000
  const TWO_63 := 0x8000_0000_0000_0000
  const TWO_64 := 0x1_0000_0000_0000_0000

  predicate IsInt64(x: int) {
    -TWO_63 <= x < TWO_63
  }

  /** Two's complement wrap-around. */
  function Wrap(x: int): (r: int)
    ensures IsInt64(r)
  {
    (x + TWO_63) % TWO_64 - TWO_63
  }

  /** Zero or negative bounds switch the corresponding limit off. */
  datatype Config = Config(initial: int, max: int, maxAttempts: int, maxElapsed: int)

  predicate Durations(cfg: Config) {
    IsInt64(cfg.initial) && IsInt64(cfg.max)
  }

  /** The delay after a delay of `b`, as the loop computes it. */
  function NextDelay(cfg: Config, b: int): int {
    if cfg.max > 0 then
      var doubled := Wrap(b * 2);
      if doubled > cfg.max then cfg.max else doubled
    else b
  }

  /** The `k`-th delay of the loop, from 1. */
  function DelayAt(cfg: Config, k: nat): int
    requires k >= 1
  {
    if k == 1 then cfg.initial else NextDelay(cfg, DelayAt(cfg, k - 1))
  }

  function Pow2(k: nat): nat {
    if k == 0 then 1 else 2 * Pow2(k - 1)
  }

  function Min(a: int, b: int): int {
    if a < b then a else b
  }

  /** The documented policy: Initial first, then doubling up to Max; flat without a Max. */
  function Policy(cfg: Config, k: nat): int
    requires k >= 1
  {
    if k == 1 || cfg.max <= 0 then cfg.initial else Min(cfg.initial * Pow2(k - 1), cfg.max)
  }

  ghost predicate FollowsPolicy(cfg: Config) {
    forall k: nat :: k >= 1 ==> DelayAt(cfg, k) == Policy(cfg, k)
  }

  /** Where doubling can never leave 64 bits. */
  predicate NoOverflow(cfg: Config) {
    cfg.max <= 0 || cfg.initial == 0 || (0 < cfg.initial < TWO_62 && cfg.max < TWO_62)
  }

  lemma WrapInside(x: int)
    requires IsInt64(x)
    ensures Wrap(x) == x
  {
  }

  lemma {:induction false} DelayIsPolicy(cfg: Config, k: nat)
    requires Durations(cfg) && NoOverflow(cfg) && k >= 1
    ensures DelayAt(cfg, k) == Policy(cfg, k)
  {
    if k > 1 {
      DelayIsPolicy(cfg, k - 1);
    }
    if k > 1 && cfg.max > 0 {
      var b := DelayAt(cfg, k - 1);
      if cfg.initial > 0 {
        Growing(cfg.initial, k - 2);
        Growing(cfg.initial, k - 1);
        assert cfg.initial * Pow2(k - 1) == 2 * (cfg.initial * Pow2(k - 2)) by {
          Doubles(cfg.initial, k - 2);
        }
        assert 0 < b < TWO_62;
      }
      WrapInside(b * 2);
    }
  }

  lemma Doubles(x: int, k: nat)
    ensures x * Pow2(k + 1) == 2 * (x * Pow2(k))
  {
    var p := Pow2(k);
    assert Pow2(k + 1) == 2 * p;
    assert x * (2 * p) == 2 * (x * p);
  }

  lemma {:induction false} Growing(x: int, k: nat)
    requires x > 0
    ensures x * Pow2(k) >= x && x * Pow2(k) > k
  {
    if k > 0 {
      Growing(x, k - 1);
      Doubles(x, k - 1);
    } else {
      assert x * Pow2(0) == x;
    }
  }

  lemma {:induction false} DelayInt64(cfg: Config, k: nat)
    requires Durations(cfg) && k >= 1
    ensures IsInt64(DelayAt(cfg, k))
  {
    if k > 1 {
      DelayInt64(cfg, k - 1);
    }
  }

  lemma PowerOf64()
    ensures Pow2(64) == TWO_64
  {
    assert Pow2(2) == 4;
    PowAdds(2, 2);
    PowAdds(4, 4);
    PowAdds(8, 8);
    PowAdds(16, 16);
    PowAdds(32, 32);
  }

  lemma {:induction false} PowAdds(a: nat, b: nat)
    ensures Pow2(a + b) == Pow2(a) * Pow2(b)
  {
    if b > 0 {
      PowAdds(a, b - 1);
      assert a + b - 1 == a + (b - 1);
      Doubles(Pow2(a), b - 1);
    }
  }

  /** From the 65th delay on, a policy with positive Initial and Max has reached Max. */
  lemma LateDelays(cfg: Config, k: nat)
    requires Durations(cfg) && cfg.max > 0 && k >= 65
    ensures cfg.initial > 0 ==> Policy(cfg, k) == cfg.max
    ensures cfg.initial < 0 ==> Policy(cfg, k) < -TWO_63
  {
    PowerOf64();
    Grows(64, k - 1);
    var p := Pow2(k - 1);
    if cfg.initial > 0 {
      assert cfg.initial * p >= p;
    } else if cfg.initial < 0 {
      assert (-cfg.initial) * p >= p;
      assert cfg.initial * p == -((-cfg.initial) * p);
    }
  }

  lemma {:induction false} Grows(a: nat, b: nat)
    requires a <= b
    ensures Pow2(a) <= Pow2(b)
    decreases b
  {
    if a < b {
      Grows(a, b - 1);
    }
  }

  lemma WrapsNegative(b: int)
    requires TWO_62 <= b < TWO_63
    ensures Wrap(b * 2) < 0
  {
    assert Wrap(b * 2) == b * 2 - TWO_64;
  }

  /** The loop follows the policy for every number of retries exactly when doubling cannot overflow. */
  lemma PolicyIffNoOverflow(cfg: Config)
    requires Durations(cfg)
    ensures FollowsPolicy(cfg) <==> NoOverflow(cfg)
  {
    if NoOverflow(cfg) {
      forall k: nat | k >= 1
        ensures DelayAt(cfg, k) == Policy(cfg, k)
      {
        DelayIsPolicy(cfg, k);
      }
    } else if cfg.initial < 0 {
      LateDelays(cfg, 65);
      DelayInt64(cfg, 65);
      assert DelayAt(cfg, 65) != Policy(cfg, 65);
    } else if cfg.initial >= TWO_62 {
      WrapsNegative(cfg.initial);
      assert DelayAt(cfg, 2) == NextDelay(cfg, cfg.initial);
      assert Pow2(1) == 2;
      assert DelayAt(cfg, 2) < 0 < Policy(cfg, 2);
    } else {
      LateDelays(cfg, 65);
      LateDelays(cfg, 66);
      WrapsNegative(cfg.max);
      assert DelayAt(cfg, 66) == NextDelay(cfg, DelayAt(cfg, 65));
      if DelayAt(cfg, 65) == cfg.max {
        assert DelayAt(cfg, 66) < 0;
        assert DelayAt(cfg, 66) != Policy(cfg, 66);
      } else {
        assert DelayAt(cfg, 65) != Policy(cfg, 65);
      }
    }
  }

  // ---- The loop ----

  /** One poll attempt and what the world does next: the outcome, the time since the start, and whether
      the context ends the wait that follows. */
  datatype Turn<T, E> = Turn(result: T, done: bool, error: Option<E>, elapsed: int, cancelled: Option<E>)

  /** What a finite trace gives: a return, or a loop still polling when the trace ends. */
  datatype Outcome<T, E> = Returned(result: T, error: Option<E>) | Polling

  predicate Finished<T, E>(cfg: Config, turn: Turn<T, E>, attempt: nat) {
    || turn.done || turn.error.Some?
    || (cfg.maxAttempts > 0 && attempt >= cfg.maxAttempts)
    || (cfg.maxElapsed > 0 && turn.elapsed >= cfg.maxElapsed)
  }

  predicate Stops<T, E>(cfg: Config, turn: Turn<T, E>, attempt: nat) {
    Finished(cfg, turn, attempt) || turn.cancelled.Some?
  }

  /** `PollWithBackoff`: stops at the first attempt that stops it, never later, and the waits are the delays in
      order. */
  method PollWithBackoff<T, E>(cfg: Config, trace: seq<Turn<T, E>>)
    returns (outcome: Outcome<T, E>, calls: nat, waits: seq<int>)
    requires Durations(cfg)
    ensures calls <= |trace|
    ensures forall i :: 0 <= i < (if outcome.Polling? then calls else calls - 1) ==>
              && !trace[i].done && trace[i].error.None? && trace[i].cancelled.None?
              && (cfg.maxAttempts > 0 ==> i + 1 < cfg.maxAttempts)
              && (cfg.maxElapsed > 0 ==> trace[i].elapsed < cfg.maxElapsed)
    ensures outcome.Polling? ==> calls == |trace|
    ensures outcome.Returned? ==>
              && calls > 0 && outcome.result == trace[calls - 1].result
              && if trace[calls - 1].done || trace[calls - 1].error.Some? then outcome.error == trace[calls - 1].error
                 else if (cfg.maxAttempts > 0 && calls >= cfg.maxAttempts) ||
                         (cfg.maxElapsed > 0 && trace[calls - 1].elapsed >= cfg.maxElapsed) then outcome.error.None?
                 else trace[calls - 1].cancelled.Some? && outcome.error == trace[calls - 1].cancelled
    ensures cfg.maxAttempts > 0 ==> calls <= cfg.maxAttempts
    ensures |waits| == if outcome.Polling? || !Finished(cfg, trace[calls - 1], calls) then calls else calls - 1
    ensures forall k :: 0 <= k < |waits| ==> waits[k] == DelayAt(cfg, k + 1)
    ensures NoOverflow(cfg) ==> forall k :: 0 <= k < |waits| ==> waits[k] == Policy(cfg, k + 1)
  {
    forall k: nat | k >= 1 && NoOverflow(cfg)
      ensures DelayAt(cfg, k) == Policy(cfg, k)
    {
      DelayIsPolicy(cfg, k);
    }
    var backoff := cfg.initial;
    calls, waits := 0, [];
    while calls < |trace|
      invariant calls <= |trace| && |waits| == calls
      invariant forall i :: 0 <= i < calls ==> !Stops(cfg, trace[i], i + 1)
      invariant backoff == DelayAt(cfg, calls + 1)
      invariant forall k :: 0 <= k < |waits| ==> waits[k] == DelayAt(cfg, k + 1)
      invariant cfg.maxAttempts > 0 ==> calls < cfg.maxAttempts
    {
      var turn := trace[calls];
      calls := calls + 1;
      if turn.done || turn.error.Some? {
        return Returned(turn.result, turn.error), calls, waits;
      }
      if cfg.maxAttempts > 0 && calls >= cfg.maxAttempts {
        return Returned(turn.result, None), calls, waits;
      }
      if cfg.maxElapsed > 0 && turn.elapsed >= cfg.maxElapsed {
        return Returned(turn.result, None), calls, waits;
      }
      waits := waits + [backoff];
      if turn.cancelled.Some? {
        return Returned(turn.result, turn.cancelled), calls, waits;
      }
      if cfg.max > 0 {
        backoff := Wrap(backoff * 2);
        if backoff > cfg.max {
          backoff := cfg.max;
        }
      }
    }
    outcome := Polling;
  }

  // ---- The state waiter ----

  const DEFAULT_INTERVAL := 2_000_000_000

  datatype Cause = LookupFailed(message: string) | NotFound | TerminalState
  datatype WaitError = ContextDone(message: string) | CheckFailed(cause: Cause)

  /** One look at the state, None when the resource is missing, and whether the context then ends. */
  datatype Look<T> = Look(state: Option<T>, error: Option<string>, elapsed: int, cancelled: Option<string>)

  /** What the checker says about a look: still waiting, reached, or a reason to give up. */
  datatype Verdict = Waiting | Reached | Failing(cause: Cause)

  function Check<T(==)>(look: Look<T>, desired: T, terminal: set<T>): Verdict {
    if look.error.Some? then Failing(LookupFailed(look.error.value))
    else if look.state.None? then Failing(NotFound)
    else if look.state.value == desired then Reached
    else if look.state.value in terminal then Failing(TerminalState)
    else Waiting
  }

  /** A look that settles the wait: desired, terminal, missing or failing. */
  ghost predicate Settles<T>(look: Look<T>, desired: T, terminal: set<T>) {
    look.error.Some? || look.state.None? || look.state.value == desired || look.state.value in terminal
  }

  function Context(c: Option<string>): Option<WaitError> {
    if c.None? then None else Some(ContextDone(c.value))
  }

  function CheckTurn(v: Verdict, elapsed: int, cancelled: Option<string>): Turn<(), WaitError> {
    Turn((), !v.Waiting?, if v.Failing? then Some(CheckFailed(v.cause)) else None, elapsed, Context(cancelled))
  }

  /** The interval that the options leave. */
  function Interval(intervals: seq<int>): int {
    if intervals == [] then DEFAULT_INTERVAL
    else if intervals[|intervals| - 1] > 0 then intervals[|intervals| - 1]
    else Interval(intervals[..|intervals| - 1])
  }

  /** It is the last positive one asked for, or two seconds when there is none. */
  lemma {:induction false} IntervalIs(intervals: seq<int>)
    ensures (exists i :: 0 <= i < |intervals| && Interval(intervals) == intervals[i] > 0 &&
                         forall j :: i < j < |intervals| ==> intervals[j] <= 0) ||
            (Interval(intervals) == 2_000_000_000 && forall j :: 0 <= j < |intervals| ==> intervals[j] <= 0)
    decreases |intervals|
  {
    if intervals != [] {
      var n := |intervals| - 1;
      IntervalIs(intervals[..n]);
      if intervals[n] <= 0 {
        if i :| 0 <= i < n && Interval(intervals[..n]) == intervals[..n][i] > 0 &&
                forall j :: i < j < n ==> intervals[..n][j] <= 0 {
          assert Interval(intervals) == intervals[i] > 0;
          assert forall j :: i < j < n ==> intervals[j] == intervals[..n][j];
        } else {
          assert forall j :: 0 <= j < n ==> intervals[j] == intervals[..n][j];
        }
      }
    }
  }

  /** The options are applied in order; a non-positive interval is ignored. */
  method PollInterval(intervals: seq<int>) returns (interval: int)
    requires forall i :: 0 <= i < |intervals| ==> IsInt64(intervals[i])
    ensures interval == Interval(intervals) && 0 < interval && IsInt64(interval)
  {
    interval := DEFAULT_INTERVAL;
    for i := 0 to |intervals|
      invariant interval == Interval(intervals[..i]) && 0 < interval && IsInt64(interval)
    {
      assert intervals[..i + 1][..i] == intervals[..i];
      if intervals[i] > 0 {
        interval := intervals[i];
      }
    }
    assert intervals[..|intervals|] == intervals;
  }

  ghost predicate Ends(turn: Turn<(), WaitError>) {
    turn.done || turn.error.Some? || turn.cancelled.Some?
  }

  /** A verdict outranks a context that ends at the same moment. */
  ghost function EndError(turn: Turn<(), WaitError>): Option<WaitError> {
    if turn.done || turn.error.Some? then turn.error else turn.cancelled
  }

  /** `WaitForStateTransition` over the verdicts of its checker. */
  method WaitForStateTransition(ctx: Option<string>, verdicts: seq<Turn<(), WaitError>>, interval: int)
    returns (outcome: Outcome<(), WaitError>, calls: nat, waits: seq<int>)
    requires 0 < interval && IsInt64(interval)
    ensures ctx.Some? ==> calls == 0 && waits == [] && outcome == Returned((), Some(ContextDone(ctx.value)))
    ensures calls <= |verdicts|
    ensures forall i :: 0 <= i < calls - 1 ==> !Ends(verdicts[i])
    ensures ctx.None? && outcome.Returned? ==>
              calls > 0 && Ends(verdicts[calls - 1]) && outcome.error == EndError(verdicts[calls - 1])
    ensures ctx.None? && outcome.Polling? ==> calls == |verdicts| && (calls > 0 ==> !Ends(verdicts[calls - 1]))
    ensures ctx.None? ==> |waits| == if calls > 0 && (verdicts[calls - 1].done || verdicts[calls - 1].error.Some?)
                                     then calls - 1 else calls
    ensures forall k :: 0 <= k < |waits| ==> waits[k] == interval
  {
    if ctx.Some? {
      return Returned((), Some(ContextDone(ctx.value))), 0, [];
    }
    outcome, calls, waits := PollWithBackoff(Config(interval, 0, 0, 0), verdicts);
  }

  /** How a wait ends at look `n` (counted from 1), or that it has not ended. */
  ghost predicate EndsAt<T>(looks: seq<Look<T>>, desired: T, terminal: set<T>, n: nat,
      outcome: Outcome<(), WaitError>) {
    if outcome.Polling? then
      n == |looks| && forall i :: 0 <= i < n ==> !Settles(looks[i], desired, terminal) && looks[i].cancelled.None?
    else
      && 0 < n <= |looks|
      && (forall i :: 0 <= i < n - 1 ==> !Settles(looks[i], desired, terminal) && looks[i].cancelled.None?)
      && var last := looks[n - 1];
      if last.error.Some? then outcome.error == Some(CheckFailed(LookupFailed(last.error.value)))
      else if last.state.None? then outcome.error == Some(CheckFailed(NotFound))
      else if last.state.value == desired then outcome.error == None
      else if last.state.value in terminal then outcome.error == Some(CheckFailed(TerminalState))
      else last.cancelled.Some? && outcome.error == Some(ContextDone(last.cancelled.value))
  }

  /** `WaitForTerminalOrDesiredState`: stops at the first look that settles the wait and never polls past it. */
  method WaitForTerminalOrDesiredState<T(==)>(ctx: Option<string>, desired: T, terminal: set<T>, looks: seq<Look<T>>,
      intervals: seq<int>)
    returns (outcome: Outcome<(), WaitError>, calls: nat, waits: seq<int>)
    requires forall i :: 0 <= i < |intervals| ==> IsInt64(intervals[i])
    ensures ctx.Some? ==> calls == 0 && waits == [] && outcome == Returned((), Some(ContextDone(ctx.value)))
    ensures ctx.None? ==> EndsAt(looks, desired, terminal, calls, outcome)
    ensures ctx.None? ==> |waits| == if calls > 0 && Settles(looks[calls - 1], desired, terminal) then calls - 1
                                     else calls
    ensures forall k :: 0 <= k < |waits| ==> waits[k] == Interval(intervals)
  {
    var interval := PollInterval(intervals);
    var verdicts := seq(|looks|, i requires 0 <= i < |looks| =>
      CheckTurn(Check(looks[i], desired, terminal), looks[i].elapsed, looks[i].cancelled));
    outcome, calls, waits := WaitForStateTransition(ctx, verdicts, interval);
    forall i | 0 <= i < |looks|
      ensures Ends(verdicts[i]) <==> Settles(looks[i], desired, terminal) || looks[i].cancelled.Some?
    {
    }
    assert forall i :: 0 <= i < calls - 1 ==> !Ends(verdicts[i]);
  }

  /** The end of a wait is determined by the looks: no earlier and no later stop would do. */
  lemma EndUnique<T>(looks: seq<Look<T>>, desired: T, terminal: set<T>, n: nat, a: Outcome<(), WaitError>, m: nat,
      b: Outcome<(), WaitError>)
    requires EndsAt(looks, desired, terminal, n, a) && EndsAt(looks, desired, terminal, m, b)
    ensures n == m && a == b
  {
    assert a.Returned? ==> a.result == ();
    assert b.Returned? ==> b.result == ();
    if n != m {
      EndNotEarlier(looks, desired, terminal, n, a, m, b);
      EndNotEarlier(looks, desired, terminal, m, b, n, a);
    }
  }

  lemma EndNotEarlier<T>(looks: seq<Look<T>>, desired: T, terminal: set<T>, n: nat, a: Outcome<(), WaitError>, m: nat,
      b: Outcome<(), WaitError>)
    requires EndsAt(looks, desired, terminal, n, a) && EndsAt(looks, desired, terminal, m, b)
    ensures n >= m
  {
    if a.Returned? {
      var last := looks[n - 1];
      assert Settles(last, desired, terminal) || last.cancelled.Some?;
    }
  }
}
