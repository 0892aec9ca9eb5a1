// The time budget of reliable delivery (Framework/queueclient/worker.go):
// exponential backoff, positive jitter and the minimum broker lease, in 64-bit
// nanoseconds.

module DeliveryBudget {
  import opened Common

  const MAX_DURATION := 0x7FFF_FFFF_FFFF_FFFF

  newtype Duration = x: int | -0x8000_0000_0000_0000 <= x <= MAX_DURATION

  datatype RetryConfig = RetryConfig(maxAttempts: int, initialBackoff: Duration, maxBackoff: Duration,
                                     settlementTimeout: Duration, extensionInterval: Duration, extensionTimeout: Duration)
  {
    // Zero values select the defaults.
    function Defaulted(): RetryConfig {
      RetryConfig(if maxAttempts == 0 then 3 else maxAttempts,
                  if initialBackoff == 0 then 100_000_000 else initialBackoff,
                  if maxBackoff == 0 then 2_000_000_000 else maxBackoff,
                  if settlementTimeout == 0 then 3_000_000_000 else settlementTimeout,
                  extensionInterval, extensionTimeout)
    }

    predicate Valid() {
      && 1 <= maxAttempts <= 10
      && 0 < initialBackoff <= maxBackoff
      && settlementTimeout > 0
      && ((extensionInterval == 0) <==> (extensionTimeout == 0))
      && (extensionInterval != 0 ==>
            && 10_000_000 <= extensionInterval <= 600_000_000_000
            && 0 < extensionTimeout <= 30_000_000_000 && extensionTimeout <= extensionInterval)
    }

    predicate Extends() {
      extensionInterval > 0
    }
  }

  function Pow2(n: nat): (r: int)
    ensures r >= 1
  {
    if n == 0 then 1 else 2 * Pow2(n - 1)
  }

  // The backoff before retry number `retry`, without any machine width.
  function Backoff(c: RetryConfig, retry: nat): int
    requires retry >= 1
  {
    Min(c.initialBackoff as int * Pow2(retry - 1), c.maxBackoff as int)
  }

  function Window(delay: int, maximum: int): int {
    Min(delay / 2, maximum - delay)
  }

  function LongestBackoff(c: RetryConfig, retry: nat): int
    requires retry >= 1
  {
    Backoff(c, retry) + Window(Backoff(c, retry), c.maxBackoff as int)
  }

  // The time that n attempts may take, each followed by its backoff.
  function WithBackoffs(c: RetryConfig, process: int, n: nat): int {
    if n == 0 then 0 else WithBackoffs(c, process, n - 1) + process + LongestBackoff(c, n)
  }

  function AttemptsBudget(c: RetryConfig, process: int): int
    requires c.maxAttempts >= 1
  {
    WithBackoffs(c, process, c.maxAttempts - 1) + process
  }

  // The exact lease, without any machine width.
  function ExactLease(c: RetryConfig, process: int, margin: int): int
    requires c.Valid()
  {
    if c.Extends() then
      c.extensionInterval as int + Max(c.settlementTimeout as int, c.extensionTimeout as int) + margin
    else AttemptsBudget(c, process) + c.settlementTimeout as int + margin
  }

  lemma {:induction false} PowersGrow(m: nat, n: nat)
    requires m <= n
    ensures Pow2(m) <= Pow2(n)
  {
    if m < n {
      PowersGrow(m, n - 1);
    }
  }

  lemma BackoffIsPositive(c: RetryConfig, retry: nat)
    requires c.Valid() && retry >= 1
    ensures 1 <= Backoff(c, retry) <= LongestBackoff(c, retry) <= c.maxBackoff as int
  {
    TimesGrows(c.initialBackoff as int, 1, Pow2(retry - 1));
  }

  lemma TimesGrows(i: int, p: int, q: int)
    requires i >= 0 && p <= q
    ensures i * p <= i * q
  {
  }

  lemma {:induction false} BudgetGrows(c: RetryConfig, process: int, m: nat, n: nat)
    requires c.Valid() && process > 0 && m <= n
    ensures 0 <= WithBackoffs(c, process, m) <= WithBackoffs(c, process, n)
    ensures m < n ==> WithBackoffs(c, process, m) + process + LongestBackoff(c, m + 1) <= WithBackoffs(c, process, n)
  {
    if n > 0 {
      BackoffIsPositive(c, n);
      if m < n {
        BudgetGrows(c, process, m, n - 1);
      } else {
        BudgetGrows(c, process, m - 1, n - 1);
      }
    }
  }

  // Doubling with an early exit computes the exact power and never overflows.
  method DeliveryBackoff(c: RetryConfig, retry: nat) returns (delay: Duration)
    requires c.Valid() && retry >= 1
    ensures delay as int == Backoff(c, retry)
  {
    delay := c.initialBackoff;
    var index := 1;
    while index < retry
      invariant 1 <= index <= retry
      invariant 0 < delay as int == c.initialBackoff as int * Pow2(index - 1)
    {
      if delay >= c.maxBackoff || delay > c.maxBackoff / 2 {
        PowerSteps(c, index, retry, delay as int);
        return c.maxBackoff;
      }
      delay := delay * 2;
      index := index + 1;
    }
    if delay > c.maxBackoff {
      return c.maxBackoff;
    }
  }

  lemma PowerSteps(c: RetryConfig, index: nat, retry: nat, delay: int)
    requires c.Valid() && 1 <= index < retry && delay == c.initialBackoff as int * Pow2(index - 1)
    requires 2 * delay >= c.maxBackoff as int
    ensures Backoff(c, retry) == c.maxBackoff as int
  {
    PowersGrow(index, retry - 1);
    var i, p := c.initialBackoff as int, Pow2(index - 1);
    assert i * (2 * p) == 2 * (i * p);
    TimesGrows(i, 2 * p, Pow2(retry - 1));
  }

  method MaximumDeliveryBackoff(c: RetryConfig, retry: nat) returns (delay: Duration)
    requires c.Valid() && retry >= 1
    ensures delay as int == LongestBackoff(c, retry) > 0
  {
    delay := DeliveryBackoff(c, retry);
    BackoffIsPositive(c, retry);
    delay := delay + if delay / 2 < c.maxBackoff - delay then delay / 2 else c.maxBackoff - delay;
  }

  method AddDeliveryBudget(total: Duration, duration: Duration) returns (sum: Duration, ok: bool)
    ensures ok <==> duration > 0 && total as int + duration as int <= MAX_DURATION
    ensures ok ==> sum as int == total as int + duration as int
  {
    if duration <= 0 || total > 0x7FFF_FFFF_FFFF_FFFF - duration {
      return 0, false;
    }
    return total + duration, true;
  }

  // The lease is given exactly when the configuration is valid and the exact
  // sum fits 64 bits, and then it is that sum.
  method MinimumDeliveryLease(config: RetryConfig, process: Duration, margin: Duration) returns (lease: Option<Duration>)
    requires process > 0
    ensures
      var c := config.Defaulted();
      && (lease.Some? <==> c.Valid() && margin > 0 && ExactLease(c, process as int, margin as int) <= MAX_DURATION)
      && (lease.Some? ==> lease.value as int == ExactLease(c, process as int, margin as int))
  {
    var c := config.Defaulted();
    if !c.Valid() || margin <= 0 {
      return None;
    }
    if c.Extends() {
      var longest := c.settlementTimeout;
      if c.extensionTimeout > longest {
        longest := c.extensionTimeout;
      }
      var total, ok := AddDeliveryBudget(c.extensionInterval, longest);
      if !ok {
        return None;
      }
      total, ok := AddDeliveryBudget(total, margin);
      return if ok then Some(total) else None;
    }
    lease := StaticLease(c, process, margin);
  }

  method StaticLease(c: RetryConfig, process: Duration, margin: Duration) returns (lease: Option<Duration>)
    requires c.Valid() && !c.Extends() && process > 0 && margin > 0
    ensures lease.Some? <==> ExactLease(c, process as int, margin as int) <= MAX_DURATION
    ensures lease.Some? ==> lease.value as int == ExactLease(c, process as int, margin as int)
  {
    var total: Duration := 0;
    var ok: bool;
    for attempt := 1 to c.maxAttempts + 1
      invariant total as int == if attempt <= c.maxAttempts then WithBackoffs(c, process as int, attempt - 1)
                                else AttemptsBudget(c, process as int)
    {
      BudgetGrows(c, process as int, attempt - 1, c.maxAttempts - 1);
      total, ok := AddDeliveryBudget(total, process);
      if !ok {
        return None;
      }
      if attempt < c.maxAttempts {
        var backoff := MaximumDeliveryBackoff(c, attempt);
        total, ok := AddDeliveryBudget(total, backoff);
        if !ok {
          return None;
        }
      }
    }
    total, ok := AddDeliveryBudget(total, c.settlementTimeout);
    if !ok {
      return None;
    }
    total, ok := AddDeliveryBudget(total, margin);
    return if ok then Some(total) else None;
  }

  // With every value left at zero a delivery needs three handler timeouts, the
  // two longest backoffs of 150 and 300 milliseconds, three seconds for the
  // settlement and the margin.
  lemma DefaultLease(process: int, margin: int)
    ensures
      var c := RetryConfig(0, 0, 0, 0, 0, 0).Defaulted();
      c.Valid() && ExactLease(c, process, margin) == 3 * process + 450_000_000 + 3_000_000_000 + margin
  {
    var c := RetryConfig(0, 0, 0, 0, 0, 0).Defaulted();
    assert Pow2(0) == 1 && Pow2(1) == 2;
    assert LongestBackoff(c, 1) == 150_000_000 && LongestBackoff(c, 2) == 300_000_000;
    assert WithBackoffs(c, process, 1) == process + 150_000_000;
  }
}
