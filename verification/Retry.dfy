/**
 Retry delays and the retry loop: `RetryPolicy::delay_for` of src/retry.rs and
 `HttpClient::request` of src/http.rs. Durations are whole milliseconds; the
 server and the jitter's random draws are given.
 */
module Retry {
  import opened Prelude
  import opened Integers

  const MAX_64: int := TWO_64 - 1

  /** The configured bounds are durations, which need not fit 64 bits. */
  datatype Policy = Policy(maxRetries: u32, baseBackoff: nat, maxBackoff: nat, honorRetryAfter: bool, jitter: bool)

  function Min(a: int, b: int): int {
    if a <= b then a else b
  }

  function Saturate(x: nat): u64 {
    Min(x, MAX_64)
  }

  function SaturatingMul(a: u64, b: u64): u64 {
    if a * b <= MAX_64 then a * b else MAX_64
  }

  /** `1 << attempt` on 64 bits, or nothing when it does not fit. */
  function CheckedShl(attempt: u32): Option<u64> {
    if attempt >= 64 then None
    else
      ShiftFits(attempt);
      Some(Pow2(attempt))
  }

  lemma ShiftFits(attempt: nat)
    requires attempt < 64
    ensures Pow2(attempt) < TWO_64
  {
    Pow2Grows(attempt, 63);
    Pow2At63();
  }

  lemma Pow2At63()
    ensures Pow2(63) == 0x8000_0000_0000_0000
  {
    WeightIsPow2(9);
    WeightValues();
  }

  // ── One delay ───────────────────────────────────────────────────────────

  function CappedDelay(policy: Policy, attempt: u32): u64 {
    var factor := CheckedShl(attempt);
    var uncapped := SaturatingMul(Saturate(policy.baseBackoff), if factor.Some? then factor.value else MAX_64);
    Min(uncapped, Saturate(policy.maxBackoff))
  }

  /** The delay after attempt `attempt`, given the server's wish and a draw. */
  function DelayFor(policy: Policy, attempt: u32, retryAfter: Option<u64>, draw: u64): u64 {
    if policy.honorRetryAfter && retryAfter.Some? then Min(retryAfter.value, Saturate(policy.maxBackoff))
    else
      var capped := CappedDelay(policy, attempt);
      if !policy.jitter || capped == 0 then capped
      else
        var half := capped / 2;
        half + draw % (half + 1)
  }

  lemma Times(a: nat, b: nat, c: nat)
    requires b <= c
    ensures a * b <= a * c
  {
  }

  /** The back-off over the unbounded integers. */
  function ExactDelay(policy: Policy, attempt: nat): nat {
    Min(policy.maxBackoff, policy.baseBackoff * Pow2(attempt))
  }

  lemma FactorIsSaturated(attempt: u32)
    ensures (match CheckedShl(attempt) case Some(factor) => factor case None => MAX_64) == Saturate(Pow2(attempt))
    ensures Pow2(attempt) >= 1
  {
    if attempt >= 64 {
      Pow2Grows(64, attempt);
      assert Pow2(64) == 2 * Pow2(63) == TWO_64 by {
        Pow2At63();
      }
    } else {
      ShiftFits(attempt);
      Pow2Grows(0, attempt);
    }
  }

  /** Saturating both factors first makes no difference to a saturated product. */
  lemma SaturatedProduct(a: nat, b: nat)
    requires b >= 1
    ensures SaturatingMul(Saturate(a), Saturate(b)) == Saturate(a * b)
  {
    if a > 0 && b > MAX_64 {
      Times(Saturate(a), 1, MAX_64);
      Times(MAX_64, 1, Saturate(a));
      Times(b, 1, a);
    }
    if a > MAX_64 {
      Times(a, 1, b);
      Times(MAX_64, 1, Saturate(b));
    }
  }

  /** The saturating arithmetic comes to the exact formula, held to 64 bits. */
  lemma CappedIsExact(policy: Policy, attempt: u32)
    ensures CappedDelay(policy, attempt) == Saturate(ExactDelay(policy, attempt))
  {
    FactorIsSaturated(attempt);
    SaturatedProduct(policy.baseBackoff, Pow2(attempt));
  }

  lemma ExactGrows(policy: Policy, a: nat, b: nat)
    requires a <= b
    ensures ExactDelay(policy, a) <= ExactDelay(policy, b)
  {
    Pow2Grows(a, b);
    Times(policy.baseBackoff, Pow2(a), Pow2(b));
  }

  /** Later attempts wait no shorter, before jitter. */
  lemma CappedGrows(policy: Policy, a: u32, b: u32)
    requires a <= b
    ensures CappedDelay(policy, a) <= CappedDelay(policy, b)
  {
    CappedIsExact(policy, a);
    CappedIsExact(policy, b);
    ExactGrows(policy, a, b);
  }

  /** Jitter stays between half the back-off and all of it, a server's wish is
      shortened by the ceiling alone, and nothing exceeds the ceiling. */
  lemma DelayBounds(policy: Policy, attempt: u32, retryAfter: Option<u64>, draw: u64)
    ensures var delay := DelayFor(policy, attempt, retryAfter, draw);
      var exact := Saturate(ExactDelay(policy, attempt));
      && delay <= policy.maxBackoff
      && (policy.honorRetryAfter && retryAfter.Some? ==> delay == Min(retryAfter.value, policy.maxBackoff))
      && (!policy.honorRetryAfter || retryAfter.None? ==> exact / 2 <= delay <= exact)
      && (!policy.honorRetryAfter || retryAfter.None? ==> (!policy.jitter ==> delay == exact))
  {
    CappedIsExact(policy, attempt);
  }

  /** With jitter every delay from half the back-off to all of it does occur, less
      the odd millisecond. */
  lemma JitterReachesAll(policy: Policy, attempt: u32, delay: u64)
    requires policy.jitter
    ensures var exact := Saturate(ExactDelay(policy, attempt));
      (exists draw: u64 :: DelayFor(policy, attempt, None, draw) == delay) <==>
      exact / 2 <= delay <= 2 * (exact / 2)
  {
    CappedIsExact(policy, attempt);
    var half := CappedDelay(policy, attempt) / 2;
    forall draw: u64
      ensures DelayFor(policy, attempt, None, draw) == half + draw % (half + 1)
      ensures 0 <= draw % (half + 1) <= half
    {
      JitteredDelay(policy, attempt, draw);
    }
    if half <= delay <= 2 * half {
      SmallRemainder(delay - half, half + 1);
      assert DelayFor(policy, attempt, None, delay - half) == delay;
    }
  }

  lemma JitteredDelay(policy: Policy, attempt: u32, draw: u64)
    requires policy.jitter
    ensures var half := CappedDelay(policy, attempt) / 2;
      0 <= draw % (half + 1) <= half && DelayFor(policy, attempt, None, draw) == half + draw % (half + 1)
  {
  }

  lemma SmallRemainder(a: nat, b: nat)
    requires a < b
    ensures a % b == a
  {
  }

  // ── The loop ────────────────────────────────────────────────────────────

  /** What one attempt comes to. */
  datatype Reply = Response(status: nat, retryAfter: Option<u64>) | NetworkError

  predicate RetryableStatus(status: nat) {
    status == 429 || 500 <= status < 600
  }

  predicate Retryable(reply: Reply) {
    reply.NetworkError? || RetryableStatus(reply.status)
  }

  function ServerWish(reply: Reply): Option<u64> {
    if reply.NetworkError? then None else reply.retryAfter
  }

  /** The delays after the first `n` attempts. */
  function TotalDelay(policy: Policy, server: nat -> Reply, draws: nat -> u64, n: nat): nat
    requires n < TWO_32
  {
    if n == 0 then 0
    else
      TotalDelay(policy, server, draws, n - 1)
      + DelayFor(policy, n - 1, ServerWish(server(n - 1)), draws(n - 1))
  }

  /** Attempt after attempt until one is not worth repeating or the retries are
      used up. */
  method Request(policy: Policy, server: nat -> Reply, draws: nat -> u64)
    returns (reply: Reply, attempts: nat, slept: nat)
    ensures 1 <= attempts <= policy.maxRetries + 1 && reply == server(attempts - 1)
    ensures forall i :: 0 <= i < attempts - 1 ==>
      server(i).NetworkError? || server(i).status == 429 || 500 <= server(i).status <= 599
    ensures reply.NetworkError? || reply.status == 429 || 500 <= reply.status <= 599 ==>
      attempts == policy.maxRetries + 1
    ensures slept == TotalDelay(policy, server, draws, attempts - 1)
  {
    var attempt: u32 := 0;
    slept := 0;
    while true
      invariant attempt <= policy.maxRetries
      invariant forall i :: 0 <= i < attempt ==> Retryable(server(i))
      invariant slept == TotalDelay(policy, server, draws, attempt)
      decreases policy.maxRetries - attempt
    {
      reply := server(attempt);
      var delay: u64;
      match reply {
        case Response(status, retryAfter) =>
          if !RetryableStatus(status) || attempt >= policy.maxRetries {
            return reply, attempt + 1, slept;
          }
          delay := DelayFor(policy, attempt, retryAfter, draws(attempt));
        case NetworkError =>
          if attempt >= policy.maxRetries {
            return reply, attempt + 1, slept;
          }
          delay := DelayFor(policy, attempt, None, draws(attempt));
      }
      slept := slept + delay;
      attempt := attempt + 1;
    }
  }

  /** What is slept after attempt `n`: what that reply itself asked for, if it did
      and is heeded, up to the ceiling; after a network error, or unasked, the
      back-off of that attempt, at most halved by the jitter. */
  lemma SleepFollowsReply(policy: Policy, server: nat -> Reply, draws: nat -> u64, n: nat)
    requires n + 1 < TWO_32
    ensures TotalDelay(policy, server, draws, 0) == 0
    ensures var slept := TotalDelay(policy, server, draws, n + 1) - TotalDelay(policy, server, draws, n);
      var backoff := Saturate(ExactDelay(policy, n));
      if policy.honorRetryAfter && server(n).Response? && server(n).retryAfter.Some? then
        slept == Min(server(n).retryAfter.value, policy.maxBackoff)
      else backoff / 2 <= slept <= backoff
  {
    DelayBounds(policy, n, ServerWish(server(n)), draws(n));
  }

  /** However the server replies and the draws fall, `n` retries sleep at most
      `n` times the ceiling. */
  lemma {:induction false} TotalDelayBound(policy: Policy, server: nat -> Reply, draws: nat -> u64, n: nat)
    requires n <= policy.maxRetries
    ensures TotalDelay(policy, server, draws, n) <= n * policy.maxBackoff <= policy.maxRetries * policy.maxBackoff
  {
    Times(policy.maxBackoff, n, policy.maxRetries);
    if n > 0 {
      TotalDelayBound(policy, server, draws, n - 1);
      DelayBounds(policy, n - 1, ServerWish(server(n - 1)), draws(n - 1));
      assert n * policy.maxBackoff == (n - 1) * policy.maxBackoff + policy.maxBackoff;
    }
  }

  /** No server-directed delay is honoured among the first `n`. */
  ghost predicate Undirected(policy: Policy, server: nat -> Reply, n: nat) {
    policy.honorRetryAfter ==> forall i :: 0 <= i < n ==> ServerWish(server(i)).None?
  }

  lemma UndirectedDelay(policy: Policy, attempt: u32, draw: u64)
    ensures DelayFor(policy, attempt, None, draw) <= policy.baseBackoff * Pow2(attempt)
  {
    DelayBounds(policy, attempt, None, draw);
  }

  lemma Doubling(base: nat, power: nat, total: nat, delay: nat)
    requires total <= base * (power - 1) && delay <= base * power
    ensures total + delay <= base * (2 * power - 1)
  {
    assert base * (2 * power - 1) == base * (power - 1) + base * power;
  }

  /** Left to itself the back-off also stays below a doubling sum. */
  lemma {:induction false} BackoffIsGeometric(policy: Policy, server: nat -> Reply, draws: nat -> u64, n: nat)
    requires n < TWO_32 && Undirected(policy, server, n)
    ensures TotalDelay(policy, server, draws, n) <= policy.baseBackoff * (Pow2(n) - 1)
  {
    if n > 0 {
      BackoffIsGeometric(policy, server, draws, n - 1);
      UndirectedDelay(policy, n - 1, draws(n - 1));
      Doubling(policy.baseBackoff, Pow2(n - 1), TotalDelay(policy, server, draws, n - 1),
        DelayFor(policy, n - 1, ServerWish(server(n - 1)), draws(n - 1)));
      assert Pow2(n) == 2 * Pow2(n - 1);
    }
  }
}
