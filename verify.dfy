/**
 * The admission decision of the rate limiter: `VerifyUsecase.Verify` with its input and
 * output records. The clock is the parameter `now` (Unix seconds); whether each Redis
 * round trip fails is the parameter `faults`.
 */
module Verify {
  import opened Wrappers
  import opened Entity
  import opened Store

  datatype VerifyInput = VerifyInput(apiKey: string, clientIp: string)

  /** The message of a decision. The text of the 429 message is kept as its three values:
      the policy name, its rate and the Unix second at which the block ends. */
  datatype Message =
    | NoMessage
    | LookupFailed
    | ServiceBlocked
    | CountFailed
    | RateExceeded(service: string, allowed: int, blockedUntil: int)

  datatype VerifyOutput = VerifyOutput(key: string, name: string, blocked: bool, message: Message, status: int)

  const StatusOK: int := 200
  const StatusForbidden: int := 403
  const StatusTooManyRequests: int := 429
  const StatusInternalServerError: int := 500

  /** The window length used when a policy's rate is zero, and the slack added to a
      counter's expiry, both in seconds. */
  const FallbackWindow: int := 60
  const ExpirySlack: int := 5

  /** Which Redis round trips of one call fail. */
  datatype Faults = Faults(lookup: bool, defaultLookup: bool, provisionWrite: bool, increment: bool, expire: bool)

  const NoFaults: Faults := Faults(false, false, false, false, false)

  /** The identity a request is limited under: its API key, or its client address without one. */
  function ResolveKey(input: VerifyInput): string
  {
    if input.apiKey == "" then input.clientIp else input.apiKey
  }

  /** The window length in seconds: the policy's rate, or 60 exactly when that is zero
      (a negative rate is kept). */
  function WindowSize(allowedRps: int): int
  {
    if allowedRps == 0 then FallbackWindow else allowedRps
  }

  function Abs(a: int): nat
  {
    if a < 0 then -a else a
  }

  /** Integer division that truncates toward zero, as Go's `/` does. */
  function TruncDiv(a: int, b: int): int
    requires b != 0
  {
    var q := Abs(a) / Abs(b);
    if (a < 0) == (b < 0) then q else -q
  }

  /** The decision once the request has been counted: over the rate is 429 with the instant
      the window ends, otherwise 200 with no message. */
  function Decide(key: string, cfg: ServiceConfig, count: int, window: int, size: int): VerifyOutput
  {
    if count > cfg.allowedRps then
      VerifyOutput(key, cfg.name, true, RateExceeded(cfg.name, cfg.allowedRps, (window + 1) * size), StatusTooManyRequests)
    else
      VerifyOutput(key, cfg.name, false, NoMessage, StatusOK)
  }

  class VerifyUsecase {
    const store: RedisStore

    constructor (store: RedisStore)
      ensures this.store == store
    {
      this.store := store;
    }

    /** Decides one request. `policy` names the lookup's result, which the decision follows:
        a failed lookup is 500 and an invalid policy 403, both without counting; otherwise the
        counter of the policy's key in the current window is incremented once (a failed
        increment is 500), its expiry is requested on the first hit only, and the count is
        compared with the policy's rate. */
    method Verify(input: VerifyInput, now: int, faults: Faults)
      returns (out: VerifyOutput, ghost policy: Result<ServiceConfig, StoreError>)
      requires store.Valid()
      modifies store
      ensures store.Valid()
      ensures out.key == ResolveKey(input)
      ensures out.status in {StatusOK, StatusForbidden, StatusTooManyRequests, StatusInternalServerError}
      ensures !out.blocked <==> out.status == StatusOK
      ensures LookupOutcome(old(store.configs), ResolveKey(input),
                            faults.lookup, faults.defaultLookup, faults.provisionWrite, policy, store.configs)
      ensures policy.Success? ==> policy.value.key == ResolveKey(input)
      ensures policy.Failure? ==>
        && out == VerifyOutput(ResolveKey(input), "", true, LookupFailed, StatusInternalServerError)
        && store.counters == old(store.counters) && store.ttls == old(store.ttls)
      ensures policy.Success? && !policy.value.valid ==>
        && out == VerifyOutput(ResolveKey(input), policy.value.name, true, ServiceBlocked, StatusForbidden)
        && store.counters == old(store.counters) && store.ttls == old(store.ttls)
      ensures policy.Success? && policy.value.valid && faults.increment ==>
        && out == VerifyOutput(ResolveKey(input), policy.value.name, true, CountFailed, StatusInternalServerError)
        && store.counters == old(store.counters) && store.ttls == old(store.ttls)
      ensures policy.Success? && policy.value.valid && !faults.increment ==>
        var cfg := policy.value;
        var size := WindowSize(cfg.allowedRps);
        var window := TruncDiv(now, size);
        var count := CountOf(old(store.counters), cfg.key, window) + 1;
        && (count == 1 <==> (cfg.key, window) !in old(store.counters))
        && store.counters == old(store.counters)[(cfg.key, window) := count]
        && store.ttls == (if count == 1 && !faults.expire
                          then old(store.ttls)[(cfg.key, window) := size + ExpirySlack]
                          else old(store.ttls))
        && out == Decide(ResolveKey(input), cfg, count, window, size)
    {
      var key := ResolveKey(input);

      var lookup := store.GetServiceRateLimit(key, faults.lookup, faults.defaultLookup, faults.provisionWrite);
      policy := lookup;
      if lookup.Failure? {
        return VerifyOutput(key, "", true, LookupFailed, StatusInternalServerError), policy;
      }
      var config := lookup.value;

      if !config.valid {
        return VerifyOutput(key, config.name, true, ServiceBlocked, StatusForbidden), policy;
      }

      var windowSize := WindowSize(config.allowedRps);
      var window := TruncDiv(now, windowSize);

      var counted := store.IncrementRequestCount(config.key, window, faults.increment);
      if counted.Failure? {
        return VerifyOutput(key, config.name, true, CountFailed, StatusInternalServerError), policy;
      }
      var count := counted.value;

      if count == 1 {
        var _ := store.SetExpiration(config.key, window, windowSize + ExpirySlack, faults.expire);
      }

      out := Decide(key, config, count, window, windowSize);
    }
  }

  // ---------------------------------------------------------------------------
  // Window arithmetic.

  /** For a non-negative clock and a positive window, truncating and Euclidean division agree. */
  lemma TruncDivAgreesOnNaturals(a: int, b: int)
    requires a >= 0 && b > 0
    ensures TruncDiv(a, b) == a / b
  {
  }

  /** With a positive window, a later clock never gives an earlier window index. */
  lemma WindowIndexMonotone(t1: int, t2: int, size: int)
    requires size > 0 && t1 <= t2
    ensures TruncDiv(t1, size) <= TruncDiv(t2, size)
  {
    if t1 >= 0 {
      TruncDivAgreesOnNaturals(t1, size);
      TruncDivAgreesOnNaturals(t2, size);
      DivMonotone(t1, t2, size);
    } else if t2 < 0 {
      TruncDivOfNegative(t1, size);
      TruncDivOfNegative(t2, size);
      DivMonotone(-t2, -t1, size);
    } else {
      TruncDivOfNegative(t1, size);
      TruncDivAgreesOnNaturals(t2, size);
      DivNonNegative(t2, size);
    }
  }

  lemma TruncDivOfNegative(a: int, b: int)
    requires a < 0 && b > 0
    ensures TruncDiv(a, b) == -((-a) / b) <= 0
  {
    DivNonNegative(-a, b);
  }

  lemma DivNonNegative(a: nat, d: int)
    requires d > 0
    ensures a / d >= 0
  {
  }

  lemma DivMonotone(a: nat, b: nat, d: int)
    requires d > 0 && a <= b
    ensures a / d <= b / d
  {
    if a / d > b / d {
      assert (b / d + 1) * d <= (a / d) * d by {
        MulMonotone(b / d + 1, a / d, d);
      }
    }
  }

  lemma MulMonotone(x: int, y: int, d: int)
    requires d > 0 && x <= y
    ensures x * d <= y * d
  {
  }

  /** With a positive window, the instant a 429 names as the end of the block is after `now`,
      and for a clock at or after the epoch it is at most one window away. */
  lemma BlockEndsAfterNow(now: int, size: int)
    requires size > 0
    ensures (TruncDiv(now, size) + 1) * size > now
    ensures now >= 0 ==> (TruncDiv(now, size) + 1) * size <= now + size
  {
    var q := TruncDiv(now, size);
    if now >= 0 {
      assert q == now / size;
      assert q * size <= now < q * size + size;
    } else {
      assert q == -((-now) / size);
      assert ((-now) / size) * size <= -now;
    }
  }

  // ---------------------------------------------------------------------------
  // The threshold.

  /** A counted request is admitted exactly when its count is within the policy's rate; a
      zero or negative rate therefore rejects every request. */
  lemma AdmittedWithinRate(key: string, cfg: ServiceConfig, count: int, window: int, size: int)
    requires count >= 1
    ensures Decide(key, cfg, count, window, size).status == StatusOK <==> count <= cfg.allowedRps
    ensures cfg.allowedRps <= 0 ==> Decide(key, cfg, count, window, size).status == StatusTooManyRequests
  {
  }

  /** The policy a request for `key` is answered with: the stored one, or the default
      provisioned for `key` (whose name, being generated, is left out). */
  function PolicyFor(configs: map<string, ServiceConfig>, key: string): ServiceConfig
    requires key in configs || DefaultName in configs
  {
    if key in configs then configs[key] else configs[DefaultName].(key := key, valid := true)
  }

  /** The status the `j`-th of a run of requests gets (counting from 0). */
  function ExpectedStatus(p: ServiceConfig, j: nat): int
  {
    if !p.valid then StatusForbidden
    else if j < p.allowedRps then StatusOK
    else StatusTooManyRequests
  }

  /** `n` requests in a row from one client within one second, with Redis healthy and the
      window's counter at zero: an invalid policy refuses each with 403; otherwise exactly the
      first `allowedRps` are admitted and every later one gets 429. */
  method SequentialRequests(usecase: VerifyUsecase, input: VerifyInput, now: int, n: nat)
    returns (statuses: seq<int>)
    requires usecase.store.Valid()
    requires ResolveKey(input) in usecase.store.configs || DefaultName in usecase.store.configs
    requires var p := PolicyFor(usecase.store.configs, ResolveKey(input));
      CountOf(usecase.store.counters, ResolveKey(input), TruncDiv(now, WindowSize(p.allowedRps))) == 0
    modifies usecase.store
    ensures |statuses| == n
    ensures forall j :: 0 <= j < n ==>
      statuses[j] == ExpectedStatus(PolicyFor(old(usecase.store.configs), ResolveKey(input)), j)
  {
    var store := usecase.store;
    var key := ResolveKey(input);
    ghost var p := PolicyFor(store.configs, key);
    ghost var window := TruncDiv(now, WindowSize(p.allowedRps));
    statuses := [];
    for j := 0 to n
      invariant store.Valid()
      invariant |statuses| == j
      invariant forall i :: 0 <= i < j ==> statuses[i] == ExpectedStatus(p, i)
      invariant key in store.configs || DefaultName in store.configs
      invariant j == 0 ==> p == PolicyFor(store.configs, key)
      invariant j > 0 ==> key in store.configs
      invariant j > 0 ==> var q := store.configs[key];
        q.valid == p.valid && q.allowedRps == p.allowedRps && q.key == key
      invariant CountOf(store.counters, key, window) == if p.valid then j else 0
    {
      var out;
      ghost var policy;
      out, policy := usecase.Verify(input, now, NoFaults);
      statuses := statuses + [out.status];
    }
  }
}
