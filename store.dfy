/**
 * The Redis-backed policy store: the hash `rate_limit_config` of policies keyed by their
 * `Key`, and the per-window request counters `rate_limit_counter:<key>:<window>`.
 * The Redis server is modelled by three maps; whether a round trip to it fails is a
 * parameter of each operation.
 */
module Store {
  import opened Wrappers
  import opened Entity

  const Lowercase: string := "abcdefghijklmnopqrstuvwxyz"
  const Uppercase: string := "ABCDEFGHIJKLMNOPQRSTUVWXYZ"
  const Digits: string := "0123456789"

  /** The alphabet of generated names, the lower-case letters, then the upper-case letters,
      then the digits. */
  const Charset: string := Lowercase + Uppercase + Digits

  /** The prefix of the name of an auto-provisioned policy, and the length of its random part. */
  const ServicePrefix: string := "service-"
  const SuffixLength: nat := 12

  predicate IsAlphanumeric(c: char)
  {
    ('a' <= c <= 'z') || ('A' <= c <= 'Z') || ('0' <= c <= '9')
  }

  /** The charset holds 62 characters, and they are exactly the ASCII letters and digits. */
  lemma CharsetIsAlphanumeric()
    ensures |Charset| == 62
    ensures forall c :: c in Charset <==> IsAlphanumeric(c)
  {
    LowercaseIsContiguous();
    UppercaseIsContiguous();
    DigitsAreContiguous();
    forall c ensures c in Charset <==> IsAlphanumeric(c) {
      RangeIsContiguous(Lowercase, 'a', c);
      RangeIsContiguous(Uppercase, 'A', c);
      RangeIsContiguous(Digits, '0', c);
    }
  }

  lemma LowercaseIsContiguous()
    ensures |Lowercase| == 26
    ensures forall k :: 0 <= k < |Lowercase| ==> Lowercase[k] as int == 'a' as int + k
  {
  }

  lemma UppercaseIsContiguous()
    ensures |Uppercase| == 26
    ensures forall k :: 0 <= k < |Uppercase| ==> Uppercase[k] as int == 'A' as int + k
  {
  }

  lemma DigitsAreContiguous()
    ensures |Digits| == 10
    ensures forall k :: 0 <= k < |Digits| ==> Digits[k] as int == '0' as int + k
  {
  }

  /** A string holding consecutive characters from `first` holds exactly that range. */
  lemma RangeIsContiguous(s: string, first: char, c: char)
    requires forall k :: 0 <= k < |s| ==> s[k] as int == first as int + k
    ensures c in s <==> first as int <= c as int < first as int + |s|
  {
    if first as int <= c as int < first as int + |s| {
      assert s[c as int - first as int] == c;
    }
  }

  /** A string of `length` characters, each drawn from the charset; the draw is left open. */
  method RandomString(length: nat) returns (s: string)
    ensures |s| == length
    ensures forall i :: 0 <= i < |s| ==> s[i] in Charset
  {
    var b := new char[length];
    assert |Charset| == 62;
    for i := 0 to length
      invariant forall j :: 0 <= j < i ==> b[j] in Charset
    {
      var k :| 0 <= k < |Charset|;
      b[i] := Charset[k];
    }
    s := b[..];
  }

  /** The name given to an auto-provisioned policy: the prefix and twelve charset characters. */
  predicate IsGeneratedName(name: string)
  {
    && |name| == |ServicePrefix| + SuffixLength
    && name[..|ServicePrefix|] == ServicePrefix
    && forall i :: |ServicePrefix| <= i < |name| ==> name[i] in Charset
  }

  /** `c` is the default policy `d` provisioned for `key`: the key is `key`, the policy is
      valid, the name is generated, and every other field is the default's. */
  predicate ProvisionedFrom(d: ServiceConfig, key: string, c: ServiceConfig)
  {
    && c.key == key
    && c.valid
    && IsGeneratedName(c.name)
    && c.kind == d.kind
    && c.address == d.address
    && c.allowedRps == d.allowedRps
    && c.waitTime == d.waitTime
  }

  datatype StoreError =
    | Unreachable       // a Redis round trip failed
    | DefaultNotFound   // neither the key nor the default policy could be read

  /** The outcome of a policy lookup for `key` on the hash `before`, leaving the hash `after`:
      an exact hit is returned unchanged; a miss clones the default policy and writes the clone
      under `key` unless the write fails; a miss without a readable default is an error. */
  ghost predicate LookupOutcome(
    before: map<string, ServiceConfig>, key: string,
    lookupFails: bool, defaultFails: bool, writeFails: bool,
    r: Result<ServiceConfig, StoreError>, after: map<string, ServiceConfig>)
  {
    if lookupFails then
      r == Failure(Unreachable) && after == before
    else if key in before then
      r == Success(before[key]) && after == before
    else if defaultFails || DefaultName !in before then
      r == Failure(DefaultNotFound) && after == before
    else
      && r.Success?
      && ProvisionedFrom(before[DefaultName], key, r.value)
      && after == (if writeFails then before else before[key := r.value])
  }

  /** Every policy in the hash is stored under its own key. */
  ghost predicate KeyedByKey(configs: map<string, ServiceConfig>)
  {
    forall k :: k in configs ==> configs[k].key == k
  }

  /** A lookup keeps the hash keyed by policy key, never changes an existing entry, and
      returns a policy whose key is the requested key. */
  lemma LookupKeepsEntries(
    before: map<string, ServiceConfig>, key: string,
    lookupFails: bool, defaultFails: bool, writeFails: bool,
    r: Result<ServiceConfig, StoreError>, after: map<string, ServiceConfig>)
    requires KeyedByKey(before)
    requires LookupOutcome(before, key, lookupFails, defaultFails, writeFails, r, after)
    ensures KeyedByKey(after)
    ensures forall k :: k in before ==> k in after && after[k] == before[k]
    ensures r.Success? ==> r.value.key == key
  {
  }

  /** After a lookup that found or provisioned a policy and stored it, looking the same key up
      again returns the same policy, name included, and writes nothing. */
  lemma RepeatedLookupIsStable(
    before: map<string, ServiceConfig>, key: string, defaultFails: bool,
    r: Result<ServiceConfig, StoreError>, after: map<string, ServiceConfig>,
    defaultFails2: bool, writeFails2: bool,
    r2: Result<ServiceConfig, StoreError>, after2: map<string, ServiceConfig>)
    requires LookupOutcome(before, key, false, defaultFails, false, r, after)
    requires r.Success?
    requires LookupOutcome(after, key, false, defaultFails2, writeFails2, r2, after2)
    ensures r2 == r && after2 == after
  {
  }

  /** A generated name is "service-" followed by twelve ASCII letters or digits. */
  lemma GeneratedNameIsAlphanumeric(name: string)
    requires IsGeneratedName(name)
    ensures name[..8] == "service-" && |name| == 20
    ensures forall i :: 8 <= i < 20 ==> IsAlphanumeric(name[i])
  {
    CharsetIsAlphanumeric();
  }

  /** Every counter Redis holds is at least 1, since INCR creates a counter at 1. */
  ghost predicate PositiveCounters(counters: map<(string, int), int>)
  {
    forall w :: w in counters ==> counters[w] >= 1
  }

  /** The counters as Redis holds them: an absent counter reads as zero. Over counters that
      INCR built, a counter reads zero exactly when there is none, so the count INCR returns is
      1 exactly on the first hit of the window, the hit that creates the counter. */
  function CountOf(counters: map<(string, int), int>, key: string, window: int): (n: int)
    ensures PositiveCounters(counters) ==> n >= 0
    ensures PositiveCounters(counters) ==> (n + 1 == 1 <==> (key, window) !in counters)
  {
    if (key, window) in counters then counters[(key, window)] else 0
  }

  class RedisStore {
    /** The hash `rate_limit_config`: field = policy key, value = the policy. */
    var configs: map<string, ServiceConfig>
    /** The counters, keyed by policy key and window index. */
    var counters: map<(string, int), int>
    /** The expiry last requested for each counter, in seconds. */
    var ttls: map<(string, int), int>

    ghost predicate Valid()
      reads this
    {
      && KeyedByKey(configs)
      && PositiveCounters(counters)
    }

    /** A store over an empty Redis database. */
    constructor ()
      ensures Valid()
      ensures configs == map[] && counters == map[] && ttls == map[]
    {
      configs := map[];
      counters := map[];
      ttls := map[];
    }

    /** Upserts `cfg` under its key; `writeFails` is a failed HSET, which changes nothing. */
    method SetServiceConfig(cfg: ServiceConfig, writeFails: bool) returns (err: Option<StoreError>)
      requires Valid()
      modifies this
      ensures Valid()
      ensures err.Some? <==> writeFails
      ensures configs == if writeFails then old(configs) else old(configs)[cfg.key := cfg]
      ensures counters == old(counters) && ttls == old(ttls)
    {
      if writeFails {
        err := Some(Unreachable);
      } else {
        configs := configs[cfg.key := cfg];
        err := None;
      }
    }

    /** Looks the policy for `key` up, provisioning it from the default policy on a miss.
        `lookupFails` is a failed read of `key` (other than a miss), `defaultFails` a failed read
        of the default, `writeFails` a failed write of the provisioned policy. */
    method GetServiceRateLimit(key: string, lookupFails: bool, defaultFails: bool, writeFails: bool)
      returns (r: Result<ServiceConfig, StoreError>)
      requires Valid()
      modifies this
      ensures Valid()
      ensures LookupOutcome(old(configs), key, lookupFails, defaultFails, writeFails, r, configs)
      ensures r.Success? ==> r.value.key == key
      ensures counters == old(counters) && ttls == old(ttls)
    {
      if lookupFails {
        return Failure(Unreachable);
      }
      if key in configs {
        return Success(configs[key]);
      }
      if defaultFails || DefaultName !in configs {
        return Failure(DefaultNotFound);
      }
      var defaultCfg := configs[DefaultName];
      var suffix := RandomString(SuffixLength);
      var newCfg := defaultCfg.(key := key, name := ServicePrefix + suffix, valid := true);
      assert (ServicePrefix + suffix)[..|ServicePrefix|] == ServicePrefix;
      var _ := SetServiceConfig(newCfg, writeFails);
      return Success(newCfg);
    }

    /** INCR of the counter of `key` in `window`: returns the previous count plus one. */
    method IncrementRequestCount(key: string, window: int, incrementFails: bool)
      returns (r: Result<int, StoreError>)
      requires Valid()
      modifies this
      ensures Valid()
      ensures incrementFails ==> r == Failure(Unreachable) && counters == old(counters)
      ensures !incrementFails ==> r == Success(CountOf(old(counters), key, window) + 1)
      ensures !incrementFails ==> counters == old(counters)[(key, window) := r.value]
      ensures configs == old(configs) && ttls == old(ttls)
    {
      if incrementFails {
        return Failure(Unreachable);
      }
      var count := CountOf(counters, key, window) + 1;
      counters := counters[(key, window) := count];
      return Success(count);
    }

    /** EXPIRE on the counter of `key` in `window`: records the TTL when the counter exists. */
    method SetExpiration(key: string, window: int, ttl: int, expireFails: bool) returns (err: Option<StoreError>)
      requires Valid()
      modifies this
      ensures Valid()
      ensures err.Some? <==> expireFails
      ensures ttls == if !expireFails && (key, window) in old(counters) then old(ttls)[(key, window) := ttl] else old(ttls)
      ensures configs == old(configs) && counters == old(counters)
    {
      if expireFails {
        return Some(Unreachable);
      }
      if (key, window) in counters {
        ttls := ttls[(key, window) := ttl];
      }
      return None;
    }
  }

  /** A key provisioned from the default and stored is found again, with the same policy. */
  method ProvisionThenLookup(store: RedisStore, key: string)
    returns (first: Result<ServiceConfig, StoreError>, second: Result<ServiceConfig, StoreError>)
    requires store.Valid()
    requires key !in store.configs && DefaultName in store.configs
    modifies store
    ensures first.Success? && ProvisionedFrom(old(store.configs)[DefaultName], key, first.value)
    ensures second == first
    ensures store.configs == old(store.configs)[key := first.value]
  {
    first := store.GetServiceRateLimit(key, false, false, false);
    second := store.GetServiceRateLimit(key, false, false, false);
  }
}
