# Rate limiter core in Dafny

This project models the core of a Go HTTP rate limiter. The limiter admits or rejects each request by a per-identity fixed-window policy kept in Redis. Four parts are modelled:

- **Policy-set validation** (`entity.dfy`, module `Entity`). `Config.Validate` filters the configured `ServiceConfig` list in place. It:
  - refuses an empty list;
  - requires an entry named `default` and forces the key of every such entry to `default`;
  - drops entries that fail a check, with one error each;
  - drops later duplicates of a retained name silently;
  - fills the empty wait time and zero rate of valid retained entries from the last `default` entry.

  The class method is proved equal to a specification function `Validated`. The lemmas about `Validated` state the contract: an order-preserving subsequence, distinct names, well-formed entries, first acceptable occurrence wins, one error per invalid entry, and an error whenever nothing is retained.
- **The Redis store** (`store.dfy`, module `Store`). Class `RedisStore` holds three maps:
  - the hash `rate_limit_config` (policy key to policy);
  - the request counters (policy key and window index to count);
  - the requested expiries.

  A lookup of an unknown key clones the `default` policy under a generated name `service-` plus twelve characters. The twelve characters come from `RandomString` and are drawn from the 62-letter alphanumeric charset. The clone is written back, and a failed write is ignored.
- **The admission decision** (`verify.dfy`, module `Verify`). `VerifyUsecase.Verify` does the following in order:
  1. resolves the identity: the API key, else the client address;
  2. looks up or provisions the policy, answering 500 on a store error and 403 on an invalid policy;
  3. counts the request once in window `now / windowSize`, where the window is the rate in seconds, or 60 when the rate is 0;
  4. requests an expiry of `windowSize + 5` seconds on the first hit;
  5. answers 429 above the rate and 200 otherwise.

  `SequentialRequests` replays the burst of the end-to-end test within one second. It proves that exactly the first `allowedRps` requests are admitted.
- **The hello use case** (`mydomain.dfy`, module `Mydomain`). `Execute` fails on an empty requester and otherwise greets it.

`wrappers.dfy` holds the `Option` and `Result` datatypes.

Behaviour of the code worth knowing, which the model keeps as written:

- A `default` entry that fails a check is dropped with an error. Its wait time and rate are still inherited by the other entries. So a retained entry can end with a negative rate, and the validated list can lack a `default` entry. `Entity.NegativeRateInherited` exhibits both.
- Several entries may be named `default`. All get key `default`, and the values inherited are the last one's.
- Integer division is Go's, truncating toward zero (`Verify.TruncDiv`). The clock may be before the epoch and the window may be negative.
- The window falls back to 60 seconds only for a rate of exactly 0. A negative rate is used as the window length. The variable `windowSeconds`, which falls back for every non-positive rate, is never used.
- Auto-provisioning happens inside the store's lookup (store.go:48-90); the decision logic only sees the policy it returns.
- After a failed lookup, the decision carries the empty name of Go's zero-valued record (usecase.go:33-40).
- The validation error texts are the code's own (`Entity.Message`). Each decision message is a constructor of `Verify.Message`.

## Model

| member | source | states |
|---|---|---|
| `Entity.Config.Validate` | internal/api/web/middleware/ratelimiter/entity/service.go:22-99 | the in-place filtering leaves `services` and returns the errors exactly as the specification `Validated` of the old list says |
| `Entity.ScanDefaults` | internal/api/web/middleware/ratelimiter/entity/service.go:37-44 | the first loop forces the key of every entry named `default` and leaves every other entry as it was; it reports a default exactly when some entry is named `default`, with the wait time and rate of the last one |
| `Entity.FilterServices` | internal/api/web/middleware/ratelimiter/entity/service.go:51-85 | the filtering loop keeps and reports exactly what the specification `Screen` says, whose properties are the `Screen…` lemmas below |
| `Entity.FillDefaults` | internal/api/web/middleware/ratelimiter/entity/service.go:88-95 | the last loop changes, entry by entry, only an empty wait time or a zero rate of a valid entry, to the default's value |
| `Entity.Check` | internal/api/web/middleware/ratelimiter/entity/service.go:52-80 | the per-entry checks pass exactly for a well-formed entry (non-empty name, type `ip` or `token`, rate >= 0, key for `token`, address for `ip`), and the empty-name error arises exactly for an empty name |
| `Entity.EmptyListRejected` | internal/api/web/middleware/ratelimiter/entity/service.go:28-30 | an empty list stays empty with the single error "services cannot be empty" |
| `Entity.NoDefaultRejected` | internal/api/web/middleware/ratelimiter/entity/service.go:45-48 | a non-empty list without an entry named `default` becomes empty with the single error "default service is missing" |
| `Entity.DefaultKeysForced` | internal/api/web/middleware/ratelimiter/entity/service.go:37-43 | every entry named `default` gets key `default` before filtering, and no other field of any entry changes |
| `Entity.LastDefaultIsLast` | internal/api/web/middleware/ratelimiter/entity/service.go:37-44 | a default exists exactly when some entry is named `default`, and the inherited values are those of the last such entry |
| `Entity.ScreenMatchesReference` | internal/api/web/middleware/ratelimiter/entity/service.go:51-85 | the seen-name set equals the names of all entries passing every check; the retained list is, in order, each entry that passes every check with no earlier passing entry of its name; the errors are the failed checks of exactly the entries that are neither retained nor duplicates |
| `Entity.ScreenRetainedUniqueWellFormed` | internal/api/web/middleware/ratelimiter/entity/service.go:57-84 | retained entries are well-formed, their names are pairwise distinct, and the seen set holds exactly their names |
| `Entity.ScreenIsSubsequence` | internal/api/web/middleware/ratelimiter/entity/service.go:51-85 | the retained entries are the input with entries left out, in input order |
| `Entity.ScreenKeptFromInput` | internal/api/web/middleware/ratelimiter/entity/service.go:82-84 | every retained entry is an entry of the input |
| `Entity.ScreenAccounting` | internal/api/web/middleware/ratelimiter/entity/service.go:51-85 | retained + errors + silently dropped duplicates = input length: each invalid entry gives exactly one error |
| `Entity.ScreenEmptyHasErrors` | internal/api/web/middleware/ratelimiter/entity/service.go:51-85 | a non-empty input that retains nothing reports at least one error |
| `Entity.ValidatedRetained` | internal/api/web/middleware/ratelimiter/entity/service.go:51-97 | every validated entry has a name, a type `ip`/`token`, a key if `token`, an address if `ip`, key `default` if named `default`, and a rate >= 0 unless it inherited a negative default rate; the names are pairwise distinct |
| `Entity.ValidatedInheritance` | internal/api/web/middleware/ratelimiter/entity/service.go:87-97 | the result is the filtered input in order, where only wait time and rate can differ: a valid entry with empty wait time or zero rate takes the last default's value, a non-empty/non-zero value is kept, and an invalid entry is unchanged |
| `Entity.ValidatedAccounting` | internal/api/web/middleware/ratelimiter/entity/service.go:51-97 | with a default present, every input entry is retained, dropped as a duplicate, or reported by exactly one error |
| `Entity.ValidatedEmptyHasErrors` | internal/api/web/middleware/ratelimiter/entity/service.go:22-99 | an empty validated list always comes with at least one error |
| `Entity.NegativeRateInherited` | internal/api/web/middleware/ratelimiter/entity/service.go:37-95 | a `default` with rate -1 is dropped with an error, yet a valid entry with rate 0 is retained with rate -1 and the result has no `default` |
| `Entity.LoadValidated` | internal/api/web/middleware/ratelimiter/configs/config.go:50-59 | the loader fails exactly when the validated list is empty, and then with the first validation error, which always exists; an empty list fails with "services cannot be empty" and a list without default with "default service is missing" |
| `Store.CharsetIsAlphanumeric` | internal/infra/database/redis/store.go:15 | the charset has 62 characters and holds exactly the ASCII letters and digits |
| `Store.RandomString` | internal/infra/database/redis/store.go:14-21 | the result has exactly the requested length and every character is drawn from the charset |
| `Store.GeneratedNameIsAlphanumeric` | internal/infra/database/redis/store.go:76 | a provisioned name is "service-" followed by twelve ASCII letters or digits |
| `Store.RedisStore.constructor` | internal/infra/database/redis/store.go:27-34 | a new store has no policies, counters or expiries |
| `Store.RedisStore.SetServiceConfig` | internal/infra/database/redis/store.go:36-46 | the hash entry for the policy's key becomes the policy (unless the write fails, which is reported); every other entry and all counters are unchanged |
| `Store.RedisStore.GetServiceRateLimit` | internal/infra/database/redis/store.go:48-90 | a hit returns the stored policy and writes nothing; a miss with a readable default returns the default with the requested key, `valid` true and a generated name, other fields equal, and stores it unless the write fails, returning it either way; a miss without default, or a failed read, is an error that writes nothing; the returned policy's key is the requested key |
| `Store.LookupKeepsEntries` | internal/infra/database/redis/store.go:54-85 | a lookup never changes an existing entry (the `default` included) and keeps every policy stored under its own key |
| `Store.RepeatedLookupIsStable` | internal/infra/database/redis/store.go:54-85 | after a successful lookup whose write succeeded, looking the same key up again returns the same policy, name included, and writes nothing |
| `Store.ProvisionThenLookup` | internal/infra/database/redis/store.go:61-85 | provisioning an unknown key and then looking it up again returns the same provisioned policy twice and adds exactly that entry |
| `Store.CountOf` | internal/api/web/middleware/ratelimiter/usecase/verify/usecase.go:68-82 | over counters that INCR built (each at least 1), a counter reads zero exactly when Redis holds none, so the count INCR returns is 1 exactly on the hit that creates the window's counter, the hit whose expiry the use case sets |
| `Store.RedisStore.IncrementRequestCount` | internal/infra/database/redis/store.go:92-98 | returns the previous count of (key, window) plus one, absent meaning 0, and changes no other counter, policy or expiry; a failed increment changes nothing |
| `Store.RedisStore.SetExpiration` | internal/infra/database/redis/store.go:100-105 | records the TTL of an existing counter and changes nothing else; a failure is reported |
| `Verify.VerifyUsecase.constructor` | internal/api/web/middleware/ratelimiter/usecase/verify/usecase.go:15-19 | the use case decides against the store it is given |
| `Verify.VerifyUsecase.Verify` | internal/api/web/middleware/ratelimiter/usecase/verify/usecase.go:21-112 | key = API key or else client address, carried by every output; a lookup error gives 500 and an invalid policy 403, both without counting; otherwise exactly one increment on (policy key, now / window), 500 if it fails; an expiry of window + 5 s only when the count is 1, which is exactly when the counter did not exist before; 429 with the window's end instant when the count exceeds the rate, else 200 with no message; blocked exactly when the status is not 200 |
| `Verify.TruncDivAgreesOnNaturals` | internal/api/web/middleware/ratelimiter/usecase/verify/usecase.go:64 | for a clock at or after the epoch and a positive window, the window index is the Euclidean quotient |
| `Verify.WindowIndexMonotone` | internal/api/web/middleware/ratelimiter/usecase/verify/usecase.go:60-64 | with a positive window, a later clock never yields an earlier window index |
| `Verify.BlockEndsAfterNow` | internal/api/web/middleware/ratelimiter/usecase/verify/usecase.go:86-88 | the reported end of a block lies after `now`, and at most one window after it for a clock at or after the epoch |
| `Verify.AdmittedWithinRate` | internal/api/web/middleware/ratelimiter/usecase/verify/usecase.go:86-111 | a counted request is admitted exactly when its count is within the rate, so a rate of 0 rejects every request |
| `Verify.SequentialRequests` | cmd/ratelimiter/main_test.go:42-84 | n requests from one client in the same second with a zero counter: an invalid policy gets 403 every time; otherwise exactly the first `allowedRps` get 200 and all later ones 429, for a stored policy and for one provisioned from the default alike |
| `Mydomain.Execute` | internal/domain/mydomain/usecase/usecase.go:14-24 | an error is returned exactly when the requester is empty, then with text "requester is empty" and an empty message; otherwise the message is "Hello, " followed by the requester |
| `Mydomain.GreetingNamesRequester` | internal/domain/mydomain/usecase/usecase.go:21-23 | every successful greeting is addressed to exactly its requester |

## Left out

- Redis client, connection settings and JSON encoding (store.go:28-32, 39, 56, 69): the hash and the counters are maps. The JSON round trip is taken as the identity, so a decoding error is not modelled.
- Store.RedisStore.constructor: it stands for a store over a fresh, empty database, whereas `NewRedisStore` (store.go:27-34) only connects to a server that may already hold policies and counters. No other contract relies on the maps being empty: `Verify` and `SequentialRequests` accept any store satisfying `Valid()`.
- Logging: the warning printed when the write of a provisioned policy fails (store.go:82) and the loader's logging of the non-fatal validation errors (config.go:55-57) are output only; no result depends on them.
- Whether a Redis round trip fails is an input (`Verify.Faults`, and the boolean parameters of the store methods), not a behaviour.
- Counter keys: the string `rate_limit_counter:<key>:<window>` and the decimal window key are replaced by the pair (key, window index). This is equivalent because the window part never contains `:`.
- Expiry semantics (store.go:100-105): `SetExpiration` only records the TTL. Eviction of counters over time, and Redis deleting a key given a non-positive TTL, are not modelled.
- Randomness (store.go:18): each character of `RandomString` is an arbitrary choice from the charset.
- The clock and the message texts (usecase.go:59, 88-94): `now` is a parameter, and the reset instant is kept as Unix seconds rather than local `HH:MM:SS` text. The 500 and 403 texts are constructors of `Verify.Message`.
- `windowSeconds` (usecase.go:54-57) is computed but never used, so it is not modelled.
- The `Store` interface is modelled by its one implementation, `RedisStore`, because the decision is proved against that store's contract.
- Pointer aliasing in `Config.Services`: entries are values, and the in-place struct updates become element updates of the sequence. A list holding the same pointer twice is not modelled, since the configuration loader never builds one.
- Integer widths: Go `int`/`int64` overflow of counters, rates and Unix time is not modelled.
- Configuration file loading (config.go:14-48), HTTP handlers and routing, environment reading, and the startup seeding of the store (main.go:41-43) are I/O and wiring. The seeding is only a sequence of `SetServiceConfig` calls.
- Concurrency: two first-time lookups racing to provision one key, and the atomicity of INCR across instances, are not modelled. Every operation is a sequential step.
- `context.Context` parameters are not modelled, since they carry nothing the code uses.
