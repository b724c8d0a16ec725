# ts-utils core, modelled in Dafny

A Dafny model of the stateful and data-filtering core of the `ts-utils` TypeScript
utility library:

- **Backoff** (`src/Backoff.ts`): a circuit that calls a callable until it resolves
  true. The state is the delay pair `(prevDelay, nextDelay)`, seeded `(0, 1)` for
  LINEAR and `(1, 1)` for FIBONACCI and EXPONENTIAL. After each false result the
  strategy's calculator gives the new `nextDelay` (`n + 1`, `prev + n`, `n << 1`).
  The circuit sleeps for the delay that was current before the update. Once the new
  delay reaches a positive `maxWait`, it waits `maxWait - prevDelay` and throws.
  The model is the per-attempt step (`Backoff.Next`), a run over a sequence of
  callable results (`Backoff.Run`) and `start`'s optional initial delay.
- **Lockable** (`src/Lockable.ts`): the base `Latchable` (one `latch`, then locked)
  and its subclass `Lockable` (`set`, `offer`, `lock`, `unlock`). Both are
  immutable `(value, locked)` records with step functions that return a result or
  the thrown error.
- **Latchable** (`src/Latchable.ts`): the standalone `Latchable`. It locks on
  construction iff the value is truthy. It has an immutable mode that freezes the
  value, and it has no unlock.
- **Objects** (`src/Objects.ts`): `nonNull`, `nonUndefined`, `truthy` and `drop`,
  as order-preserving filters over an object's `(key, value)` entries.
- **Enum** (`src/Enum.ts`): `keys`, `values` and `length` of an enum object.
- **Functions** (`src/Functions.ts`): `isTruthy`, `isFalsey` and `coerceBoolean`,
  over a small datatype of JavaScript values.

Modules: `Seqs` (order-preserving filter and the subsequence relation), `JsValues`
(values, `typeof`, ToBoolean, entries and property lookup), `Results` (errors and
results), then one module per source file: `Functions`, `Objects`, `Enum`,
`Backoff`, `Lockable`, `Latchable`.

Facts about the code that the model keeps:

- FIBONACCI sleeps are 1, 2, 3, 5, 8, … (src/Backoff.ts:13, 27, 39-42).
- The timeout compares the newly computed delay with `maxWait`
  (src/Backoff.ts:64), and the final wait is `maxWait` minus the delay current
  before that failure (src/Backoff.ts:62, 65).
- An offer writes at the first poll that sees the holder unlocked. A timed offer
  rejects at the first poll that sees it locked after the countdown has gone
  negative (src/Lockable.ts:88-93, src/Futures.ts:92-101).

## Model

| member | source | states |
|---|---|---|
| Functions.IsTruthy | src/Functions.ts:186-188 | `!!v` is false exactly for undefined, null, false, 0 and the empty string, and true for everything else, including empty arrays and objects |
| Functions.IsFalsey | src/Functions.ts:197-199 | `!v` is true exactly for those five falsy values |
| Functions.IsFalseyNegatesIsTruthy | src/Functions.ts:186-199 | `isFalsey(v)` is the negation of `isTruthy(v)` for every value |
| Functions.EmptyContainersAreTruthy | src/Functions.ts:186-188 | empty arrays, empty objects, a blank-space string and negative numbers are truthy |
| Functions.CoerceBoolean | src/Functions.ts:173-177 | a string coerces to true iff it is "true" in any mix of letter case; any other value coerces to its truthiness |
| Functions.CoerceBooleanExamples | src/Functions.ts:173-176 | "TRUE", "True" and "tRuE" give true; "yes", "1", "true ", "" and "false" give false; non-strings follow truthiness |
| Seqs.Filter | src/Enum.ts:31 | `Array.prototype.filter` keeps exactly the elements satisfying the predicate and never grows the list |
| Seqs.FilterCounts | src/Enum.ts:31 | `filter` keeps every copy of each accepted element and no copy of a rejected one: the result holds each element as often as the input does when the predicate accepts it, and never otherwise |
| Seqs.FilterIsSubsequence | src/Objects.ts:13-16 | copying the accepted keys in `Object.keys` order yields a subsequence of the input: no new entries, none reordered |
| Seqs.FilterIdempotent | src/Objects.ts:28-68 | filtering a second time with the same guard changes nothing |
| Objects.NonNull | src/Objects.ts:11-18 | as written, the result is a subsequence of the input entries |
| Objects.NonNullIsIdentity | src/Objects.ts:14 | as written, the guard holds of every value, so `nonNull` returns a copy of its whole input |
| Objects.NonNullKeepsNull | test/objects.spec.ts:31-37 | on an object with a null and an undefined property, `nonNull` keeps both, while the corrected filter drops both |
| Objects.NonNullIntended | src/Objects.ts:4-10 | the documented `nonNull` keeps exactly the entries whose value is neither null nor undefined, in input order |
| Objects.NonUndefined | src/Objects.ts:28-35 | keeps exactly the entries whose value is not undefined (null, 0 and false stay), values unchanged, input order kept |
| Objects.Truthy | src/Objects.ts:46-53 | keeps exactly the entries whose value is not one of the five falsy values, so empty arrays and objects stay |
| Objects.Drop | src/Objects.ts:62-68 | keeps exactly the entries whose key is not among the listed keys, values unchanged, input order kept |
| Objects.FilterKeys | src/Objects.ts:11-68 | for an object with distinct keys, which own keys each filter keeps: all of them for `nonNull`, the non-undefined ones, the truthy ones, the unlisted ones |
| Objects.FiltersIdempotent | src/Objects.ts:11-68 | applying any of the filters twice equals applying it once |
| Enum.Values | src/Enum.ts:18-20 | `values(o, t)` has one element per key of `keys(o, t)`, and every element has runtime type `t` |
| Enum.Keys | src/Enum.ts:30-32 | `keys(o, t)` lists keys of `o` only, in `Object.keys` order, every one with a value of runtime type `t`, and it lists every key whose value has type `t` |
| Enum.Length | src/Enum.ts:41-43 | `length(o)` counts every own key, whatever its value |
| Enum.KeysExact | src/Enum.ts:30-32 | a key of an object is listed by `keys(o, t)` iff its value's `typeof` is `t` |
| Enum.KeysInOrder | src/Enum.ts:30-43 | `keys(o, t)` is a subsequence of `Object.keys(o)`, so it is never longer than `length(o)` |
| Enum.ValuesAreValuesOfType | src/Enum.ts:18-32 | for an object with distinct keys, `values(o, t)` is the list of its values of type `t`, in key order |
| Enum.KeysPartitionLength | src/Enum.ts:4-43 | when every value is a number or a string, number keys plus string keys number exactly `length(o)` |
| Backoff.ToInt32 | src/Backoff.ts:14 | the 32-bit conversion `<<` applies lands in [-2^31, 2^31) and agrees with its input modulo 2^32 |
| Backoff.ShiftLeftOne | src/Backoff.ts:14 | `n << 1` lands in the signed 32-bit range and agrees with `2n` modulo 2^32 |
| Backoff.Calculate | src/Backoff.ts:11-15 | the three calculators: LINEAR adds one, FIBONACCI adds the previous delay, EXPONENTIAL doubles within 32 bits (exactly `2n` for `0 <= n < 2^30`) |
| Backoff.NewCircuit | src/Backoff.ts:19-20 | a new circuit keeps its strategy and budget; its delay pair starts at (0, 1) for LINEAR and (1, 1) otherwise (src/Backoff.ts:39-42) |
| Backoff.Shift | src/Backoff.ts:60-63 | one failure moves the current delay into `prevDelay` and computes the new `nextDelay` with the strategy's calculator from the old pair, keeping strategy and budget |
| Backoff.ShiftLeftOneDoubles | src/Backoff.ts:14 | the EXPONENTIAL calculator `n << 1` equals `2n` for `0 <= n < 2^30` |
| Backoff.ShiftLeftOneWraps | src/Backoff.ts:14 | at `n = 2^30` the shift wraps to `-2^31`, and shifting that gives 0 |
| Backoff.Next | src/Backoff.ts:57-71 | a true result leaves the circuit unchanged and schedules nothing; a false one shifts the pair, then retries after the old `nextDelay` or, iff the new delay reaches a positive `maxWait`, waits `maxWait` minus the old delay and throws the budget error |
| Backoff.Run | src/Backoff.ts:57-71 | a session stops at the first true result or at the timeout; every attempt before the last failed; a running session has one sleep per attempt, a finished one has one sleep fewer |
| Backoff.Start | src/Backoff.ts:51-55 | an initial wait of `initialDelay` seconds happens iff `initialDelay > 0`; the session then runs from the instance's current delay pair, which `start` does not reseed, and its i-th sleep is the delay reached after i more failures |
| Backoff.AfterClosedForm | src/Backoff.ts:11-63 | after k failures the pair is (k, k+1) for LINEAR, (Fib(k+1), Fib(k+2)) for FIBONACCI, and (2^(k-1), 2^k) for EXPONENTIAL (k ≤ 30; (1, 1) at k = 0) |
| Backoff.RunFollowsAfter | src/Backoff.ts:57-68 | the i-th sleep is the `nextDelay` reached after i failures, and the session ends in the circuit shifted once per failure |
| Backoff.SleepsFollowStrategy | src/Backoff.ts:22-28 | the sleeps of a fresh instance's first session follow 1, 2, 3, 4, … (LINEAR), 1, 2, 3, 5, 8, … (FIBONACCI), 1, 2, 4, 8, … (EXPONENTIAL); a restarted session resumes from the shifted pair instead (see `Backoff.Start`) |
| Backoff.UnboundedFailingSleeps | src/Backoff.ts:22-31 | with no budget, n failures leave a fresh circuit running after n sleeps that follow the strategy's sequence (EXPONENTIAL: n ≤ 31) |
| Backoff.LinearSequence | src/Backoff.ts:26 | LINEAR sleeps start 1, 2, 3, 4, 5 |
| Backoff.FibonacciSequence | src/Backoff.ts:27 | FIBONACCI sleeps start 1, 2, 3, 5, 8 |
| Backoff.ExponentialSequence | src/Backoff.ts:28 | EXPONENTIAL sleeps start 1, 2, 4, 8, 16 |
| Backoff.SucceedsOnCall | src/Backoff.ts:57-70 | a callable first true on call n+1 is called exactly n+1 times with n sleeps between, unless a failure reaches the budget first |
| Backoff.NoTimeoutWhenUnbounded | src/Backoff.ts:64 | with `maxWait <= 0` no number of failures raises the timeout |
| Backoff.TimeoutIsFirstOverrun | src/Backoff.ts:60-66 | a timeout happens at the first failure whose new delay reaches `maxWait`; its wait is `maxWait` minus the delay current before that failure; the error carries `maxWait` |
| Backoff.NoOverrunBeforeEnd | src/Backoff.ts:60-68 | a session that did not time out went through no failure whose new delay reached a positive `maxWait`, so with `TimeoutIsFirstOverrun` the timeout happens iff there is an overrun |
| Backoff.AlwaysFailingTimesOut | src/Backoff.ts:60-68 | on a fresh instance with a positive budget, a callable that always fails times out within `maxWait` attempts |
| Lockable.Latch | src/Lockable.ts:41-46 | `latch` succeeds iff unlocked, then holds the new value and is locked; otherwise it throws the "already locked" error |
| Lockable.NewLatchable | src/Lockable.ts:14-16 | a new holder reads back the given value and is unlocked |
| Lockable.NewLockable | src/Lockable.ts:61-63 | a new `Lockable` is the base holder: the given value, unlocked |
| Lockable.Value | src/Lockable.ts:55-57 | the `value` getter returns the held value |
| Lockable.Immutable | src/Lockable.ts:28-33 | `immutable(v)` reads back `v` and is locked, so any `latch` on it throws |
| Lockable.Set | src/Lockable.ts:72-76 | `set` succeeds iff unlocked, then holds the new value with the lock untouched; otherwise it throws and the holder is unchanged |
| Lockable.Lock | src/Lockable.ts:102-104 | `lock` leaves the holder locked with its value unchanged |
| Lockable.Unlock | src/Lockable.ts:111-113 | `unlock` leaves the holder unlocked with its value unchanged |
| Lockable.LockUnlockIdempotent | src/Lockable.ts:102-113 | `lock` and `unlock` are idempotent, and `unlock` undoes `lock` on an unlocked holder |
| Lockable.FreshHolderIsWritable | src/Lockable.ts:12-63 | a constructed holder reads back its initial value and accepts a `set` or a `latch`, which reads back |
| Lockable.OfferPoll | src/Lockable.ts:87-95 | one poll writes iff it observes the holder unlocked; it rejects with the timeout error iff the holder is locked, the countdown ran out and the timeout is truthy |
| Lockable.IsTimed | src/Lockable.ts:88 | `if (timeout)` selects the timed wait exactly when a timeout is given and is not 0 |
| Lockable.Offer | src/Lockable.ts:87-95 | an offer writes only onto a state it observed unlocked, never writes while every poll sees it locked, never rejects without a truthy timeout, and keeps waiting iff no poll settles it |
| Lockable.OfferSettlesAtFirst | src/Lockable.ts:87-95 | the offer is decided by its first settling poll: it writes `v` onto the holder that poll saw unlocked, or, if that poll saw it locked with the countdown run out, rejects with the timeout |
| Lockable.UntimedOfferCompletesAfterUnlock | src/Lockable.ts:91-93 | an untimed offer whose polls include a holder just unlocked completes with a write |
| Lockable.ZeroTimeoutWaitsForever | src/Lockable.ts:88 | a timeout of 0 or none takes the untimed branch, which never rejects |
| Lockable.Apply | src/Lockable.ts:11-114 | any single operation either keeps the value or installs the value that a `latch`, `set` or `offer` carried |
| Lockable.ValueComesFromWrites | src/Lockable.ts:11-114 | after any sequence of operations the value is the initial one or one that some `latch`, `set` or `offer` of the sequence wrote |
| Lockable.LockingKeepsValue | src/Lockable.ts:55-113 | `lock`, `unlock` and reads never change the value |
| Lockable.AtMostOneLatch | src/Lockable.ts:41-46 | latching repeatedly succeeds at most once: exactly the first latch on an unlocked holder, none on a locked one |
| Lockable.ImmutableNeverChanges | src/Lockable.ts:28-46 | an immutable holder rejects every latch and keeps its value |
| Latchable.New | src/Latchable.ts:13-18 | the constructor stores the value and locks iff the value is not falsy |
| Latchable.Immutable | src/Latchable.ts:30-38 | `immutable(v)` marks the holder immutable; it is locked and frozen iff `v` is not falsy |
| Latchable.Latch | src/Latchable.ts:46-53 | `latch` succeeds iff unlocked, then holds the new value, locked, frozen iff the holder is immutable; otherwise it throws |
| Latchable.Value | src/Latchable.ts:62-64 | the `value` getter returns the held value |
| Latchable.ValidIsInvariant | src/Latchable.ts:13-53 | every reachable holder has only a frozen value when locked and immutable: construction sets this up and `latch` keeps it |
| Latchable.AtMostOneLatch | src/Latchable.ts:9-65 | with no unlock, once locked the holder never changes again, and at most one latch ever succeeds |
| Latchable.ConstructedLatchCount | src/Latchable.ts:13-50 | a holder built from a falsy value accepts exactly one later latch; one built from a truthy value accepts none and keeps its value |

## Left out

- Promise plumbing in `Backoff`. `Futures.delayed` at src/Backoff.ts:68 is not
  awaited, so `start()` resolves after the first attempt and a later timeout error
  never reaches the caller. The model runs attempts one after another over a given
  sequence of results.
- Callable rejections. A callable's result is only true or false; a rejected
  promise is not modelled.
- Timers and clocks (`Futures.wait`, `delayed`, `waitUntil`, `waitUntilResolved`):
  sleeps are returned as values, and the timed wait's countdown is an `expired`
  input. Futures.ts is not part of this model.
- JavaScript number edge cases: NaN, `-0` (falsy, so `truthy({a: -0})` drops `a`),
  fractions and float rounding above 2^53. All delays, budgets and timeouts are
  integers. The 32-bit wrap of `<<` is modelled
  (`Backoff.ToInt32`).
- Backoff.AlwaysFailingTimesOut: stated only for `maxWait <= 2^30` under
  EXPONENTIAL. Past 2^30 the shift wraps to a negative delay and then to 0
  (`Backoff.ShiftLeftOneWraps`), so the source never times out there.
- Backoff.SleepsFollowStrategy: the EXPONENTIAL sequence is stated for the first 31
  results only, for the same wrap.
- Backoff.Start: a `start()` runs one session from the instance's current pair. A
  second `start()` while the first session's detached retries are still scheduled
  would interleave two sessions on the same pair; that interleaving is not modelled.
- Backoff.UnboundedFailingSleeps: under EXPONENTIAL stated for at most 31 failures;
  the 32nd sleep in the code is -2^31, not 2^31.
- Objects.Drop: keys are strings. `drop` also accepts number keys, which never equal
  the string keys `Object.keys` yields under `includes`, so `drop({1: 'a'}, 1)`
  keeps the property; the model cannot express a number key.
- The own key `"__proto__"`: every filter copies with `output[key] = …`
  (src/Objects.ts:15, 32, 50, 66), which for that key sets the prototype instead of
  copying the property. The model treats it as an ordinary key, so
  `Objects.NonNullIsIdentity` and the keep-exactly contracts do not hold for it.
- Concurrency between several pending `offer` calls and the poll interval: offers
  are modelled one poll at a time. The states a poll observes are inputs.
- One holder type serves both classes of src/Lockable.ts. `Latchable.immutable`
  (src/Lockable.ts:28-33) returns a base `Latchable`, which has no `set`, `offer`,
  `lock` or `unlock`, but the model does not separate the two classes' method sets,
  so it also admits `Unlock(Immutable(v))` followed by a successful `latch`.
- `Object.freeze`: a `frozen` flag in the standalone `Latchable`. Freezing the
  payload in `Lockable.ts`'s `immutable` does not affect the holder's state and is
  not recorded.
- `Object.keys` order for integer-like keys, symbol keys and inherited
  properties. An object is its list of own entries, in `Object.keys` order.
- `toLowerCase` beyond ASCII letters.
- Values whose `typeof` is "function", "symbol" or "bigint" are not in the value
  datatype.
- src/Decorators.ts, src/Futures.ts, src/index.ts, index.d.ts, the type aliases in
  src/Functions.ts, `noop` and `noopAsync`: they have no behaviour to state here.
- `Objects.nonEmptyStrings` and `Objects.mapEntries` are exercised by
  test/objects.spec.ts but do not exist in src/Objects.ts.

## Findings

| source | as written | input that shows it | evidently intended | confidence | as-written member | corrected member |
|---|---|---|---|---|---|---|
| src/Objects.ts:14 | the guard joins "not null" and "not undefined" with or, which every value satisfies, so every property is copied | `{ aNull: null, anUndefined: undefined }` keeps both properties | drop null and undefined properties, as the doc comment (src/Objects.ts:5) and test/objects.spec.ts:31-37 say | high; not executed | Objects.NonNullKeepsNull | Objects.NonNullIntended |
