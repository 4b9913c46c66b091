# Linear discovery ledger and balance matcher

This project models two parts of a private multi-hop path-discovery system:

- `MemoryLinearState`, the in-memory ledger kept per query by the linear (breadth-first) discovery engine. For each link address it records:
  - the committed response (the paths found behind the link, the phase depth, and an optional `hiddenData` flag saying more may be found behind it);
  - the request in flight;
  - the failure, as an error string.

  It also holds a nonce table that is built once, at construction, from the peer addresses and the query identifier. Its admission predicate `canAdvance` decides whether a link may be probed (again). `getRoutes` flattens the responses into routes. `getNonce` looks up a nonce and fails when the nonce is missing.
- The balance term matcher that the unidirectional discovery test gives to every participant, an instance of `MatchTermsFunc`:
  - a link matches when its balance is at least the query's;
  - a match carries the smaller balance as the tightened terms.

  The model also includes the balances of the test network's three links.

Modules:

- `Wrappers`: `Option`, standing for `undefined`, and `Result`, standing for a thrown error.
- `LinearQueries`: the `LinearQuery` record `{target, queryId}`.
- `LinearRoutes`: responses and routes, plus the flattening behind `getRoutes` with its counting lemmas.
- `LinearStore`: the class `MemoryLinearState`, and the nonce table with the loop that builds it.
- `LinearScenario`: clients that drive the class through the phases of a search.
- `BalanceMatcher`: the matcher, its lemmas and the test topology.

Modelling choices:

- The class's maps are `map<string, …>` fields, and its methods reassign them. The source deletes an in-flight marker with `delete`; the model uses map subtraction.
- The store never inspects requests or path segments, so their types are type parameters of the class.
- JavaScript truthiness is written out:
  - an empty error string does not block `canAdvance`;
  - an empty nonce counts as missing;
  - an absent `hiddenData` reads as false;
  - a stored request is an object, so it is always truthy.
- `Object.entries` lists a record's keys in insertion order. That order is kept in a field, `responseOrder`, and `Valid()` ties it to the keys of `responses`. An overwritten response keeps its place in the order.
- `generateQueryId` depends on secrets and randomness, so its result is a constructor parameter, `queryId`.
- `nonceFromAddress` is a function-typed constructor parameter. Dafny functions are deterministic, so the same inputs always give the same nonce. The class keeps the function in a ghost field only so that `GetNonce`'s contract can state its result.

Where the design description and the code disagree, this model follows the code:

- `addResponse` overwrites silently. The code has no duplicate or conflicting-response error.
- `addFailure` keeps an existing response, and `addResponse` keeps an existing failure. A link can therefore hold a response and a failure at the same time; `LinearScenario.FailureBesideResponse` shows this.
- `addOutstanding` is unguarded. It marks any address as in flight, even one that is already terminal.

## Model

| member | source | states |
|---|---|---|
| `LinearStore.MemoryLinearState.constructor` | src/memory-linear-state.ts:22-32 | the query is `{options.target, queryId}`, all three maps start empty, the nonce table is the one derived from the peer addresses, and every address can advance |
| `LinearStore.BuildNonceTable` | src/memory-linear-state.ts:27-31 | the reduce over the peer addresses produces exactly the table mapping each peer to `nonceFromAddress(peer, queryId)` (a later duplicate overwrites with the same value) |
| `LinearStore.NonceTableLookup` | src/memory-linear-state.ts:27-31 | an address is in the nonce table exactly when it is a peer address, and its entry is its derived nonce |
| `LinearStore.MemoryLinearState.GetNonce` | src/memory-linear-state.ts:78-84 | succeeds exactly for peer addresses whose derived nonce is non-empty and then returns that nonce; fails with `NonceNotFound` for every other address |
| `LinearStore.MemoryLinearState.CanAdvance` | src/memory-linear-state.ts:71-76 | an address that can advance is not in flight; an address with no response, no request and no failure can advance |
| `LinearStore.MemoryLinearState.AddFailure` | src/memory-linear-state.ts:46-49 | records the error (as `getFailures()[a]`) and clears the in-flight marker, keeping responses; afterwards `a` can advance exactly when the error is empty and `a` had no response or one with hidden data (so a non-empty error blocks it); every other address's entries and admission are unchanged |
| `LinearStore.MemoryLinearState.AddResponse` | src/memory-linear-state.ts:55-58 | the response overwrites any earlier one and is what `GetResponse` returns; the in-flight marker is cleared and failures kept; afterwards `a` can advance exactly when it has no non-empty failure and the response's `hiddenData` is true; a new address is enumerated last; every other address is unchanged |
| `LinearStore.MemoryLinearState.AddOutstanding` | src/memory-linear-state.ts:67-69 | records the request without any guard; afterwards `a` cannot advance, and every other address's entries and admission are unchanged |
| `LinearStore.MemoryLinearState.GetResponse` | src/memory-linear-state.ts:51-53 | returns the stored response when there is one (exactly for enumerated addresses) and nothing otherwise; an address answered without hidden data cannot advance |
| `LinearStore.MemoryLinearState.GetFailures` | src/memory-linear-state.ts:42-44 | every address with a non-empty recorded error is barred from advancing |
| `LinearStore.MemoryLinearState.GetOutstanding` | src/memory-linear-state.ts:63-65 | every address with a request in flight is barred from advancing |
| `LinearStore.MemoryLinearState.GetRoutes` | src/memory-linear-state.ts:34-37 | each route occurs exactly as often as its path occurs in the response stored for its address, with that response's depth, and no other route occurs; the number of routes is the sum of the path counts of all responses |
| `LinearStore.AllRouteCounts` | src/memory-linear-state.ts:34-37 | over a duplicate-free enumeration of all response keys, the flattened routes have exactly the multiplicities above, whatever the enumeration order |
| `LinearRoutes.PathRoutes` | src/memory-linear-state.ts:36 | mapping a response's paths gives one route per path, in order, each carrying the address and depth |
| `LinearRoutes.PathRoutesCount` | src/memory-linear-state.ts:36 | a route occurs among one response's routes as often as its path occurs among that response's paths, when its address and depth are the response's, and never otherwise |
| `LinearRoutes.RoutesOfCount` | src/memory-linear-state.ts:34-37 | flattening responses over distinct keys yields each route as often as its path occurs in its own address's response, and no route of an address outside the keys |
| `LinearRoutes.RoutesOfLength` | src/memory-linear-state.ts:34-37 | the flattened routes number the sum of the path counts of the visited responses |
| `BalanceMatcher.MatchBalance` | test/uni-discovery.test.ts:74-77 | matches exactly when both balances are present and the link's is at least the query's; a match holds only a balance, which equals the query's and is at most both inputs |
| `BalanceMatcher.MatchIsIdempotent` | test/uni-discovery.test.ts:74-77 | matching the same link against an already tightened result returns that result |
| `BalanceMatcher.MatchIsMonotone` | test/uni-discovery.test.ts:75 | if a link matches a query balance, it matches every smaller query balance, tightened to that smaller balance |
| `BalanceMatcher.TestLinksMatch` | test/uni-discovery.test.ts:35-37 | each of the three 500-balance links matches the test query of 100 with result balance 100, and none matches a query of 600 |

`LinearScenario.NonceLookups`, `LinearScenario.TwoPhases` and `LinearScenario.FailureBesideResponse` are clients with assertions only. They show:

- nonce lookups for peer addresses and for other addresses;
- two phases in which only the link answered with hidden data may be probed again;
- a failure recorded beside a response;
- an empty error that does not block an address.

## Left out

- `generateQueryId` and `nonceFromAddress` internals (src/query-id.ts is not part of this model): hashing of secret inputs. The model takes them as parameters and proves nothing about unlinkability or uniqueness of nonces.
- `options.queryOptions`: it is only passed to `generateQueryId`, so the model has no such field.
- JavaScript prototype keys: an address such as `toString` or `__proto__` reads inherited properties of a plain object. The model treats every string as an ordinary key.
- Integer-like keys: `Object.entries` lists these first, in numeric order. The model enumerates every key in insertion order.
- `LinearStore.MemoryLinearState.GetFailures`: the source returns its own mutable record, which a caller could alter. The model's maps are values, so this aliasing is not captured.
- `LinearStore.MemoryLinearState.GetOutstanding`: not modelled as aliasing its record, for the same reason.
- The `query` getter is the constant field `query`; it has no separate member.
- A stored response that is `null` or `undefined`, which `?.` tolerates, is excluded by the types and not modelled.
- `BalanceMatcher.MatchBalance`: balances are unbounded integers. Fractional, `NaN` and infinite JavaScript numbers are not modelled.
- Unidirectional originator and participant engines, hidden-reentrance encryption, and the asymmetric and symmetric crypto implementations: these are not part of this model. They are either not present or foreign cryptography.
- `SendUniFunc` and `SendUniResponse`: asynchronous transport, not modelled.
- `ILinearOriginatorState`: an interface whose `startPhase`, `completePhase` and `getDepth` have no implementation here. No phase or timeout semantics are modelled.
- The test harness: the test network, delays, random bytes, logging, and the end-to-end `discover()` assertion. These depend on engine code that is not part of this model.
