/**
 * The in-memory per-query ledger of the linear discovery engine (`MemoryLinearState`).
 * Keys are link addresses; JavaScript truthiness is written out where the source relies on it.
 */
module LinearStore {
  import opened Wrappers
  import opened LinearQueries
  import opened LinearRoutes

  /** What the store reads from its options: the query target and the peer addresses to derive nonces for. */
  datatype LinearOptions = LinearOptions(target: string, peerAddresses: seq<string>)

  /** `getNonce` throws "Unable to find nonce for address". */
  datatype NonceError = NonceNotFound

  /** JavaScript truthiness of a string: only the empty string is falsy. */
  predicate Truthy(s: string) { s != "" }

  /** The nonce table the constructor builds: every peer address mapped to its nonce under `queryId`. */
  ghost function NonceTable(peers: seq<string>, queryId: string, nonceFromAddress: (string, string) -> string): map<string, string>
  {
    map a | a in peers :: nonceFromAddress(a, queryId)
  }

  lemma NonceTableLookup(peers: seq<string>, queryId: string, nonceFromAddress: (string, string) -> string, address: string)
    ensures address in NonceTable(peers, queryId, nonceFromAddress) <==> address in peers
    ensures address in peers ==> NonceTable(peers, queryId, nonceFromAddress)[address] == nonceFromAddress(address, queryId)
  {
  }

  /** The `reduce` over the peer addresses that fills `_noncesByAddress`. */
  method BuildNonceTable(peers: seq<string>, queryId: string, nonceFromAddress: (string, string) -> string)
    returns (table: map<string, string>)
    ensures table == NonceTable(peers, queryId, nonceFromAddress)
  {
    table := map[];
    for i := 0 to |peers|
      invariant table == NonceTable(peers[..i], queryId, nonceFromAddress)
    {
      assert peers[..i + 1] == peers[..i] + [peers[i]];
      table := table[peers[i] := nonceFromAddress(peers[i], queryId)];
    }
    assert peers[..|peers|] == peers;
  }

  class MemoryLinearState<Request, Path(!new)> {
    const options: LinearOptions
    const query: LinearQuery
    const noncesByAddress: map<string, string>
    /** The nonce derivation the table was built with; used only to state what `GetNonce` returns. */
    ghost const nonceFromAddress: (string, string) -> string

    var responses: map<string, LinearResponse<Path>>
    /** The enumeration order of `responses` (a JavaScript object lists its keys in insertion order). */
    var responseOrder: seq<string>
    var outstanding: map<string, Request>
    var failures: map<string, string>

    ghost predicate Valid()
      reads this
    {
      && query.target == options.target
      && noncesByAddress == NonceTable(options.peerAddresses, query.queryId, nonceFromAddress)
      && Distinct(responseOrder)
      && (forall a :: a in responseOrder <==> a in responses)
    }

    /** `queryId` is what `generateQueryId(options.queryOptions)` produced for this search. */
    constructor (options: LinearOptions, queryId: string, nonceFromAddress: (string, string) -> string)
      ensures Valid()
      ensures this.options == options && query == LinearQuery(options.target, queryId)
      ensures this.nonceFromAddress == nonceFromAddress
      ensures responses == map[] && responseOrder == [] && outstanding == map[] && failures == map[]
      ensures forall a :: CanAdvance(a)
    {
      this.options := options;
      query := LinearQuery(options.target, queryId);
      this.nonceFromAddress := nonceFromAddress;
      var table := BuildNonceTable(options.peerAddresses, queryId, nonceFromAddress);
      noncesByAddress := table;
      responses, responseOrder := map[], [];
      outstanding := map[];
      failures := map[];
    }

    /** Every stored response expanded into one route per path segment. */
    function GetRoutes(): (routes: seq<LinearRoute<Path>>)
      requires Valid()
      reads this
      ensures |routes| == PathCount(responseOrder, responses)
      ensures forall route :: multiset(routes)[route] == RouteCount(responses, route)
    {
      AllRouteCounts(responseOrder, responses);
      RoutesOfLength(responseOrder, responses);
      RoutesOf(responseOrder, responses)
    }

    /** The failures recorded so far (the source hands out its own record). */
    function GetFailures(): (failed: map<string, string>)
      reads this
      ensures forall a | a in failed && Truthy(failed[a]) :: !CanAdvance(a)
    {
      failures
    }

    function GetResponse(address: string): (r: Option<LinearResponse<Path>>)
      requires Valid()
      reads this
      ensures r.Some? <==> address in responseOrder
      ensures r.Some? ==> r.value == responses[address]
      ensures r.Some? && !r.value.MayHaveMore() ==> !CanAdvance(address)
    {
      if address in responses then Some(responses[address]) else None
    }

    /** The requests in flight (the source hands out its own record). */
    function GetOutstanding(): (inFlight: map<string, Request>)
      reads this
      ensures forall a | a in inFlight :: !CanAdvance(a)
    {
      outstanding
    }

    /** Records a terminal failure and clears the in-flight marker; an existing response is kept. */
    method AddFailure(address: string, error: string)
      requires Valid()
      modifies this
      ensures Valid()
      ensures failures == old(failures)[address := error]
      ensures outstanding == old(outstanding) - {address}
      ensures responses == old(responses) && responseOrder == old(responseOrder)
      ensures address in GetFailures() && GetFailures()[address] == error
      ensures CanAdvance(address) <==> !Truthy(error) && old(address in responses ==> responses[address].MayHaveMore())
      ensures forall b | b != address :: CanAdvance(b) == old(CanAdvance(b))
    {
      failures := failures[address := error];
      outstanding := outstanding - {address};
    }

    /** Records (or silently overwrites) the response and clears the in-flight marker; an existing failure is kept. */
    method AddResponse(address: string, response: LinearResponse<Path>)
      requires Valid()
      modifies this
      ensures Valid()
      ensures responses == old(responses)[address := response]
      ensures responseOrder == if address in old(responses) then old(responseOrder) else old(responseOrder) + [address]
      ensures outstanding == old(outstanding) - {address}
      ensures failures == old(failures)
      ensures GetResponse(address) == Some(response)
      ensures CanAdvance(address) <==> !(address in failures && Truthy(failures[address])) && response.MayHaveMore()
      ensures forall b | b != address :: CanAdvance(b) == old(CanAdvance(b))
    {
      if address !in responses {
        responseOrder := responseOrder + [address];
      }
      responses := responses[address := response];
      outstanding := outstanding - {address};
    }

    /** Marks a request as in flight, whatever was recorded for the address before. */
    method AddOutstanding(address: string, request: Request)
      requires Valid()
      modifies this
      ensures Valid()
      ensures outstanding == old(outstanding)[address := request]
      ensures responses == old(responses) && responseOrder == old(responseOrder)
      ensures failures == old(failures)
      ensures !CanAdvance(address)
      ensures forall b | b != address :: CanAdvance(b) == old(CanAdvance(b))
    {
      outstanding := outstanding[address := request];
    }

    /** The admission predicate: no truthy failure, not in flight, and either unanswered or
        answered with the hidden-data flag set. */
    predicate CanAdvance(address: string): (ok: bool)
      reads this
      ensures ok ==> address !in outstanding
      ensures address !in responses && address !in outstanding && address !in failures ==> ok
    {
      && !(address in failures && Truthy(failures[address]))
      && address !in outstanding
      && (address !in responses || responses[address].MayHaveMore())
    }

    /** Looks the nonce up; a missing or empty nonce is an error. */
    function GetNonce(address: string): (r: Result<string, NonceError>)
      requires Valid()
      reads this
      ensures r.Ok? <==> address in options.peerAddresses && Truthy(nonceFromAddress(address, query.queryId))
      ensures r.Ok? ==> r.value == nonceFromAddress(address, query.queryId)
    {
      NonceTableLookup(options.peerAddresses, query.queryId, nonceFromAddress, address);
      if address in noncesByAddress && Truthy(noncesByAddress[address]) then Ok(noncesByAddress[address])
      else Err(NonceNotFound)
    }
  }

  /** Every route count of `RoutesOf`, for all routes at once. */
  lemma AllRouteCounts<Path>(order: seq<string>, responses: map<string, LinearResponse<Path>>)
    requires Distinct(order)
    requires forall a :: a in order <==> a in responses
    ensures forall route :: multiset(RoutesOf(order, responses))[route] == RouteCount(responses, route)
  {
    forall route ensures multiset(RoutesOf(order, responses))[route] == RouteCount(responses, route) {
      RoutesOfCount(order, responses, route);
    }
  }
}
