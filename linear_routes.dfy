/**
 * Committed per-link responses of the linear engine and the routes assembled from them.
 * Path segments are never inspected, so their type is a parameter.
 */
module LinearRoutes {
  import opened Wrappers

  /** The answer recorded for one link: paths found behind it, the phase depth it was found at,
      and an optional flag saying that more may be found behind the link. */
  datatype LinearResponse<Path> = LinearResponse(paths: seq<Path>, depth: int, hiddenData: Option<bool>)
  {
    /** JavaScript's `Boolean(response.hiddenData)`: an absent flag reads as false. */
    predicate MayHaveMore() { hiddenData == Some(true) }
  }

  /** One discovered route: the local link address, the depth and one path segment. */
  datatype LinearRoute<Path> = LinearRoute(address: string, depth: int, path: Path)

  ghost predicate Distinct<T>(s: seq<T>) {
    forall i, j | 0 <= i < j < |s| :: s[i] != s[j]
  }

  /** `response.paths.map(p => new LinearRoute(address, response.depth, p))`. */
  function PathRoutes<Path>(address: string, depth: int, paths: seq<Path>): (routes: seq<LinearRoute<Path>>)
    ensures |routes| == |paths|
    ensures forall i | 0 <= i < |paths| :: routes[i] == LinearRoute(address, depth, paths[i])
  {
    if paths == [] then []
    else [LinearRoute(address, depth, paths[0])] + PathRoutes(address, depth, paths[1..])
  }

  /** The flatMap over the response entries, visited in `order`. */
  function RoutesOf<Path>(order: seq<string>, responses: map<string, LinearResponse<Path>>): seq<LinearRoute<Path>>
    requires forall a | a in order :: a in responses
  {
    if order == [] then []
    else
      var response := responses[order[0]];
      PathRoutes(order[0], response.depth, response.paths) + RoutesOf(order[1..], responses)
  }

  /** The number of path segments over all responses visited in `order`. */
  function PathCount<Path>(order: seq<string>, responses: map<string, LinearResponse<Path>>): nat
    requires forall a | a in order :: a in responses
  {
    if order == [] then 0 else |responses[order[0]].paths| + PathCount(order[1..], responses)
  }

  /** How often `route` should appear among the routes of `responses`: once per occurrence of its
      path in the response stored for its address, when its depth is that response's depth. */
  ghost function RouteCount<Path>(responses: map<string, LinearResponse<Path>>, route: LinearRoute<Path>): nat
  {
    if route.address in responses && route.depth == responses[route.address].depth
    then multiset(responses[route.address].paths)[route.path]
    else 0
  }

  lemma {:induction false} PathRoutesCount<Path>(address: string, depth: int, paths: seq<Path>, route: LinearRoute<Path>)
    ensures multiset(PathRoutes(address, depth, paths))[route] ==
            if route.address == address && route.depth == depth then multiset(paths)[route.path] else 0
  {
    if paths != [] {
      PathRoutesCount(address, depth, paths[1..], route);
      assert paths == [paths[0]] + paths[1..];
    }
  }

  /** One route per path segment of each response, each carrying its response's address and depth. */
  lemma {:induction false} RoutesOfCount<Path>(order: seq<string>, responses: map<string, LinearResponse<Path>>, route: LinearRoute<Path>)
    requires forall a | a in order :: a in responses
    requires Distinct(order)
    ensures multiset(RoutesOf(order, responses))[route] ==
            if route.address in order then RouteCount(responses, route) else 0
  {
    if order != [] {
      var a := order[0];
      PathRoutesCount(a, responses[a].depth, responses[a].paths, route);
      assert Distinct(order[1..]) by {
        forall i, j | 0 <= i < j < |order[1..]| ensures order[1..][i] != order[1..][j] {
          assert order[1..][i] == order[i + 1] && order[1..][j] == order[j + 1];
        }
      }
      RoutesOfCount(order[1..], responses, route);
      if route.address == a {
        assert route.address !in order[1..] by {
          forall k | 0 <= k < |order[1..]| ensures order[1..][k] != a {
            assert order[1..][k] == order[k + 1];
          }
        }
      } else {
        assert order == [a] + order[1..];
      }
    }
  }

  lemma {:induction false} RoutesOfLength<Path>(order: seq<string>, responses: map<string, LinearResponse<Path>>)
    requires forall a | a in order :: a in responses
    ensures |RoutesOf(order, responses)| == PathCount(order, responses)
  {
    if order != [] {
      RoutesOfLength(order[1..], responses);
    }
  }
}
