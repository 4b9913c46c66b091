/**
 * The balance term matcher the unidirectional discovery test plugs into every participant
 * (an instance of `MatchTermsFunc`), and the link balances of the test topology it is applied to.
 */
module BalanceMatcher {
  import opened Wrappers

  /** An open mapping from constraint name to value. */
  type Terms = map<string, int>

  /** Compares a link's terms with the query's and returns the tightened terms, or nothing on no match. */
  type MatchTermsFunc = (Terms, Terms) -> Option<Terms>

  const Balance: string := "balance"

  function Min(a: int, b: int): int { if a <= b then a else b }

  /**
   * A link matches when its balance is at least the query's; the match carries only the smaller
   * balance. A missing balance compares false in JavaScript, so it never matches.
   */
  function MatchBalance(linkTerms: Terms, queryTerms: Terms): (r: Option<Terms>)
    ensures r.Some? <==> Balance in linkTerms && Balance in queryTerms && queryTerms[Balance] <= linkTerms[Balance]
    ensures r.Some? ==> r.value.Keys == {Balance}
    ensures r.Some? ==> r.value[Balance] == queryTerms[Balance]
    ensures r.Some? ==> r.value[Balance] <= linkTerms[Balance] && r.value[Balance] <= queryTerms[Balance]
  {
    if Balance in linkTerms && Balance in queryTerms && linkTerms[Balance] >= queryTerms[Balance]
    then Some(map[Balance := Min(linkTerms[Balance], queryTerms[Balance])])
    else None
  }

  const Matcher: MatchTermsFunc := MatchBalance

  /** Matching the same link against an already tightened result gives that result back. */
  lemma MatchIsIdempotent(linkTerms: Terms, queryTerms: Terms)
    requires MatchBalance(linkTerms, queryTerms).Some?
    ensures MatchBalance(linkTerms, MatchBalance(linkTerms, queryTerms).value) == MatchBalance(linkTerms, queryTerms)
  {
  }

  /** A smaller query balance matches every link a larger one matches. */
  lemma MatchIsMonotone(linkTerms: Terms, queryTerms: Terms, smaller: Terms)
    requires MatchBalance(linkTerms, queryTerms).Some?
    requires Balance in smaller && smaller[Balance] <= queryTerms[Balance]
    ensures MatchBalance(linkTerms, smaller) == Some(map[Balance := smaller[Balance]])
  {
  }

  /** A link of the test network, with the terms it advertises. */
  datatype TestLink = TestLink(name: string, node1: string, node2: string, terms: Terms)

  const TestLinks: seq<TestLink> := [
    TestLink("L1", "N1", "N2", map[Balance := 500]),
    TestLink("L2", "N2", "N3", map[Balance := 500]),
    TestLink("L3", "N2", "N4", map[Balance := 500])
  ]

  const TestQueryTerms: Terms := map[Balance := 100]

  /** Every link of the test network matches the test query, tightened to the query's balance of 100;
      none would match a query for a balance of 600. */
  lemma TestLinksMatch()
    ensures forall i | 0 <= i < |TestLinks| :: MatchBalance(TestLinks[i].terms, TestQueryTerms) == Some(map[Balance := 100])
    ensures forall i | 0 <= i < |TestLinks| :: MatchBalance(TestLinks[i].terms, map[Balance := 600]).None?
  {
  }
}
