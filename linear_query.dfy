/** The query of one linear (breadth-first) discovery search. */
module LinearQueries {

  /** `target` is an identity token (not an address); `queryId` scopes the nonces of one search. */
  datatype LinearQuery = LinearQuery(target: string, queryId: string)
}
