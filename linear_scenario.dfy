/** Clients of the store, following links through the phases of a linear search. */
module LinearScenario {
  import opened Wrappers
  import opened LinearRoutes
  import opened LinearStore

  /** Nonces are found for the peers given at construction only. */
  method NonceLookups()
  {
    var s := new MemoryLinearState<string, seq<string>>(LinearOptions("N3", ["L1", "L2"]), "q", (a, q) => a + "@" + q);
    assert "L1" + "@" + "q" == "L1@q";
    assert s.GetNonce("L1") == Ok("L1@q");
    assert s.GetNonce("L9") == Err(NonceNotFound);
  }

  /** Depth 0 answers link L1 with hidden data and L2 without, so only L1 may be probed at depth 1. */
  method TwoPhases()
  {
    var s := new MemoryLinearState<string, seq<string>>(LinearOptions("N3", ["L1", "L2"]), "q", (a, q) => a + "@" + q);
    s.AddOutstanding("L1", "probe L1 at 0");
    s.AddOutstanding("L2", "probe L2 at 0");
    assert !s.CanAdvance("L1") && !s.CanAdvance("L2");

    s.AddResponse("L1", LinearResponse([["n2", "n3"]], 0, Some(true)));
    s.AddResponse("L2", LinearResponse([], 0, Some(false)));
    assert s.CanAdvance("L1") && !s.CanAdvance("L2");
  }

  /** A failure for an answered link sits beside its response; an empty error does not block an address. */
  method FailureBesideResponse()
  {
    var s := new MemoryLinearState<string, seq<string>>(LinearOptions("N3", ["L1"]), "q", (a, q) => a + "@" + q);
    s.AddResponse("L1", LinearResponse([["n2", "n3"]], 0, Some(true)));
    assert multiset(s.GetRoutes())[LinearRoute("L1", 0, ["n2", "n3"])] == 1;
    s.AddFailure("L1", "Timeout");
    assert s.GetResponse("L1").Some? && "L1" in s.GetFailures();
    assert !s.CanAdvance("L1");

    s.AddFailure("L3", "");
    assert s.CanAdvance("L3");
  }
}
