/** The optional results the engine returns instead of null (`Card?`, a missing threshold). */
module Options {

  datatype Option<+T> = None | Some(value: T)
}

/** UnityEngine.Random as seen by the rules engine: an oracle that may answer any value in range. */
module Random {

  /** `Random.Range(lo, hi)` for integers: some value in [lo, hi). The verifier treats the
      answer as arbitrary, so every property proved about a caller holds for every choice. */
  method Range(lo: int, hi: int) returns (k: int)
    requires lo < hi
    ensures lo <= k < hi
  {
    k :| lo <= k < hi;
  }
}
