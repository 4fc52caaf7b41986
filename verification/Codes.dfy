/** The codes of the enumerations: each list names them in order, with the code itself where nothing in the
    engine tests for it. */
module Codes {
  import opened Basics
  import opened Model
  import opened Queries

  /** 0, 1, 2 and so on. */
  predicate CountsUp(codes: seq<u8>) {
    forall i :: 0 <= i < |codes| ==> codes[i] == i
  }

  lemma CodesCountUp()
    ensures CountsUp([DISCOVERED, AVAILABLE, DEGRADED, 3, INVALIDATED, SUPERSEDED, TOMBSTONED, RETIRED, MISSING,
                      FAILED])
    ensures CountsUp([FRESHNESS_UNKNOWN, FRESHNESS_CURRENT, FRESHNESS_STALE, REVALIDATION_REQUIRED])
    ensures CountsUp([HEALTH_UNKNOWN, HEALTHY, HEALTH_DEGRADED])
    ensures CountsUp([0, CUDA_DEVICE, HOST_PINNED, HOST_MEMORY, LOCAL_FILESYSTEM, LOCAL_NVME_CLASS,
                      SHARED_FILESYSTEM_CLASS, OBJECT_STORAGE_CLASS])
    ensures CountsUp([0, ACCESS_LOCAL])
    ensures CountsUp([OUTCOME_UNKNOWN, 1, OUTCOME_EXACT, OUTCOME_COMPATIBLE, OUTCOME_WITH_ADAPTATION])
    ensures CountsUp([REQUIRE_NONE, REQUIRE_EXACT, REQUIRE_COMPATIBLE, REQUIRE_WITH_ADAPTATION])
    ensures CountsUp([RULE_CURRENT, RULE_MINIMUM, RULE_EXACT, 3, RULE_AS_OF])
  {
  }
}
