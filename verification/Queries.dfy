/** Query descriptors. */
module Queries {
  import opened Basics
  import opened ByteBuf

  // Generation rules; other codes filter nothing.
  const RULE_CURRENT: u8 := 0
  const RULE_MINIMUM: u8 := 1
  const RULE_EXACT: u8 := 2
  const RULE_AS_OF: u8 := 4

  datatype DependencyRequirement = DependencyRequirement(targetState: u64, minimumGeneration: u64, required: bool)

  /** Empty lists constrain nothing. */
  datatype LocationConstraint = LocationConstraint(
    domains: seq<u8>,
    nodes: seq<u64>,
    devices: seq<u64>,
    preferredAccess: u8
  )

  datatype Query = Query(
    queryId: u64,
    kind: Option<u16>,
    stateId: Option<u64>,
    wildcardStateId: bool,
    namespaceId: Option<u64>,
    generationRule: u8,
    minimumGeneration: Option<u64>,
    exactGeneration: Option<u64>,
    asOfGeneration: Option<u64>,
    compatibility: u8,
    dependencyRequirements: seq<DependencyRequirement>,
    contentDigest: Text,
    ownerId: Option<u64>,
    producerId: Option<u64>,
    locationConstraint: LocationConstraint,
    requiredFreshness: u8,
    requiredHealth: u8,
    maxRetrievalCost: real,
    localityPreference: seq<u8>,
    minReplicaCount: u32,
    policyGeneration: u64,
    queryGeneration: u64,
    includeInvalidated: bool,
    historicalOnly: bool
  ) {
    /** The query names one state and means it. */
    predicate ExactIdentity() {
      stateId.Some? && !wildcardStateId
    }
  }
}
