/** The entities State Index stores: references, locations, records, invalidations, tombstones and
    the counters. Identities and generations are 64-bit; zero means null or unset. Costs are kept
    as the 64 bits of their IEEE double. */
module Model {
  import opened Basics
  import opened ByteBuf

  // Lifecycle codes
  const DISCOVERED: u8 := 0
  const AVAILABLE: u8 := 1
  const DEGRADED: u8 := 2
  const INVALIDATED: u8 := 4
  const SUPERSEDED: u8 := 5
  const TOMBSTONED: u8 := 6
  const RETIRED: u8 := 7
  const MISSING: u8 := 8
  const FAILED: u8 := 9

  // Freshness codes
  const FRESHNESS_UNKNOWN: u8 := 0
  const FRESHNESS_CURRENT: u8 := 1
  const FRESHNESS_STALE: u8 := 2
  const REVALIDATION_REQUIRED: u8 := 3

  // Health codes
  const HEALTH_UNKNOWN: u8 := 0
  const HEALTHY: u8 := 1
  const HEALTH_DEGRADED: u8 := 2

  // Memory domain codes
  const CUDA_DEVICE: u8 := 1
  const HOST_PINNED: u8 := 2
  const HOST_MEMORY: u8 := 3
  const LOCAL_FILESYSTEM: u8 := 4
  const LOCAL_NVME_CLASS: u8 := 5
  const SHARED_FILESYSTEM_CLASS: u8 := 6
  const OBJECT_STORAGE_CLASS: u8 := 7

  // Access class codes
  const ACCESS_LOCAL: u8 := 1

  // Compatibility outcome codes
  const OUTCOME_UNKNOWN: u8 := 0
  const OUTCOME_EXACT: u8 := 2
  const OUTCOME_COMPATIBLE: u8 := 3
  const OUTCOME_WITH_ADAPTATION: u8 := 4

  // Compatibility requirement codes
  const REQUIRE_NONE: u8 := 0
  const REQUIRE_EXACT: u8 := 1
  const REQUIRE_COMPATIBLE: u8 := 2
  const REQUIRE_WITH_ADAPTATION: u8 := 3

  const MAX_RECORDS := 1000000
  const MAX_LOCATIONS := 4096
  const MAX_DEPENDENCIES := 4096

  datatype CompatibilityRef = CompatibilityRef(
    id: u64,
    generation: u64,
    outcome: u8,
    freshness: u8,
    provenance: u8,
    evidenceNote: Text
  ) {
    predicate Satisfies(requirement: u8) {
      if requirement == REQUIRE_NONE then true
      else if requirement == REQUIRE_EXACT then outcome == OUTCOME_EXACT
      else if requirement == REQUIRE_COMPATIBLE then
        outcome == OUTCOME_EXACT || outcome == OUTCOME_COMPATIBLE
      else if requirement == REQUIRE_WITH_ADAPTATION then
        outcome == OUTCOME_EXACT || outcome == OUTCOME_COMPATIBLE || outcome == OUTCOME_WITH_ADAPTATION
      else false
    }
  }

  datatype ProvenanceRef = ProvenanceRef(
    id: u64,
    generation: u64,
    producer: u64,
    sourceGeneration: u64,
    derivationDigest: Text,
    quality: u8,
    freshness: u8
  )

  datatype DependencyRef = DependencyRef(
    id: u64,
    generation: u64,
    kind: u8,
    targetState: u64,
    requiredGeneration: u64,
    required: bool
  )

  datatype RetrievalEstimate = RetrievalEstimate(
    localAccessCost: u64,
    expectedLatencyMs: u64,
    expectedBandwidthMbps: u64,
    transferBytes: u64,
    restoreCost: u64,
    recomputeCost: u64,
    adaptationCost: u64,
    stagingRequired: bool,
    restoreRequired: bool,
    evidence: u8
  )

  datatype StateLocation = StateLocation(
    placementId: u64,
    replicaId: u64,
    nodeId: u64,
    deviceId: u64,
    domainId: u64,
    domain: u8,
    backend: u8,
    tier: u8,
    locationGeneration: u64,
    placementGeneration: u64,
    replicaGeneration: u64,
    address: Text,
    byteSize: u64,
    accessClass: u8,
    health: u8,
    freshness: u8,
    provenance: u8,
    localityMetadata: Text,
    retrieval: RetrievalEstimate,
    observationGeneration: u64,
    provenanceGeneration: u64,
    authorityEpoch: u64,
    authorityBoot: u64,
    createdAt: i64,
    updatedAt: i64,
    // never persisted
    processHandle: Option<u64>,
    processScope: Option<u64>
  ) {
    predicate Usable() {
      health == HEALTHY || health == HEALTH_DEGRADED
    }

    /** What survives a round trip through the byte format. */
    function Persisted(): StateLocation {
      this.(processHandle := None, processScope := None)
    }

    /** Memory that dies with its process must be revalidated after a restart. */
    predicate ProcessLocal() {
      domain == HOST_MEMORY || domain == HOST_PINNED || domain == CUDA_DEVICE
    }
  }

  /** What a record says about itself; nothing changes it after publication. */
  datatype Descriptor = Descriptor(
    recordGeneration: u64,
    kind: u16,
    namespaceId: u64,
    ownerId: u64,
    producerId: u64,
    logicalSize: u64,
    contentDigest: Text,
    compatibility: Option<CompatibilityRef>,
    provenance: Option<ProvenanceRef>,
    dependencies: seq<DependencyRef>,
    freshness: u8,
    health: u8,
    policyGeneration: u64,
    authorityEpoch: u64,
    createdAt: i64,
    updatedAt: i64,
    supersedesGeneration: u64,
    description: Text
  )

  datatype StateRecord = StateRecord(
    recordId: u64,
    stateId: u64,
    stateGeneration: u64,
    authorityBoot: u64,
    descriptor: Descriptor,
    locations: seq<StateLocation>,
    lifecycle: u8,
    semanticDigest: Text,
    // never persisted
    isHistorical: bool
  ) {
    /** Left eligibility for good: superseded, invalidated or tombstoned. */
    predicate Terminal() {
      lifecycle == SUPERSEDED || lifecycle == INVALIDATED || lifecycle == TOMBSTONED
    }

    function Persisted(): StateRecord {
      this.(locations := PersistedLocations(locations), isHistorical := false)
    }

    /** The bounds the record parser enforces. */
    predicate FitsImage() {
      |descriptor.dependencies| <= MAX_DEPENDENCIES && |locations| <= MAX_LOCATIONS
    }

    /** Every list length fits its 64-bit field. */
    predicate CountsFit() {
      |descriptor.dependencies| <= MAX_U64 && |locations| <= MAX_U64
    }
  }

  function PersistedLocations(ls: seq<StateLocation>): (r: seq<StateLocation>)
    ensures |r| == |ls|
  {
    seq(|ls|, i requires 0 <= i < |ls| => ls[i].Persisted())
  }

  datatype InvalidationRecord = InvalidationRecord(
    invalidationSeq: u64,
    invalidationId: u64,
    stateId: u64,
    boundGeneration: u64,
    coordinatorEpoch: u64,
    workerBoot: u64,
    recordGeneration: u64,
    locationGeneration: u64,
    compatibilityGeneration: u64,
    provenanceGeneration: u64,
    dependencyGeneration: u64,
    policyGeneration: u64,
    reason: Text,
    timestamp: i64,
    evidence: u8,
    current: bool
  )

  datatype TombstoneRecord = TombstoneRecord(
    tombstoneId: u64,
    stateId: u64,
    floorGeneration: u64,
    coordinatorEpoch: u64,
    workerBoot: u64,
    reason: Text,
    timestamp: i64,
    evidence: u8,
    current: bool
  ) {
    predicate Covers(generation: u64) {
      current && generation != 0 && generation <= floorGeneration
    }
  }

  /** Counters only grow, except that removing a location decrements `locations`. The program keeps them in
      64 bits; here they are unbounded, and an image can hold them when they fit. */
  datatype Accounting = Accounting(
    logicalStates: nat,
    currentStates: nat,
    historicalRecords: nat,
    locations: nat,
    replicas: nat,
    cudaLocations: nat,
    hostLocations: nat,
    storageLocations: nat,
    invalidations: nat,
    tombstones: nat,
    dependencies: nat,
    exactQueries: nat,
    predicateQueries: nat,
    queryHits: nat,
    queryMisses: nat,
    staleOnlyOutcomes: nat,
    incompatibleOnlyOutcomes: nat,
    staleMutationRejections: nat,
    duplicateMutationRejections: nat,
    workerRestarts: nat
  ) {
    predicate Fits() {
      && logicalStates <= MAX_U64 && currentStates <= MAX_U64 && historicalRecords <= MAX_U64
      && locations <= MAX_U64 && replicas <= MAX_U64 && cudaLocations <= MAX_U64
      && hostLocations <= MAX_U64 && storageLocations <= MAX_U64 && invalidations <= MAX_U64
      && tombstones <= MAX_U64 && dependencies <= MAX_U64 && exactQueries <= MAX_U64
      && predicateQueries <= MAX_U64 && queryHits <= MAX_U64 && queryMisses <= MAX_U64
      && staleOnlyOutcomes <= MAX_U64 && incompatibleOnlyOutcomes <= MAX_U64
      && staleMutationRejections <= MAX_U64 && duplicateMutationRejections <= MAX_U64
      && workerRestarts <= MAX_U64
    }
  }

  const NO_ACCOUNTING := Accounting(0, 0, 0, 0, 0, 0, 0, 0, 0, 0, 0, 0, 0, 0, 0, 0, 0, 0, 0, 0)
}
