/** How a query is answered: hard filters on each candidate record, a best placement, named ranking
    factors, and the outcome. Costs are the real values of their stored doubles, given by M. */
module Planner {
  import opened Basics
  import opened Model
  import opened Transitions
  import opened Queries

  type Meaning = u64 -> real

  /** What a query reads of the engine. */
  datatype Catalog = Catalog(
    records: map<u64, StateRecord>,
    current: map<u64, u64>,
    tombstones: map<u64, TombstoneRecord>
  )

  datatype Reason =
    | WrongStateKind
    | WrongNamespace
    | StaleGeneration
    | Invalidated
    | TombstonedReason
    | CompatibilityMismatch
    | DependencyMismatch
    | HealthUnacceptable
    | LocationUnavailable
    | FreshnessBelowRequirement
    | ContentDigestMismatch
    | MissingRequiredDependency
    | NotCurrent
    | InsufficientEvidence

  const FACTOR_COUNT := 14
  const FRESHNESS_FACTOR := 4

  /** Named factors, highest priority first: identity, locality, compatibility, health, freshness, recency,
      latency, transfer, bandwidth, restore, reuse, replicas, policy, adaptation. Higher is better. */
  type Factors = f: seq<real> | |f| == FACTOR_COUNT
    witness [0.0, 0.0, 0.0, 0.0, 0.0, 0.0, 0.0, 0.0, 0.0, 0.0, 0.0, 0.0, 0.0, 0.0]

  datatype Candidate = Candidate(recordId: u64, generation: u64, placement: u64, factors: Factors)

  datatype Assessment = InScope(candidate: Candidate) | Eliminated(recordId: u64, reason: Reason)

  // -------- Lookups --------

  function CatalogOf(s: EngineState): Catalog {
    Catalog(s.records, s.current, s.tombstones)
  }

  function FindCurrent(c: Catalog, state: u64): Option<StateRecord> {
    CurrentOf(c.records, c.current, state)
  }

  /** Is the state current at this generation or above? */
  predicate AtLeast(c: Catalog, state: u64, generation: u64) {
    FindCurrent(c, state).Some? && FindCurrent(c, state).value.stateGeneration >= generation
  }

  predicate DependencySatisfied(c: Catalog, d: DependencyRef) {
    d.required ==>
      && AtLeast(c, d.targetState, d.requiredGeneration)
      && FindCurrent(c, d.targetState).value.lifecycle != INVALIDATED
      && FindCurrent(c, d.targetState).value.lifecycle != TOMBSTONED
  }

  predicate DependenciesSatisfied(c: Catalog, ds: seq<DependencyRef>) {
    forall d :: d in ds ==> DependencySatisfied(c, d)
  }

  // -------- Scores --------

  function FreshnessScore(f: u8): real {
    if f == FRESHNESS_CURRENT then 3.0
    else if f == REVALIDATION_REQUIRED then 2.0
    else if f == FRESHNESS_STALE then 1.0
    else 0.0
  }

  function HealthScore(h: u8): real {
    if h == HEALTHY then 3.0 else if h == HEALTH_DEGRADED then 2.0 else if h == HEALTH_UNKNOWN then 1.0 else 0.0
  }

  function CompatibilityScore(o: u8): real {
    if o == OUTCOME_EXACT then 3.0
    else if o == OUTCOME_COMPATIBLE then 2.0
    else if o == OUTCOME_WITH_ADAPTATION then 1.0
    else 0.0
  }

  /** The inverse of a cost; costs are at least zero, so the guard never acts. */
  function Inverse(x: real): real {
    if x + 1.0 == 0.0 then 0.0 else 1.0 / (x + 1.0)
  }

  /** Points for every place the domain takes in the preference list, the earlier the more. */
  function PreferencePoints(preference: seq<u8>, domain: u8, n: nat): real
    requires n <= |preference|
  {
    if n == 0 then 0.0
    else PreferencePoints(preference, domain, n - 1)
         + if preference[n - 1] == domain then (|preference| - (n - 1)) as real else 0.0
  }

  function LocalityScore(q: Query, l: StateLocation): real {
    PreferencePoints(q.localityPreference, l.domain, |q.localityPreference|)
    + if l.accessClass == ACCESS_LOCAL then 10.0 else 0.0
  }

  function PlacementRank(M: Meaning, q: Query, l: StateLocation): real {
    LocalityScore(q, l) + HealthScore(l.health) + Inverse(M(l.retrieval.expectedLatencyMs))
  }

  // -------- Hard filters on the record --------

  function IdentityFilter(q: Query, rec: StateRecord): Option<Reason> {
    var d := rec.descriptor;
    if q.kind.Some? && d.kind != q.kind.value then Some(WrongStateKind)
    else if q.namespaceId.Some? && d.namespaceId != q.namespaceId.value then Some(WrongNamespace)
    else if q.ownerId.Some? && d.ownerId != q.ownerId.value then Some(InsufficientEvidence)
    else if q.producerId.Some? && d.producerId != q.producerId.value then Some(InsufficientEvidence)
    else if q.ExactIdentity() && rec.stateId != q.stateId.value then Some(WrongStateKind)
    else if q.contentDigest != [] && d.contentDigest != q.contentDigest then Some(ContentDigestMismatch)
    else None
  }

  function GenerationFilter(c: Catalog, q: Query, historical: bool, rec: StateRecord): Option<Reason> {
    if q.generationRule == RULE_CURRENT then
      if !historical && !IsCurrent(c.current, rec) then Some(NotCurrent) else None
    else if q.generationRule == RULE_MINIMUM then
      if q.minimumGeneration.Some? && rec.stateGeneration < q.minimumGeneration.value then Some(StaleGeneration)
      else None
    else if q.generationRule == RULE_EXACT then
      if q.exactGeneration.Some? && rec.stateGeneration != q.exactGeneration.value then Some(StaleGeneration) else None
    else if q.generationRule == RULE_AS_OF then
      if q.asOfGeneration.Some? && rec.stateGeneration > q.asOfGeneration.value then Some(NotCurrent) else None
    else None
  }

  function LifecycleFilter(c: Catalog, q: Query, historical: bool, rec: StateRecord): Option<Reason> {
    var l := rec.lifecycle;
    if Tombstoned(c.tombstones, rec.stateId, rec.stateGeneration) then Some(TombstonedReason)
    else if l == INVALIDATED || l == TOMBSTONED then Some(Invalidated)
    else if !historical && !q.includeInvalidated
            && (l == SUPERSEDED || l == RETIRED || l == MISSING || l == FAILED) then
      Some(NotCurrent)
    else None
  }

  function CompatibilityFilter(q: Query, rec: StateRecord): Option<Reason> {
    var compatibility := rec.descriptor.compatibility;
    if q.compatibility == REQUIRE_NONE then None
    else if compatibility.None? || compatibility.value.outcome == OUTCOME_UNKNOWN then Some(InsufficientEvidence)
    else if !compatibility.value.Satisfies(q.compatibility) then Some(CompatibilityMismatch)
    else None
  }

  predicate DependsOn(ds: seq<DependencyRef>, target: u64) {
    exists d :: d in ds && d.targetState == target
  }

  function RequirementFilter(c: Catalog, ds: seq<DependencyRef>, req: DependencyRequirement): Option<Reason> {
    if DependsOn(ds, req.targetState) then
      if AtLeast(c, req.targetState, req.minimumGeneration) then None else Some(DependencyMismatch)
    else if req.required then Some(MissingRequiredDependency)
    else None
  }

  /** The first requirement that fails decides. */
  function RequirementsFilter(c: Catalog, ds: seq<DependencyRef>, reqs: seq<DependencyRequirement>): Option<Reason> {
    if reqs == [] then None
    else
      var first := RequirementFilter(c, ds, reqs[0]);
      if first.Some? then first else RequirementsFilter(c, ds, reqs[1..])
  }

  function RecordFilter(c: Catalog, q: Query, historical: bool, rec: StateRecord): Option<Reason> {
    var identity := IdentityFilter(q, rec);
    if identity.Some? then identity else
    var lifecycle := LifecycleFilter(c, q, historical, rec);
    if lifecycle.Some? then lifecycle else
    var generation := GenerationFilter(c, q, historical, rec);
    if generation.Some? then generation else
    var compatibility := CompatibilityFilter(q, rec);
    if compatibility.Some? then compatibility else
    var requirements := RequirementsFilter(c, rec.descriptor.dependencies, q.dependencyRequirements);
    if requirements.Some? then requirements else
    if DependenciesSatisfied(c, rec.descriptor.dependencies) then None else Some(DependencyMismatch)
  }

  // -------- Locations --------

  /** A usable location that meets the constraints. */
  predicate Suits(q: Query, l: StateLocation) {
    var k := q.locationConstraint;
    && l.Usable()
    && (k.domains == [] || l.domain in k.domains)
    && (k.nodes == [] || l.nodeId in k.nodes)
    && (k.devices == [] || l.deviceId in k.devices)
  }

  function Suitable(q: Query, ls: seq<StateLocation>): seq<StateLocation> {
    if ls == [] then []
    else Suitable(q, ls[..|ls| - 1]) + if Suits(q, ls[|ls| - 1]) then [ls[|ls| - 1]] else []
  }

  /** The first location of the highest rank among the first n. */
  function Best(M: Meaning, q: Query, us: seq<StateLocation>, n: nat): StateLocation
    requires 0 < n <= |us|
  {
    if n == 1 then us[0]
    else
      var b := Best(M, q, us, n - 1);
      if PlacementRank(M, q, us[n - 1]) > PlacementRank(M, q, b) then us[n - 1] else b
  }

  predicate HasHealth(us: seq<StateLocation>, health: u8) {
    exists l :: l in us && l.health == health
  }

  // -------- Factors --------

  function FactorsOf(M: Meaning, q: Query, rec: StateRecord, best: StateLocation): Factors {
    var d, r := rec.descriptor, best.retrieval;
    [ if q.ExactIdentity() && rec.stateId == q.stateId.value then 1.0 else 0.0,
      LocalityScore(q, best),
      if d.compatibility.Some? then CompatibilityScore(d.compatibility.value.outcome) else 0.0,
      HealthScore(best.health),
      FreshnessScore(best.freshness),
      rec.stateGeneration as real,
      Inverse(M(r.expectedLatencyMs)),
      Inverse(M(r.transferBytes)),
      M(r.expectedBandwidthMbps),
      Inverse(M(r.restoreCost)),
      Inverse(M(r.recomputeCost)),
      |rec.locations| as real,
      if q.policyGeneration != 0 && d.policyGeneration == q.policyGeneration then 1.0 else 0.0,
      Inverse(M(r.adaptationCost)) ]
  }

  // -------- One candidate --------

  /** Filters that apply once the suitable locations are known. */
  function PlacementFilter(M: Meaning, q: Query, rec: StateRecord, us: seq<StateLocation>): Option<Reason> {
    if us == [] then Some(LocationUnavailable)
    else if q.requiredHealth != HEALTH_UNKNOWN && !HasHealth(us, q.requiredHealth) then Some(HealthUnacceptable)
    else if q.requiredFreshness != FRESHNESS_UNKNOWN
            && FreshnessScore(rec.descriptor.freshness) < FreshnessScore(q.requiredFreshness) then
      Some(FreshnessBelowRequirement)
    else if q.minReplicaCount > 0 && |us| % 0x1_0000_0000 < q.minReplicaCount then Some(LocationUnavailable)
    else if q.maxRetrievalCost > 0.0
            && M(Best(M, q, us, |us|).retrieval.localAccessCost) > q.maxRetrievalCost then Some(LocationUnavailable)
    else None
  }

  function Assess(M: Meaning, c: Catalog, q: Query, historical: bool, rec: StateRecord): Assessment {
    var filter := RecordFilter(c, q, historical, rec);
    if filter.Some? then Eliminated(rec.recordId, filter.value)
    else
      var us := Suitable(q, rec.locations);
      var placement := PlacementFilter(M, q, rec, us);
      if placement.Some? then Eliminated(rec.recordId, placement.value)
      else
        var best := Best(M, q, us, |us|);
        InScope(Candidate(rec.recordId, rec.stateGeneration, best.placementId, FactorsOf(M, q, rec, best)))
  }

  // -------- Ranking --------

  /** Lexicographic on the factors from i on, then higher generation, then lower record id. */
  predicate BeforeFrom(a: Candidate, b: Candidate, i: nat)
    requires i <= FACTOR_COUNT
    decreases FACTOR_COUNT - i
  {
    if i == FACTOR_COUNT then
      if a.generation != b.generation then a.generation > b.generation else a.recordId < b.recordId
    else if a.factors[i] != b.factors[i] then a.factors[i] > b.factors[i]
    else BeforeFrom(a, b, i + 1)
  }

  predicate Before(a: Candidate, b: Candidate) {
    BeforeFrom(a, b, 0)
  }

  predicate InOrder(cs: seq<Candidate>) {
    forall i, j :: 0 <= i < j < |cs| ==> Before(cs[i], cs[j])
  }

  predicate DistinctIds(cs: seq<Candidate>) {
    forall i, j :: 0 <= i < j < |cs| ==> cs[i].recordId != cs[j].recordId
  }

  function InsertRanked(x: Candidate, cs: seq<Candidate>): seq<Candidate> {
    if cs == [] then [x]
    else if Before(x, cs[0]) then [x] + cs
    else [cs[0]] + InsertRanked(x, cs[1..])
  }

  function Ranked(cs: seq<Candidate>): seq<Candidate> {
    if cs == [] then [] else InsertRanked(cs[|cs| - 1], Ranked(cs[..|cs| - 1]))
  }

  // -------- The whole query --------

  function Survivors(M: Meaning, c: Catalog, q: Query, historical: bool, ids: seq<u64>): seq<Candidate> {
    if ids == [] then []
    else
      var front, id := Survivors(M, c, q, historical, ids[..|ids| - 1]), ids[|ids| - 1];
      if id !in c.records then front
      else
        match Assess(M, c, q, historical, c.records[id])
        case InScope(candidate) => front + [candidate]
        case Eliminated(_, _) => front
  }

  function Losers(M: Meaning, c: Catalog, q: Query, historical: bool, ids: seq<u64>): seq<(u64, Reason)> {
    if ids == [] then []
    else
      var front, id := Losers(M, c, q, historical, ids[..|ids| - 1]), ids[|ids| - 1];
      if id !in c.records then front
      else
        match Assess(M, c, q, historical, c.records[id])
        case InScope(_) => front
        case Eliminated(recordId, reason) => front + [(recordId, reason)]
  }

  datatype QueryOutcome =
    | FoundExact
    | FoundCompatible
    | FoundMultiple
    | NotFound
    | StaleOnly
    | IncompatibleOnly
    | InvalidatedOnly
    | OutcomeInsufficient

  datatype Category = Inval | Stale | Incompat | Insuff | Other

  function CategoryOf(r: Reason): Category {
    match r
    case Invalidated => Inval
    case TombstonedReason => Inval
    case StaleGeneration => Stale
    case NotCurrent => Stale
    case FreshnessBelowRequirement => Stale
    case CompatibilityMismatch => Incompat
    case DependencyMismatch => Incompat
    case MissingRequiredDependency => Incompat
    case InsufficientEvidence => Insuff
    case _ => Other
  }

  predicate Saw(losers: seq<(u64, Reason)>, category: Category) {
    exists i :: 0 <= i < |losers| && CategoryOf(losers[i].1) == category
  }

  /** The outcome when nothing is in scope. */
  function EmptyOutcome(noIds: bool, losers: seq<(u64, Reason)>): QueryOutcome {
    var inval, stale, incompat := Saw(losers, Inval), Saw(losers, Stale), Saw(losers, Incompat);
    var insuff, other := Saw(losers, Insuff), Saw(losers, Other);
    if noIds then NotFound
    else if inval && !stale && !incompat && !insuff && !other then InvalidatedOnly
    else if incompat && !stale && !insuff && !inval then IncompatibleOnly
    else if stale && !insuff && !other then StaleOnly
    else if insuff || other then OutcomeInsufficient
    else NotFound
  }

  predicate MatchesExactly(q: Query, rec: StateRecord) {
    && q.ExactIdentity() && rec.stateId == q.stateId.value
    && (q.compatibility == REQUIRE_NONE
        || (rec.descriptor.compatibility.Some? && rec.descriptor.compatibility.value.outcome == OUTCOME_EXACT))
    && (q.contentDigest == [] || rec.descriptor.contentDigest == q.contentDigest)
  }

  datatype Selection = Selection(recordId: u64, generation: u64, placement: u64, stateId: u64)

  datatype Answer = Answer(
    outcome: QueryOutcome,
    selected: Option<Selection>,
    ranked: seq<Candidate>,
    eliminated: seq<(u64, Reason)>
  )

  function Conclude(c: Catalog, q: Query, noIds: bool, ranked: seq<Candidate>, losers: seq<(u64, Reason)>): Answer
    requires forall x :: x in ranked ==> x.recordId in c.records
  {
    if ranked == [] then Answer(EmptyOutcome(noIds, losers), None, ranked, losers)
    else
      assert ranked[0] in ranked;
      var first, rec := ranked[0], c.records[ranked[0].recordId];
      var outcome :=
        if |ranked| > 1 then FoundMultiple
        else if MatchesExactly(q, rec) then FoundExact else FoundCompatible;
      Answer(outcome, Some(Selection(first.recordId, first.generation, first.placement, rec.stateId)), ranked, losers)
  }
}
