/** The byte format of queries. The cost limit is written in whole thousandths, so a query comes back
    unchanged exactly when its limit is one. */
module QueryCodec {
  import opened Basics
  import opened ByteBuf
  import opened Model
  import opened RecordCodec
  import opened Queries

  // -------- Costs --------

  /** What the 64-bit field can hold. */
  predicate CostFits(cost: real) {
    cost >= 0.0 && cost * 1000.0 < 18446744073709551616.0
  }

  /** The conversion to an integer truncates. */
  function Thousandths(cost: real): u64
    requires CostFits(cost)
  {
    (cost * 1000.0).Floor
  }

  function CostOf(n: u64): real {
    n as real / 1000.0
  }

  predicate WholeThousandths(cost: real) {
    (cost * 1000.0).Floor as real == cost * 1000.0
  }

  lemma CostRoundTrip(cost: real)
    requires CostFits(cost)
    ensures CostOf(Thousandths(cost)) == cost <==> WholeThousandths(cost)
    ensures CostOf(Thousandths(cost)) <= cost < CostOf(Thousandths(cost)) + 0.001
  {
  }

  // -------- Printers --------

  function PutId(v: u64, tail: Bytes): Bytes { PutU64(v, tail) }

  function PutCode(v: u8, tail: Bytes): Bytes { PutU8(v, tail) }

  function PutKind(v: u16, tail: Bytes): Bytes { PutU16(v, tail) }

  function PutRequirement(d: DependencyRequirement, tail: Bytes): Bytes {
    PutU64(d.targetState, PutU64(d.minimumGeneration, PutBool(d.required, tail)))
  }

  function PutConstraint(k: LocationConstraint, tail: Bytes): Bytes {
    PutCount(|k.domains|, PutList(PutCode, k.domains, PutCount(|k.nodes|, PutList(PutId, k.nodes,
    PutCount(|k.devices|, PutList(PutId, k.devices, PutU8(k.preferredAccess, tail)))))))
  }

  function PutQueryHead(q: Query, tail: Bytes): Bytes {
    PutU64(q.queryId, PutOption(PutKind, q.kind, PutOption(PutId, q.stateId, PutBool(q.wildcardStateId,
    PutOption(PutId, q.namespaceId, PutU8(q.generationRule, PutOption(PutId, q.minimumGeneration,
    PutOption(PutId, q.exactGeneration, PutOption(PutId, q.asOfGeneration, PutU8(q.compatibility, tail))))))))))
  }

  function PutQueryBody(q: Query, tail: Bytes): Bytes {
    PutCount(|q.dependencyRequirements|, PutList(PutRequirement, q.dependencyRequirements,
    PutText(q.contentDigest, PutOption(PutId, q.ownerId, PutOption(PutId, q.producerId,
    PutConstraint(q.locationConstraint, tail))))))
  }

  function PutQueryEnd(q: Query, tail: Bytes): Bytes
    requires CostFits(q.maxRetrievalCost)
  {
    PutU8(q.requiredFreshness, PutU8(q.requiredHealth, PutU64(Thousandths(q.maxRetrievalCost),
    PutCount(|q.localityPreference|, PutList(PutCode, q.localityPreference, PutU32(q.minReplicaCount,
    PutU64(q.policyGeneration, PutU64(q.queryGeneration, PutBool(q.includeInvalidated,
    PutBool(q.historicalOnly, tail))))))))))
  }

  function PutQuery(q: Query, tail: Bytes): Bytes
    requires CostFits(q.maxRetrievalCost)
  {
    PutQueryHead(q, PutQueryBody(q, PutQueryEnd(q, tail)))
  }

  // -------- Parsers --------

  function GetId(s: Bytes): Option<(u64, Bytes)> { GetU64(s) }

  function GetCode(s: Bytes): Option<(u8, Bytes)> { GetU8(s) }

  function GetKind(s: Bytes): Option<(u16, Bytes)> { GetU16(s) }

  function GetRequirement(s: Bytes): Option<(DependencyRequirement, Bytes)> {
    var (target, s) :- GetU64(s);
    var (minimum, s) :- GetU64(s);
    var (required, s) :- GetBool(s);
    Some((DependencyRequirement(target, minimum, required), s))
  }

  function GetConstraint(s: Bytes): Option<(LocationConstraint, Bytes)> {
    var (domains, s) :- GetBounded(GetCode, MAX_LOCATIONS, s);
    var (nodes, s) :- GetBounded(GetId, MAX_LOCATIONS, s);
    var (devices, s) :- GetBounded(GetId, MAX_LOCATIONS, s);
    var (access, s) :- GetU8(s);
    Some((LocationConstraint(domains, nodes, devices, access), s))
  }

  /** What a query holds before anything is read into it. */
  const BLANK_QUERY :=
    Query(0, None, None, false, None, RULE_CURRENT, None, None, None, REQUIRE_NONE, [], [], None, None,
          LocationConstraint([], [], [], 0), FRESHNESS_UNKNOWN, HEALTH_UNKNOWN, 0.0, [], 0, 0, 0, false, false)

  function GetQueryHead(s: Bytes): Option<(Query, Bytes)> {
    var (id, s) :- GetU64(s);
    var (kind, s) :- GetOption(GetKind, s);
    var (state, s) :- GetOption(GetId, s);
    var (wildcard, s) :- GetBool(s);
    var (namespaceId, s) :- GetOption(GetId, s);
    var (rule, s) :- GetU8(s);
    var (minimum, s) :- GetOption(GetId, s);
    var (exact, s) :- GetOption(GetId, s);
    var (asOf, s) :- GetOption(GetId, s);
    var (compatibility, s) :- GetU8(s);
    Some((BLANK_QUERY.(queryId := id, kind := kind, stateId := state, wildcardStateId := wildcard,
                       namespaceId := namespaceId, generationRule := rule, minimumGeneration := minimum,
                       exactGeneration := exact, asOfGeneration := asOf, compatibility := compatibility), s))
  }

  function GetQueryBody(q: Query, s: Bytes): Option<(Query, Bytes)> {
    var (requirements, s) :- GetBounded(GetRequirement, MAX_DEPENDENCIES, s);
    var (digest, s) :- GetText(s);
    var (owner, s) :- GetOption(GetId, s);
    var (producer, s) :- GetOption(GetId, s);
    var (constraint, s) :- GetConstraint(s);
    Some((q.(dependencyRequirements := requirements, contentDigest := digest, ownerId := owner, producerId := producer,
             locationConstraint := constraint), s))
  }

  function GetQueryEnd(q: Query, s: Bytes): Option<(Query, Bytes)> {
    var (freshness, s) :- GetU8(s);
    var (health, s) :- GetU8(s);
    var (cost, s) :- GetU64(s);
    var (locality, s) :- GetBounded(GetCode, MAX_LOCATIONS, s);
    var (replicas, s) :- GetU32(s);
    var (policy, s) :- GetU64(s);
    var (generation, s) :- GetU64(s);
    var (invalidated, s) :- GetBool(s);
    var (historical, s) :- GetBool(s);
    Some((q.(requiredFreshness := freshness, requiredHealth := health, maxRetrievalCost := CostOf(cost),
             localityPreference := locality, minReplicaCount := replicas, policyGeneration := policy,
             queryGeneration := generation, includeInvalidated := invalidated, historicalOnly := historical), s))
  }

  function GetQuery(s: Bytes): Option<(Query, Bytes)> {
    var (q, s) :- GetQueryHead(s);
    var (q, s) :- GetQueryBody(q, s);
    GetQueryEnd(q, s)
  }

  // -------- Round trip --------

  /** The bounds the parser enforces. */
  predicate WithinBounds(q: Query) {
    var k := q.locationConstraint;
    && |q.dependencyRequirements| <= MAX_DEPENDENCIES && |q.localityPreference| <= MAX_LOCATIONS
    && |k.domains| <= MAX_LOCATIONS && |k.nodes| <= MAX_LOCATIONS && |k.devices| <= MAX_LOCATIONS
  }

  /** What a machine can hold in the fields that are written. */
  predicate Writable(q: Query) {
    var k := q.locationConstraint;
    && CostFits(q.maxRetrievalCost)
    && |q.dependencyRequirements| <= MAX_U64 && |q.localityPreference| <= MAX_U64
    && |k.domains| <= MAX_U64 && |k.nodes| <= MAX_U64 && |k.devices| <= MAX_U64
  }

  function AsRead(q: Query): Query
    requires CostFits(q.maxRetrievalCost)
  {
    q.(maxRetrievalCost := CostOf(Thousandths(q.maxRetrievalCost)))
  }

  lemma ElementsRoundTrip()
    ensures Undoes(GetId, PutId, (x: u64) => x) && Undoes(GetCode, PutCode, (x: u8) => x)
    ensures Undoes(GetKind, PutKind, (x: u16) => x)
    ensures Undoes(GetRequirement, PutRequirement, (x: DependencyRequirement) => x)
  {
    ScalarsRoundTrip();
    hide PutU8, PutU16, PutU64, PutBool, GetU8, GetU16, GetU64, GetBool;
    forall x: u64, t: Bytes ensures GetId(PutId(x, t)) == Some((x, t)) {
    }
    forall x: u8, t: Bytes ensures GetCode(PutCode(x, t)) == Some((x, t)) {
    }
    forall x: u16, t: Bytes ensures GetKind(PutKind(x, t)) == Some((x, t)) {
    }
    forall x: DependencyRequirement, t: Bytes ensures GetRequirement(PutRequirement(x, t)) == Some((x, t)) {
    }
  }

  lemma MaybeIdRoundTrip()
    ensures forall x: Option<u64>, t: Bytes {:trigger PutOption(PutId, x, t)} ::
      GetOption(GetId, PutOption(PutId, x, t)) == Some((x, t))
  {
    ElementsRoundTrip();
    forall x: Option<u64>, t: Bytes ensures GetOption(GetId, PutOption(PutId, x, t)) == Some((x, t)) {
      OptionRoundTrip(GetId, PutId, x, t);
    }
  }

  lemma MaybeKindRoundTrip()
    ensures forall x: Option<u16>, t: Bytes {:trigger PutOption(PutKind, x, t)} ::
      GetOption(GetKind, PutOption(PutKind, x, t)) == Some((x, t))
  {
    ElementsRoundTrip();
    forall x: Option<u16>, t: Bytes ensures GetOption(GetKind, PutOption(PutKind, x, t)) == Some((x, t)) {
      OptionRoundTrip(GetKind, PutKind, x, t);
    }
  }

  function HeadFields(q: Query): Query {
    BLANK_QUERY.(queryId := q.queryId, kind := q.kind, stateId := q.stateId, wildcardStateId := q.wildcardStateId,
                 namespaceId := q.namespaceId, generationRule := q.generationRule,
                 minimumGeneration := q.minimumGeneration, exactGeneration := q.exactGeneration,
                 asOfGeneration := q.asOfGeneration, compatibility := q.compatibility)
  }

  function BodyFields(q: Query): Query {
    HeadFields(q).(dependencyRequirements := q.dependencyRequirements, contentDigest := q.contentDigest,
                   ownerId := q.ownerId, producerId := q.producerId, locationConstraint := q.locationConstraint)
  }

  lemma QueryHeadReadsBack(q: Query, t: Bytes)
    ensures GetQueryHead(PutQueryHead(q, t)) == Some((HeadFields(q), t))
  {
    hide GetOption, PutOption, PutU8, PutU64, PutBool, GetU8, GetU64, GetBool;
    ScalarsRoundTrip();
    MaybeIdRoundTrip();
    MaybeKindRoundTrip();
  }

  lemma ConstraintReadsBack(k: LocationConstraint, t: Bytes)
    requires |k.domains| <= MAX_U64 && |k.nodes| <= MAX_U64 && |k.devices| <= MAX_U64
    ensures GetConstraint(PutConstraint(k, t))
         == if |k.domains| <= MAX_LOCATIONS && |k.nodes| <= MAX_LOCATIONS && |k.devices| <= MAX_LOCATIONS
            then Some((k, t)) else None
  {
    hide GetBounded, PutCount, PutList, PutU8, GetU8, GetCode, PutCode, GetId, PutId;
    ElementsRoundTrip();
    ScalarsRoundTrip();
    var s3 := PutU8(k.preferredAccess, t);
    var s2 := PutCount(|k.devices|, PutList(PutId, k.devices, s3));
    var s1 := PutCount(|k.nodes|, PutList(PutId, k.nodes, s2));
    BoundedReadsBack(GetCode, PutCode, MAX_LOCATIONS, k.domains, s1);
    BoundedReadsBack(GetId, PutId, MAX_LOCATIONS, k.nodes, s2);
    BoundedReadsBack(GetId, PutId, MAX_LOCATIONS, k.devices, s3);
  }

  lemma QueryBodyReadsBack(q: Query, t: Bytes)
    requires Writable(q)
    ensures GetQueryBody(HeadFields(q), PutQueryBody(q, t))
         == if |q.dependencyRequirements| <= MAX_DEPENDENCIES
           && GetConstraint(PutConstraint(q.locationConstraint, t)).Some?
            then Some((BodyFields(q), t)) else None
  {
    hide GetOption, PutOption, GetBounded, PutCount, PutList, GetText, PutText, GetConstraint, PutConstraint,
         GetRequirement, PutRequirement;
    ElementsRoundTrip();
    TextsRoundTrip();
    MaybeIdRoundTrip();
    ConstraintReadsBack(q.locationConstraint, t);
    BoundedReadsBack(GetRequirement, PutRequirement, MAX_DEPENDENCIES, q.dependencyRequirements,
                PutText(q.contentDigest, PutOption(PutId, q.ownerId, PutOption(PutId, q.producerId,
                PutConstraint(q.locationConstraint, t)))));
  }

  lemma QueryEndReadsBack(q: Query, t: Bytes)
    requires Writable(q)
    ensures GetQueryEnd(BodyFields(q), PutQueryEnd(q, t))
         == if |q.localityPreference| <= MAX_LOCATIONS then Some((AsRead(q), t)) else None
  {
    hide GetBounded, PutCount, PutList, PutU8, PutU32, PutU64, PutBool, GetU8, GetU32, GetU64, GetBool, CostOf,
         Thousandths, GetCode, PutCode;
    ElementsRoundTrip();
    ScalarsRoundTrip();
    BoundedReadsBack(GetCode, PutCode, MAX_LOCATIONS, q.localityPreference,
                PutU32(q.minReplicaCount, PutU64(q.policyGeneration, PutU64(q.queryGeneration,
                PutBool(q.includeInvalidated, PutBool(q.historicalOnly, t))))));
  }

  /** A written query reads back, with its cost limit cut to whole thousandths and leaving exactly the
      tail, when its lists are within bounds, and is refused otherwise. */
  lemma QueryReadsBack(q: Query, t: Bytes)
    requires Writable(q)
    ensures GetQuery(PutQuery(q, t)) == if WithinBounds(q) then Some((AsRead(q), t)) else None
  {
    hide GetQueryHead, GetQueryBody, GetQueryEnd, PutQueryHead, PutQueryBody, PutQueryEnd, GetConstraint, PutConstraint;
    QueryHeadReadsBack(q, PutQueryBody(q, PutQueryEnd(q, t)));
    QueryBodyReadsBack(q, PutQueryEnd(q, t));
    ConstraintReadsBack(q.locationConstraint, PutQueryEnd(q, t));
    QueryEndReadsBack(q, t);
  }

  /** A query comes back unchanged exactly when its lists are within bounds and its cost limit is a whole
      number of thousandths. */
  lemma QueryRoundTrip(q: Query, t: Bytes)
    requires Writable(q)
    ensures GetQuery(PutQuery(q, t)) == Some((q, t)) <==> WithinBounds(q) && WholeThousandths(q.maxRetrievalCost)
  {
    hide GetQuery, PutQuery;
    QueryReadsBack(q, t);
    CostRoundTrip(q.maxRetrievalCost);
    assert AsRead(q) == q <==> CostOf(Thousandths(q.maxRetrievalCost)) == q.maxRetrievalCost;
  }
}
