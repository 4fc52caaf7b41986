/** Which placement a record is offered at, and the conditions on its placements, on the fields of its
    locations. */
module Places {
  import opened Basics
  import opened Model
  import opened Queries
  import opened Planner

  // -------- Conditions on placements --------

  /** A location that works and that no part of the constraint excludes. */
  predicate Offers(q: Query, l: StateLocation) {
    && (l.health == HEALTHY || l.health == HEALTH_DEGRADED)
    && (q.locationConstraint.domains != [] ==> l.domain in q.locationConstraint.domains)
    && (q.locationConstraint.nodes != [] ==> l.nodeId in q.locationConstraint.nodes)
    && (q.locationConstraint.devices != [] ==> l.deviceId in q.locationConstraint.devices)
  }

  /** The places in the location list that a query can use. */
  function OfferingPlaces(q: Query, ls: seq<StateLocation>): set<nat> {
    set i: nat | i < |ls| && Offers(q, ls[i])
  }

  /** The first of n preferred domains is worth n points, the next one less; one listed twice counts twice. */
  function Preference(domains: seq<u8>, domain: u8): int {
    if domains == [] then 0
    else (if domains[0] == domain then |domains| else 0) + Preference(domains[1..], domain)
  }

  /** Local access is worth ten points, and health one. */
  function Points(q: Query, l: StateLocation): int {
    Preference(q.localityPreference, l.domain)
    + (if l.accessClass == ACCESS_LOCAL then 10 else 0)
    + (if l.health == HEALTHY then 1 else 0)
  }

  /** One for no latency, less for more. */
  function Closeness(latency: real): real {
    if latency == -1.0 then 0.0 else 1.0 / (latency + 1.0)
  }

  function Value(M: Meaning, q: Query, l: StateLocation): real {
    Points(q, l) as real + Closeness(M(l.retrieval.expectedLatencyMs))
  }

  /** The first offering location of the highest value. */
  predicate IsChosen(M: Meaning, q: Query, ls: seq<StateLocation>, i: nat) {
    && i < |ls| && Offers(q, ls[i])
    && (forall j :: 0 <= j < |ls| && Offers(q, ls[j]) ==> Value(M, q, ls[j]) <= Value(M, q, ls[i]))
    && (forall j :: 0 <= j < i && Offers(q, ls[j]) ==> Value(M, q, ls[j]) < Value(M, q, ls[i]))
  }

  predicate HealthMet(q: Query, rec: StateRecord) {
    q.requiredHealth != HEALTH_UNKNOWN ==>
      exists l :: l in rec.locations && Offers(q, l) && l.health == q.requiredHealth
  }

  /** The freshness codes that meet a requirement: current, then to be revalidated, then stale. */
  predicate FreshEnough(freshness: u8, required: u8) {
    && (required == FRESHNESS_CURRENT ==> freshness == FRESHNESS_CURRENT)
    && (required == REVALIDATION_REQUIRED ==> freshness in {FRESHNESS_CURRENT, REVALIDATION_REQUIRED})
    && (required == FRESHNESS_STALE ==> freshness in {FRESHNESS_CURRENT, REVALIDATION_REQUIRED, FRESHNESS_STALE})
  }

  predicate FreshnessMet(q: Query, rec: StateRecord) {
    FreshEnough(rec.descriptor.freshness, q.requiredFreshness)
  }

  /** The count is cut to 32 bits before it is compared. */
  predicate ReplicasMet(q: Query, rec: StateRecord) {
    |OfferingPlaces(q, rec.locations)| % 0x1_0000_0000 >= q.minReplicaCount
  }

  predicate CostMet(M: Meaning, q: Query, rec: StateRecord) {
    q.maxRetrievalCost > 0.0 ==>
      forall i: nat :: i < |rec.locations| && IsChosen(M, q, rec.locations, i) ==>
        M(rec.locations[i].retrieval.localAccessCost) <= q.maxRetrievalCost
  }

  predicate HasPlacement(q: Query, rec: StateRecord) {
    exists l :: l in rec.locations && Offers(q, l)
  }

  predicate PlacementAccepted(M: Meaning, q: Query, rec: StateRecord) {
    HasPlacement(q, rec) && HealthMet(q, rec) && FreshnessMet(q, rec) && ReplicasMet(q, rec) && CostMet(M, q, rec)
  }

  // -------- The planner's terms --------

  lemma SuitsMeaning(q: Query, l: StateLocation)
    ensures Suits(q, l) <==> Offers(q, l)
  {
  }

  lemma {:induction false} PointsFromTheFront(ps: seq<u8>, domain: u8, n: nat)
    requires n <= |ps|
    ensures PreferencePoints(ps, domain, |ps|) == PreferencePoints(ps, domain, n) + Preference(ps[n..], domain) as real
    decreases |ps| - n
  {
    if n < |ps| {
      assert ps[n..][1..] == ps[n + 1..];
      PointsFromTheFront(ps, domain, n + 1);
    }
  }

  /** The planner's rank is the value, but for a constant. */
  lemma RankIsValue(M: Meaning, q: Query, l: StateLocation)
    requires Offers(q, l)
    ensures PlacementRank(M, q, l) == Value(M, q, l) + 2.0
  {
    PointsFromTheFront(q.localityPreference, l.domain, 0);
    assert q.localityPreference[0..] == q.localityPreference;
  }

  lemma {:induction false} SuitableMeaning(q: Query, ls: seq<StateLocation>)
    ensures forall l :: l in Suitable(q, ls) <==> l in ls && Offers(q, l)
    ensures |Suitable(q, ls)| == |OfferingPlaces(q, ls)|
    decreases |ls|
  {
    hide Suits, Offers;
    if ls == [] {
      assert OfferingPlaces(q, ls) == {};
    } else {
      var front, l := ls[..|ls| - 1], ls[|ls| - 1];
      SuitableMeaning(q, front);
      SuitsMeaning(q, l);
      assert ls == front + [l];
      PlacesOneMore(q, front, l);
    }
  }

  lemma PlacesOneMore(q: Query, front: seq<StateLocation>, l: StateLocation)
    ensures |OfferingPlaces(q, front + [l])| == |OfferingPlaces(q, front)| + if Offers(q, l) then 1 else 0
  {
    hide Offers;
    var added: set<nat> := if Offers(q, l) then {|front|} else {};
    assert OfferingPlaces(q, front + [l]) == OfferingPlaces(q, front) + added;
  }

  lemma {:induction false} BestOfFront(M: Meaning, q: Query, us: seq<StateLocation>, more: seq<StateLocation>, n: nat)
    requires 0 < n <= |us|
    ensures Best(M, q, us + more, n) == Best(M, q, us, n)
    decreases n
  {
    hide PlacementRank;
    if n > 1 {
      BestOfFront(M, q, us, more, n - 1);
    }
  }

  /** One more location becomes the chosen one only by offering more than the chosen one so far. */
  lemma ChosenOneMore(M: Meaning, q: Query, front: seq<StateLocation>, l: StateLocation, i: nat)
    requires IsChosen(M, q, front, i)
    ensures if Offers(q, l) && Value(M, q, l) > Value(M, q, front[i])
            then IsChosen(M, q, front + [l], |front|) else IsChosen(M, q, front + [l], i)
  {
    hide Value, Offers;
    assert forall j :: 0 <= j < |front| ==> (front + [l])[j] == front[j];
  }

  lemma ChosenFirst(M: Meaning, q: Query, front: seq<StateLocation>, l: StateLocation)
    requires Offers(q, l) && forall m :: m in front ==> !Offers(q, m)
    ensures IsChosen(M, q, front + [l], |front|)
  {
    hide Value, Offers;
    assert forall j :: 0 <= j < |front| ==> (front + [l])[j] in front;
  }

  /** The placement search settles on the first offering location of the highest value. */
  lemma {:induction false} BestIsBest(M: Meaning, q: Query, ls: seq<StateLocation>) returns (i: nat)
    requires Suitable(q, ls) != []
    ensures i < |ls| && IsChosen(M, q, ls, i) && ls[i] == Best(M, q, Suitable(q, ls), |Suitable(q, ls)|)
    decreases |ls|
  {
    hide PlacementRank, Value, Suits, Offers, IsChosen;
    var front, l := ls[..|ls| - 1], ls[|ls| - 1];
    assert ls == front + [l];
    var us := Suitable(q, front);
    SuitsMeaning(q, l);
    if us == [] {
      SuitableMeaning(q, front);
      ChosenFirst(M, q, front, l);
      i := |front|;
    } else {
      i := BestIsBest(M, q, front);
      ChosenOneMore(M, q, front, l, i);
      BestOfFront(M, q, us, [l], |us|);
      assert us + [] == us;
      if Offers(q, l) {
        ChosenOffers(M, q, front, i);
        RankIsValue(M, q, l);
        RankIsValue(M, q, front[i]);
        if Value(M, q, l) > Value(M, q, front[i]) {
          i := |front|;
        }
      }
    }
  }

  /** Among locations that all offer, it settles on the chosen one of them. */
  lemma BestIsChosen(M: Meaning, q: Query, us: seq<StateLocation>)
    requires us != [] && forall u :: u in us ==> Offers(q, u)
    ensures exists i: nat :: i < |us| && us[i] == Best(M, q, us, |us|) && IsChosen(M, q, us, i)
  {
    hide Offers, Best, IsChosen;
    AllSuitable(q, us);
    var i := BestIsBest(M, q, us);
  }

  lemma {:induction false} AllSuitable(q: Query, us: seq<StateLocation>)
    requires forall u :: u in us ==> Offers(q, u)
    ensures Suitable(q, us) == us
    decreases |us|
  {
    hide Suits, Offers;
    if us != [] {
      var front, u := us[..|us| - 1], us[|us| - 1];
      AllSuitable(q, front);
      SuitsMeaning(q, u);
      assert us == front + [u];
    }
  }

  lemma ChosenOffers(M: Meaning, q: Query, ls: seq<StateLocation>, i: nat)
    requires IsChosen(M, q, ls, i)
    ensures i < |ls| && Offers(q, ls[i])
  {
  }

  /** There is one chosen place. */
  lemma ChosenIsUnique(M: Meaning, q: Query, ls: seq<StateLocation>, i: nat, j: nat)
    requires IsChosen(M, q, ls, i) && IsChosen(M, q, ls, j)
    ensures i == j
  {
    hide Value, Offers;
  }

  lemma FreshnessMeaning(freshness: u8, required: u8)
    ensures FreshEnough(freshness, required) <==>
      (required != FRESHNESS_UNKNOWN ==> FreshnessScore(freshness) >= FreshnessScore(required))
  {
  }

  /** Each placement filter tests one of the conditions, in this order. */
  lemma PlacementFilterMeaning(M: Meaning, q: Query, rec: StateRecord)
    ensures PlacementFilter(M, q, rec, Suitable(q, rec.locations)) ==
      if !HasPlacement(q, rec) then Some(LocationUnavailable)
      else if !HealthMet(q, rec) then Some(HealthUnacceptable)
      else if !FreshnessMet(q, rec) then Some(FreshnessBelowRequirement)
      else if !ReplicasMet(q, rec) || !CostMet(M, q, rec) then Some(LocationUnavailable)
      else None
  {
    hide Offers, Suits, Suitable, Best, IsChosen, FreshnessScore, OfferingPlaces, FreshEnough, CostMet;
    var us := Suitable(q, rec.locations);
    SuitableMeaning(q, rec.locations);
    FreshnessMeaning(rec.descriptor.freshness, q.requiredFreshness);
    if us != [] {
      assert us[0] in us;
      ChosenCost(M, q, rec);
    }
  }

  lemma ChosenCost(M: Meaning, q: Query, rec: StateRecord)
    requires Suitable(q, rec.locations) != []
    ensures var best := Best(M, q, Suitable(q, rec.locations), |Suitable(q, rec.locations)|);
      CostMet(M, q, rec) <==> (q.maxRetrievalCost > 0.0 ==> M(best.retrieval.localAccessCost) <= q.maxRetrievalCost)
  {
    hide PlacementRank, Suits, Suitable, Best, IsChosen;
    var i := BestIsBest(M, q, rec.locations);
    forall j: nat | IsChosen(M, q, rec.locations, j) ensures j == i {
      ChosenIsUnique(M, q, rec.locations, i, j);
    }
  }

  // -------- The choice, field by field --------

  function Latency(M: Meaning, l: StateLocation): real {
    M(l.retrieval.expectedLatencyMs)
  }

  lemma ClosenessOrder(x: real, y: real)
    requires x >= 0.0 && y >= 0.0
    ensures 0.0 < Closeness(x) <= 1.0
    ensures Closeness(x) < Closeness(y) <==> x > y
  {
    var u, v := Closeness(x), Closeness(y);
    assert u * (x + 1.0) == 1.0 && v * (y + 1.0) == 1.0;
    Reciprocal(u, x);
    Reciprocal(v, y);
    ReciprocalOrder(u, x, v, y);
    ReciprocalOrder(v, y, u, x);
  }

  lemma ProductOrder(u: real, v: real, y: real)
    requires y > 0.0
    ensures u * y > v * y <==> u > v
    ensures u * y == v * y <==> u == v
  {
    assert (u - v) * y == u * y - v * y;
  }

  lemma Reciprocal(u: real, x: real)
    requires u * (x + 1.0) == 1.0 && x >= 0.0
    ensures 0.0 < u <= 1.0
  {
    ProductOrder(u, 0.0, x + 1.0);
    ProductOrder(u, 1.0, x + 1.0);
  }

  lemma ReciprocalOrder(u: real, x: real, v: real, y: real)
    requires u * (x + 1.0) == 1.0 && v * (y + 1.0) == 1.0 && x >= 0.0 && y >= 0.0 && v > 0.0
    ensures x > y ==> u < v
    ensures x == y ==> u == v
  {
    ProductOrder(x + 1.0, y + 1.0, v);
    ProductOrder(v, u, x + 1.0);
  }

  /** Points first; latency only among equal points. */
  lemma ValueOrder(M: Meaning, q: Query, a: StateLocation, b: StateLocation)
    requires Latency(M, a) >= 0.0 && Latency(M, b) >= 0.0
    ensures Value(M, q, a) > Value(M, q, b) <==>
      Points(q, a) > Points(q, b) || (Points(q, a) == Points(q, b) && Latency(M, a) < Latency(M, b))
  {
    hide Points, Closeness;
    ClosenessOrder(Latency(M, a), Latency(M, b));
    ClosenessOrder(Latency(M, b), Latency(M, a));
    WholePart(Points(q, a), Points(q, b), Closeness(Latency(M, a)), Closeness(Latency(M, b)));
  }

  lemma WholePart(m: int, n: int, x: real, y: real)
    requires 0.0 < x <= 1.0 && 0.0 < y <= 1.0
    ensures m as real + x > n as real + y <==> m > n || (m == n && x > y)
  {
    if m < n {
      assert m + 1 <= n;
      assert (m + 1) as real <= n as real;
    }
    if m > n {
      assert n + 1 <= m;
      assert (n + 1) as real <= m as real;
    }
  }

  /** Place i is better than place j: more points, or as many and a lower latency, or all the same and earlier. */
  predicate Better(M: Meaning, q: Query, ls: seq<StateLocation>, i: nat, j: nat)
    requires i < |ls| && j < |ls|
  {
    var p, r := Points(q, ls[i]), Points(q, ls[j]);
    p > r || (p == r && (Latency(M, ls[i]) < Latency(M, ls[j]) || (Latency(M, ls[i]) == Latency(M, ls[j]) && i < j)))
  }

  /** With latencies at least zero, the chosen place is the offering one that is better than every other. */
  lemma ChosenMeaning(M: Meaning, q: Query, ls: seq<StateLocation>, i: nat)
    requires forall j :: 0 <= j < |ls| && Offers(q, ls[j]) ==> Latency(M, ls[j]) >= 0.0
    ensures IsChosen(M, q, ls, i) <==>
      && i < |ls| && Offers(q, ls[i])
      && forall j :: 0 <= j < |ls| && j != i && Offers(q, ls[j]) ==> Better(M, q, ls, i, j)
  {
    hide Value, Points, Offers, Latency;
    if i < |ls| && Offers(q, ls[i]) {
      forall j: nat | j < |ls| && Offers(q, ls[j])
        ensures Better(M, q, ls, i, j) <==>
          Value(M, q, ls[i]) > Value(M, q, ls[j]) || (Value(M, q, ls[i]) == Value(M, q, ls[j]) && i < j)
      {
        ValueOrder(M, q, ls[i], ls[j]);
        ValueOrder(M, q, ls[j], ls[i]);
      }
      if forall j :: 0 <= j < |ls| && j != i && Offers(q, ls[j]) ==> Better(M, q, ls, i, j) {
        forall j: nat | j < |ls| && Offers(q, ls[j])
          ensures Value(M, q, ls[j]) <= Value(M, q, ls[i])
          ensures j < i ==> Value(M, q, ls[j]) < Value(M, q, ls[i])
        {
          assert j != i ==> Better(M, q, ls, i, j);
        }
      }
    }
  }

  /** A domain listed once, as the i-th of n, is worth n - i points; one not listed is worth none. */
  lemma {:induction false} PreferenceMeaning(domains: seq<u8>, domain: u8, i: nat)
    requires i <= |domains| && forall j :: 0 <= j < |domains| && j != i ==> domains[j] != domain
    requires i < |domains| ==> domains[i] == domain
    ensures Preference(domains, domain) == |domains| - i
    decreases |domains|
  {
    if domains != [] {
      if i == 0 {
        NotPreferred(domains[1..], domain);
      } else {
        PreferenceMeaning(domains[1..], domain, i - 1);
      }
    }
  }

  lemma {:induction false} NotPreferred(domains: seq<u8>, domain: u8)
    requires forall j :: 0 <= j < |domains| ==> domains[j] != domain
    ensures Preference(domains, domain) == 0
    decreases |domains|
  {
    if domains != [] {
      NotPreferred(domains[1..], domain);
    }
  }

  /** Between offering places of one domain and access class: the healthier, then the faster, then the earlier. */
  lemma HealthierThenFaster(M: Meaning, q: Query, ls: seq<StateLocation>, i: nat, j: nat)
    requires forall k :: 0 <= k < |ls| && Offers(q, ls[k]) ==> Latency(M, ls[k]) >= 0.0
    requires IsChosen(M, q, ls, i) && j < |ls| && j != i && Offers(q, ls[j])
    requires ls[i].domain == ls[j].domain && ls[i].accessClass == ls[j].accessClass
    ensures ls[i].health == HEALTHY || ls[j].health == HEALTH_DEGRADED
    ensures ls[i].health == ls[j].health ==>
      Latency(M, ls[i]) < Latency(M, ls[j]) || (Latency(M, ls[i]) == Latency(M, ls[j]) && i < j)
  {
    hide Value;
    ChosenMeaning(M, q, ls, i);
    assert Better(M, q, ls, i, j);
  }
}
