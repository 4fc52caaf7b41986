/** Evaluating candidates and answering a query, loop by loop. */
module Evaluation {
  import opened Basics
  import opened Model
  import opened Sorting
  import opened Queries
  import opened Planner
  import opened Ranking
  import opened Answers
  import opened Places
  import opened Soundness

  // -------- Record filters --------

  lemma FirstElements<T>(xs: seq<T>, i: nat)
    requires i < |xs|
    ensures xs[..i + 1] == xs[..i] + [xs[i]] && xs[i..][0] == xs[i] && xs[i..][1..] == xs[i + 1..]
  {
  }

  /** One requirement against every dependency of the record. */
  method CheckRequirement(c: Catalog, ds: seq<DependencyRef>, req: DependencyRequirement) returns (r: Option<Reason>)
    ensures r == RequirementFilter(c, ds, req)
  {
    var found := false;
    var i := 0;
    while i < |ds|
      invariant 0 <= i <= |ds|
      invariant found <==> exists j :: 0 <= j < i && ds[j].targetState == req.targetState
      invariant found ==> AtLeast(c, req.targetState, req.minimumGeneration)
    {
      if ds[i].targetState == req.targetState {
        found := true;
        assert ds[i] in ds;
        if !AtLeast(c, req.targetState, req.minimumGeneration) {
          return Some(DependencyMismatch);
        }
      }
      i := i + 1;
    }
    if !found && req.required {
      return Some(MissingRequiredDependency);
    }
    r := None;
  }

  method CheckRequirements(c: Catalog, ds: seq<DependencyRef>,
                           reqs: seq<DependencyRequirement>) returns (r: Option<Reason>)
    ensures r == RequirementsFilter(c, ds, reqs)
  {
    hide RequirementFilter;
    assert reqs[0..] == reqs;
    var i := 0;
    while i < |reqs|
      invariant 0 <= i <= |reqs|
      invariant RequirementsFilter(c, ds, reqs[i..]) == RequirementsFilter(c, ds, reqs)
    {
      FirstElements(reqs, i);
      var failed := CheckRequirement(c, ds, reqs[i]);
      if failed.Some? {
        return failed;
      }
      i := i + 1;
    }
    r := None;
  }

  /** dep_satisfied. */
  method CheckDependencies(c: Catalog, ds: seq<DependencyRef>) returns (ok: bool)
    ensures ok <==> DependenciesSatisfied(c, ds)
  {
    var i := 0;
    while i < |ds|
      invariant 0 <= i <= |ds| && forall j :: 0 <= j < i ==> DependencySatisfied(c, ds[j])
    {
      if ds[i].required {
        var target := FindCurrent(c, ds[i].targetState);
        if !AtLeast(c, ds[i].targetState, ds[i].requiredGeneration) || target.None?
           || target.value.lifecycle == INVALIDATED || target.value.lifecycle == TOMBSTONED
        {
          assert ds[i] in ds;
          return false;
        }
      }
      i := i + 1;
    }
    return true;
  }

  method FilterRecord(c: Catalog, q: Query, historical: bool, rec: StateRecord) returns (r: Option<Reason>)
    ensures r == RecordFilter(c, q, historical, rec)
  {
    hide IdentityFilter, LifecycleFilter, GenerationFilter, CompatibilityFilter, RequirementsFilter,
         DependenciesSatisfied;
    r := IdentityFilter(q, rec);
    if r.Some? {
      return;
    }
    r := LifecycleFilter(c, q, historical, rec);
    if r.Some? {
      return;
    }
    r := GenerationFilter(c, q, historical, rec);
    if r.Some? {
      return;
    }
    r := CompatibilityFilter(q, rec);
    if r.Some? {
      return;
    }
    r := CheckRequirements(c, rec.descriptor.dependencies, q.dependencyRequirements);
    if r.Some? {
      return;
    }
    var satisfied := CheckDependencies(c, rec.descriptor.dependencies);
    if !satisfied {
      return Some(DependencyMismatch);
    }
  }

  // -------- Placements --------

  method CollectUsable(q: Query, ls: seq<StateLocation>) returns (us: seq<StateLocation>)
    ensures us == Suitable(q, ls)
  {
    us := [];
    var i := 0;
    while i < |ls|
      invariant 0 <= i <= |ls| && us == Suitable(q, ls[..i])
    {
      FirstElements(ls, i);
      assert ls[..i + 1][..i] == ls[..i];
      var l, k := ls[i], q.locationConstraint;
      if l.Usable() && (k.domains == [] || l.domain in k.domains) && (k.nodes == [] || l.nodeId in k.nodes)
         && (k.devices == [] || l.deviceId in k.devices)
      {
        us := us + [l];
      }
      i := i + 1;
    }
    assert ls[..|ls|] == ls;
  }

  method AnyHealth(us: seq<StateLocation>, health: u8) returns (ok: bool)
    ensures ok <==> HasHealth(us, health)
  {
    ok := false;
    var i := 0;
    while i < |us|
      invariant 0 <= i <= |us| && (ok <==> exists j :: 0 <= j < i && us[j].health == health)
    {
      if us[i].health == health {
        ok := true;
      }
      i := i + 1;
    }
    if ok {
      var j :| 0 <= j < |us| && us[j].health == health;
      assert us[j] in us;
    }
  }

  method ScoreLocality(q: Query, l: StateLocation) returns (s: real)
    ensures s == LocalityScore(q, l)
  {
    s := 0.0;
    var i := 0;
    while i < |q.localityPreference|
      invariant 0 <= i <= |q.localityPreference| && s == PreferencePoints(q.localityPreference, l.domain, i)
    {
      if q.localityPreference[i] == l.domain {
        s := s + (|q.localityPreference| - i) as real;
      }
      i := i + 1;
    }
    if l.accessClass == ACCESS_LOCAL {
      s := s + 10.0;
    }
  }

  method RankPlacement(M: Meaning, q: Query, l: StateLocation) returns (s: real)
    ensures s == PlacementRank(M, q, l)
  {
    s := ScoreLocality(q, l);
    s := s + HealthScore(l.health);
    s := s + Inverse(M(l.retrieval.expectedLatencyMs));
  }

  /** The first location of maximal rank. */
  method ChooseBest(M: Meaning, q: Query, us: seq<StateLocation>) returns (best: StateLocation)
    requires us != []
    ensures best == Best(M, q, us, |us|)
    ensures (forall u :: u in us ==> Offers(q, u)) ==>
      exists i: nat :: i < |us| && us[i] == best && IsChosen(M, q, us, i)
  {
    hide PlacementRank, Offers, IsChosen;
    if forall u :: u in us ==> Offers(q, u) {
      BestIsChosen(M, q, us);
    }
    best := us[0];
    var i := 1;
    while i < |us|
      invariant 1 <= i <= |us| && best == Best(M, q, us, i)
    {
      var mine := RankPlacement(M, q, us[i]);
      var held := RankPlacement(M, q, best);
      if mine > held {
        best := us[i];
      }
      i := i + 1;
    }
  }

  method FilterPlacement(M: Meaning, q: Query, rec: StateRecord, us: seq<StateLocation>, best: StateLocation)
    returns (r: Option<Reason>)
    requires us != [] && best == Best(M, q, us, |us|)
    ensures r == PlacementFilter(M, q, rec, us)
  {
    hide Best, FreshnessScore;
    if q.requiredHealth != HEALTH_UNKNOWN {
      var ok := AnyHealth(us, q.requiredHealth);
      if !ok {
        return Some(HealthUnacceptable);
      }
    }
    if q.requiredFreshness != FRESHNESS_UNKNOWN
       && FreshnessScore(rec.descriptor.freshness) < FreshnessScore(q.requiredFreshness)
    {
      return Some(FreshnessBelowRequirement);
    }
    if q.minReplicaCount > 0 && |us| % 0x1_0000_0000 < q.minReplicaCount {
      return Some(LocationUnavailable);
    }
    if q.maxRetrievalCost > 0.0 && M(best.retrieval.localAccessCost) > q.maxRetrievalCost {
      return Some(LocationUnavailable);
    }
    r := None;
  }

  method EvaluateCandidate(M: Meaning, c: Catalog, q: Query, historical: bool, rec: StateRecord) returns (a: Assessment)
    ensures a == Assess(M, c, q, historical, rec)
    ensures a.InScope? <==> RecordAccepted(c, q, historical, rec) && PlacementAccepted(M, q, rec)
  {
    hide RecordFilter, Suitable, Best, FactorsOf, RecordAccepted, PlacementAccepted, IsChosen, Offers;
    FoundIsComplete(M, c, q, historical, rec);
    var rejected := FilterRecord(c, q, historical, rec);
    if rejected.Some? {
      return Eliminated(rec.recordId, rejected.value);
    }
    var us := CollectUsable(q, rec.locations);
    if us == [] {
      return Eliminated(rec.recordId, LocationUnavailable);
    }
    var best := ChooseBest(M, q, us);
    rejected := FilterPlacement(M, q, rec, us, best);
    if rejected.Some? {
      return Eliminated(rec.recordId, rejected.value);
    }
    a := InScope(Candidate(rec.recordId, rec.stateGeneration, best.placementId, FactorsOf(M, q, rec, best)));
  }

  // -------- The whole query --------

  method ClassifyEmpty(noIds: bool, losers: seq<(u64, Reason)>) returns (outcome: QueryOutcome)
    ensures outcome == EmptyOutcome(noIds, losers)
  {
    var inval, stale, incompat, insuff, other := false, false, false, false, false;
    var i := 0;
    while i < |losers|
      invariant 0 <= i <= |losers|
      invariant inval <==> exists j :: 0 <= j < i && CategoryOf(losers[j].1) == Inval
      invariant stale <==> exists j :: 0 <= j < i && CategoryOf(losers[j].1) == Stale
      invariant incompat <==> exists j :: 0 <= j < i && CategoryOf(losers[j].1) == Incompat
      invariant insuff <==> exists j :: 0 <= j < i && CategoryOf(losers[j].1) == Insuff
      invariant other <==> exists j :: 0 <= j < i && CategoryOf(losers[j].1) == Other
    {
      match CategoryOf(losers[i].1) {
        case Inval => inval := true;
        case Stale => stale := true;
        case Incompat => incompat := true;
        case Insuff => insuff := true;
        case Other => other := true;
      }
      i := i + 1;
    }
    if noIds {
      outcome := NotFound;
    } else if inval && !stale && !incompat && !insuff && !other {
      outcome := InvalidatedOnly;
    } else if incompat && !stale && !insuff && !inval {
      outcome := IncompatibleOnly;
    } else if stale && !insuff && !other {
      outcome := StaleOnly;
    } else if insuff || other {
      outcome := OutcomeInsufficient;
    } else {
      outcome := NotFound;
    }
  }

  /** Evaluate every listed record, sort the survivors, and conclude. */
  method RunQuery(M: Meaning, c: Catalog, q: Query, historical: bool, ids: seq<u64>) returns (a: Answer)
    requires Keyed(c) && Ascending(ids)
    ensures a == Ask(M, c, q, historical, ids)
    ensures forall i, j :: 0 <= i < j < |a.ranked| ==> Outranks(a.ranked[i], a.ranked[j])
  {
    hide Assess, EmptyOutcome, Ranked, Outranks, RecordAccepted, PlacementAccepted;
    var survivors: seq<Candidate>, losers: seq<(u64, Reason)> := [], [];
    var i := 0;
    while i < |ids|
      invariant 0 <= i <= |ids|
      invariant survivors == Survivors(M, c, q, historical, ids[..i])
      invariant losers == Losers(M, c, q, historical, ids[..i])
    {
      FirstElements(ids, i);
      assert ids[..i + 1][..i] == ids[..i];
      if ids[i] in c.records {
        var assessment := EvaluateCandidate(M, c, q, historical, c.records[ids[i]]);
        match assessment {
          case InScope(candidate) => survivors := survivors + [candidate];
          case Eliminated(id, reason) => losers := losers + [(id, reason)];
        }
      }
      i := i + 1;
    }
    assert ids[..|ids|] == ids;
    SurvivorsAre(M, c, q, historical, ids);
    RankedInCatalog(M, c, q, historical, ids);
    var ranked := SortCandidates(survivors);
    if ranked == [] {
      var outcome := ClassifyEmpty(ids == [], losers);
      return Answer(outcome, None, ranked, losers);
    }
    assert ranked[0] in ranked;
    var first := ranked[0];
    var rec := c.records[first.recordId];
    var outcome := FoundMultiple;
    if |ranked| == 1 {
      outcome := if MatchesExactly(q, rec) then FoundExact else FoundCompatible;
    }
    var selection := Selection(first.recordId, first.generation, first.placement, rec.stateId);
    a := Answer(outcome, Some(selection), ranked, losers);
  }
}
