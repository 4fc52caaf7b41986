/** Recovery preserves answers: after saving and loading, every query finds the same candidates at the same
    placements, eliminates the same records for the same reasons, and reaches the same outcome. Only the
    freshness factor, and so the order among several candidates, may change. */
module RecoveredAnswers {
  import opened Basics
  import opened Model
  import opened Authority
  import opened Transitions
  import opened Recovery
  import opened Indexes
  import opened Sorting
  import opened Queries
  import opened Planner
  import opened Answers

  /** The same candidate but for its freshness factor. */
  predicate SameButFreshness(a: Candidate, b: Candidate) {
    && a.recordId == b.recordId && a.generation == b.generation && a.placement == b.placement
    && forall i :: 0 <= i < FACTOR_COUNT && i != FRESHNESS_FACTOR ==> a.factors[i] == b.factors[i]
  }

  predicate SameAssessment(a: Assessment, b: Assessment) {
    match a
    case InScope(x) => b.InScope? && SameButFreshness(x, b.candidate)
    case Eliminated(id, reason) => a == b
  }

  /** The recovered form of a record, as far as a query can tell. */
  predicate RecoveredForm(a: StateRecord, b: StateRecord) {
    && SameQueryFields(a, b) && b.locations == RecoveredLocations(a.locations)
  }

  predicate SameQueryFields(a: StateRecord, b: StateRecord) {
    && b.recordId == a.recordId && b.stateId == a.stateId && b.stateGeneration == a.stateGeneration
    && b.lifecycle == a.lifecycle && b.descriptor == a.descriptor
  }

  ghost predicate RecoveredForms(c: Catalog, d: Catalog) {
    && d.current == c.current && d.tombstones == c.tombstones && d.records.Keys == c.records.Keys
    && forall id :: id in c.records ==> RecoveredForm(c.records[id], d.records[id])
  }

  lemma RecoveredHasForm(D: Digest, rec: StateRecord, isCurrent: bool)
    ensures RecoveredForm(rec, RecoveredRecord(D, rec, isCurrent))
  {
  }

  lemma CatalogForms(D: Digest, s: EngineState, registry: Registry)
    ensures RecoveredForms(CatalogOf(s), CatalogOf(Recovered(D, s, registry)))
  {
    hide RecoveredRecord, RecoveredForm;
    var t := Recovered(D, s, registry);
    forall id | id in s.records ensures RecoveredForm(s.records[id], t.records[id]) {
      RecoveredHasForm(D, s.records[id], IsCurrent(s.current, s.records[id]));
    }
  }

  // -------- Record filters --------

  lemma SameLookups(c: Catalog, d: Catalog, state: u64)
    requires RecoveredForms(c, d)
    ensures FindCurrent(d, state).Some? == FindCurrent(c, state).Some?
    ensures FindCurrent(c, state).Some? ==> SameQueryFields(FindCurrent(c, state).value, FindCurrent(d, state).value)
  {
  }

  lemma SameDependencies(c: Catalog, d: Catalog, ds: seq<DependencyRef>)
    requires RecoveredForms(c, d)
    ensures DependenciesSatisfied(c, ds) == DependenciesSatisfied(d, ds)
  {
    hide RecoveredForms;
    forall x | x in ds ensures DependencySatisfied(c, x) == DependencySatisfied(d, x) {
      SameLookups(c, d, x.targetState);
    }
  }

  lemma {:induction false} SameRequirements(c: Catalog, d: Catalog, ds: seq<DependencyRef>,
                                            reqs: seq<DependencyRequirement>)
    requires RecoveredForms(c, d)
    ensures RequirementsFilter(c, ds, reqs) == RequirementsFilter(d, ds, reqs)
    decreases |reqs|
  {
    hide RecoveredForms, DependsOn;
    if reqs != [] {
      SameLookups(c, d, reqs[0].targetState);
      SameRequirements(c, d, ds, reqs[1..]);
    }
  }

  lemma SameRecordFilter(c: Catalog, d: Catalog, q: Query, historical: bool, a: StateRecord, b: StateRecord)
    requires RecoveredForms(c, d) && SameQueryFields(a, b)
    ensures RecordFilter(c, q, historical, a) == RecordFilter(d, q, historical, b)
  {
    hide RequirementsFilter, DependenciesSatisfied, CompatibilityFilter;
    SameRequirements(c, d, a.descriptor.dependencies, q.dependencyRequirements);
    SameDependencies(c, d, a.descriptor.dependencies);
    assert d.current == c.current && d.tombstones == c.tombstones;
    assert CompatibilityFilter(q, a) == CompatibilityFilter(q, b) by { SameCompatibility(q, a, b); }
  }

  lemma SameCompatibility(q: Query, a: StateRecord, b: StateRecord)
    requires a.descriptor == b.descriptor
    ensures CompatibilityFilter(q, a) == CompatibilityFilter(q, b)
  {
  }

  // -------- Placements --------

  lemma RecoveredSuits(q: Query, l: StateLocation)
    ensures Suits(q, RecoveredLocation(l)) == Suits(q, l)
  {
  }

  lemma RecoveredRank(M: Meaning, q: Query, l: StateLocation)
    ensures PlacementRank(M, q, RecoveredLocation(l)) == PlacementRank(M, q, l)
  {
    hide PreferencePoints, Inverse, HealthScore;
  }

  lemma {:induction false} RecoveredSuitable(q: Query, ls: seq<StateLocation>)
    ensures Suitable(q, RecoveredLocations(ls)) == RecoveredLocations(Suitable(q, ls))
    decreases |ls|
  {
    hide Suits, RecoveredLocation;
    if ls != [] {
      var front, l := ls[..|ls| - 1], ls[|ls| - 1];
      RecoveredSuitable(q, front);
      RecoveredSuits(q, l);
      assert RecoveredLocations(ls)[..|ls| - 1] == RecoveredLocations(front);
      if Suits(q, l) {
        assert RecoveredLocations(Suitable(q, front) + [l])
          == RecoveredLocations(Suitable(q, front)) + [RecoveredLocation(l)];
      } else {
        assert Suitable(q, front) + [] == Suitable(q, front);
      }
    }
  }

  lemma {:induction false} RecoveredBest(M: Meaning, q: Query, us: seq<StateLocation>, n: nat)
    requires 0 < n <= |us|
    ensures Best(M, q, RecoveredLocations(us), n) == RecoveredLocation(Best(M, q, us, n))
    decreases n
  {
    hide PlacementRank, RecoveredLocation;
    if n > 1 {
      RecoveredBest(M, q, us, n - 1);
      RecoveredRank(M, q, us[n - 1]);
      RecoveredRank(M, q, Best(M, q, us, n - 1));
    }
  }

  lemma RecoveredHealth(us: seq<StateLocation>, health: u8)
    ensures HasHealth(RecoveredLocations(us), health) == HasHealth(us, health)
  {
    var rs := RecoveredLocations(us);
    if HasHealth(us, health) {
      var l :| l in us && l.health == health;
      var i :| 0 <= i < |us| && us[i] == l;
      assert rs[i] in rs && rs[i].health == health;
    }
    if HasHealth(rs, health) {
      var l :| l in rs && l.health == health;
      var i :| 0 <= i < |rs| && rs[i] == l;
      assert us[i] in us && us[i].health == health;
    }
  }

  lemma RecoveredPlacementFilter(M: Meaning, q: Query, a: StateRecord, b: StateRecord, us: seq<StateLocation>)
    requires a.descriptor == b.descriptor
    ensures PlacementFilter(M, q, b, RecoveredLocations(us)) == PlacementFilter(M, q, a, us)
  {
    hide HasHealth, Best, FreshnessScore;
    if us != [] {
      RecoveredHealth(us, q.requiredHealth);
      RecoveredBest(M, q, us, |us|);
    }
  }

  lemma RecoveredFactors(M: Meaning, q: Query, a: StateRecord, b: StateRecord, l: StateLocation)
    requires RecoveredForm(a, b)
    ensures var f, g := FactorsOf(M, q, a, l), FactorsOf(M, q, b, RecoveredLocation(l));
      forall i :: 0 <= i < FACTOR_COUNT && i != FRESHNESS_FACTOR ==> f[i] == g[i]
  {
    hide PreferencePoints, Inverse, HealthScore, FreshnessScore, CompatibilityScore;
  }

  lemma SameAssessed(M: Meaning, c: Catalog, d: Catalog, q: Query, historical: bool, a: StateRecord, b: StateRecord)
    requires RecoveredForms(c, d) && RecoveredForm(a, b)
    ensures SameAssessment(Assess(M, c, q, historical, a), Assess(M, d, q, historical, b))
  {
    hide RecordFilter, PlacementFilter, Suitable, Best, FactorsOf, RecoveredForms;
    SameRecordFilter(c, d, q, historical, a, b);
    RecoveredSuitable(q, a.locations);
    var us := Suitable(q, a.locations);
    RecoveredPlacementFilter(M, q, a, b, us);
    if PlacementFilter(M, q, a, us).None? {
      assert us != [] by { FilteredIsNonEmpty(M, q, a, us); }
      RecoveredBest(M, q, us, |us|);
      RecoveredFactors(M, q, a, b, Best(M, q, us, |us|));
    }
  }

  lemma FilteredIsNonEmpty(M: Meaning, q: Query, rec: StateRecord, us: seq<StateLocation>)
    requires PlacementFilter(M, q, rec, us).None?
    ensures us != []
  {
  }

  // -------- The whole query --------

  ghost predicate SameCandidates(xs: seq<Candidate>, ys: seq<Candidate>) {
    |xs| == |ys| && forall i :: 0 <= i < |xs| ==> SameButFreshness(xs[i], ys[i])
  }

  lemma {:induction false} SameLists(M: Meaning, c: Catalog, d: Catalog, q: Query, historical: bool, ids: seq<u64>)
    requires RecoveredForms(c, d)
    ensures SameCandidates(Survivors(M, c, q, historical, ids), Survivors(M, d, q, historical, ids))
    ensures Losers(M, c, q, historical, ids) == Losers(M, d, q, historical, ids)
    decreases |ids|
  {
    hide Assess, SameButFreshness, RecoveredForm;
    if ids != [] {
      var front, id := ids[..|ids| - 1], ids[|ids| - 1];
      SameLists(M, c, d, q, historical, front);
      if id in c.records {
        SameAssessed(M, c, d, q, historical, c.records[id], d.records[id]);
      }
    }
  }

  /** Exact indexes before and after offer the same candidates. */
  lemma SameCandidateSet(ids: map<IndexKey, set<u64>>, after: map<IndexKey, set<u64>>, c: Catalog, d: Catalog, q: Query)
    requires FixedExact(ids, c) && FixedExact(after, d) && RecoveredForms(c, d)
    ensures CandidateSet(ids, c, q) == CandidateSet(after, d, q)
  {
    hide Holders;
    if q.stateId.Some? {
      forall id
        ensures id in Holders(c.records, ByState(q.stateId.value))
           <==> id in Holders(d.records, ByState(q.stateId.value))
      {
        StateHolders(c.records, q.stateId.value, id);
        StateHolders(d.records, q.stateId.value, id);
      }
    } else if q.kind.Some? {
      forall id
        ensures id in Holders(c.records, ByKind(q.kind.value)) <==> id in Holders(d.records, ByKind(q.kind.value))
      {
        KindHolders(c.records, q.kind.value, id);
        KindHolders(d.records, q.kind.value, id);
      }
    }
  }

  ghost predicate SameRanked(xs: seq<Candidate>, ys: seq<Candidate>) {
    && |xs| == |ys|
    && (forall x :: x in xs ==> exists y :: y in ys && SameButFreshness(x, y))
    && (forall y :: y in ys ==> exists x :: x in xs && SameButFreshness(x, y))
  }

  /** The same answer but for the freshness factors and the order they give. */
  ghost predicate SameAnswer(a: Answer, b: Answer) {
    && a.outcome == b.outcome && a.eliminated == b.eliminated && SameRanked(a.ranked, b.ranked)
    && (|a.ranked| <= 1 ==> a.selected == b.selected)
  }

  lemma RankedSame(xs: seq<Candidate>, ys: seq<Candidate>, rx: seq<Candidate>, ry: seq<Candidate>)
    requires SameCandidates(xs, ys) && |rx| == |xs| && |ry| == |ys|
    requires (forall x :: x in rx <==> x in xs) && (forall y :: y in ry <==> y in ys)
    ensures SameRanked(rx, ry)
  {
    hide SameButFreshness;
    forall x | x in rx ensures exists y :: y in ry && SameButFreshness(x, y) {
      var i :| 0 <= i < |xs| && xs[i] == x;
      assert ys[i] in ys;
    }
    forall y | y in ry ensures exists x :: x in rx && SameButFreshness(x, y) {
      var i :| 0 <= i < |ys| && ys[i] == y;
      assert xs[i] in xs;
    }
  }

  lemma SameMatch(q: Query, a: StateRecord, b: StateRecord)
    requires SameQueryFields(a, b)
    ensures MatchesExactly(q, a) == MatchesExactly(q, b)
  {
  }

  lemma SameConclusion(c: Catalog, d: Catalog, q: Query, noIds: bool, rx: seq<Candidate>, ry: seq<Candidate>,
                       losers: seq<(u64, Reason)>)
    requires RecoveredForms(c, d) && SameRanked(rx, ry)
    requires (forall x :: x in rx ==> x.recordId in c.records) && (forall y :: y in ry ==> y.recordId in d.records)
    ensures SameAnswer(Conclude(c, q, noIds, rx, losers), Conclude(d, q, noIds, ry, losers))
  {
    hide EmptyOutcome, MatchesExactly;
    if |rx| == 1 {
      assert rx[0] in rx && ry[0] in ry;
      assert SameButFreshness(rx[0], ry[0]);
      SameMatch(q, c.records[rx[0].recordId], d.records[rx[0].recordId]);
    }
  }

  lemma SameAsked(M: Meaning, c: Catalog, d: Catalog, q: Query, historical: bool, ids: seq<u64>)
    requires Keyed(c) && Keyed(d) && RecoveredForms(c, d) && Ascending(ids)
    ensures SameAnswer(Ask(M, c, q, historical, ids), Ask(M, d, q, historical, ids))
  {
    hide Assess, Ranked, Survivors, Losers, Conclude, SameAnswer, SameRanked, SameCandidates, RecoveredForms;
    var xs, ys := Survivors(M, c, q, historical, ids), Survivors(M, d, q, historical, ids);
    SameLists(M, c, d, q, historical, ids);
    RankedInCatalog(M, c, q, historical, ids);
    RankedInCatalog(M, d, q, historical, ids);
    RankedSame(xs, ys, Ranked(xs), Ranked(ys));
    SameConclusion(c, d, q, ids == [], Ranked(xs), Ranked(ys), Losers(M, c, q, historical, ids));
  }

  /** Recovery preserves answers, for every query, current or historical, through indexes that are exact on
      unchanging fields before and after. */
  lemma RecoveryPreservesAnswers(D: Digest, M: Meaning, s: EngineState, registry: Registry,
                                 ids: map<IndexKey, set<u64>>, after: map<IndexKey, set<u64>>, q: Query,
                                 historical: bool)
    requires Keyed(CatalogOf(s)) && FixedExact(ids, CatalogOf(s))
    requires FixedExact(after, CatalogOf(Recovered(D, s, registry)))
    ensures Keyed(CatalogOf(Recovered(D, s, registry)))
    ensures SameAnswer(AskIndexed(M, ids, CatalogOf(s), q, historical),
                       AskIndexed(M, after, CatalogOf(Recovered(D, s, registry)), q, historical))
  {
    hide FixedExact, SameAnswer, Ask, CandidateSet, RecoveredRecords;
    var c, d := CatalogOf(s), CatalogOf(Recovered(D, s, registry));
    CatalogForms(D, s, registry);
    KeyedAfter(c, d);
    SameCandidateSet(ids, after, c, d, q);
    SameAsked(M, c, d, q, historical, AscendingOf(CandidateSet(ids, c, q)));
  }

  lemma KeyedAfter(c: Catalog, d: Catalog)
    requires Keyed(c) && RecoveredForms(c, d)
    ensures Keyed(d)
  {
  }
}
