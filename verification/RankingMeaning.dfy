/** The ranked answer, without the comparison that sorts it: what comes before what, which factor says what,
    and which candidate is selected. */
module RankingMeaning {
  import opened Basics
  import opened Model
  import opened Sorting
  import opened Queries
  import opened Planner
  import opened Ranking
  import opened Answers
  import opened Places
  import opened Soundness

  // -------- The order --------

  /** Each candidate of an answer outranks every later one. */
  lemma RankedOutranks(M: Meaning, c: Catalog, q: Query, historical: bool, ids: seq<u64>, i: nat, j: nat)
    requires Keyed(c) && Ascending(ids) && i < j < |Ask(M, c, q, historical, ids).ranked|
    ensures Outranks(Ask(M, c, q, historical, ids).ranked[i], Ask(M, c, q, historical, ids).ranked[j])
  {
    hide Assess, Before, Outranks, Survivors, Losers;
    var cs := Survivors(M, c, q, historical, ids);
    SurvivorsAre(M, c, q, historical, ids);
    RankedOf(M, c, q, historical, ids);
    RankedIsSorted(cs);
    BeforeMeaning(Ranked(cs)[i], Ranked(cs)[j]);
  }

  /** The candidates of an answer are exactly those of the listed records that meet the query. */
  lemma RankedAreTheAccepted(M: Meaning, c: Catalog, q: Query, historical: bool, ids: seq<u64>, id: u64)
    requires Keyed(c) && Ascending(ids)
    ensures (exists x :: x in Ask(M, c, q, historical, ids).ranked && x.recordId == id) <==>
      && id in ids && id in c.records
      && RecordAccepted(c, q, historical, c.records[id]) && PlacementAccepted(M, q, c.records[id])
  {
    hide Assess, RecordAccepted, PlacementAccepted, Ranked;
    RankedOf(M, c, q, historical, ids);
    RankedInCatalog(M, c, q, historical, ids);
    SurvivorsAre(M, c, q, historical, ids);
    if id in c.records {
      FoundIsComplete(M, c, q, historical, c.records[id]);
      if id in ids && Survives(M, c, q, historical, id) {
        SurvivorsAll(M, c, q, historical, ids, id);
        AssessedId(M, c, q, historical, c.records[id]);
      }
    }
  }

  predicate IsSelected(c: Catalog, a: Answer, x: Candidate) {
    && x.recordId in c.records
    && a.selected == Some(Selection(x.recordId, x.generation, x.placement, c.records[x.recordId].stateId))
  }

  /** What is selected is the candidate that outranks all others, with the state of its record. */
  lemma SelectedOutranks(M: Meaning, c: Catalog, q: Query, historical: bool, ids: seq<u64>)
    requires Keyed(c) && Ascending(ids)
    ensures var a := Ask(M, c, q, historical, ids);
      && (a.selected.Some? <==> a.ranked != [])
      && (a.selected.Some? ==>
            exists x :: x in a.ranked && IsSelected(c, a, x) && forall y :: y in a.ranked && y != x ==> Outranks(x, y))
  {
    hide Assess, Outranks, Survivors, Losers, Ranked, MatchesExactly, EmptyOutcome;
    var a := Ask(M, c, q, historical, ids);
    RankedInCatalog(M, c, q, historical, ids);
    if a.ranked != [] {
      var x := a.ranked[0];
      assert x in a.ranked;
      forall y | y in a.ranked && y != x ensures Outranks(x, y) {
        var j :| 0 <= j < |a.ranked| && a.ranked[j] == y;
        RankedOutranks(M, c, q, historical, ids, 0, j);
      }
    }
  }

  // -------- The factors --------

  /** A found outcome that meets more is worth more. */
  function Grade(rec: StateRecord): int {
    if rec.descriptor.compatibility.None? then 0
    else
      var o := rec.descriptor.compatibility.value.outcome;
      if o in MeetingOutcomes(REQUIRE_EXACT) then 3
      else if o in MeetingOutcomes(REQUIRE_COMPATIBLE) then 2
      else if o in MeetingOutcomes(REQUIRE_WITH_ADAPTATION) then 1 else 0
  }

  /** How many of the three requirements a freshness meets. */
  function Freshness(f: u8): int {
    (if FreshEnough(f, FRESHNESS_CURRENT) then 1 else 0) + (if FreshEnough(f, REVALIDATION_REQUIRED) then 1 else 0)
    + (if FreshEnough(f, FRESHNESS_STALE) then 1 else 0)
  }

  /** What a candidate at place l is judged by, in order; more is better, and less of a cost. */
  function Key(M: Meaning, q: Query, rec: StateRecord, l: StateLocation, k: nat): real
    requires k < 14
  {
    if k == 0 then if q.stateId == Some(rec.stateId) && !q.wildcardStateId then 1.0 else 0.0
    else if k == 1 then
      (Preference(q.localityPreference, l.domain) + if l.accessClass == ACCESS_LOCAL then 10 else 0) as real
    else if k == 2 then Grade(rec) as real
    else if k == 3 then if l.health == HEALTHY then 3.0 else 2.0
    else if k == 4 then Freshness(l.freshness) as real
    else if k == 5 then rec.stateGeneration as real
    else if k == 6 then -M(l.retrieval.expectedLatencyMs)
    else if k == 7 then -M(l.retrieval.transferBytes)
    else if k == 8 then M(l.retrieval.expectedBandwidthMbps)
    else if k == 9 then -M(l.retrieval.restoreCost)
    else if k == 10 then -M(l.retrieval.recomputeCost)
    else if k == 11 then |rec.locations| as real
    else if k == 12 then
      if q.policyGeneration != 0 && q.policyGeneration == rec.descriptor.policyGeneration then 1.0 else 0.0
    else -M(l.retrieval.adaptationCost)
  }

  /** The factors whose report is a cost turned around: one for none, less for more. */
  predicate IsCost(k: nat) {
    k in {6, 7, 9, 10, 13}
  }

  /** Each reported factor is its key, or the closeness of its cost. */
  lemma FactorMeaning(M: Meaning, q: Query, rec: StateRecord, l: StateLocation, k: nat)
    requires k < 14 && Offers(q, l)
    ensures FactorsOf(M, q, rec, l)[k] == if IsCost(k) then Closeness(-Key(M, q, rec, l, k)) else Key(M, q, rec, l, k)
  {
    hide Preference, PreferencePoints, Closeness;
    if k == 1 {
      PointsFromTheFront(q.localityPreference, l.domain, 0);
      assert q.localityPreference[0..] == q.localityPreference;
      NoPoints(q.localityPreference, l.domain);
    } else if IsCost(k) {
      InverseMeaning(-Key(M, q, rec, l, k));
    }
  }

  lemma NoPoints(ps: seq<u8>, domain: u8)
    ensures PreferencePoints(ps, domain, 0) == 0.0
  {
  }

  lemma InverseMeaning(x: real)
    ensures Inverse(x) == Closeness(x)
  {
  }

  // -------- The order, field by field --------

  /** Costs that the ranking turns around are at least zero. */
  predicate CostsSane(M: Meaning, l: StateLocation) {
    && M(l.retrieval.expectedLatencyMs) >= 0.0 && M(l.retrieval.transferBytes) >= 0.0
    && M(l.retrieval.restoreCost) >= 0.0 && M(l.retrieval.recomputeCost) >= 0.0
    && M(l.retrieval.adaptationCost) >= 0.0
  }

  lemma CostKeys(M: Meaning, q: Query, rec: StateRecord, l: StateLocation, k: nat)
    requires k < 14 && CostsSane(M, l)
    ensures IsCost(k) ==> Key(M, q, rec, l, k) <= 0.0
  {
    hide Preference, Grade, Freshness;
  }

  /** A factor is higher exactly when its key is. */
  lemma FactorOrder(M: Meaning, q: Query, r: StateRecord, l: StateLocation, s: StateRecord, m: StateLocation, k: nat)
    requires k < 14 && Offers(q, l) && Offers(q, m) && CostsSane(M, l) && CostsSane(M, m)
    ensures FactorsOf(M, q, r, l)[k] > FactorsOf(M, q, s, m)[k] <==> Key(M, q, r, l, k) > Key(M, q, s, m, k)
    ensures FactorsOf(M, q, r, l)[k] == FactorsOf(M, q, s, m)[k] <==> Key(M, q, r, l, k) == Key(M, q, s, m, k)
  {
    hide FactorsOf, Key, Closeness, Offers, CostsSane;
    FactorMeaning(M, q, r, l, k);
    FactorMeaning(M, q, s, m, k);
    CostKeys(M, q, r, l, k);
    CostKeys(M, q, s, m, k);
    if IsCost(k) {
      ClosenessOrder(-Key(M, q, r, l, k), -Key(M, q, s, m, k));
      ClosenessOrder(-Key(M, q, s, m, k), -Key(M, q, r, l, k));
    }
  }

  predicate SameKeys(M: Meaning, q: Query, r: StateRecord, l: StateLocation, s: StateRecord, m: StateLocation, k: nat)
    requires k <= 14
  {
    forall i :: 0 <= i < k ==> Key(M, q, r, l, i) == Key(M, q, s, m, i)
  }

  /** The first key that differs is better; or none differs and the record id is lower. */
  predicate Preferred(M: Meaning, q: Query, r: StateRecord, l: StateLocation, s: StateRecord, m: StateLocation) {
    || (exists k :: 0 <= k < 14 && SameKeys(M, q, r, l, s, m, k) && Key(M, q, r, l, k) > Key(M, q, s, m, k))
    || (SameKeys(M, q, r, l, s, m, 14) && r.recordId < s.recordId)
  }

  /** The candidate of a record at one of its locations. */
  function CandidateAt(M: Meaning, q: Query, rec: StateRecord, l: StateLocation): Candidate {
    Candidate(rec.recordId, rec.stateGeneration, l.placementId, FactorsOf(M, q, rec, l))
  }

  lemma AgreeAsKeys(M: Meaning, q: Query, r: StateRecord, l: StateLocation, s: StateRecord, m: StateLocation, k: nat)
    requires k <= 14 && Offers(q, l) && Offers(q, m) && CostsSane(M, l) && CostsSane(M, m)
    ensures AgreeBelow(CandidateAt(M, q, r, l), CandidateAt(M, q, s, m), k) <==> SameKeys(M, q, r, l, s, m, k)
  {
    hide FactorsOf, Key, Offers, CostsSane;
    forall i: nat | i < k
      ensures CandidateAt(M, q, r, l).factors[i] == CandidateAt(M, q, s, m).factors[i]
        <==> Key(M, q, r, l, i) == Key(M, q, s, m, i)
    {
      FactorOrder(M, q, r, l, s, m, i);
    }
  }

  lemma OutranksAsKeys(M: Meaning, q: Query, r: StateRecord, l: StateLocation, s: StateRecord, m: StateLocation)
    requires Offers(q, l) && Offers(q, m) && CostsSane(M, l) && CostsSane(M, m)
    requires Outranks(CandidateAt(M, q, r, l), CandidateAt(M, q, s, m))
    ensures Preferred(M, q, r, l, s, m)
  {
    hide FactorsOf, Key, Offers, CostsSane, AgreeBelow, SameKeys;
    var x, y := CandidateAt(M, q, r, l), CandidateAt(M, q, s, m);
    AgreeAsKeys(M, q, r, l, s, m, 14);
    if AgreeBelow(x, y, 14) {
      SameGeneration(M, q, r, l, s, m);
    } else {
      assert exists k :: 0 <= k < 14 && AgreeBelow(x, y, k) && x.factors[k] > y.factors[k];
      var k :| 0 <= k < 14 && AgreeBelow(x, y, k) && x.factors[k] > y.factors[k];
      AgreeAsKeys(M, q, r, l, s, m, k);
      FactorOrder(M, q, r, l, s, m, k);
    }
  }

  /** The generation is one of the keys, so it is never left to decide a tie. */
  lemma SameGeneration(M: Meaning, q: Query, r: StateRecord, l: StateLocation, s: StateRecord, m: StateLocation)
    requires AgreeBelow(CandidateAt(M, q, r, l), CandidateAt(M, q, s, m), 14) && SameKeys(M, q, r, l, s, m, 14)
    requires Outranks(CandidateAt(M, q, r, l), CandidateAt(M, q, s, m))
    ensures r.stateGeneration == s.stateGeneration && r.recordId < s.recordId
  {
    hide FactorsOf, AgreeBelow;
    assert Key(M, q, r, l, 5) == Key(M, q, s, m, 5);
    AgreeEverywhere(CandidateAt(M, q, r, l), CandidateAt(M, q, s, m));
  }

  lemma AgreeEverywhere(a: Candidate, b: Candidate)
    requires AgreeBelow(a, b, 14)
    ensures forall k :: 0 <= k < 14 ==> a.factors[k] == b.factors[k]
  {
  }

  /** A found candidate is its record at the chosen location. */
  lemma FoundAt(M: Meaning, c: Catalog, q: Query, historical: bool, ids: seq<u64>, x: Candidate) returns (p: nat)
    requires Keyed(c) && Ascending(ids) && x in Ask(M, c, q, historical, ids).ranked
    ensures x.recordId in c.records && c.records[x.recordId].recordId == x.recordId
    ensures var ls := c.records[x.recordId].locations;
      && IsChosen(M, q, ls, p) && p < |ls| && Offers(q, ls[p]) && x == CandidateAt(M, q, c.records[x.recordId], ls[p])
  {
    hide Assess, Ranked, Survivors, Losers, Value, Offers, FactorsOf, RecordAccepted, PlacementAccepted;
    RankedOf(M, c, q, historical, ids);
    RankedInCatalog(M, c, q, historical, ids);
    SurvivorsAre(M, c, q, historical, ids);
    var rec := c.records[x.recordId];
    FoundIsSound(M, c, q, historical, rec);
    p :| IsChosen(M, q, rec.locations, p) && rec.locations[p].placementId == x.placement
         && x.factors == FactorsOf(M, q, rec, rec.locations[p]);
    ChosenOffers(M, q, rec.locations, p);
  }

  /** Why one candidate is listed before another, on the fields of their records and chosen locations. */
  lemma RankedByFields(M: Meaning, c: Catalog, q: Query, historical: bool, ids: seq<u64>, i: nat, j: nat)
    returns (p: nat, r: nat)
    requires Keyed(c) && Ascending(ids) && i < j < |Ask(M, c, q, historical, ids).ranked|
    requires forall id, l :: id in c.records && l in c.records[id].locations ==> CostsSane(M, l)
    ensures var x, y := Ask(M, c, q, historical, ids).ranked[i], Ask(M, c, q, historical, ids).ranked[j];
      && x.recordId in c.records && y.recordId in c.records
      && (var rx, ry := c.records[x.recordId], c.records[y.recordId];
          && IsChosen(M, q, rx.locations, p) && IsChosen(M, q, ry.locations, r)
          && p < |rx.locations| && r < |ry.locations|
          && Preferred(M, q, rx, rx.locations[p], ry, ry.locations[r]))
  {
    hide Ask, Outranks, IsChosen, Offers, Preferred, CostsSane, FactorsOf;
    var x, y := Ask(M, c, q, historical, ids).ranked[i], Ask(M, c, q, historical, ids).ranked[j];
    p := FoundAt(M, c, q, historical, ids, x);
    r := FoundAt(M, c, q, historical, ids, y);
    var rx, ry := c.records[x.recordId], c.records[y.recordId];
    assert rx.locations[p] in rx.locations && ry.locations[r] in ry.locations;
    RankedOutranks(M, c, q, historical, ids, i, j);
    OutranksAsKeys(M, q, rx, rx.locations[p], ry, ry.locations[r]);
  }

  // -------- The found outcomes --------

  /** One candidate is an exact find if the query names its state without a wildcard and what it asks of
      compatibility and content is met to the letter; else a compatible find. More are a multiple find. */
  lemma FoundOutcomes(M: Meaning, c: Catalog, q: Query, historical: bool, ids: seq<u64>)
    requires Keyed(c) && Ascending(ids)
    ensures var a := Ask(M, c, q, historical, ids);
      && (a.outcome == FoundMultiple <==> |a.ranked| > 1)
      && (a.outcome == FoundExact || a.outcome == FoundCompatible <==> |a.ranked| == 1)
      && (|a.ranked| == 1 ==>
            && a.ranked[0].recordId in c.records
            && var rec := c.records[a.ranked[0].recordId];
               a.outcome == FoundExact <==>
                 && q.stateId == Some(rec.stateId) && !q.wildcardStateId
                 && (q.compatibility != REQUIRE_NONE ==> Grade(rec) == 3)
                 && (q.contentDigest != [] ==> rec.descriptor.contentDigest == q.contentDigest))
  {
    hide Assess, Ranked, Survivors, Losers, EmptyOutcome;
    RankedInCatalog(M, c, q, historical, ids);
    var a := Ask(M, c, q, historical, ids);
    NotFoundOutcome(ids == [], Losers(M, c, q, historical, ids));
    if |a.ranked| == 1 {
      assert a.ranked[0] in a.ranked;
    }
  }

  lemma NotFoundOutcome(noIds: bool, losers: seq<(u64, Reason)>)
    ensures EmptyOutcome(noIds, losers) !in {FoundExact, FoundCompatible, FoundMultiple}
  {
    hide Saw;
  }
}
