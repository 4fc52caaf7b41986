/** For which reason a record is passed over. */
module Reasons {
  import opened Basics
  import opened Model
  import opened Sorting
  import opened Queries
  import opened Places
  import opened Planner
  import opened Answers
  import opened Soundness
  import opened Outcomes

  // -------- The first unmet requirement --------

  predicate Met(c: Catalog, ds: seq<DependencyRef>, r: DependencyRequirement) {
    && (Targets(ds, r.targetState) ==> Reaches(c, r.targetState, r.minimumGeneration))
    && (r.required ==> Targets(ds, r.targetState))
  }

  /** The i-th requirement is the first that is not met. */
  predicate FirstUnmet(c: Catalog, ds: seq<DependencyRef>, reqs: seq<DependencyRequirement>, i: nat) {
    i < |reqs| && !Met(c, ds, reqs[i]) && forall j :: 0 <= j < i ==> Met(c, ds, reqs[j])
  }

  /** The first unmet requirement names a state the record does not depend on. */
  predicate LacksRequired(c: Catalog, q: Query, rec: StateRecord) {
    exists i: nat :: i < |q.dependencyRequirements|
      && FirstUnmet(c, rec.descriptor.dependencies, q.dependencyRequirements, i)
      && !Targets(rec.descriptor.dependencies, q.dependencyRequirements[i].targetState)
  }

  lemma {:induction false} FirstUnmetDecides(c: Catalog, ds: seq<DependencyRef>, reqs: seq<DependencyRequirement>,
                                             i: nat)
    requires FirstUnmet(c, ds, reqs, i)
    ensures RequirementsFilter(c, ds, reqs) ==
      Some(if Targets(ds, reqs[i].targetState) then DependencyMismatch else MissingRequiredDependency)
    decreases i
  {
    hide DependsOn, AtLeast, Targets, Reaches;
    SameLookup(c, ds, reqs[0].targetState, reqs[0].minimumGeneration);
    if i > 0 {
      assert Met(c, ds, reqs[0]);
      assert forall j :: 0 <= j < i - 1 ==> reqs[1..][j] == reqs[j + 1];
      FirstUnmetDecides(c, ds, reqs[1..], i - 1);
    }
  }

  lemma {:induction false} SomeFirstUnmet(c: Catalog, ds: seq<DependencyRef>, reqs: seq<DependencyRequirement>)
    returns (i: nat)
    requires exists r :: r in reqs && !Met(c, ds, r)
    ensures FirstUnmet(c, ds, reqs, i)
    decreases |reqs|
  {
    hide Met;
    if !Met(c, ds, reqs[0]) {
      i := 0;
    } else {
      var r :| r in reqs && !Met(c, ds, r);
      assert r in reqs[1..];
      i := SomeFirstUnmet(c, ds, reqs[1..]);
      i := i + 1;
      assert forall j :: 0 < j < i ==> reqs[j] == reqs[1..][j - 1];
    }
  }

  lemma RequirementsReason(c: Catalog, q: Query, rec: StateRecord)
    ensures RequirementsFilter(c, rec.descriptor.dependencies, q.dependencyRequirements) ==
      if RequirementsMet(c, q, rec) then None
      else Some(if LacksRequired(c, q, rec) then MissingRequiredDependency else DependencyMismatch)
  {
    hide RequirementsFilter, Targets, Reaches, FirstUnmet;
    RequirementsMean(c, q, rec);
    var ds, reqs := rec.descriptor.dependencies, q.dependencyRequirements;
    if !RequirementsMet(c, q, rec) {
      var i := SomeFirstUnmet(c, ds, reqs);
      FirstUnmetInside(c, ds, reqs, i);
      FirstUnmetDecides(c, ds, reqs, i);
      forall j: nat | FirstUnmet(c, ds, reqs, j) ensures j == i {
        OneFirst(c, ds, reqs, i, j);
      }
    }
  }

  lemma FirstUnmetInside(c: Catalog, ds: seq<DependencyRef>, reqs: seq<DependencyRequirement>, i: nat)
    requires FirstUnmet(c, ds, reqs, i)
    ensures i < |reqs|
  {
  }

  lemma OneFirst(c: Catalog, ds: seq<DependencyRef>, reqs: seq<DependencyRequirement>, i: nat, j: nat)
    requires FirstUnmet(c, ds, reqs, i) && FirstUnmet(c, ds, reqs, j)
    ensures i == j
  {
    hide Met;
  }

  // -------- Every reason --------

  predicate KindMeant(q: Query, rec: StateRecord) {
    q.kind.Some? ==> rec.descriptor.kind == q.kind.value
  }

  predicate StateMeant(q: Query, rec: StateRecord) {
    q.stateId.Some? && !q.wildcardStateId ==> rec.stateId == q.stateId.value
  }

  /** Of two reasons the earlier test decides; the tests of identity come first, those of placements last. */
  predicate PassedOverFor(M: Meaning, c: Catalog, q: Query, historical: bool, rec: StateRecord, reason: Reason) {
    match reason
    case WrongStateKind =>
      !KindMeant(q, rec) || (OfKindAndNamespace(q, rec) && OfOwnerAndProducer(q, rec) && !StateMeant(q, rec))
    case WrongNamespace => KindMeant(q, rec) && !OfKindAndNamespace(q, rec)
    case ContentDigestMismatch =>
      && OfKindAndNamespace(q, rec) && OfOwnerAndProducer(q, rec) && StateMeant(q, rec)
      && !IdentityAccepted(q, rec)
    case TombstonedReason => IdentityAccepted(q, rec) && Buried(c, rec)
    case Invalidated =>
      IdentityAccepted(q, rec) && !Buried(c, rec) && rec.lifecycle in {INVALIDATED, TOMBSTONED}
    case NotCurrent =>
      && IdentityAccepted(q, rec) && !Withdrawn(c, rec)
      && (!Alive(c, q, historical, rec)
          || (q.generationRule in {RULE_CURRENT, RULE_AS_OF} && !GenerationAccepted(c, q, historical, rec)))
    case StaleGeneration =>
      && IdentityAccepted(q, rec) && Alive(c, q, historical, rec)
      && q.generationRule in {RULE_MINIMUM, RULE_EXACT} && !GenerationAccepted(c, q, historical, rec)
    case InsufficientEvidence =>
      || (OfKindAndNamespace(q, rec) && !OfOwnerAndProducer(q, rec))
      || (InForce(c, q, historical, rec) && !HasEvidence(q, rec))
    case CompatibilityMismatch => InForce(c, q, historical, rec) && HasEvidence(q, rec) && !Compatible(q, rec)
    case MissingRequiredDependency =>
      && InForce(c, q, historical, rec) && Compatible(q, rec) && !RequirementsMet(c, q, rec)
      && LacksRequired(c, q, rec)
    case DependencyMismatch =>
      && InForce(c, q, historical, rec) && Compatible(q, rec)
      && (if RequirementsMet(c, q, rec) then !DependenciesMet(c, rec) else !LacksRequired(c, q, rec))
    case HealthUnacceptable =>
      RecordAccepted(c, q, historical, rec) && HasPlacement(q, rec) && !HealthMet(q, rec)
    case FreshnessBelowRequirement =>
      RecordAccepted(c, q, historical, rec) && HasPlacement(q, rec) && HealthMet(q, rec) && !FreshnessMet(q, rec)
    case LocationUnavailable =>
      && RecordAccepted(c, q, historical, rec)
      && (!HasPlacement(q, rec)
          || (HealthMet(q, rec) && FreshnessMet(q, rec) && !(ReplicasMet(q, rec) && CostMet(M, q, rec))))
  }

  lemma IdentityReason(q: Query, rec: StateRecord)
    ensures IdentityFilter(q, rec) ==
      if !KindMeant(q, rec) then Some(WrongStateKind)
      else if !OfKindAndNamespace(q, rec) then Some(WrongNamespace)
      else if !OfOwnerAndProducer(q, rec) then Some(InsufficientEvidence)
      else if !StateMeant(q, rec) then Some(WrongStateKind)
      else if !IdentityAccepted(q, rec) then Some(ContentDigestMismatch)
      else None
    ensures IdentityAccepted(q, rec) ==>
      KindMeant(q, rec) && OfKindAndNamespace(q, rec) && OfOwnerAndProducer(q, rec) && StateMeant(q, rec)
    ensures OfKindAndNamespace(q, rec) ==> KindMeant(q, rec)
  {
  }

  lemma LifecycleReason(c: Catalog, q: Query, historical: bool, rec: StateRecord)
    ensures LifecycleFilter(c, q, historical, rec) ==
      if Buried(c, rec) then Some(TombstonedReason)
      else if rec.lifecycle in {INVALIDATED, TOMBSTONED} then Some(Invalidated)
      else if !Alive(c, q, historical, rec) then Some(NotCurrent)
      else None
    ensures Withdrawn(c, rec) <==> Buried(c, rec) || rec.lifecycle in {INVALIDATED, TOMBSTONED}
    ensures Alive(c, q, historical, rec) ==> !Withdrawn(c, rec)
  {
  }

  lemma GenerationReason(c: Catalog, q: Query, historical: bool, rec: StateRecord)
    ensures GenerationFilter(c, q, historical, rec) ==
      if GenerationAccepted(c, q, historical, rec) then None
      else Some(if q.generationRule in {RULE_CURRENT, RULE_AS_OF} then NotCurrent else StaleGeneration)
    ensures !GenerationAccepted(c, q, historical, rec) ==>
      q.generationRule in {RULE_CURRENT, RULE_AS_OF, RULE_MINIMUM, RULE_EXACT}
  {
  }

  lemma CompatibilityReason(q: Query, rec: StateRecord)
    ensures CompatibilityFilter(q, rec) ==
      if Compatible(q, rec) then None
      else Some(if HasEvidence(q, rec) then CompatibilityMismatch else InsufficientEvidence)
    ensures Compatible(q, rec) ==> HasEvidence(q, rec)
  {
  }

  /** A record that is passed over is so for exactly the reason that the declared conditions give. */
  lemma ReasonMeaning(M: Meaning, c: Catalog, q: Query, historical: bool, rec: StateRecord, reason: Reason)
    ensures Assess(M, c, q, historical, rec) == Eliminated(rec.recordId, reason)
      <==> PassedOverFor(M, c, q, historical, rec, reason)
  {
    hide IdentityFilter, LifecycleFilter, GenerationFilter, CompatibilityFilter, RequirementsFilter, PlacementFilter,
         KindMeant, StateMeant, OfKindAndNamespace, OfOwnerAndProducer, IdentityAccepted, Buried, Alive, Withdrawn,
         GenerationAccepted, Compatible, HasEvidence, RequirementsMet, DependenciesMet, LacksRequired, HasPlacement,
         HealthMet, FreshnessMet, ReplicasMet, CostMet, FactorsOf, Best, Suitable, DependenciesSatisfied;
    IdentityReason(q, rec);
    LifecycleReason(c, q, historical, rec);
    GenerationReason(c, q, historical, rec);
    CompatibilityReason(q, rec);
    RequirementsReason(c, q, rec);
    DependenciesMeaning(c, rec);
    PlacementFilterMeaning(M, q, rec);
  }

  // -------- The list of the eliminated --------

  lemma {:induction false} LosersMeaning(M: Meaning, c: Catalog, q: Query, historical: bool, ids: seq<u64>, id: u64,
                                         reason: Reason)
    requires Keyed(c)
    ensures (id, reason) in Losers(M, c, q, historical, ids) <==>
      id in ids && id in c.records && PassedOverFor(M, c, q, historical, c.records[id], reason)
    decreases |ids|
  {
    hide Assess, PassedOverFor;
    if ids != [] {
      var front, last := ids[..|ids| - 1], ids[|ids| - 1];
      assert ids == front + [last];
      LosersMeaning(M, c, q, historical, front, id, reason);
      if last in c.records {
        ReasonMeaning(M, c, q, historical, c.records[last], reason);
        AssessedId(M, c, q, historical, c.records[last]);
      }
    }
  }

  lemma AssessedId(M: Meaning, c: Catalog, q: Query, historical: bool, rec: StateRecord)
    ensures var a := Assess(M, c, q, historical, rec); a.Eliminated? ==> a.recordId == rec.recordId
  {
    hide RecordFilter, PlacementFilter, Suitable, Best, FactorsOf;
  }

  /** Ids among the given ones, each once and in ascending order. */
  predicate Listed(losers: seq<(u64, Reason)>, ids: seq<u64>) {
    && (forall i, j :: 0 <= i < j < |losers| ==> losers[i].0 < losers[j].0)
    && (forall x :: x in losers ==> x.0 in ids)
  }

  lemma ListedOneMore(losers: seq<(u64, Reason)>, front: seq<u64>, last: u64, reason: Reason)
    requires Ascending(front + [last]) && Listed(losers, front)
    ensures Listed(losers, front + [last]) && Listed(losers + [(last, reason)], front + [last])
  {
    var ids := front + [last];
    forall x | x in losers ensures x.0 in ids && x.0 < last {
      var k :| 0 <= k < |front| && front[k] == x.0;
      assert ids[k] == x.0 && ids[|front|] == last;
    }
  }

  lemma {:induction false} LosersListed(M: Meaning, c: Catalog, q: Query, historical: bool, ids: seq<u64>)
    requires Keyed(c) && Ascending(ids)
    ensures Listed(Losers(M, c, q, historical, ids), ids)
    decreases |ids|
  {
    hide Assess, Listed;
    if ids == [] {
      NothingListed();
    } else {
      var front, last := ids[..|ids| - 1], ids[|ids| - 1];
      assert ids == front + [last];
      LosersListed(M, c, q, historical, front);
      var reason := WrongStateKind;
      if last in c.records {
        AssessedId(M, c, q, historical, c.records[last]);
        var a := Assess(M, c, q, historical, c.records[last]);
        if a.Eliminated? {
          reason := a.reason;
        }
      }
      ListedOneMore(Losers(M, c, q, historical, front), front, last, reason);
    }
  }

  lemma NothingListed()
    ensures Listed([], [])
  {
  }

  /** An answer lists every looked-at record that is passed over, once, by ascending id and with its reason. */
  lemma EliminatedMeaning(M: Meaning, c: Catalog, q: Query, historical: bool, ids: seq<u64>)
    requires Keyed(c) && Ascending(ids)
    ensures
      var e := Ask(M, c, q, historical, ids).eliminated;
      && Listed(e, ids)
      && (forall id, reason :: (id, reason) in e <==>
            id in ids && id in c.records && PassedOverFor(M, c, q, historical, c.records[id], reason))
  {
    hide PassedOverFor, Losers, Survivors, Ranked, EmptyOutcome, MatchesExactly, Listed;
    LosersListed(M, c, q, historical, ids);
    assert Ask(M, c, q, historical, ids).eliminated == Losers(M, c, q, historical, ids);
    forall id, reason
      ensures (id, reason) in Losers(M, c, q, historical, ids) <==>
        id in ids && id in c.records && PassedOverFor(M, c, q, historical, c.records[id], reason)
    {
      LosersMeaning(M, c, q, historical, ids, id, reason);
    }
  }
}
