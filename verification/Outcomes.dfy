/** What the outcome of a query that finds nothing says about the records it looked at. */
module Outcomes {
  import opened Basics
  import opened Model
  import opened Sorting
  import opened Queries
  import opened Places
  import opened Planner
  import opened Answers
  import opened Soundness

  // -------- Why a record is passed over --------

  predicate MeetsQuery(M: Meaning, c: Catalog, q: Query, historical: bool, rec: StateRecord) {
    RecordAccepted(c, q, historical, rec) && PlacementAccepted(M, q, rec)
  }

  predicate OfKindAndNamespace(q: Query, rec: StateRecord) {
    && (q.kind.Some? ==> rec.descriptor.kind == q.kind.value)
    && (q.namespaceId.Some? ==> rec.descriptor.namespaceId == q.namespaceId.value)
  }

  predicate OfOwnerAndProducer(q: Query, rec: StateRecord) {
    && (q.ownerId.Some? ==> rec.descriptor.ownerId == q.ownerId.value)
    && (q.producerId.Some? ==> rec.descriptor.producerId == q.producerId.value)
  }

  /** Tombstoned or invalidated. */
  predicate Withdrawn(c: Catalog, rec: StateRecord) {
    Buried(c, rec) || rec.lifecycle == INVALIDATED || rec.lifecycle == TOMBSTONED
  }

  /** The right record, alive and of an accepted generation. */
  predicate InForce(c: Catalog, q: Query, historical: bool, rec: StateRecord) {
    IdentityAccepted(q, rec) && Alive(c, q, historical, rec) && GenerationAccepted(c, q, historical, rec)
  }

  /** Is there any known compatibility outcome to judge by? */
  predicate HasEvidence(q: Query, rec: StateRecord) {
    q.compatibility != REQUIRE_NONE ==>
      && rec.descriptor.compatibility.Some?
      && rec.descriptor.compatibility.value.outcome != OUTCOME_UNKNOWN
  }

  /** The category under which a record that is not accepted is passed over. */
  predicate FallsUnder(M: Meaning, c: Catalog, q: Query, historical: bool, rec: StateRecord, category: Category) {
    match category
    case Inval => IdentityAccepted(q, rec) && Withdrawn(c, rec)
    case Stale =>
      || (IdentityAccepted(q, rec) && !Withdrawn(c, rec) && !InForce(c, q, historical, rec))
      || (RecordAccepted(c, q, historical, rec) && HasPlacement(q, rec) && HealthMet(q, rec) && !FreshnessMet(q, rec))
    case Incompat =>
      && InForce(c, q, historical, rec) && HasEvidence(q, rec)
      && !(Compatible(q, rec) && RequirementsMet(c, q, rec) && DependenciesMet(c, rec))
    case Insuff =>
      || (OfKindAndNamespace(q, rec) && !OfOwnerAndProducer(q, rec))
      || (InForce(c, q, historical, rec) && !HasEvidence(q, rec))
    case Other =>
      || (!OfKindAndNamespace(q, rec) || (OfOwnerAndProducer(q, rec) && !IdentityAccepted(q, rec)))
      || (RecordAccepted(c, q, historical, rec)
          && (!HasPlacement(q, rec) || !HealthMet(q, rec)
              || (FreshnessMet(q, rec) && !(ReplicasMet(q, rec) && CostMet(M, q, rec)))))
  }

  lemma IdentityCategory(q: Query, rec: StateRecord)
    ensures IdentityFilter(q, rec).None? <==> IdentityAccepted(q, rec)
    ensures IdentityFilter(q, rec).Some? ==>
      CategoryOf(IdentityFilter(q, rec).value)
        == if OfKindAndNamespace(q, rec) && !OfOwnerAndProducer(q, rec) then Insuff else Other
  {
  }

  lemma LifecycleCategory(c: Catalog, q: Query, historical: bool, rec: StateRecord)
    ensures LifecycleFilter(c, q, historical, rec).None? <==> Alive(c, q, historical, rec)
    ensures LifecycleFilter(c, q, historical, rec).Some? ==>
      CategoryOf(LifecycleFilter(c, q, historical, rec).value) == if Withdrawn(c, rec) then Inval else Stale
  {
  }

  lemma GenerationCategory(c: Catalog, q: Query, historical: bool, rec: StateRecord)
    ensures GenerationFilter(c, q, historical, rec).None? <==> GenerationAccepted(c, q, historical, rec)
    ensures GenerationFilter(c, q, historical, rec).Some? ==>
      CategoryOf(GenerationFilter(c, q, historical, rec).value) == Stale
  {
  }

  lemma CompatibilityCategory(q: Query, rec: StateRecord)
    ensures CompatibilityFilter(q, rec).None? <==> Compatible(q, rec)
    ensures CompatibilityFilter(q, rec).Some? ==>
      CategoryOf(CompatibilityFilter(q, rec).value) == if HasEvidence(q, rec) then Incompat else Insuff
    ensures Compatible(q, rec) ==> HasEvidence(q, rec)
  {
  }

  lemma {:induction false} RequirementsCategory(c: Catalog, ds: seq<DependencyRef>, reqs: seq<DependencyRequirement>)
    ensures RequirementsFilter(c, ds, reqs).Some? ==> CategoryOf(RequirementsFilter(c, ds, reqs).value) == Incompat
    decreases |reqs|
  {
    hide DependsOn, AtLeast;
    if reqs != [] {
      RequirementsCategory(c, ds, reqs[1..]);
    }
  }

  lemma RequirementsDecide(c: Catalog, q: Query, rec: StateRecord)
    ensures RequirementsFilter(c, rec.descriptor.dependencies, q.dependencyRequirements).None?
      <==> RequirementsMet(c, q, rec)
    ensures RequirementsFilter(c, rec.descriptor.dependencies, q.dependencyRequirements).Some? ==>
      CategoryOf(RequirementsFilter(c, rec.descriptor.dependencies, q.dependencyRequirements).value) == Incompat
  {
    hide RequirementsFilter, RequirementsMet;
    RequirementsMean(c, q, rec);
    RequirementsCategory(c, rec.descriptor.dependencies, q.dependencyRequirements);
  }

  /** The record filters, by category. */
  lemma RecordCategory(c: Catalog, q: Query, historical: bool, rec: StateRecord)
    ensures RecordFilter(c, q, historical, rec).None? <==> RecordAccepted(c, q, historical, rec)
    ensures RecordFilter(c, q, historical, rec).Some? ==>
      CategoryOf(RecordFilter(c, q, historical, rec).value) ==
        if !IdentityAccepted(q, rec) then
          if OfKindAndNamespace(q, rec) && !OfOwnerAndProducer(q, rec) then Insuff else Other
        else if Withdrawn(c, rec) then Inval
        else if !InForce(c, q, historical, rec) then Stale
        else if !HasEvidence(q, rec) then Insuff
        else Incompat
    ensures Withdrawn(c, rec) ==> !Alive(c, q, historical, rec)
  {
    hide IdentityFilter, LifecycleFilter, GenerationFilter, CompatibilityFilter, RequirementsFilter, RequirementsMet,
         IdentityAccepted, GenerationAccepted, Compatible, HasEvidence, OfKindAndNamespace, OfOwnerAndProducer,
         DependenciesMet, DependenciesSatisfied, Buried;
    DependenciesMeaning(c, rec);
    IdentityCategory(q, rec);
    LifecycleCategory(c, q, historical, rec);
    GenerationCategory(c, q, historical, rec);
    CompatibilityCategory(q, rec);
    RequirementsDecide(c, q, rec);
  }

  lemma IdentityParts(q: Query, rec: StateRecord)
    requires IdentityAccepted(q, rec)
    ensures OfKindAndNamespace(q, rec) && OfOwnerAndProducer(q, rec)
  {
  }

  lemma AcceptedHasEvidence(c: Catalog, q: Query, historical: bool, rec: StateRecord)
    requires RecordAccepted(c, q, historical, rec)
    ensures IdentityAccepted(q, rec) && InForce(c, q, historical, rec) && HasEvidence(q, rec) && !Withdrawn(c, rec)
  {
    hide IdentityAccepted, GenerationAccepted, RequirementsMet, DependenciesMet, Buried;
  }

  /** A record in force is accepted exactly when it is compatible and its dependencies are in order. */
  lemma InForceAccepted(c: Catalog, q: Query, historical: bool, rec: StateRecord)
    requires InForce(c, q, historical, rec)
    ensures RecordAccepted(c, q, historical, rec) <==>
      Compatible(q, rec) && RequirementsMet(c, q, rec) && DependenciesMet(c, rec)
  {
    hide IdentityAccepted, Alive, GenerationAccepted, Compatible, RequirementsMet, DependenciesMet;
  }

  /** Every record is accepted or falls under exactly one category, the one of the reason it is given. */
  lemma EachRecordFallsOnce(M: Meaning, c: Catalog, q: Query, historical: bool, rec: StateRecord, k: Category)
    ensures Assess(M, c, q, historical, rec).InScope? <==> MeetsQuery(M, c, q, historical, rec)
    ensures FallsUnder(M, c, q, historical, rec, k) <==>
      Assess(M, c, q, historical, rec).Eliminated? && CategoryOf(Assess(M, c, q, historical, rec).reason) == k
  {
    hide RecordFilter, PlacementFilter, RecordAccepted, IdentityAccepted, Alive, GenerationAccepted, HasEvidence,
         OfKindAndNamespace, OfOwnerAndProducer, Withdrawn, HasPlacement, HealthMet, FreshnessMet, ReplicasMet,
         CostMet, FactorsOf, Best, Suitable, IsChosen;
    RecordCategory(c, q, historical, rec);
    PlacementFilterMeaning(M, q, rec);
    FoundIsComplete(M, c, q, historical, rec);
    if IdentityAccepted(q, rec) {
      IdentityParts(q, rec);
    }
    if InForce(c, q, historical, rec) {
      InForceAccepted(c, q, historical, rec);
    }
    if RecordAccepted(c, q, historical, rec) {
      AcceptedHasEvidence(c, q, historical, rec);
    }
  }

  lemma FallsNowhereElse(M: Meaning, c: Catalog, q: Query, historical: bool, rec: StateRecord, k: Category)
    requires FallsUnder(M, c, q, historical, rec, k)
    ensures !MeetsQuery(M, c, q, historical, rec)
    ensures forall j :: FallsUnder(M, c, q, historical, rec, j) <==> j == k
  {
    hide Assess, FallsUnder, MeetsQuery, CategoryOf;
    EachRecordFallsOnce(M, c, q, historical, rec, k);
    forall j ensures FallsUnder(M, c, q, historical, rec, j) <==> j == k {
      EachRecordFallsOnce(M, c, q, historical, rec, j);
    }
  }

  // -------- What was seen --------

  /** Is one of the listed records a stored one that falls under the category? */
  ghost predicate Seen(M: Meaning, c: Catalog, q: Query, historical: bool, ids: seq<u64>, k: Category) {
    exists id :: id in ids && id in c.records && FallsUnder(M, c, q, historical, c.records[id], k)
  }

  ghost predicate NothingMeetsQuery(M: Meaning, c: Catalog, q: Query, historical: bool, ids: seq<u64>) {
    forall id :: id in ids && id in c.records ==> !MeetsQuery(M, c, q, historical, c.records[id])
  }

  ghost predicate NothingLookedAt(c: Catalog, ids: seq<u64>) {
    forall id :: id in ids ==> id !in c.records
  }

  /** The category was seen, and no other. */
  ghost predicate SeenAlone(M: Meaning, c: Catalog, q: Query, historical: bool, ids: seq<u64>, k: Category) {
    && Seen(M, c, q, historical, ids, k)
    && forall j :: j != k ==> !Seen(M, c, q, historical, ids, j)
  }

  lemma SawOneMore(losers: seq<(u64, Reason)>, x: (u64, Reason), k: Category)
    ensures Saw(losers + [x], k) <==> Saw(losers, k) || CategoryOf(x.1) == k
  {
    if CategoryOf(x.1) == k {
      assert CategoryOf((losers + [x])[|losers|].1) == k;
    }
    if Saw(losers, k) {
      var i :| 0 <= i < |losers| && CategoryOf(losers[i].1) == k;
      assert CategoryOf((losers + [x])[i].1) == k;
    }
  }

  lemma SeenOneMore(M: Meaning, c: Catalog, q: Query, historical: bool, front: seq<u64>, id: u64, k: Category)
    ensures Seen(M, c, q, historical, front + [id], k) <==>
      Seen(M, c, q, historical, front, k) || (id in c.records && FallsUnder(M, c, q, historical, c.records[id], k))
  {
    hide FallsUnder;
    assert forall x :: x in front + [id] <==> x in front || x == id;
  }

  /** The flags of the outcome loop say which categories the listed records fall under. */
  lemma {:induction false} SawIsSeen(M: Meaning, c: Catalog, q: Query, historical: bool, ids: seq<u64>, k: Category)
    ensures Saw(Losers(M, c, q, historical, ids), k) <==> Seen(M, c, q, historical, ids, k)
    decreases |ids|
  {
    hide Assess, FallsUnder, Saw, Seen, CategoryOf;
    if ids == [] {
      NothingSeen(M, c, q, historical, k);
    } else {
      var front, id := ids[..|ids| - 1], ids[|ids| - 1];
      assert ids == front + [id];
      SawIsSeen(M, c, q, historical, front, k);
      SeenOneMore(M, c, q, historical, front, id, k);
      if id in c.records {
        var a := Assess(M, c, q, historical, c.records[id]);
        EachRecordFallsOnce(M, c, q, historical, c.records[id], k);
        if a.Eliminated? {
          SawOneMore(Losers(M, c, q, historical, front), (a.recordId, a.reason), k);
        }
      }
    }
  }

  lemma NothingSeen(M: Meaning, c: Catalog, q: Query, historical: bool, k: Category)
    ensures !Saw([], k) && !Seen(M, c, q, historical, [], k)
  {
  }

  lemma {:induction false} NobodySurvives(M: Meaning, c: Catalog, q: Query, historical: bool, ids: seq<u64>)
    ensures Survivors(M, c, q, historical, ids) == [] <==> NothingMeetsQuery(M, c, q, historical, ids)
    decreases |ids|
  {
    hide Assess, MeetsQuery;
    if ids != [] {
      var front, id := ids[..|ids| - 1], ids[|ids| - 1];
      assert ids == front + [id];
      NobodySurvives(M, c, q, historical, front);
      if id in c.records {
        EachRecordFallsOnce(M, c, q, historical, c.records[id], Other);
      }
    }
  }

  lemma SomethingSeen(M: Meaning, c: Catalog, q: Query, historical: bool, ids: seq<u64>)
    requires NothingMeetsQuery(M, c, q, historical, ids) && !NothingLookedAt(c, ids)
    ensures || Seen(M, c, q, historical, ids, Inval) || Seen(M, c, q, historical, ids, Stale)
            || Seen(M, c, q, historical, ids, Incompat) || Seen(M, c, q, historical, ids, Insuff)
            || Seen(M, c, q, historical, ids, Other)
  {
    hide Assess, MeetsQuery, FallsUnder;
    var id :| id in ids && id in c.records;
    var a := Assess(M, c, q, historical, c.records[id]);
    EachRecordFallsOnce(M, c, q, historical, c.records[id], Other);
    EachRecordFallsOnce(M, c, q, historical, c.records[id], CategoryOf(a.reason));
    assert Seen(M, c, q, historical, ids, CategoryOf(a.reason));
  }

  lemma NobodySeen(M: Meaning, c: Catalog, q: Query, historical: bool, ids: seq<u64>, k: Category)
    requires NothingLookedAt(c, ids)
    ensures !Seen(M, c, q, historical, ids, k) && NothingMeetsQuery(M, c, q, historical, ids)
  {
    hide MeetsQuery, FallsUnder;
  }

  // -------- The outcomes --------

  /** The outcome in terms of what was seen. */
  lemma OutcomeOfSeen(M: Meaning, c: Catalog, q: Query, historical: bool, ids: seq<u64>)
    requires Keyed(c) && Ascending(ids)
    ensures var o := Ask(M, c, q, historical, ids).outcome;
      if NothingMeetsQuery(M, c, q, historical, ids)
      then o == EmptyOutcome(ids == [], Losers(M, c, q, historical, ids))
      else o in {FoundExact, FoundCompatible, FoundMultiple}
  {
    hide Assess, Ranked, NothingMeetsQuery, EmptyOutcome, Survivors, Losers, MatchesExactly;
    NobodySurvives(M, c, q, historical, ids);
    RankedInCatalog(M, c, q, historical, ids);
    var cs := Survivors(M, c, q, historical, ids);
    assert Ranked(cs) == [] <==> cs == [];
  }

  /** Every outcome of an answer that finds nothing, by the categories that the looked-at records fall under. */
  lemma OutcomeMeaning(M: Meaning, c: Catalog, q: Query, historical: bool, ids: seq<u64>)
    requires Keyed(c) && Ascending(ids)
    ensures
      var o := Ask(M, c, q, historical, ids).outcome;
      var nothing := NothingMeetsQuery(M, c, q, historical, ids);
      var inval, stale := Seen(M, c, q, historical, ids, Inval), Seen(M, c, q, historical, ids, Stale);
      var incompat, insuff := Seen(M, c, q, historical, ids, Incompat), Seen(M, c, q, historical, ids, Insuff);
      var other := Seen(M, c, q, historical, ids, Other);
      && (o == InvalidatedOnly <==> nothing && inval && !stale && !incompat && !insuff && !other)
      && (o == IncompatibleOnly <==> nothing && incompat && !inval && !stale && !insuff)
      && (o == StaleOnly <==> nothing && stale && !insuff && !other)
      && (o == OutcomeInsufficient <==> nothing && (insuff || (other && (inval || stale || !incompat))))
      && (o == NotFound <==>
            NothingLookedAt(c, ids) || (nothing && inval && incompat && !stale && !insuff && !other))
      && (o in {FoundExact, FoundCompatible, FoundMultiple} <==> !nothing)
  {
    hide *;
    OutcomeOfSeen(M, c, q, historical, ids);
    SawIsSeen(M, c, q, historical, ids, Inval);
    SawIsSeen(M, c, q, historical, ids, Stale);
    SawIsSeen(M, c, q, historical, ids, Incompat);
    SawIsSeen(M, c, q, historical, ids, Insuff);
    SawIsSeen(M, c, q, historical, ids, Other);
    EmptyOutcomeCases(ids == [], Losers(M, c, q, historical, ids));
    if NothingLookedAt(c, ids) {
      NobodySeen(M, c, q, historical, ids, Inval);
      NobodySeen(M, c, q, historical, ids, Stale);
      NobodySeen(M, c, q, historical, ids, Incompat);
      NobodySeen(M, c, q, historical, ids, Insuff);
      NobodySeen(M, c, q, historical, ids, Other);
    } else {
      LookedAtSomething(c, ids);
      if NothingMeetsQuery(M, c, q, historical, ids) {
        SomethingSeen(M, c, q, historical, ids);
      }
    }
  }

  lemma LookedAtSomething(c: Catalog, ids: seq<u64>)
    requires !NothingLookedAt(c, ids)
    ensures ids != []
  {
  }

  lemma EmptyOutcomeCases(noIds: bool, losers: seq<(u64, Reason)>)
    ensures
      var inval, stale, incompat := Saw(losers, Inval), Saw(losers, Stale), Saw(losers, Incompat);
      var insuff, other := Saw(losers, Insuff), Saw(losers, Other);
      var o := EmptyOutcome(noIds, losers);
      && o !in {FoundExact, FoundCompatible, FoundMultiple}
      && (noIds ==> o == NotFound)
      && (!noIds ==>
            && (o == InvalidatedOnly <==> inval && !stale && !incompat && !insuff && !other)
            && (o == IncompatibleOnly <==> incompat && !inval && !stale && !insuff)
            && (o == StaleOnly <==> stale && !insuff && !other)
            && (o == OutcomeInsufficient <==> insuff || (other && (inval || stale || !incompat)))
            && (o == NotFound <==> !stale && !insuff && !other && (inval <==> incompat)))
  {
    hide Saw;
  }

  /** With records looked at, NOT_FOUND means that they are a mix of invalidated and incompatible ones, at
      least one of each, and nothing else. */
  lemma NotFoundDespiteCandidates(M: Meaning, c: Catalog, q: Query, historical: bool, ids: seq<u64>)
    requires Keyed(c) && Ascending(ids) && !NothingLookedAt(c, ids)
    ensures Ask(M, c, q, historical, ids).outcome == NotFound <==>
      && NothingMeetsQuery(M, c, q, historical, ids)
      && Seen(M, c, q, historical, ids, Inval) && Seen(M, c, q, historical, ids, Incompat)
      && !Seen(M, c, q, historical, ids, Stale) && !Seen(M, c, q, historical, ids, Insuff)
      && !Seen(M, c, q, historical, ids, Other)
  {
    hide *;
    OutcomeMeaning(M, c, q, historical, ids);
  }

  // -------- "Only" --------

  /** A category that is alone gets its own "only" outcome. The converse holds for INVALIDATED_ONLY, for
      INCOMPATIBLE_ONLY as long as no record fell out under the unnamed reasons, and for STALE_ONLY as long as
      none was invalidated or incompatible. */
  lemma OnlyMeansAlone(M: Meaning, c: Catalog, q: Query, historical: bool, ids: seq<u64>)
    requires Keyed(c) && Ascending(ids)
    ensures
      var o := Ask(M, c, q, historical, ids).outcome;
      && (NothingMeetsQuery(M, c, q, historical, ids) ==>
            && (SeenAlone(M, c, q, historical, ids, Inval) ==> o == InvalidatedOnly)
            && (SeenAlone(M, c, q, historical, ids, Incompat) ==> o == IncompatibleOnly)
            && (SeenAlone(M, c, q, historical, ids, Stale) ==> o == StaleOnly))
      && (o == InvalidatedOnly ==> SeenAlone(M, c, q, historical, ids, Inval))
      && (o == IncompatibleOnly ==>
            (SeenAlone(M, c, q, historical, ids, Incompat) <==> !Seen(M, c, q, historical, ids, Other)))
      && (o == StaleOnly ==>
            (SeenAlone(M, c, q, historical, ids, Stale) <==>
               !Seen(M, c, q, historical, ids, Inval) && !Seen(M, c, q, historical, ids, Incompat)))
  {
    hide *;
    OutcomeMeaning(M, c, q, historical, ids);
    AloneMeans(M, c, q, historical, ids, Inval);
    AloneMeans(M, c, q, historical, ids, Incompat);
    AloneMeans(M, c, q, historical, ids, Stale);
  }

  lemma AloneMeans(M: Meaning, c: Catalog, q: Query, historical: bool, ids: seq<u64>, k: Category)
    ensures SeenAlone(M, c, q, historical, ids, k) <==>
      && Seen(M, c, q, historical, ids, k)
      && (k != Inval ==> !Seen(M, c, q, historical, ids, Inval))
      && (k != Stale ==> !Seen(M, c, q, historical, ids, Stale))
      && (k != Incompat ==> !Seen(M, c, q, historical, ids, Incompat))
      && (k != Insuff ==> !Seen(M, c, q, historical, ids, Insuff))
      && (k != Other ==> !Seen(M, c, q, historical, ids, Other))
  {
    hide Seen;
  }
}
