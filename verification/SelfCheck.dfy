/** The engine's own consistency check, and what it can still complain about in a sound engine. */
module SelfCheck {
  import opened Basics
  import opened Model
  import opened RecordIO
  import opened Transitions
  import opened Invariants
  import opened Indexes
  import opened Planner
  import opened Soundness
  import opened Evaluation
  import opened EngineFacts
  import opened LoadFacts
  import opened Engine

  datatype Complaint =
    | CurrentMissing(state: u64)
    | ForeignCurrent(state: u64)
    | TerminalCurrent(state: u64)
    | TombstonedCurrent(state: u64)
    | NoUsableLocation(state: u64)
    | UnsatisfiedDependency(state: u64)
    | NotHighest(state: u64)
    | IndexComplaint(error: I.IndexError)
    | DigestComplaint(id: u64)

  /** has_usable_location: a usable location that is not stale. */
  predicate HasUsable(ls: seq<StateLocation>) {
    exists l :: l in ls && l.Usable() && l.freshness != FRESHNESS_STALE
  }

  /** What the check asks of a current record by itself. */
  predicate CurrentPasses(c: Catalog, demandUsable: bool, state: u64)
    requires state in c.current
  {
    && c.current[state] in c.records
    && (var rec := c.records[c.current[state]];
        && rec.stateId == state && !rec.Terminal() && !Tombstoned(c.tombstones, state, rec.stateGeneration)
        && (demandUsable ==> HasUsable(rec.locations)) && DependenciesSatisfied(c, rec.descriptor.dependencies))
  }

  /** g is the highest generation of an eligible record of the state. */
  ghost predicate IsHighest(records: map<u64, StateRecord>, T: map<u64, TombstoneRecord>, state: u64, g: u64) {
    && (exists id ::
          id in records && EligibleRecord(T, records[id]) && records[id].stateId == state
          && records[id].stateGeneration == g)
    && (forall id :: id in records && EligibleRecord(T, records[id]) && records[id].stateId == state ==>
      records[id].stateGeneration <= g)
  }

  ghost predicate HighestPasses(c: Catalog, state: u64)
    requires state in c.current
  {
    c.current[state] in c.records
      && IsHighest(c.records, c.tombstones, state, c.records[c.current[state]].stateGeneration)
  }

  ghost predicate CheckPasses(D: Digest, s: EngineState, v: IndexView, demandUsable: bool) {
    && (forall state :: state in s.current ==> CurrentPasses(CatalogOf(s), demandUsable, state))
    && (forall state :: state in s.current ==> HighestPasses(CatalogOf(s), state))
    && Verified(v, s.records) && DigestsMatch(D, s)
  }

  /** A location that works and is not stale. */
  predicate Serves(l: StateLocation) {
    (l.health == HEALTHY || l.health == HEALTH_DEGRADED) && l.freshness != FRESHNESS_STALE
  }

  /** Neither superseded, invalidated, tombstoned nor buried. */
  predicate Stands(c: Catalog, rec: StateRecord) {
    rec.lifecycle !in {SUPERSEDED, INVALIDATED, TOMBSTONED} && !Soundness.Buried(c, rec)
  }

  /** The current record is one of the state that stands, serves, has its dependencies, and is of the highest
      generation that stands. */
  predicate CurrentInOrder(c: Catalog, demandUsable: bool, state: u64)
    requires state in c.current
  {
    && c.current[state] in c.records
    && var rec := c.records[c.current[state]];
       && rec.stateId == state && Stands(c, rec) && DependenciesMet(c, rec)
       && (demandUsable ==> exists i :: 0 <= i < |rec.locations| && Serves(rec.locations[i]))
       && forall id :: id in c.records && c.records[id].stateId == state && Stands(c, c.records[id]) ==>
            c.records[id].stateGeneration <= rec.stateGeneration
  }

  lemma OneInOrder(c: Catalog, demandUsable: bool, state: u64)
    requires state in c.current
    ensures CurrentPasses(c, demandUsable, state) && HighestPasses(c, state) <==> CurrentInOrder(c, demandUsable, state)
  {
    hide HasUsable, DependenciesSatisfied, DependenciesMet, Serves, Stands;
    if c.current[state] in c.records {
      var rec := c.records[c.current[state]];
      DependenciesMeaning(c, rec);
      UsableMeaning(rec.locations);
      forall r: StateRecord ensures Stands(c, r) <==> EligibleRecord(c.tombstones, r) {
        StandsMeaning(c, r);
      }
    }
  }

  lemma StandsMeaning(c: Catalog, rec: StateRecord)
    ensures Stands(c, rec) <==> EligibleRecord(c.tombstones, rec)
  {
  }

  /** What a clean check means in any engine, sound or not. It says nothing of states without a current record. */
  lemma CleanCheckMeaning(D: Digest, s: EngineState, v: IndexView, demandUsable: bool)
    ensures CheckPasses(D, s, v, demandUsable) <==>
      && Verified(v, s.records)
      && (forall id :: id in s.records ==> s.records[id].semanticDigest == D(s.records[id]))
      && (forall state :: state in s.current ==> CurrentInOrder(CatalogOf(s), demandUsable, state))
  {
    hide CurrentPasses, HighestPasses, CurrentInOrder, Verified;
    forall state | state in s.current
      ensures CurrentPasses(CatalogOf(s), demandUsable, state) && HighestPasses(CatalogOf(s), state)
        <==> CurrentInOrder(CatalogOf(s), demandUsable, state)
    {
      OneInOrder(CatalogOf(s), demandUsable, state);
    }
  }

  /** In a sound engine the check can only complain that a current record has no usable location, that a
      required dependency is not satisfied, or that two records share a placement. */
  lemma SoundEngineCheck(D: Digest, s: EngineState, v: IndexView, demandUsable: bool)
    requires Inv(D, s)
    ensures CheckPasses(D, s, v, demandUsable) <==>
      && Verified(v, s.records)
      && forall state :: state in s.current ==>
           && (demandUsable ==> exists i :: 0 <= i < |s.records[s.current[state]].locations|
                                            && Serves(s.records[s.current[state]].locations[i]))
           && DependenciesMet(CatalogOf(s), s.records[s.current[state]])
  {
    hide HasUsable, DependenciesSatisfied, DependenciesMet, Verified, Tombstoned, Serves;
    forall state | state in s.current
      ensures HighestPasses(CatalogOf(s), state)
      ensures DependenciesSatisfied(CatalogOf(s), s.records[s.current[state]].descriptor.dependencies)
        <==> DependenciesMet(CatalogOf(s), s.records[s.current[state]])
      ensures HasUsable(s.records[s.current[state]].locations)
        <==> exists i :: 0 <= i < |s.records[s.current[state]].locations|
                         && Serves(s.records[s.current[state]].locations[i])
    {
      CurrentIsHighest(s, state);
      DependenciesMeaning(CatalogOf(s), s.records[s.current[state]]);
      UsableMeaning(s.records[s.current[state]].locations);
    }
  }

  lemma UsableMeaning(ls: seq<StateLocation>)
    ensures HasUsable(ls) <==> exists i :: 0 <= i < |ls| && Serves(ls[i])
  {
    if i :| 0 <= i < |ls| && Serves(ls[i]) {
      assert ls[i] in ls;
    }
  }

  lemma CurrentIsHighest(s: EngineState, state: u64)
    requires Shape(s) && CurrentIsBatch(s) && state in s.current
    ensures HighestPasses(CatalogOf(s), state)
  {
    hide EligibleRecord;
    var id := s.current[state];
    assert id in s.records && EligibleRecord(s.tombstones, s.records[id]) && s.records[id].stateId == state;
  }

  // -------- The check --------

  method AnyUsable(ls: seq<StateLocation>) returns (b: bool)
    ensures b <==> HasUsable(ls)
  {
    var i := 0;
    while i < |ls|
      invariant 0 <= i <= |ls| && forall j :: 0 <= j < i ==> !(ls[j].Usable() && ls[j].freshness != FRESHNESS_STALE)
    {
      if ls[i].Usable() && ls[i].freshness != FRESHNESS_STALE {
        assert ls[i] in ls;
        return true;
      }
      i := i + 1;
    }
    return false;
  }

  method CheckCurrent(c: Catalog, demandUsable: bool, state: u64) returns (errors: seq<Complaint>)
    requires state in c.current
    ensures errors == [] <==> CurrentPasses(c, demandUsable, state)
  {
    hide HasUsable, DependenciesSatisfied, Tombstoned;
    if c.current[state] !in c.records {
      return [CurrentMissing(state)];
    }
    var rec := c.records[c.current[state]];
    errors := [];
    if rec.stateId != state {
      errors := errors + [ForeignCurrent(state)];
    }
    if rec.Terminal() {
      errors := errors + [TerminalCurrent(state)];
    }
    if Tombstoned(c.tombstones, state, rec.stateGeneration) {
      errors := errors + [TombstonedCurrent(state)];
    }
    if demandUsable {
      var usable := AnyUsable(rec.locations);
      if !usable {
        errors := errors + [NoUsableLocation(state)];
      }
    }
    var satisfied := CheckDependencies(c, rec.descriptor.dependencies);
    if !satisfied {
      errors := errors + [UnsatisfiedDependency(state)];
    }
  }

  /** The highest eligible generation of every state that has an eligible record. */
  method HighestGenerations(c: Catalog) returns (highest: map<u64, u64>)
    ensures forall state, g :: state in highest && highest[state] == g <==> IsHighest(c.records, c.tombstones, state, g)
  {
    hide EligibleRecord;
    highest := map[];
    ghost var done: map<u64, StateRecord> := map[];
    var left := c.records.Keys;
    while left != {}
      invariant left <= c.records.Keys && done.Keys == c.records.Keys - left
      invariant forall id :: id in done ==> done[id] == c.records[id]
      invariant forall state :: state in highest ==> IsHighest(done, c.tombstones, state, highest[state])
      invariant forall id :: id in done && EligibleRecord(c.tombstones, done[id]) ==> done[id].stateId in highest
      decreases left
    {
      var id :| id in left;
      var rec := c.records[id];
      EligibleMeans(c.tombstones, rec);
      ghost var before := highest;
      if !rec.Terminal() && !Tombstoned(c.tombstones, rec.stateId, rec.stateGeneration) {
        if rec.stateId !in highest || rec.stateGeneration > highest[rec.stateId] {
          highest := highest[rec.stateId := rec.stateGeneration];
        }
      }
      HighestOneMore(done, c.tombstones, before, id, rec, done[id := rec], highest);
      done := done[id := rec];
      left := left - {id};
    }
    assert done == c.records;
  }

  lemma HighestOneMore(done: map<u64, StateRecord>, T: map<u64, TombstoneRecord>, highest: map<u64, u64>, id: u64,
                       rec: StateRecord, more: map<u64, StateRecord>, after: map<u64, u64>)
    requires id !in done && more == done[id := rec]
    requires forall state :: state in highest ==> IsHighest(done, T, state, highest[state])
    requires forall x :: x in done && EligibleRecord(T, done[x]) ==> done[x].stateId in highest
    requires after == if EligibleRecord(T, rec)
                         && (rec.stateId !in highest || rec.stateGeneration > highest[rec.stateId])
                      then highest[rec.stateId := rec.stateGeneration] else highest
    ensures forall state :: state in after ==> IsHighest(more, T, state, after[state])
    ensures forall x :: x in more && EligibleRecord(T, more[x]) ==> more[x].stateId in after
  {
    hide EligibleRecord;
    forall state | state in after ensures IsHighest(more, T, state, after[state]) {
      if state in highest && after[state] == highest[state] {
        var x :| x in done && EligibleRecord(T, done[x]) && done[x].stateId == state
          && done[x].stateGeneration == highest[state];
        assert x in more && more[x] == done[x];
      } else {
        assert id in more && more[id] == rec;
      }
    }
  }

  method CheckHighest(c: Catalog) returns (errors: seq<Complaint>)
    ensures errors == [] <==> forall state :: state in c.current ==> HighestPasses(c, state)
  {
    hide IsHighest;
    var highest := HighestGenerations(c);
    errors := [];
    var left := c.current.Keys;
    while left != {}
      invariant left <= c.current.Keys
      invariant errors == [] <==> forall state :: state in c.current && state !in left ==> HighestPasses(c, state)
      decreases left
    {
      var state :| state in left;
      if state !in highest || c.current[state] !in c.records
         || c.records[c.current[state]].stateGeneration != highest[state]
      {
        errors := errors + [NotHighest(state)];
      }
      left := left - {state};
    }
  }

  method CheckAllCurrent(c: Catalog, demandUsable: bool) returns (errors: seq<Complaint>)
    ensures errors == [] <==> forall state :: state in c.current ==> CurrentPasses(c, demandUsable, state)
  {
    hide CurrentPasses;
    errors := [];
    var left := c.current.Keys;
    while left != {}
      invariant left <= c.current.Keys
      invariant errors == []
        <==> forall state :: state in c.current && state !in left ==> CurrentPasses(c, demandUsable, state)
      decreases left
    {
      var state :| state in left;
      var more := CheckCurrent(c, demandUsable, state);
      errors := errors + more;
      left := left - {state};
    }
  }

  method CheckDigests(h: Hash, records: map<u64, StateRecord>) returns (errors: seq<Complaint>)
    ensures errors == [] <==> forall id :: id in records ==> records[id].semanticDigest == DigestOf(h)(records[id])
  {
    hide SemanticDigest;
    errors := [];
    var left := records.Keys;
    while left != {}
      invariant left <= records.Keys
      invariant errors == [] <==>
        forall id :: id in records && id !in left ==> records[id].semanticDigest == DigestOf(h)(records[id])
      decreases left
    {
      var id :| id in left;
      var computed := ComputeSemanticDigest(h, records[id]);
      if computed != records[id].semanticDigest {
        errors := errors + [DigestComplaint(id)];
      }
      left := left - {id};
    }
  }

  /** invariant_check: no complaint exactly when everything it looks at is as it should be. */
  method InvariantCheck(e: StateIndexEngine, demandUsable: bool) returns (errors: seq<Complaint>)
    requires forall id :: id in e.records ==> e.records[id].recordId == id
    ensures errors == [] <==> CheckPasses(e.D(), e.Core(), e.View(), demandUsable)
  {
    hide CurrentPasses, HighestPasses, Verified, DigestOf, HistorySets, I.ListsRecords, I.SecondaryIndexes.View;
    var c := Catalog(e.records, e.current, e.tombstones);
    errors := CheckAllCurrent(c, demandUsable);
    var more := CheckHighest(c);
    errors := errors + more;
    var canonical := e.CanonicalRecords();
    var indexErrors := e.indexes.Verify(canonical, e.records);
    var i := 0;
    ghost var before := errors;
    while i < |indexErrors|
      invariant 0 <= i <= |indexErrors| && |errors| == |before| + i
    {
      errors := errors + [IndexComplaint(indexErrors[i])];
      i := i + 1;
    }
    more := CheckDigests(e.sha, e.records);
    errors := errors + more;
  }
}
