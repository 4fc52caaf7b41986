/** What a save and load leaves of every record and location, on their fields. */
module Survival {
  import opened Basics
  import opened ByteBuf
  import opened Model
  import opened Authority
  import opened Transitions
  import opened Recovery
  import opened Invariants
  import opened Image
  import opened Persistence

  /** Memory of a process: device memory, pinned host memory and host memory, by their codes. */
  predicate DiesWithProcess(domain: u8) {
    domain == 1 || domain == 2 || domain == 3
  }

  /** The location afterwards: memory of a process must be revalidated, everything else is as fresh as it was; the
      process handle and scope are gone, and nothing more changes. */
  predicate LocationSurvives(a: StateLocation, b: StateLocation) {
    && b.freshness == (if DiesWithProcess(a.domain) then REVALIDATION_REQUIRED else a.freshness)
    && b == a.(freshness := b.freshness, processHandle := None, processScope := None)
  }

  /** Does any location lose its freshness? */
  predicate Loses(ls: seq<StateLocation>) {
    exists i :: 0 <= i < |ls| && DiesWithProcess(ls[i].domain) && ls[i].freshness != REVALIDATION_REQUIRED
  }

  ghost predicate LocationsSurvive(a: seq<StateLocation>, b: seq<StateLocation>) {
    |b| == |a| && forall i :: 0 <= i < |a| ==> LocationSurvives(a[i], b[i])
  }

  /** The record afterwards: sealed again exactly if a location loses its freshness, historical exactly if it is not
      current, and nothing else changes. */
  ghost predicate RecordSurvives(D: Digest, a: StateRecord, b: StateRecord, current: map<u64, u64>) {
    && LocationsSurvive(a.locations, b.locations)
    && b.semanticDigest == (if Loses(a.locations) then D(b) else a.semanticDigest)
    && b.isHistorical == !(a.stateId in current && current[a.stateId] == a.recordId)
    && b == a.(locations := b.locations, semanticDigest := b.semanticDigest, isHistorical := b.isHistorical)
  }

  lemma OneLocationSurvives(l: StateLocation)
    ensures LocationSurvives(l, RecoveredLocation(l))
    ensures RecoveredLocation(l) == l.Persisted() <==>
      !(DiesWithProcess(l.domain) && l.freshness != REVALIDATION_REQUIRED)
  {
  }

  lemma RecoveredLocationsSurvive(ls: seq<StateLocation>)
    ensures LocationsSurvive(ls, RecoveredLocations(ls))
    ensures RecoveredLocations(ls) == PersistedLocations(ls) <==> !Loses(ls)
  {
    hide LocationSurvives, RecoveredLocation, StateLocation.Persisted, DiesWithProcess;
    forall i | 0 <= i < |ls|
      ensures LocationSurvives(ls[i], RecoveredLocations(ls)[i])
      ensures RecoveredLocations(ls)[i] == PersistedLocations(ls)[i] <==>
        !(DiesWithProcess(ls[i].domain) && ls[i].freshness != REVALIDATION_REQUIRED)
    {
      OneLocationSurvives(ls[i]);
    }
    if RecoveredLocations(ls) != PersistedLocations(ls) {
      assert exists i :: 0 <= i < |ls| && RecoveredLocations(ls)[i] != PersistedLocations(ls)[i];
    }
  }

  /** The digest as a function of what it reads. */
  lemma SameDigest(D: Digest, u: StateRecord, d: Text, historical: bool)
    requires IgnoresUnhashed(D)
    ensures D(u.(semanticDigest := d, isHistorical := historical)) == D(u)
  {
    assert u.(semanticDigest := d, isHistorical := historical) == Resealed(u, d, historical);
  }

  lemma RevalidatedSurvives(D: Digest, rec: StateRecord, isCurrent: bool, current: map<u64, u64>)
    requires IgnoresUnhashed(D) && (isCurrent <==> rec.stateId in current && current[rec.stateId] == rec.recordId)
    ensures RecordSurvives(D, rec, RecoveredRecord(D, rec, isCurrent), current)
  {
    hide LocationsSurvive, Loses, IgnoresUnhashed;
    RecoveredLocationsSurvive(rec.locations);
    var u := rec.Persisted().(locations := RecoveredLocations(rec.locations));
    SameDigest(D, u, D(u), !isCurrent);
  }

  /** What is left of an engine after a save and load: the records as said, the registry's floors and holders, the
      saved epoch, no live boot, and every other table. */
  ghost predicate EngineSurvives(D: Digest, s: EngineState, registry: Registry, t: EngineState) {
    && t.records.Keys == s.records.Keys
    && (forall id :: id in s.records ==> RecordSurvives(D, s.records[id], t.records[id], s.current))
    && t.current == s.current && t.tombstones == s.tombstones && t.invalidations == s.invalidations
    && t.invalidationSeq == s.invalidationSeq && t.accounting == s.accounting
    && t.authority == Registry(s.authority.epoch, map[], registry.floors, registry.holders)
    && (forall id :: id in s.records ==>
          s.records[id].stateId in t.history && id in t.history[s.records[id].stateId])
    && (forall state, id :: state in t.history && id in t.history[state] ==>
          id in s.records && s.records[id].stateId == state)
  }

  lemma RecoveryMeaning(D: Digest, s: EngineState, registry: Registry)
    requires IgnoresUnhashed(D)
    ensures EngineSurvives(D, s, registry, Recovered(D, s, registry))
  {
    hide RecoveredRecord, RecordSurvives, IgnoresUnhashed;
    var t := Recovered(D, s, registry);
    forall id | id in s.records ensures RecordSurvives(D, s.records[id], t.records[id], s.current) {
      RevalidatedSurvives(D, s.records[id], IsCurrent(s.current, s.records[id]), s.current);
    }
    forall id | id in s.records ensures s.records[id].stateId in t.history && id in t.history[s.records[id].stateId] {
      assert s.records[id].stateId in StatesOf(s.records);
    }
  }

  /** What a loaded engine has of the records in the image. */
  ghost predicate LoadedFrom(D: Digest, c: Contents, registry: Registry, t: EngineState) {
    && (forall r :: r in c.records ==>
          r.recordId in t.records && RecordSurvives(D, r, t.records[r.recordId], t.current))
    && (forall id :: id in t.records ==> exists r :: r in c.records && r.recordId == id)
    && t.invalidations == c.invalidations && t.invalidationSeq == c.invalidationSeq && t.accounting == c.accounting
    && t.authority == Registry(c.epoch, map[], registry.floors, registry.holders)
  }

  lemma LoadMeaning(D: Digest, c: Contents, registry: Registry, t: EngineState)
    requires IgnoresUnhashed(D) && Loadable(D, c.records) && Loads(D, c, registry, t)
    ensures LoadedFrom(D, c, registry, t)
  {
    hide CurrentIsBatch, Recovered, RecordSurvives, IgnoresUnhashed, AllSealed, TombstoneTable, RecordTable;
    RecoveryMeaning(D, StoredState(c, t.current), registry);
    RecordTableMeaning(c.records);
    forall r | r in c.records
      ensures r.recordId in t.records && RecordSurvives(D, r, t.records[r.recordId], t.current)
    {
      var i :| 0 <= i < |c.records| && c.records[i] == r;
    }
    forall id | id in t.records ensures exists r :: r in c.records && r.recordId == id {
      assert RecordTable(c.records)[id] in c.records;
    }
  }
}
