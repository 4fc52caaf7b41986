/** The engine object. Its methods change the record tables, the registry and the indexes in place; each
    one makes the step that the specification of runs allows, and keeps the invariant. */
module Engine {
  import opened Basics
  import opened ByteBuf
  import opened Model
  import opened RecordCodec
  import opened RecordIO
  import opened LedgerCodec
  import opened Authority
  import opened Transitions
  import opened Recovery
  import opened Invariants
  import opened Retirement
  import opened Runs
  import opened Sorting
  import opened RecordSorting
  import opened Indexes
  import opened IndexRuns
  import opened Image
  import opened Persistence
  import opened Survival
  import opened Queries
  import opened Planner
  import opened Answers
  import opened Evaluation
  import opened EngineFacts
  import opened LoadFacts
  import I = SecondaryIndexes

  class StateIndexEngine {
    const sha: Hash
    const meaning: Meaning
    const authority: AuthorityRegistry
    const indexes: I.SecondaryIndexes
    var accounting: Accounting
    var records: map<u64, StateRecord>
    var current: map<u64, u64>
    var history: map<u64, seq<u64>>
    var invalidations: seq<InvalidationRecord>
    var tombstones: map<u64, TombstoneRecord>
    var invalidationSeq: u64

    /** The engine's state as a value. */
    ghost function Core(): EngineState
      reads this, authority
    {
      EngineState(authority.View(), accounting, records, current, HistorySets(history), invalidations, tombstones,
                  invalidationSeq)
    }

    ghost function View(): IndexView
      reads this, indexes
    {
      indexes.View()
    }

    ghost function D(): Digest {
      DigestOf(sha)
    }

    ghost predicate Valid()
      reads this, authority, indexes
    {
      indexes.Valid() && OnceEach(history) && Inv(D(), Core())
    }

    constructor (epoch: u64, digest: Hash, costs: Meaning)
      ensures Valid() && Core() == FreshEngine(epoch) && View() == EMPTY_INDEX
      ensures fresh(authority) && fresh(indexes) && sha == digest && meaning == costs
    {
      sha, meaning := digest, costs;
      authority := new AuthorityRegistry(epoch);
      indexes := new I.SecondaryIndexes();
      accounting := NO_ACCOUNTING;
      records, current, history, tombstones := map[], map[], map[], map[];
      invalidations, invalidationSeq := [], 0;
      new;
      assert HistorySets(history) == map[];
      FreshInv(D(), epoch);
    }

    // -------- Workers and epochs --------

    method RegisterWorker(worker: u64, boot: u64)
      requires Valid()
      modifies authority
      ensures Valid() && Core() == old(Core()).(authority := old(authority.View()).RegisterWorker(worker, boot))
    {
      authority.RegisterWorker(worker, boot);
      RegistryAside(D(), old(Core()), authority.View());
    }

    method UnregisterWorker(boot: u64)
      requires Valid()
      modifies authority
      ensures Valid() && Core() == old(Core()).(authority := old(authority.View()).UnregisterWorker(boot))
    {
      authority.UnregisterWorker(boot);
      RegistryAside(D(), old(Core()), authority.View());
    }

    method AdvanceEpoch()
      requires Valid()
      modifies authority
      ensures Valid() && Core() == old(Core()).(authority := old(authority.View()).AdvanceEpoch())
    {
      authority.AdvanceEpoch();
      RegistryAside(D(), old(Core()), authority.View());
    }

    // -------- Inspection --------

    function Get(id: u64): Option<StateRecord>
      reads this
    {
      RecordWith(records, id)
    }

    function Find(state: u64): Option<StateRecord>
      reads this
    {
      if state in current then Get(current[state]) else None
    }

    predicate IsTombstoned(state: u64, generation: u64)
      reads this
    {
      Tombstoned(tombstones, state, generation)
    }

    // -------- Storing a changed record --------

    method Seal(rec: StateRecord) returns (sealed: StateRecord)
      ensures sealed == rec.(semanticDigest := D()(rec))
    {
      var digest := ComputeSemanticDigest(sha, rec);
      sealed := rec.(semanticDigest := digest);
    }

    /** Take the changed record out of the indexes, store it, index it again. */
    method Store(u: StateRecord)
      requires indexes.Valid()
      modifies this`records, indexes
      ensures indexes.Valid() && records == old(records)[u.recordId := u]
      ensures View() == Insert(Remove(old(View()), u), u)
    {
      indexes.RemoveRecord(u);
      records := records[u.recordId := u];
      indexes.InsertRecord(u);
    }

    method Mark(rec: StateRecord, lifecycle: u8)
      requires indexes.Valid()
      modifies this`records, indexes
      ensures var u := Marked(D(), rec, lifecycle);
        && indexes.Valid() && records == old(records)[rec.recordId := u]
        && View() == Insert(Remove(old(View()), u), u)
    {
      var u := rec.(lifecycle := lifecycle, isHistorical := true);
      u := Seal(u);
      Store(u);
    }

    // -------- register_state --------

    /** The record that a newly stored one supersedes. */
    ghost predicate Replaces(rec: StateRecord)
      reads this
    {
      && rec.stateId in current && current[rec.stateId] != rec.recordId && current[rec.stateId] in records
      && records[current[rec.stateId]].stateGeneration < rec.stateGeneration
    }

    method MakeCurrent(rec: StateRecord)
      requires indexes.Valid() && OnceEach(history) && rec.recordId !in HistoryList(history, rec.stateId)
      requires forall id :: id in records ==> records[id].recordId == id
      modifies this`records, this`current, this`history, authority, indexes
      ensures indexes.Valid() && OnceEach(history)
      ensures Core() == SetCurrent(D(), old(Core()), rec)
      ensures View() ==
        if old(Replaces(rec)) then
          (var m := Marked(D(), old(records[current[rec.stateId]]), SUPERSEDED);
           Insert(Remove(old(View()), m), m))
        else old(View())
    {
      hide Insert, Remove, OnceEach, HistorySets, PushHistory, Marked, DigestOf;
      var state := rec.stateId;
      if state in current && current[state] == rec.recordId {
        authority.SetCurrentAuthority(state, rec.stateGeneration, rec.authorityBoot);
        return;
      }
      PushedHistory(history, state, rec.recordId);
      history := history[state := (if state in history then history[state] else []) + [rec.recordId]];
      if state !in current {
        current := current[state := rec.recordId];
        authority.SetCurrentAuthority(state, rec.stateGeneration, rec.authorityBoot);
        return;
      }
      var previous := Get(current[state]);
      if previous.Some? && previous.value.stateGeneration < rec.stateGeneration {
        Mark(previous.value, SUPERSEDED);
        current := current[state := rec.recordId];
        authority.SetCurrentAuthority(state, rec.stateGeneration, rec.authorityBoot);
      }
    }

    /** The counting loops of a publication. */
    method CountPublication(rec: StateRecord)
      modifies this`accounting
      ensures accounting == CountPublished(old(accounting), rec)
    {
      accounting := accounting.(logicalStates := accounting.logicalStates + 1);
      accounting := accounting.(currentStates := accounting.currentStates + 1);
      var i := 0;
      while i < |rec.descriptor.dependencies|
        invariant 0 <= i <= |rec.descriptor.dependencies|
        invariant accounting == old(accounting).(logicalStates := old(accounting).logicalStates + 1,
                                                 currentStates := old(accounting).currentStates + 1,
                                                 dependencies := old(accounting).dependencies + i)
      {
        accounting := accounting.(dependencies := accounting.dependencies + 1);
        i := i + 1;
      }
      ghost var a := accounting;
      var ls := rec.locations;
      i := 0;
      while i < |ls|
        invariant 0 <= i <= |ls|
        invariant accounting == a.(locations := a.locations + i, replicas := a.replicas + i,
          cudaLocations := a.cudaLocations + CountDomains(ls[..i], {CUDA_DEVICE}),
          hostLocations := a.hostLocations + CountDomains(ls[..i], HOST_DOMAINS),
          storageLocations := a.storageLocations + CountDomains(ls[..i], STORAGE_DOMAINS))
      {
        DomainsOneMore(ls, i, {CUDA_DEVICE});
        DomainsOneMore(ls, i, HOST_DOMAINS);
        DomainsOneMore(ls, i, STORAGE_DOMAINS);
        accounting := accounting.(locations := accounting.locations + 1, replicas := accounting.replicas + 1);
        if ls[i].domain == CUDA_DEVICE {
          accounting := accounting.(cudaLocations := accounting.cudaLocations + 1);
        }
        if ls[i].domain == HOST_MEMORY || ls[i].domain == HOST_PINNED {
          accounting := accounting.(hostLocations := accounting.hostLocations + 1);
        }
        if ls[i].domain == LOCAL_FILESYSTEM || ls[i].domain == LOCAL_NVME_CLASS
           || ls[i].domain == SHARED_FILESYSTEM_CLASS || ls[i].domain == OBJECT_STORAGE_CLASS
        {
          accounting := accounting.(storageLocations := accounting.storageLocations + 1);
        }
        i := i + 1;
      }
      assert ls[..|ls|] == ls;
    }

    /** The guards of a publication; a refusal is counted and changes nothing else. */
    method GuardPublication(rec: StateRecord, env: Envelope) returns (verdict: Verdict)
      modifies this`accounting
      ensures verdict == Transitions.RegisterState(D(), old(Core()), rec, env).verdict
      ensures Core() == if Publishes(D(), old(Core()), rec, env) then old(Core())
                        else Transitions.RegisterState(D(), old(Core()), rec, env).state
    {
      hide Publishes, Transitions.RegisterState, Registry.Validate, Tombstoned, HistorySets, DigestOf;
      PublicationGuards(D(), Core(), rec, env);
      verdict := authority.ValidateStatePublication(rec.stateId, env, rec.stateGeneration);
      if verdict != Accepted {
        accounting := if verdict == RejectedDuplicate then CountDuplicate(accounting) else CountStale(accounting);
        return;
      }
      if rec.recordId in records {
        accounting := CountDuplicate(accounting);
        return RejectedDuplicate;
      }
      if rec.stateGeneration == 0 {
        // the registry has already refused an unset generation
        assert false;
      }
      if IsTombstoned(rec.stateId, rec.stateGeneration) {
        accounting := CountStale(accounting);
        return RejectedTombstoned;
      }
      verdict := Accepted;
    }

    method RegisterState(rec: StateRecord, env: Envelope) returns (verdict: Verdict)
      requires Valid()
      modifies this, authority, indexes
      ensures indexes.Valid() && OnceEach(history)
      ensures Valid()
        <==> (Publishes(D(), old(Core()), rec, env) ==> !rec.Terminal() || !BecomesCurrent(old(Core()), rec))
      ensures Core() == Transitions.RegisterState(D(), old(Core()), rec, env).state
      ensures verdict == Transitions.RegisterState(D(), old(Core()), rec, env).verdict
      ensures IndexStep(D(), old(Core()), RegisterStateOp(rec, env), Core(), old(View()), View())
    {
      hide Inv, Shape, Publishes, BecomesCurrent, Transitions.RegisterState, IndexStep, HistorySets, OnceEach,
           DigestOf, I.SecondaryIndexes.View, I.SecondaryIndexes.Valid;
      ghost var s := Core();
      DigestIgnoresUnhashed(sha);
      RegisterKeepsInv(D(), s, rec, env);
      InvHasShape(D(), s);
      PublicationGuards(D(), s, rec, env);
      verdict := GuardPublication(rec, env);
      if verdict == Accepted {
        Publish(rec, env);
      } else {
        RefusalIsQuiet(D(), s, rec, env, View());
      }
    }

    method Publish(rec: StateRecord, env: Envelope)
      requires indexes.Valid() && OnceEach(history) && Shape(Core()) && Publishes(D(), Core(), rec, env)
      modifies this, authority, indexes
      ensures indexes.Valid() && OnceEach(history)
      ensures Core() == Transitions.RegisterState(D(), old(Core()), rec, env).state
      ensures IndexStep(D(), old(Core()), RegisterStateOp(rec, env), Core(), old(View()), View())
    {
      hide Transitions.RegisterState, Publishes, Touched, IndexStep, OnceEach, Insert, Remove, HistorySets,
           SetCurrent, Marked, Extends, CountPublished, Published, DigestOf, Shape, I.SecondaryIndexes.View,
           I.SecondaryIndexes.Valid;
      ghost var s, v := Core(), View();
      PublishGuards(D(), s, rec, env);
      KeyedRecords(s);
      PublishedId(D(), rec, env);
      var r := Prepare(rec, env);
      NewInHistory(s, history, r);
      SupersessionSeen(s, r);
      records := records[r.recordId := r];
      indexes.InsertRecord(r);
      MakeCurrent(r);
      CountPublication(r);
      PublicationExtends(D(), s, rec, env, v, View());
      IndexStepOf(D(), s, RegisterStateOp(rec, env), Core(), v, View());
    }

    /** The record in the form in which it is published. */
    method Prepare(rec: StateRecord, env: Envelope) returns (r: StateRecord)
      ensures r == Published(D(), rec, env)
    {
      var d := rec.descriptor.(authorityEpoch := env.coordinatorEpoch);
      if env.recordGeneration != 0 {
        d := d.(recordGeneration := env.recordGeneration);
      }
      r := rec.(authorityBoot := env.workerBoot, descriptor := d);
      r := Seal(r);
      r := r.(isHistorical := false);
    }

    // -------- add_location and remove_location --------

    /** The two checks that every mutation but a publication starts with. */
    method Fence(env: Envelope) returns (verdict: Verdict)
      ensures verdict == CheckAuthority(Core(), env)
      ensures verdict == Accepted <==> env.coordinatorEpoch == authority.epoch && env.workerBoot in authority.liveBoots
    {
      if env.coordinatorEpoch != authority.epoch {
        return RejectedStaleEpoch;
      }
      if env.workerBoot !in authority.liveBoots {
        return RejectedStaleBoot;
      }
      verdict := Accepted;
    }

    static method Regresses(ls: seq<StateLocation>, loc: StateLocation, env: Envelope) returns (b: bool)
      ensures b <==> RegressesLocation(ls, loc, env)
    {
      var i := 0;
      while i < |ls|
        invariant 0 <= i <= |ls|
        invariant forall j :: 0 <= j < i ==> !(ls[j].placementId == loc.placementId
                                               && env.locationGeneration != 0
                                               && loc.locationGeneration <= ls[j].locationGeneration)
      {
        if ls[i].placementId == loc.placementId {
          if env.locationGeneration != 0 && !(loc.locationGeneration > ls[i].locationGeneration) {
            assert ls[i] in ls;
            return true;
          }
        }
        i := i + 1;
      }
      return false;
    }

    /** Replace in place, counting; append if nothing was replaced. */
    method Merge(ls: seq<StateLocation>, loc: StateLocation) returns (locs: seq<StateLocation>)
      modifies this`accounting
      ensures locs == Merged(ls, loc)
      ensures accounting == CountMerged(old(accounting), ls, loc.placementId)
    {
      hide CountPlacement, Merged;
      CountOfNone(loc.placementId);
      assert ls[..0] == [];
      locs := ls;
      var replaced := false;
      var i := 0;
      while i < |locs|
        invariant 0 <= i <= |locs| == |ls|
        invariant forall j :: 0 <= j < |ls| ==>
          locs[j] == if j < i && ls[j].placementId == loc.placementId then loc else ls[j]
        invariant replaced <==> CountPlacement(ls[..i], loc.placementId) > 0
        invariant accounting
          == old(accounting).(locations := old(accounting).locations + CountPlacement(ls[..i], loc.placementId))
      {
        CountOneMore(ls, i, loc.placementId);
        if locs[i].placementId == loc.placementId {
          accounting := accounting.(locations := accounting.locations + 1);
          locs := locs[i := loc];
          replaced := true;
        }
        i := i + 1;
      }
      assert ls[..|ls|] == ls;
      MergedFrom(ls, loc, locs);
      if !replaced {
        locs := locs + [loc];
        accounting := accounting.(locations := accounting.locations + 1, replicas := accounting.replicas + 1);
      }
    }

    method Relocate(rec: StateRecord, locs: seq<StateLocation>)
      requires indexes.Valid()
      modifies this`records, indexes
      ensures var u := WithLocations(D(), rec, locs);
        && indexes.Valid() && records == old(records)[rec.recordId := u]
        && View() == Insert(Remove(old(View()), u), u)
    {
      var u := rec.(locations := locs);
      u := Seal(u);
      Store(u);
    }

    /** Merge the stamped location into the record and index it again. */
    method ApplyAddition(rec: StateRecord, state: u64, loc: StateLocation, env: Envelope)
      requires indexes.Valid() && Shape(Core()) && FindState(Core(), state) == Some(rec)
      requires Transitions.AddLocation(D(), Core(), state, loc, env).verdict == Accepted
      modifies this`records, this`accounting, indexes
      ensures indexes.Valid()
      ensures Core() == Transitions.AddLocation(D(), old(Core()), state, loc, env).state
      ensures IndexStep(D(), old(Core()), AddLocationOp(state, loc, env), Core(), old(View()), View())
    {
      hide Shape, FindState, Transitions.AddLocation, CheckAuthority, RegressesLocation, IndexStep, Extends, Touched,
           WithLocations, Merged, CountMerged, HistorySets, DigestOf, Insert, Remove, I.SecondaryIndexes.View,
           I.SecondaryIndexes.Valid;
      ghost var s, v := Core(), View();
      AdditionGuards(D(), s, state, loc, env);
      AdditionTouches(D(), s, state, loc, env);
      var stamped := loc.(authorityEpoch := env.coordinatorEpoch, authorityBoot := env.workerBoot);
      if env.provenanceGeneration != 0 {
        stamped := stamped.(provenanceGeneration := env.provenanceGeneration);
      }
      var locs := Merge(rec.locations, stamped);
      Relocate(rec, locs);
      FoundKeyed(s, state);
      RelocationExtends(D(), s, state, locs, v, View());
      IndexStepOf(D(), s, AddLocationOp(state, loc, env), Core(), v, View());
    }

    method AddLocation(state: u64, loc: StateLocation, env: Envelope) returns (verdict: Verdict)
      requires Valid()
      modifies this`records, this`accounting, indexes
      ensures Valid()
      ensures Core() == Transitions.AddLocation(D(), old(Core()), state, loc, env).state
      ensures verdict == Transitions.AddLocation(D(), old(Core()), state, loc, env).verdict
      ensures IndexStep(D(), old(Core()), AddLocationOp(state, loc, env), Core(), old(View()), View())
      ensures verdict == Accepted ==>
        env.coordinatorEpoch == old(authority.epoch) && env.workerBoot in old(authority.liveBoots)
    {
      hide Inv, Shape, Transitions.AddLocation, CheckAuthority, RegressesLocation, IndexStep, HistorySets, OnceEach,
           DigestOf, I.SecondaryIndexes.View, I.SecondaryIndexes.Valid, StampLocation, WithLocations, Merged,
           CountMerged;
      ghost var s := Core();
      DigestIgnoresUnhashed(sha);
      AddLocationKeepsInv(D(), s, state, loc, env);
      InvHasShape(D(), s);
      AdditionGuards(D(), s, state, loc, env);
      if Transitions.AddLocation(D(), s, state, loc, env).verdict != Accepted {
        QuietAddition(D(), s, state, loc, env, View());
      }
      verdict := Fence(env);
      if verdict != Accepted {
        return;
      }
      var found := Find(state);
      if found.None? {
        return RejectedNotLive;
      }
      var regresses := Regresses(found.value.locations, loc, env);
      if regresses {
        return RejectedGenerationRegression;
      }
      ApplyAddition(found.value, state, loc, env);
      verdict := Accepted;
    }

    static method Drop(ls: seq<StateLocation>, placement: u64) returns (found: bool, locs: seq<StateLocation>)
      ensures locs == DropPlacement(ls, placement) && (found <==> CountPlacement(ls, placement) > 0)
    {
      found, locs := false, [];
      var i := 0;
      while i < |ls|
        invariant 0 <= i <= |ls|
        invariant locs == DropPlacement(ls[..i], placement) && (found <==> CountPlacement(ls[..i], placement) > 0)
      {
        CountOneMore(ls, i, placement);
        if ls[i].placementId == placement {
          found := true;
        } else {
          locs := locs + [ls[i]];
        }
        i := i + 1;
      }
      assert ls[..|ls|] == ls;
    }

    /** Give the record the locations that are left and index it again. */
    method ApplyRemoval(rec: StateRecord, locs: seq<StateLocation>, state: u64, placement: u64, env: Envelope)
      requires indexes.Valid() && Inv(D(), Core()) && FindState(Core(), state) == Some(rec)
      requires locs == DropPlacement(rec.locations, placement) && CountPlacement(rec.locations, placement) > 0
      requires Transitions.RemoveLocation(D(), Core(), state, placement, env).verdict == Accepted
      modifies this`records, this`accounting, indexes
      ensures indexes.Valid()
      ensures Core() == Transitions.RemoveLocation(D(), old(Core()), state, placement, env).state
      ensures IndexStep(D(), old(Core()), RemoveLocationOp(state, placement, env), Core(), old(View()), View())
    {
      hide Inv, Shape, FindState, Transitions.RemoveLocation, CheckAuthority, IndexStep, Extends, Touched,
           WithLocations, CountPlacement, DropPlacement, HistorySets, DigestOf, Insert, Remove,
           I.SecondaryIndexes.View, I.SecondaryIndexes.Valid;
      ghost var s, v := Core(), View();
      InvHasShape(D(), s);
      RemovalGuards(D(), s, state, placement, env);
      RemovalTouches(D(), s, state, placement, env);
      RemovalHasRoom(D(), s, state, placement);
      Relocate(rec, locs);
      // never below zero: the counter covers every location
      accounting := accounting.(locations := accounting.locations - 1);
      FoundKeyed(s, state);
      RelocationExtends(D(), s, state, locs, v, View());
      IndexStepOf(D(), s, RemoveLocationOp(state, placement, env), Core(), v, View());
    }

    method RemoveLocation(state: u64, placement: u64, env: Envelope) returns (verdict: Verdict)
      requires Valid()
      modifies this`records, this`accounting, indexes
      ensures Valid()
      ensures Core() == Transitions.RemoveLocation(D(), old(Core()), state, placement, env).state
      ensures verdict == Transitions.RemoveLocation(D(), old(Core()), state, placement, env).verdict
      ensures IndexStep(D(), old(Core()), RemoveLocationOp(state, placement, env), Core(), old(View()), View())
      ensures verdict == Accepted ==>
        env.coordinatorEpoch == old(authority.epoch) && env.workerBoot in old(authority.liveBoots)
    {
      hide Inv, Shape, Transitions.RemoveLocation, CheckAuthority, IndexStep, WithLocations, CountPlacement,
           DropPlacement, HistorySets, OnceEach, DigestOf, I.SecondaryIndexes.View, I.SecondaryIndexes.Valid;
      ghost var s := Core();
      DigestIgnoresUnhashed(sha);
      RemoveLocationKeepsInv(D(), s, state, placement, env);
      RemovalGuards(D(), s, state, placement, env);
      if Transitions.RemoveLocation(D(), s, state, placement, env).verdict != Accepted {
        QuietRemoval(D(), s, state, placement, env, View());
      }
      verdict := Fence(env);
      if verdict != Accepted {
        return;
      }
      var rec := Find(state);
      if rec.None? {
        return RejectedNotLive;
      }
      var found, locs := Drop(rec.value.locations, placement);
      if !found {
        QuietRemoval(D(), s, state, placement, env, View());
        return Accepted;
      }
      ApplyRemoval(rec.value, locs, state, placement, env);
      verdict := Accepted;
    }

    // -------- invalidate --------

    /** The records of a state, newest generation first. */
    method HistoryRecords(state: u64) returns (out: seq<StateRecord>)
      ensures OrderedBy(out, NewestFirst) && Elements(out) == RecordsOf(records, HistoryOf(Core(), state))
    {
      hide HistorySets;
      var ids := if state in history then history[state] else [];
      ListElements(history, state);
      out := [];
      var i := 0;
      while i < |ids|
        invariant 0 <= i <= |ids| && Elements(out) == RecordsOf(records, Elements(ids[..i]))
      {
        RecordsOfOneMore(records, ids, i);
        var r := Get(ids[i]);
        if r.Some? {
          out := out + [r.value];
        }
        i := i + 1;
      }
      assert ids[..|ids|] == ids;
      var sorted := SortRecords(out, NewestFirst);
      SameRecords(sorted, out);
      out := sorted;
    }

    /** Every listed record at or below the bound that is not yet invalidated becomes so. */
    method MarkInvalid(hist: seq<StateRecord>, bound: u64) returns (changed: bool)
      requires indexes.Valid()
      requires forall r :: r in hist ==> r.recordId in records && records[r.recordId] == r
      modifies this`records, indexes
      ensures indexes.Valid() && (changed <==> BelowBound(hist, bound) != {})
      ensures records == MarkAll(D(), old(records), BelowBound(hist, bound), INVALIDATED)
      ensures Extends(old(View()), records, BelowBound(hist, bound), View())
    {
      hide Marked, MarkAll, Extends, Insert, Remove, DigestOf, I.SecondaryIndexes.View, I.SecondaryIndexes.Valid,
           BelowBound;
      changed := false;
      ghost var done: set<u64> := {};
      DigestIgnoresUnhashed(sha);
      BelowBoundOfNone(bound);
      MarkNothing(D(), records, INVALIDATED);
      ExtendsNothing(View(), records);
      assert hist[..0] == [];
      var i := 0;
      while i < |hist|
        invariant 0 <= i <= |hist| && indexes.Valid()
        invariant records == MarkAll(D(), old(records), BelowBound(hist[..i], bound), INVALIDATED)
        invariant Extends(old(View()), records, BelowBound(hist[..i], bound), View())
        invariant changed <==> BelowBound(hist[..i], bound) != {}
      {
        var r := hist[i];
        assert r in hist;
        BelowBoundOneMore(hist, i, bound);
        if r.stateGeneration <= bound && r.lifecycle != INVALIDATED {
          MarkAgain(D(), old(records), BelowBound(hist[..i], bound), r.recordId, INVALIDATED);
          var sr := Get(r.recordId);
          if sr.Some? {
            ghost var before, mid := records, View();
            Mark(sr.value, INVALIDATED);
            StoreExtends(old(View()), before, BelowBound(hist[..i], bound), mid, Marked(D(), sr.value, INVALIDATED),
                         View());
            changed := true;
          }
        }
        i := i + 1;
      }
      assert hist[..|hist|] == hist;
    }

    /** The promotion scan: a promotable record of the highest generation. */
    method PickBest(state: u64, bound: u64) returns (best: Option<u64>)
      requires forall id :: id in records ==> records[id].recordId == id
      ensures IsBestPromotable(Core(), state, bound, best)
    {
      hide HistorySets, Tombstoned;
      ListElements(history, state);
      var ids := if state in history then history[state] else [];
      assert forall id :: id in HistoryOf(Core(), state) <==> id in ids;
      best := None;
      var i := 0;
      while i < |ids|
        invariant 0 <= i <= |ids|
        invariant best.None? ==> forall j :: 0 <= j < i ==> !Promotable(Core(), state, bound, ids[j])
        invariant best.Some? ==>
          && Promotable(Core(), state, bound, best.value)
          && forall j :: 0 <= j < i && Promotable(Core(), state, bound, ids[j]) ==>
               records[ids[j]].stateGeneration <= records[best.value].stateGeneration
      {
        var cand := Get(ids[i]);
        if cand.Some? {
          var r := cand.value;
          if (r.lifecycle == AVAILABLE || r.lifecycle == DEGRADED || r.lifecycle == DISCOVERED)
             && !IsTombstoned(r.stateId, r.stateGeneration) && r.stateGeneration > bound
             && (best.None? || r.stateGeneration > records[best.value].stateGeneration)
          {
            best := Some(r.recordId);
          }
        }
        i := i + 1;
      }
    }

    /** Recompute the current record of a state after an invalidation. */
    method Promote(state: u64, bound: u64) returns (ghost best: Option<u64>)
      requires OnceEach(history) && forall id :: id in records ==> records[id].recordId == id
      modifies this`history, this`current, this`accounting, authority
      ensures OnceEach(history) && IsBestPromotable(old(Core()), state, bound, best)
      ensures Core() == Promoted(old(Core()), state, best)
    {
      hide HistorySets, IsBestPromotable, OnceEach, TouchHistory, Promotable;
      var chosen := PickBest(state, bound);
      best := chosen;
      TouchedHistory(history, state);
      history := history[state := if state in history then history[state] else []];
      BestIsStored(old(Core()), state, bound, best);
      if chosen.Some? {
        var b := records[chosen.value];
        current := current[state := b.recordId];
        accounting := accounting.(currentStates := accounting.currentStates + 1);
        authority.SetCurrentAuthority(state, b.stateGeneration, b.authorityBoot);
      } else {
        current := current - {state};
        authority.ClearCurrentAuthority(state);
      }
    }

    method RecordInvalidation(inv: InvalidationRecord, env: Envelope)
      modifies this`invalidations, this`invalidationSeq, this`accounting
      ensures Core() == Recorded(old(Core()), inv, env)
    {
      invalidationSeq := if invalidationSeq == MAX_U64 then 0 else invalidationSeq + 1;
      var entry := inv.(invalidationSeq := invalidationSeq, coordinatorEpoch := env.coordinatorEpoch,
                        workerBoot := env.workerBoot);
      if env.recordGeneration != 0 {
        entry := entry.(recordGeneration := env.recordGeneration);
      }
      invalidations := invalidations + [entry];
      accounting := accounting.(invalidations := accounting.invalidations + 1);
    }

    /** Record the invalidation and mark every record it covers. */
    method RecordAndMark(inv: InvalidationRecord, env: Envelope) returns (changed: bool)
      requires indexes.Valid() && Shape(Core())
      modifies this`records, this`invalidations, this`invalidationSeq, this`accounting, indexes
      ensures indexes.Valid() && Core() == InvalidationMarked(D(), old(Core()), inv, env)
      ensures changed <==> InvalidationTargets(old(Core()), inv.stateId, inv.boundGeneration) != {}
      ensures Extends(old(View()), records, InvalidationTargets(old(Core()), inv.stateId, inv.boundGeneration), View())
    {
      hide Shape, Extends, HistorySets, DigestOf, I.SecondaryIndexes.View, I.SecondaryIndexes.Valid, RecordsOf,
           BelowBound, MarkAll, InvalidationTargets, Recorded, InvalidationMarked, OrderedBy, HistoryOf;
      ghost var s := Core();
      RecordInvalidation(inv, env);
      RecordedKeeps(s, inv, env);
      var hist := HistoryRecords(inv.stateId);
      HistoryTargets(s, inv.stateId, inv.boundGeneration, hist);
      changed := MarkInvalid(hist, inv.boundGeneration);
      MarkedParts(D(), s, inv, env);
    }

    method ApplyInvalidation(inv: InvalidationRecord, env: Envelope)
      requires indexes.Valid() && OnceEach(history)
      requires Shape(Core()) && CurrentIsBatch(Core()) && Invalidates(Core(), inv, env)
      modifies this, authority, indexes
      ensures indexes.Valid() && OnceEach(history)
      ensures Core() == Transitions.Invalidate(D(), old(Core()), inv, env, None).state
      ensures Step(D(), old(Core()), InvalidateOp(inv, env), Core())
      ensures IndexStep(D(), old(Core()), InvalidateOp(inv, env), Core(), old(View()), View())
    {
      hide Shape, CurrentIsBatch, Invalidates, Transitions.Invalidate, Step, IndexStep, Extends, HistorySets,
           OnceEach, DigestOf, I.SecondaryIndexes.View, I.SecondaryIndexes.Valid, MarkAll, InvalidationTargets,
           InvalidationMarked, Promoted;
      ghost var s, v := Core(), View();
      MarkedKeyed(D(), s, inv, env);
      var rec := Find(inv.stateId);
      var changed := RecordAndMark(inv, env);
      MarkedParts(D(), s, inv, env);
      if changed || rec.Some? {
        ghost var best := Promote(inv.stateId, inv.boundGeneration);
        AcceptedInvalidation(D(), s, inv, env, best);
      } else {
        AcceptedInvalidationWithout(D(), s, inv, env);
      }
      InvalidationIndexed(D(), s, inv, env, v, View());
    }

    method Invalidate(inv: InvalidationRecord, env: Envelope) returns (verdict: Verdict)
      requires Valid()
      modifies this, authority, indexes
      ensures Valid()
      ensures Core() == Transitions.Invalidate(D(), old(Core()), inv, env, None).state
      ensures verdict == InvalidationVerdict(old(Core()), inv, env)
      ensures Step(D(), old(Core()), InvalidateOp(inv, env), Core())
      ensures IndexStep(D(), old(Core()), InvalidateOp(inv, env), Core(), old(View()), View())
      ensures verdict == Accepted ==>
        env.coordinatorEpoch == old(authority.epoch) && env.workerBoot in old(authority.liveBoots)
    {
      hide Inv, Transitions.Invalidate, InvalidationVerdict, Step, IndexStep, HistorySets, OnceEach, DigestOf,
           I.SecondaryIndexes.View, I.SecondaryIndexes.Valid, CheckAuthority, Invalidates, Shape, CurrentIsBatch;
      ghost var s := Core();
      DigestIgnoresUnhashed(sha);
      InvalidateKeepsInv(D(), s, inv, env);
      InvHasShape(D(), s);
      InvalidationGuards(s, inv, env);
      if !Invalidates(s, inv, env) {
        RefusedInvalidation(D(), s, inv, env, View());
      }
      verdict := Fence(env);
      if verdict != Accepted {
        return;
      }
      // a stale invalidation must not reach fresher state
      var rec := Find(inv.stateId);
      if rec.Some? && rec.value.stateGeneration > inv.boundGeneration {
        return RejectedNonMonotonic;
      }
      ApplyInvalidation(inv, env);
      verdict := Accepted;
    }

    // -------- tombstone --------

    /** Amid burying: of the records before, those listed so far and covered by the floor are marked and re-indexed. */
    ghost predicate Burying(before: map<u64, StateRecord>, v: IndexView, ids: seq<u64>, floor: u64)
      reads this, indexes
    {
      && indexes.Valid() && records == MarkAll(D(), before, BelowFloor(before, ids, floor), TOMBSTONED)
      && Extends(v, records, BelowFloor(before, ids, floor), View())
    }

    /** The next listed record is marked if it is stored, at or below the floor and not yet tombstoned. */
    method BuryNext(ids: seq<u64>, i: nat, floor: u64, ghost before: map<u64, StateRecord>, ghost v: IndexView)
      requires i < |ids| && Burying(before, v, ids[..i], floor)
      requires forall id :: id in before ==> before[id].recordId == id
      modifies this`records, indexes
      ensures Burying(before, v, ids[..i + 1], floor)
    {
      hide Marked, MarkAll, Extends, Insert, Remove, DigestOf, I.SecondaryIndexes.View, I.SecondaryIndexes.Valid,
           BelowFloor;
      DigestIgnoresUnhashed(sha);
      BelowFloorOneMore(D(), before, ids, i, floor);
      var rec := Get(ids[i]);
      if rec.Some? && rec.value.stateGeneration <= floor && rec.value.lifecycle != TOMBSTONED {
        MarkAgain(D(), before, BelowFloor(before, ids[..i], floor), ids[i], TOMBSTONED);
        ghost var middle, mid := records, View();
        Mark(rec.value, TOMBSTONED);
        StoreExtends(v, middle, BelowFloor(before, ids[..i], floor), mid, Marked(D(), rec.value, TOMBSTONED), View());
      }
    }

    method BuryListed(ids: seq<u64>, floor: u64)
      requires indexes.Valid() && forall id :: id in records ==> records[id].recordId == id
      modifies this`records, indexes
      ensures indexes.Valid()
      ensures records == MarkAll(D(), old(records), BelowFloor(old(records), ids, floor), TOMBSTONED)
      ensures Extends(old(View()), records, BelowFloor(old(records), ids, floor), View())
    {
      hide MarkAll, Extends, DigestOf, I.SecondaryIndexes.View, I.SecondaryIndexes.Valid, BelowFloor;
      BelowFloorOfNone(records, floor);
      MarkNothing(D(), records, TOMBSTONED);
      ExtendsNothing(View(), records);
      assert ids[..0] == [];
      var i := 0;
      while i < |ids|
        invariant 0 <= i <= |ids| && Burying(old(records), old(View()), ids[..i], floor)
      {
        BuryNext(ids, i, floor, old(records), old(View()));
        i := i + 1;
      }
      assert ids[..|ids|] == ids;
    }

    /** Every record in the state's history at or below the floor becomes TOMBSTONED. */
    method Bury(state: u64, floor: u64)
      requires indexes.Valid() && OnceEach(history) && forall id :: id in records ==> records[id].recordId == id
      modifies this`records, this`history, indexes
      ensures indexes.Valid() && OnceEach(history)
      ensures Core() == Buried(D(), old(Core()), state, floor)
      ensures Extends(old(View()), records, TombstoneTargets(old(Core()), state, floor), View())
    {
      hide MarkAll, Extends, DigestOf, I.SecondaryIndexes.View, I.SecondaryIndexes.Valid, BelowFloor, HistorySets,
           OnceEach, TouchHistory, TombstoneTargets;
      FloorTargets(Core(), history, state, floor);
      TouchedHistory(history, state);
      var ids := if state in history then history[state] else [];
      history := history[state := ids];
      BuryListed(ids, floor);
    }

    method ApplyTombstone(t: TombstoneRecord)
      requires indexes.Valid() && OnceEach(history) && Shape(Core())
      modifies this, authority, indexes
      ensures indexes.Valid() && OnceEach(history)
      ensures Core() == Uncrowned(Buried(D(), Entombed(old(Core()), t), t.stateId, t.floorGeneration), t.stateId)
      ensures Extends(old(View()), records, TombstoneTargets(old(Core()), t.stateId, t.floorGeneration), View())
    {
      hide Shape, HistorySets, OnceEach, DigestOf, I.SecondaryIndexes.View, I.SecondaryIndexes.Valid, Buried,
           Entombed, Uncrowned, TombstoneTargets, Extends;
      ghost var s := Core();
      KeyedRecords(s);
      EntombedTargets(s, t);
      BuriedKeys(D(), s, t);
      Entomb(t);
      Bury(t.stateId, t.floorGeneration);
      Uncrown(t.stateId);
    }

    method Tombstone(t: TombstoneRecord, env: Envelope) returns (verdict: Verdict)
      requires Valid()
      modifies this, authority, indexes
      ensures indexes.Valid() && OnceEach(history)
      ensures Valid() <==> (Tombstones(old(Core()), t, env) ==> t.current)
      ensures Core() == Transitions.Tombstone(D(), old(Core()), t, env).state
      ensures verdict == Transitions.Tombstone(D(), old(Core()), t, env).verdict
      ensures IndexStep(D(), old(Core()), TombstoneOp(t, env), Core(), old(View()), View())
      ensures verdict == Accepted ==>
        env.coordinatorEpoch == old(authority.epoch) && env.workerBoot in old(authority.liveBoots)
    {
      hide Inv, Shape, Transitions.Tombstone, IndexStep, HistorySets, OnceEach, DigestOf, I.SecondaryIndexes.View,
           I.SecondaryIndexes.Valid, CheckAuthority, Buried, Entombed, Uncrowned, TombstoneTargets, Tombstones,
           Extends;
      ghost var s, v := Core(), View();
      DigestIgnoresUnhashed(sha);
      TombstoneKeepsInv(D(), s, t, env);
      InvHasShape(D(), s);
      TombstoneParts(D(), s, t, env);
      if !Tombstones(s, t, env) {
        RefusedTombstone(D(), s, t, env, v);
      }
      verdict := Fence(env);
      if verdict != Accepted {
        return;
      }
      var stamped := t.(coordinatorEpoch := env.coordinatorEpoch, workerBoot := env.workerBoot);
      if t.stateId in tombstones && tombstones[t.stateId].floorGeneration >= stamped.floorGeneration {
        return RejectedStaleBoot;
      }
      ApplyTombstone(stamped);
      StampedTargets(s, t, env);
      TombstoneIndexed(D(), s, t, env, v, View());
      verdict := Accepted;
    }

    method Entomb(t: TombstoneRecord)
      modifies this`tombstones, this`accounting, authority
      ensures Core() == Entombed(old(Core()), t)
    {
      tombstones := tombstones[t.stateId := t];
      authority.SetTombstoneFloor(t.stateId, t.floorGeneration);
      accounting := accounting.(tombstones := accounting.tombstones + 1);
    }

    /** Remove the state's current record if a tombstone covers it. */
    method Uncrown(state: u64)
      requires forall x :: x in current ==> current[x] in records
      modifies this`current, authority
      ensures Core() == Uncrowned(old(Core()), state)
    {
      hide HistorySets;
      if state in current {
        if IsTombstoned(state, records[current[state]].stateGeneration) {
          current := current - {state};
          authority.ClearCurrentAuthority(state);
        }
      }
    }

    // -------- Queries --------

    /** Candidate generation, in ascending order of record id. */
    method CandidateIds(q: Query) returns (ids: seq<u64>)
      requires indexes.Valid()
      ensures ids == AscendingOf(CandidateSet(View().ids, CatalogOf(Core()), q))
    {
      if q.stateId.Some? {
        ids := indexes.IdsWith(ByState(q.stateId.value));
      } else if q.kind.Some? {
        ids := indexes.IdsWith(ByKind(q.kind.value));
      } else {
        ids := CollectSorted(records.Keys);
      }
    }

    method Ask(q: Query, historical: bool) returns (a: Answer)
      requires Valid() && Keyed(CatalogOf(Core()))
      ensures a == AskIndexed(meaning, View().ids, CatalogOf(Core()), q, historical)
    {
      hide Inv, Answers.Ask, CandidateSet, HistorySets, Keyed;
      var ids := CandidateIds(q);
      a := RunQuery(meaning, Catalog(records, current, tombstones), q, historical, ids);
    }

    /** The answer of the planner over the indexes as they are. */
    method AnswerQuery(q: Query) returns (a: Answer)
      requires Valid()
      ensures Keyed(CatalogOf(Core()))
      ensures a == AskIndexed(meaning, View().ids, CatalogOf(Core()), q, false)
    {
      KeyedCatalog(D(), Core());
      a := Ask(q, false);
    }

    method AnswerHistorical(q: Query) returns (a: Answer)
      requires Valid()
      ensures Keyed(CatalogOf(Core()))
      ensures a == AskIndexed(meaning, View().ids, CatalogOf(Core()), q, true)
    {
      KeyedCatalog(D(), Core());
      a := Ask(q, true);
    }

    // -------- Consistency --------

    method CanonicalRecords() returns (rs: seq<StateRecord>)
      requires forall id :: id in records ==> records[id].recordId == id
      ensures rs == RecordsAt(records, AscendingOf(records.Keys)) && I.ListsRecords(rs, records)
    {
      hide I.ListsRecords, AscendingOf, Elements, Ascending;
      CanonicalListsAll(records);
      var ids := CollectSorted(records.Keys);
      rs := [];
      var i := 0;
      while i < |ids|
        invariant 0 <= i <= |ids| && |rs| == i && forall j :: 0 <= j < i ==> rs[j] == records[ids[j]]
      {
        rs := rs + [records[ids[i]]];
        i := i + 1;
      }
      assert rs == RecordsAt(records, ids);
    }

    method IndexVerification() returns (errors: seq<I.IndexError>)
      requires Valid()
      ensures errors == [] <==> Verified(View(), records)
    {
      hide Inv, Shape, Verified, I.ListsRecords, HistorySets, DigestOf, I.SecondaryIndexes.View;
      InvHasShape(D(), Core());
      KeyedRecords(Core());
      var canonical := CanonicalRecords();
      errors := indexes.Verify(canonical, records);
    }

    // -------- save --------

    /** The tombstones in whatever order the table yields them. */
    method ListTombstones() returns (ts: seq<TombstoneRecord>, ghost states: seq<u64>)
      ensures Lists(states, tombstones.Keys) && ts == TombstonesAt(tombstones, states)
    {
      ts, states := [], [];
      var left := tombstones.Keys;
      while left != {}
        invariant left <= tombstones.Keys && Lists(states, tombstones.Keys - left)
        invariant forall state :: state in states ==> state in tombstones
        invariant ts == TombstonesAt(tombstones, states)
        decreases left
      {
        var state :| state in left;
        ListedOneMore(states, tombstones.Keys - left, state);
        assert tombstones.Keys - (left - {state}) == tombstones.Keys - left + {state};
        ts := ts + [tombstones[state]];
        states := states + [state];
        left := left - {state};
      }
      assert tombstones.Keys - {} == tombstones.Keys;
    }

    method SavePayload() returns (payload: Bytes, ghost states: seq<u64>)
      requires Shape(Core())
      ensures Lists(states, tombstones.Keys) && payload == PutContents(SavedContents(Core(), states), [])
    {
      hide Shape, HistorySets, Lists, AscendingOf, RecordsAt, TombstonesAt, PutList, PutNumber, PutRecord,
           PutInvalidation, PutTombstone, PutAccounting, PutU64, I.ListsRecords;
      KeyedRecords(Core());
      var rs := CanonicalRecords();
      var ts;
      ts, states := ListTombstones();
      var w := new ByteWriter();
      w.PushNumber(|rs|, 8);
      SerializeRecords(rs, w);
      w.PushNumber(|invalidations|, 8);
      SerializeInvalidations(invalidations, w);
      w.PushNumber(|ts|, 8);
      SerializeTombstones(ts, w);
      w.PushU64(authority.epoch);
      w.PushU64(invalidationSeq);
      SerializeAccounting(accounting, w);
      payload := w.buf;
      NothingAround(payload, PutContents(SavedContents(Core(), states), []));
    }

    /** The image of the engine, its tombstones in some order. */
    method Save() returns (image: Bytes)
      requires Valid()
      ensures IsSavedImage(sha, Core(), image)
    {
      hide Inv, HistorySets, Lists, PutContents, PutImage;
      InvHasShape(D(), Core());
      var payload;
      ghost var states;
      payload, states := SavePayload();
      image := WriteImage(sha, payload);
      assert image == SavedImage(sha, Core(), states);
    }

    // -------- load --------

    /** The three checks on a record that was read. */
    method Admits(rec: StateRecord, seenIds: set<u64>, seenGenerations: set<(u64, u64)>, ghost rs: seq<StateRecord>)
      returns (ok: bool)
      requires Loadable(D(), rs) && seenIds == I.IdsOf(rs) && seenGenerations == GenerationsOf(rs)
      ensures ok <==> Loadable(D(), rs + [rec])
    {
      hide Loadable, GenerationsOf, I.IdsOf;
      LoadableOneMore(D(), rs, rec);
      if rec.recordId in seenIds {
        return false;
      }
      if (rec.stateId, rec.stateGeneration) in seenGenerations {
        return false;
      }
      var computed := ComputeSemanticDigest(sha, rec);
      ok := computed == rec.semanticDigest;
    }

    /** Amid reading n records from what start holds: rs are stored, k remain. */
    ghost predicate Reading(r: ByteReader, rs: seq<StateRecord>, seenIds: set<u64>, seenGenerations: set<(u64, u64)>,
                            k: nat, n: nat, start: Bytes)
      reads this, r
    {
      && r.Valid() && Loadable(D(), rs) && records == RecordTable(rs)
      && seenIds == I.IdsOf(rs) && seenGenerations == GenerationsOf(rs)
      && PendingRecords(rs, k, r.Rest()) == PendingRecords([], n, start)
    }

    /** Read and store one more record of the k that remain; or find that the whole list is refused. */
    method LoadRecord(r: ByteReader, seenIds: set<u64>, seenGenerations: set<(u64, u64)>, ghost rs: seq<StateRecord>,
                      ghost k: nat, ghost n: nat, ghost start: Bytes) returns (rec: Option<StateRecord>)
      requires Reading(r, rs, seenIds, seenGenerations, k, n, start) && k > 0
      modifies this`records, r`pos
      ensures r.Valid() && (rec.None? ==> records == RecordTable(rs))
      ensures rec.Some? ==>
        Reading(r, rs + [rec.value], seenIds + {rec.value.recordId},
                seenGenerations + {(rec.value.stateId, rec.value.stateGeneration)}, k - 1, n, start)
      ensures rec.None? ==> Loadable(D(), rs)
      ensures rec.None? ==> var all := PendingRecords([], n, start); all.None? || !Loadable(D(), all.value.0)
    {
      hide GetRecord, DigestOf, RecordTable, Loadable, PendingRecords, GenerationsOf, I.IdsOf;
      rec := DeserializeRecord(r);
      RecordStep(rs, k, old(r.Rest()), rec, r.Rest());
      if rec.None? {
        return;
      }
      var fits := Admits(rec.value, seenIds, seenGenerations, rs);
      if !fits {
        UnloadableStart(D(), rs + [rec.value], k - 1, r.Rest());
        return None;
      }
      LoadableOneMore(D(), rs, rec.value);
      records := records[rec.value.recordId := rec.value];
    }

    /** Read n records, refusing repeated ids, repeated generations and wrong digests; rs are those admitted. */
    method LoadListed(r: ByteReader, n: nat) returns (ok: bool, ghost rs: seq<StateRecord>)
      requires r.Valid() && records == map[]
      modifies this`records, r`pos
      ensures r.Valid()
      ensures var spec := PendingRecords([], n, old(r.Rest()));
        && (ok <==> spec.Some? && Loadable(D(), spec.value.0))
        && (ok ==> rs == spec.value.0 && r.Rest() == spec.value.1)
      ensures Loadable(D(), rs) && records == RecordTable(rs)
    {
      hide Reading, DigestOf, RecordTable, Loadable, PendingRecords, GenerationsOf, I.IdsOf;
      rs := [];
      var seenIds: set<u64>, seenGenerations: set<(u64, u64)> := {}, {};
      var i := 0;
      StartReading(r, n);
      while i < n
        invariant 0 <= i <= n && Reading(r, rs, seenIds, seenGenerations, n - i, n, old(r.Rest()))
      {
        var rec := LoadRecord(r, seenIds, seenGenerations, rs, n - i, n, old(r.Rest()));
        if rec.None? {
          return false, rs;
        }
        seenIds := seenIds + {rec.value.recordId};
        seenGenerations := seenGenerations + {(rec.value.stateId, rec.value.stateGeneration)};
        rs := rs + [rec.value];
        i := i + 1;
      }
      EndReading(r, rs, seenIds, seenGenerations, n, old(r.Rest()));
      ok := true;
    }

    lemma StartReading(r: ByteReader, n: nat)
      requires r.Valid() && records == map[]
      ensures Reading(r, [], {}, {}, n, n, r.Rest())
    {
      hide DigestOf, Loadable, RecordTable, PendingRecords, GenerationsOf, I.IdsOf;
      NothingLoaded(D());
    }

    lemma EndReading(r: ByteReader, rs: seq<StateRecord>, seenIds: set<u64>, seenGenerations: set<(u64, u64)>, n: nat,
                     start: Bytes)
      requires Reading(r, rs, seenIds, seenGenerations, 0, n, start)
      ensures r.Valid() && Loadable(D(), rs) && records == RecordTable(rs)
      ensures PendingRecords([], n, start) == Some((rs, r.Rest()))
    {
      hide DigestOf, Loadable, RecordTable, PendingRecords, GenerationsOf, I.IdsOf;
      NoMoreRecords(rs, r.Rest());
    }

    method LoadRecords(r: ByteReader) returns (ok: bool, ghost rs: seq<StateRecord>)
      requires r.Valid() && records == map[]
      modifies this`records, r`pos
      ensures r.Valid()
      ensures var spec := GetBounded(GetRecord, MAX_RECORDS, old(r.Rest()));
        && (ok <==> spec.Some? && Loadable(D(), spec.value.0))
        && (ok ==> rs == spec.value.0 && r.Rest() == spec.value.1)
      ensures Loadable(D(), rs) && records == RecordTable(rs)
    {
      hide GetU64, GetRecord, GetList, DigestOf, RecordTable, Loadable, PendingRecords;
      NothingLoaded(D());
      var n := r.ReadU64();
      if n.None? || n.value > MAX_RECORDS {
        return false, [];
      }
      RecordsFromStart(n.value, r.Rest());
      ok, rs := LoadListed(r, n.value);
    }

    method RebuildHistory()
      modifies this`history
      ensures OnceEach(history) && HistorySets(history) == RebuiltHistory(records)
    {
      hide RebuiltHistory, HistorySets, OnceEach, PushHistory;
      history := map[];
      ghost var done: map<u64, StateRecord> := map[];
      NoHistory();
      var left := records.Keys;
      while left != {}
        invariant left <= records.Keys && done.Keys == records.Keys - left
        invariant forall id :: id in done ==> done[id] == records[id]
        invariant OnceEach(history) && HistorySets(history) == RebuiltHistory(done)
        decreases left
      {
        var id :| id in left;
        var state := records[id].stateId;
        NotYetListed(done, history, state, id);
        RebuiltOneMore(done, id, records[id]);
        PushedHistory(history, state, id);
        history := history[state := (if state in history then history[state] else []) + [id]];
        done := done[id := records[id]];
        left := left - {id};
      }
      assert done == records;
    }

    method LoadInvalidations(r: ByteReader) returns (ok: bool)
      requires r.Valid() && invalidations == []
      modifies this`invalidations, r`pos
      ensures r.Valid()
      ensures var spec := GetBounded(GetInvalidation, MAX_RECORDS, old(r.Rest()));
        && (ok <==> spec.Some?) && (ok ==> invalidations == spec.value.0 && r.Rest() == spec.value.1)
    {
      hide GetU64, GetInvalidation, GetList, Pending;
      var n := r.ReadU64();
      if n.None? || n.value > MAX_RECORDS {
        return false;
      }
      ghost var start := r.Rest();
      var i := 0;
      while i < n.value
        invariant 0 <= i <= n.value && r.Valid()
        invariant Pending(GetInvalidation, invalidations, n.value - i, r.Rest())
          == Pending(GetInvalidation, [], n.value, start)
      {
        ghost var before := r.Rest();
        var inv := DeserializeInvalidation(r);
        PendingStep(GetInvalidation, invalidations, n.value - i, before, inv, r.Rest());
        if inv.None? {
          PendingEnds(GetInvalidation, [], n.value, start);
          return false;
        }
        invalidations := invalidations + [inv.value];
        i := i + 1;
      }
      PendingEnds(GetInvalidation, invalidations, n.value, start);
      PendingEnds(GetInvalidation, invalidations, 0, r.Rest());
      ok := true;
    }

    method LoadTombstones(r: ByteReader) returns (ok: bool)
      requires r.Valid() && tombstones == map[]
      modifies this`tombstones, r`pos
      ensures r.Valid()
      ensures var spec := GetBounded(GetTombstone, MAX_RECORDS, old(r.Rest()));
        && (ok <==> spec.Some?) && (ok ==> tombstones == TombstoneTable(spec.value.0) && r.Rest() == spec.value.1)
    {
      hide GetU64, GetTombstone, GetList, Pending, TombstoneRecord.Covers;
      var n := r.ReadU64();
      if n.None? || n.value > MAX_RECORDS {
        return false;
      }
      ghost var start, ts := r.Rest(), [];
      var i := 0;
      while i < n.value
        invariant 0 <= i <= n.value && r.Valid() && tombstones == TombstoneTable(ts)
        invariant Pending(GetTombstone, ts, n.value - i, r.Rest()) == Pending(GetTombstone, [], n.value, start)
      {
        ghost var before := r.Rest();
        var t := DeserializeTombstone(r);
        PendingStep(GetTombstone, ts, n.value - i, before, t, r.Rest());
        if t.None? {
          PendingEnds(GetTombstone, [], n.value, start);
          return false;
        }
        tombstones := tombstones[t.value.stateId := t.value];
        assert (ts + [t.value])[..|ts|] == ts;
        ts := ts + [t.value];
        i := i + 1;
      }
      PendingEnds(GetTombstone, ts, n.value, start);
      PendingEnds(GetTombstone, ts, 0, r.Rest());
      ok := true;
    }

    // -------- recovery --------

    /** Process-local memory must be revalidated and process handles are gone; a record that changed is
        sealed again. */
    method RevalidateRecord(rec: StateRecord) returns (u: StateRecord)
      requires rec.Persisted() == rec
      ensures u == Revalidated(D(), rec) && LocationsSurvive(rec.locations, u.locations)
    {
      hide DigestOf, LocationsSurvive, RecoveredLocations, Revalidated, StateRecord.Persisted, StateLocation.Persisted;
      AlreadyPersisted(rec);
      RevalidatedKeepsLocations(D(), rec);
      RevalidatedForm(D(), rec);
      var ls, changed := RevalidateLocations(rec.locations);
      u := rec.(locations := ls);
      if changed {
        u := Seal(u);
      }
    }

    method Revalidate()
      requires AllPersisted(records)
      modifies this`records
      ensures records == RevalidatedTable(D(), old(records))
    {
      hide Revalidated, RevalidatedTable, DigestOf, StateRecord.Persisted, AllPersisted;
      var left := records.Keys;
      while left != {}
        invariant left <= old(records).Keys && records.Keys == old(records).Keys
        invariant forall id :: id in records ==>
          records[id] == if id in left then old(records)[id] else Revalidated(D(), old(records)[id])
        decreases left
      {
        var id :| id in left;
        PersistedAt(old(records), id);
        var u := RevalidateRecord(records[id]);
        records := records[id := u];
        left := left - {id};
      }
      RevalidatedPointwise(D(), old(records), records);
    }

    /** Recompute the current map from nothing, in whatever order the table yields its records. */
    method RecomputeCurrent()
      requires forall id :: id in records ==> records[id].recordId == id
      modifies this`current, this`records
      ensures IsBatchCurrent(old(records), tombstones, current)
      ensures records == HistoricalTable(old(records), current)
    {
      hide IsBatchCurrent, WithHistorical;
      ScanRecords();
      ghost var found := current;
      var left := records.Keys;
      while left != {}
        invariant left <= old(records).Keys && records.Keys == old(records).Keys && current == found
        invariant forall id :: id in records ==>
          records[id] == if id in left then old(records)[id] else WithHistorical(old(records)[id], current)
        decreases left
      {
        var id :| id in left;
        records := records[id := WithHistorical(records[id], current)];
        left := left - {id};
      }
    }

    method ScanRecords()
      requires forall id :: id in records ==> records[id].recordId == id
      modifies this`current
      ensures IsBatchCurrent(records, tombstones, current)
    {
      hide IsBatchCurrent, EligibleRecord;
      current := map[];
      var maxGen: map<u64, u64> := map[];
      ghost var done: map<u64, StateRecord> := map[];
      NothingScanned(tombstones);
      var left := records.Keys;
      while left != {}
        invariant left <= records.Keys && done.Keys == records.Keys - left
        invariant forall id :: id in done ==> done[id] == records[id]
        invariant IsBatchCurrent(done, tombstones, current) && maxGen.Keys == current.Keys
        invariant forall state :: state in current ==>
          current[state] in done && maxGen[state] == done[current[state]].stateGeneration
        decreases left
      {
        var id :| id in left;
        var rec := records[id];
        ScannedOneMore(done, tombstones, current, rec);
        EligibleMeans(tombstones, rec);
        if !rec.Terminal() && !IsTombstoned(rec.stateId, rec.stateGeneration) {
          if rec.stateId !in maxGen || rec.stateGeneration > maxGen[rec.stateId] {
            maxGen := maxGen[rec.stateId := rec.stateGeneration];
            current := current[rec.stateId := rec.recordId];
          }
        }
        done := done[id := rec];
        left := left - {id};
      }
      assert done == records;
    }

    /** Everything after the records: invalidations, tombstones, epoch and counters. */
    method LoadLedgers(r: ByteReader, ghost rs: seq<StateRecord>) returns (ok: bool)
      requires r.Valid() && invalidations == [] && tombstones == map[]
      modifies this`invalidations, this`tombstones, this`invalidationSeq, this`accounting, authority, r`pos
      ensures r.Valid()
      ensures var spec := GetLedgers(rs, old(r.Rest()));
        && (ok <==> spec.Some?)
        && (ok ==>
              && invalidations == spec.value.0.invalidations && tombstones == TombstoneTable(spec.value.0.tombstones)
              && authority.View() == old(authority.View()).Reset(spec.value.0.epoch)
              && invalidationSeq == spec.value.0.invalidationSeq && accounting == spec.value.0.accounting)
      ensures SameFences(old(authority.View()), authority.View())
    {
      hide GetBounded, GetU64, GetAccounting, TombstoneTable;
      ok := LoadInvalidations(r);
      if !ok {
        return;
      }
      ok := LoadTombstones(r);
      if !ok {
        return;
      }
      authority.ClearLiveWorkers();
      var epoch := r.ReadU64();
      if epoch.None? {
        return false;
      }
      authority.SetEpoch(epoch.value);
      var number := r.ReadU64();
      if number.None? {
        return false;
      }
      invalidationSeq := number.value;
      var counters := DeserializeAccounting(r);
      if counters.None? {
        return false;
      }
      accounting := counters.value;
    }

    /** Rebuild the indexes, revalidate, and recompute the current map. */
    method Restore()
      requires AllPersisted(records) && forall id :: id in records ==> records[id].recordId == id
      modifies this`records, this`current, indexes
      ensures IsBatchCurrent(RevalidatedTable(D(), old(records)), tombstones, current)
      ensures records == HistoricalTable(RevalidatedTable(D(), old(records)), current)
      ensures forall id :: id in old(records) ==>
        id in records && LocationsSurvive(old(records)[id].locations, records[id].locations)
      ensures indexes.Valid() && Extends(EMPTY_INDEX, old(records), old(records).Keys, View())
      ensures I.LatestOwns(View().owner, old(records))
    {
      hide LocationsSurvive, AllPersisted, IsBatchCurrent, RevalidatedTable, HistoricalTable, Extends,
           I.LatestOwns, I.ListsRecords,
           DigestOf, I.SecondaryIndexes.View, I.SecondaryIndexes.Valid;
      var canonical := CanonicalRecords();
      indexes.Rebuild(canonical, records);
      RevalidatedKeyed(D(), records);
      Revalidate();
      RecomputeCurrent();
      TableSurvives(D(), old(records), current);
    }

    method ClearTables()
      modifies this
      ensures records == map[] && current == map[] && history == map[] && tombstones == map[] && invalidations == []
    {
      records, current, history, tombstones := map[], map[], map[], map[];
      invalidations, invalidationSeq, accounting := [], 0, NO_ACCOUNTING;
    }

    /** Records and histories from the front of the payload. */
    method LoadHistory(r: ByteReader) returns (ok: bool)
      requires r.Valid() && records == map[]
      modifies this`records, this`history, r`pos
      ensures r.Valid()
      ensures var spec := GetBounded(GetRecord, MAX_RECORDS, old(r.Rest()));
        && (ok <==> spec.Some? && Loadable(D(), spec.value.0))
        && (ok ==>
              && records == RecordTable(spec.value.0) && r.Rest() == spec.value.1 && AllPersisted(records)
              && OnceEach(history) && HistorySets(history) == RebuiltHistory(records))
      ensures Admitted(D(), records) && (!ok ==> history == old(history))
    {
      hide GetBounded, DigestOf, AllPersisted, Loadable, RecordTable, HistorySets, RebuiltHistory, OnceEach, Admitted;
      ReadTablePersisted(D(), r.Rest());
      ghost var rs;
      ok, rs := LoadRecords(r);
      LoadableIsAdmitted(D(), rs);
      if ok {
        RebuildHistory();
      }
    }

    /** What a refused image leaves behind: the records admitted before the refusal, no current map, and either no
        histories or the rebuilt ones. */
    ghost predicate HalfLoaded()
      reads this
    {
      current == map[] && Admitted(D(), records)
      && (history == map[] || HistorySets(history) == RebuiltHistory(records))
    }

    /** Fill every table from the payload, leaving the current map empty. */
    method LoadTables(payload: Bytes) returns (ok: bool)
      modifies this, authority
      ensures ok <==> ReadContents(D(), payload).Some?
      ensures ok ==>
        var c := ReadContents(D(), payload).value;
        && OnceEach(history) && AllPersisted(records) && Loadable(D(), c.records)
        && Core() == Rebuilt(c, map[]).(authority := old(authority.View()).Reset(c.epoch))
      ensures !ok ==> HalfLoaded() && SameFences(old(authority.View()), authority.View())
    {
      hide GetBounded, GetLedgers, DigestOf, AllPersisted, Loadable, RecordTable, TombstoneTable, HistorySets,
           RebuiltHistory, OnceEach, ReadContents, Rebuilt, Admitted;
      ContentsParts(D(), payload);
      ghost var spec := GetBounded(GetRecord, MAX_RECORDS, payload);
      var r := new ByteReader(payload);
      ClearTables();
      ok := LoadHistory(r);
      if ok {
        ok := LoadLedgers(r, spec.value.0);
        if ok {
          RebuiltFrom(ReadContents(D(), payload).value, old(authority.View()), Core());
        }
      }
    }

    method LoadPayload(payload: Bytes) returns (ok: bool)
      modifies this, authority, indexes
      ensures ok <==> ReadContents(D(), payload).Some?
      ensures ok ==>
        && Loadable(D(), ReadContents(D(), payload).value.records)
        && Loads(D(), ReadContents(D(), payload).value, old(authority.View()), Core())
        && indexes.Valid() && OnceEach(history)
        && Extends(EMPTY_INDEX, records, records.Keys, View()) && I.LatestOwns(View().owner, records)
      ensures !ok ==>
        HalfLoaded() && SameFences(old(authority.View()), authority.View()) && View() == old(View())
    {
      hide ReadContents, DigestOf, AllPersisted, IsBatchCurrent, RevalidatedTable, HistoricalTable, Extends,
           I.LatestOwns, I.SecondaryIndexes.View, I.SecondaryIndexes.Valid, Loadable, RecordTable, TombstoneTable,
           HistorySets, RebuiltHistory, OnceEach, Loads, HalfLoaded, SameFences;
      ok := LoadTables(payload);
      if !ok {
        return;
      }
      ghost var c := ReadContents(D(), payload).value;
      TableKeyed(D(), c.records);
      Restore();
      LoadedForm(D(), c, old(authority.View()), Core());
      IndexesAfterRecovery(D(), RecordTable(c.records), current, View());
    }

    /** Load an image: check it, replace every table with what it holds, and recover. */
    method Load(bytes: Bytes) returns (ok: bool)
      modifies this, authority, indexes
      ensures ok <==> ReadImage(sha, bytes).Ok?
      ensures ok ==> Loads(D(), ReadImage(sha, bytes).value, old(authority.View()), Core())
      ensures ok ==> LoadedFrom(D(), ReadImage(sha, bytes).value, old(authority.View()), Core())
      ensures ok ==> Shape(Core()) && CurrentIsBatch(Core()) && DigestsMatch(D(), Core())
      ensures ok && GenerationsSet(Core()) && TombstonesCurrent(Core()) && CounterCovers(Core()) ==> Valid()
      ensures ok ==> Extends(EMPTY_INDEX, records, records.Keys, View()) && I.LatestOwns(View().owner, records)
      ensures OpenImage(sha, bytes).Err? ==> Core() == old(Core()) && View() == old(View())
      ensures OpenImage(sha, bytes).Ok? && !ok ==>
        HalfLoaded() && SameFences(old(authority.View()), authority.View()) && View() == old(View())
    {
      hide LoadedFrom, HalfLoaded, SameFences, OpenImage, ReadContents, DigestOf, Shape, CurrentIsBatch, DigestsMatch,
           GenerationsSet, TombstonesCurrent, CounterCovers, Inv, Extends, I.LatestOwns, I.SecondaryIndexes.View,
           I.SecondaryIndexes.Valid, Loadable, HistorySets, OnceEach, Loads;
      var payload := ReadEnvelope(sha, bytes);
      if payload.Err? {
        return false;
      }
      ok := LoadPayload(payload.value);
      if ok {
        ghost var c := ReadImage(sha, bytes).value;
        DigestIgnoresUnhashed(sha);
        LoadMeaning(D(), c, old(authority.View()), Core());
        LoadedIsConsistent(sha, c, old(authority.View()), Core());
        LoadedSoundly(sha, c, old(authority.View()), Core());
      }
    }

    /** Loading the image of a sound state within the loader's bounds, with one record per generation,
        succeeds and makes the engine the recovered form of that state. */
    method LoadSaved(image: Bytes, ghost s: EngineState, ghost states: seq<u64>)
      requires Lists(states, s.tombstones.Keys) && image == SavedImage(sha, s, states)
      requires Inv(D(), s) && FitsImage(s) && UniqueGenerations(s.records)
      modifies this, authority, indexes
      ensures Valid() && Core() == Recovered(D(), s, old(authority.View()))
      ensures EngineSurvives(D(), s, old(authority.View()), Core())
      ensures Extends(EMPTY_INDEX, records, records.Keys, View())
    {
      hide LoadedFrom, EngineSurvives, Inv, FitsImage, UniqueGenerations, Lists, SavedImage, ReadImage, Recovered,
           Loads, Extends, DigestOf, HistorySets, OnceEach, I.SecondaryIndexes.View, I.SecondaryIndexes.Valid,
           I.LatestOwns, Shape, CurrentIsBatch, DigestsMatch, GenerationsSet, TombstonesCurrent,
           CounterCovers, OpenImage;
      ghost var registry := authority.View();
      SavedIsReadable(sha, s, states);
      RecoveredParts(sha, s, registry);
      var ok := Load(image);
      LoadIsUnique(sha, s, states, registry, Core());
      DigestIgnoresUnhashed(sha);
      RecoveryMeaning(D(), s, registry);
    }
  }

  /** Save one engine and load the image into another, or the same. */
  method SaveAndLoad(source: StateIndexEngine, target: StateIndexEngine)
    requires source.Valid() && source.sha == target.sha
    requires FitsImage(source.Core()) && UniqueGenerations(source.records)
    modifies target, target.authority, target.indexes
    ensures target.Valid()
    ensures target.Core() == Recovered(target.D(), old(source.Core()), old(target.authority.View()))
    ensures EngineSurvives(target.D(), old(source.Core()), old(target.authority.View()), target.Core())
    ensures Extends(EMPTY_INDEX, target.records, target.records.Keys, target.View())
  {
    hide *;
    ghost var s := source.Core();
    SoundParts(source);
    DigestUsed(target);
    var image := source.Save();
    assert source.Core() == s;
    ghost var states := OrderOf(source.sha, s, image);
    target.LoadSaved(image, s, states);
  }

  method RevalidateLocation(l: StateLocation) returns (u: StateLocation, changed: bool)
    requires l.Persisted() == l
    ensures u == RecoveredLocation(l) && (changed <==> u != l)
  {
    u, changed := l, false;
    if l.ProcessLocal() && l.freshness != REVALIDATION_REQUIRED {
      u := l.(freshness := REVALIDATION_REQUIRED);
      changed := true;
    }
    if l.processHandle.Some? {
      // what is read back from an image has no process handle to reset
      assert false;
    }
  }

  method RevalidateLocations(ls: seq<StateLocation>) returns (out: seq<StateLocation>, changed: bool)
    requires forall l :: l in ls ==> l.Persisted() == l
    ensures out == RecoveredLocations(ls) && (changed <==> out != ls)
  {
    hide RecoveredLocation, StateLocation.Persisted;
    out, changed := ls, false;
    var i := 0;
    while i < |ls|
      invariant 0 <= i <= |ls| == |out|
      invariant forall j :: 0 <= j < |ls| ==> out[j] == if j < i then RecoveredLocation(ls[j]) else ls[j]
      invariant changed <==> exists j :: 0 <= j < i && out[j] != ls[j]
    {
      var l, altered := RevalidateLocation(ls[i]);
      assert altered ==> l != ls[i];
      changed := changed || altered;
      out := out[i := l];
      i := i + 1;
    }
    if !changed {
      assert out == ls;
    }
  }

  lemma SoundParts(e: StateIndexEngine)
    requires e.Valid()
    ensures e.D() == DigestOf(e.sha) && Inv(DigestOf(e.sha), e.Core()) && e.Core().records == e.records
  {
    hide Inv, DigestOf, HistorySets, OnceEach, I.SecondaryIndexes.Valid;
  }

  lemma DigestUsed(e: StateIndexEngine)
    ensures e.D() == DigestOf(e.sha)
  {
    hide DigestOf;
  }
}
