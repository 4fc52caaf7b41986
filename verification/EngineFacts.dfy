/** Facts about values that the engine's methods need: history lists as sets, marking one record at a
    time, and the indexes while a loop changes records. */
module EngineFacts {
  import opened Basics
  import opened Model
  import opened Authority
  import opened Transitions
  import opened Invariants
  import opened Retirement
  import opened Sorting
  import opened Indexes
  import opened Runs
  import opened IndexRuns
  import opened Persistence
  import opened Planner
  import opened Answers
  import opened SecondaryIndexes

  // -------- Histories --------

  function HistorySets(history: map<u64, seq<u64>>): map<u64, set<u64>> {
    map state | state in history :: Elements(history[state])
  }

  /** Every history lists each of its records once. */
  ghost predicate OnceEach(history: map<u64, seq<u64>>) {
    forall state :: state in history ==> NoDuplicates(history[state])
  }

  function HistoryList(history: map<u64, seq<u64>>, state: u64): seq<u64> {
    if state in history then history[state] else []
  }

  lemma UpdatedHistory(history: map<u64, seq<u64>>, state: u64, list: seq<u64>)
    ensures HistorySets(history[state := list]) == HistorySets(history)[state := Elements(list)]
  {
    var left, right := HistorySets(history[state := list]), HistorySets(history)[state := Elements(list)];
    assert left.Keys == right.Keys;
    assert forall x :: x in left ==> left[x] == right[x];
  }

  lemma ListElements(history: map<u64, seq<u64>>, state: u64)
    ensures Elements(HistoryList(history, state))
         == if state in HistorySets(history) then HistorySets(history)[state] else {}
  {
    assert Elements<u64>([]) == {};
  }

  lemma PushedHistory(history: map<u64, seq<u64>>, state: u64, id: u64)
    ensures HistorySets(history[state := HistoryList(history, state) + [id]])
      == PushHistory(HistorySets(history), state, id)
    ensures OnceEach(history) && id !in HistoryList(history, state) ==>
      OnceEach(history[state := HistoryList(history, state) + [id]])
  {
    UpdatedHistory(history, state, HistoryList(history, state) + [id]);
    ElementsOfLonger(HistoryList(history, state), id);
    ListElements(history, state);
  }

  lemma TouchedHistory(history: map<u64, seq<u64>>, state: u64)
    ensures HistorySets(history[state := HistoryList(history, state)]) == TouchHistory(HistorySets(history), state)
    ensures OnceEach(history) ==> OnceEach(history[state := HistoryList(history, state)])
  {
    UpdatedHistory(history, state, HistoryList(history, state));
    ListElements(history, state);
    if state in history {
      assert history[state := history[state]] == history;
    }
  }

  /** A record that is not stored is in no history. */
  lemma NewInHistory(s: EngineState, history: map<u64, seq<u64>>, r: StateRecord)
    requires Shape(s) && s.history == HistorySets(history) && r.recordId !in s.records
    ensures r.recordId !in HistoryList(history, r.stateId)
  {
    ListElements(history, r.stateId);
    assert r.recordId !in HistoryOf(s, r.stateId);
    assert r.recordId !in Elements(HistoryList(history, r.stateId));
  }

  lemma InvHasShape(D: Digest, s: EngineState)
    requires Inv(D, s)
    ensures Shape(s) && CurrentIsBatch(s)
  {
    hide Shape, IsBatchCurrent;
  }

  lemma KeyedRecords(s: EngineState)
    requires Shape(s)
    ensures forall id :: id in s.records ==> s.records[id].recordId == id
  {
  }

  // -------- Marking one record at a time --------

  lemma MarkNothing(D: Digest, records: map<u64, StateRecord>, lifecycle: u8)
    ensures MarkAll(D, records, {}, lifecycle) == records
  {
  }

  lemma MarkOneMore(D: Digest, records: map<u64, StateRecord>, ids: set<u64>, id: u64, lifecycle: u8)
    requires id in records
    ensures MarkAll(D, records, ids + {id}, lifecycle)
      == MarkAll(D, records, ids, lifecycle)[id := Marked(D, records[id], lifecycle)]
  {
    hide Marked;
  }

  // -------- Indexes while records change --------

  /** A record is taken out of the indexes in its new form and inserted again. */
  lemma StoreExtends(before: IndexView, records: map<u64, StateRecord>, touched: set<u64>, mid: IndexView,
                     u: StateRecord, after: IndexView)
    requires Extends(before, records, touched, mid)
    requires u.recordId !in touched || (u.recordId in records && records[u.recordId] == u)
    requires after == Insert(Remove(mid, u), u) || after == Insert(mid, u)
    ensures Extends(before, records[u.recordId := u], touched + {u.recordId}, after)
  {
    hide Extends, Insert, Remove;
    var changed := records[u.recordId := u];
    ExtendsReadsTouched(before, records, changed, touched, mid);
    ExtendsOneMore(before, changed, touched, mid, u.recordId, after);
  }

  lemma IndexStepOf(D: Digest, s: EngineState, op: Op, t: EngineState, v: IndexView, w: IndexView)
    requires !op.RecoverOp? && Extends(v, t.records, Touched(D, s, op), w)
    ensures IndexStep(D, s, op, t, v, w)
  {
    hide Touched, Extends;
  }

  /** The guards of a publication, in order. */
  lemma PublicationGuards(D: Digest, s: EngineState, rec: StateRecord, env: Envelope)
    ensures
      var o, v := RegisterState(D, s, rec, env), s.authority.Validate(rec.stateId, env, rec.stateGeneration);
      if v != Accepted then
        o == Outcome(s.(accounting := if v == RejectedDuplicate then CountDuplicate(s.accounting)
                                      else CountStale(s.accounting)), v)
      else if rec.recordId in s.records then
        o == Outcome(s.(accounting := CountDuplicate(s.accounting)), RejectedDuplicate)
      else if Tombstoned(s.tombstones, rec.stateId, rec.stateGeneration) then
        o == Outcome(s.(accounting := CountStale(s.accounting)), RejectedTombstoned)
      else rec.stateGeneration != 0 && Publishes(D, s, rec, env) && o.verdict == Accepted
    ensures s.authority.Validate(rec.stateId, env, rec.stateGeneration) == Accepted ==> rec.stateGeneration != 0
    ensures Publishes(D, s, rec, env) <==> RegisterState(D, s, rec, env).verdict == Accepted
  {
    hide Tombstoned, Published, SetCurrent, CountPublished;
  }

  /** A refused publication touches no record. */
  lemma RefusalIsQuiet(D: Digest, s: EngineState, rec: StateRecord, env: Envelope, v: IndexView)
    requires !Publishes(D, s, rec, env)
    ensures IndexStep(D, s, RegisterStateOp(rec, env), RegisterState(D, s, rec, env).state, v, v)
  {
    hide Publishes, Extends;
    var t := RegisterState(D, s, rec, env).state;
    ExtendsNothing(v, t.records);
  }

  lemma PublicationTouches(D: Digest, s: EngineState, rec: StateRecord, env: Envelope)
    requires Publishes(D, s, rec, env)
    ensures Touched(D, s, RegisterStateOp(rec, env))
         == {rec.recordId} + if Supersedes(s, rec) then {s.current[rec.stateId]} else {}
  {
    hide Publishes;
  }

  lemma SupersededKeyed(s: EngineState, rec: StateRecord)
    requires Shape(s) && Supersedes(s, rec)
    ensures rec.stateId in s.current && s.current[rec.stateId] in s.records
    ensures s.records[s.current[rec.stateId]].recordId == s.current[rec.stateId]
  {
  }

  lemma PublishedId(D: Digest, rec: StateRecord, env: Envelope)
    ensures Published(D, rec, env).recordId == rec.recordId && Published(D, rec, env).stateId == rec.stateId
    ensures Published(D, rec, env).stateGeneration == rec.stateGeneration
    ensures Published(D, rec, env).authorityBoot == env.workerBoot
  {
  }

  lemma MarkedId(D: Digest, rec: StateRecord, lifecycle: u8)
    ensures Marked(D, rec, lifecycle).recordId == rec.recordId
  {
  }

  /** Storing a new record does not change which one it supersedes. */
  lemma SupersessionSeen(s: EngineState, r: StateRecord)
    requires Shape(s) && r.recordId !in s.records
    ensures r.stateId in s.current ==> s.current[r.stateId] != r.recordId && s.current[r.stateId] in s.records
  {
  }

  /** The indexes after a publication: the new record inserted, then the one it supersedes re-indexed. */
  lemma PublicationExtends(D: Digest, s: EngineState, rec: StateRecord, env: Envelope, v: IndexView, w: IndexView)
    requires Shape(s) && Publishes(D, s, rec, env)
    requires var mid := Insert(v, Published(D, rec, env));
      w == if Supersedes(s, rec) then
             (var m := Marked(D, s.records[s.current[rec.stateId]], SUPERSEDED); Insert(Remove(mid, m), m))
           else mid
    ensures Extends(v, RegisterState(D, s, rec, env).state.records, Touched(D, s, RegisterStateOp(rec, env)), w)
  {
    hide *;
    RegisterEffect(D, s, rec, env);
    PublicationTouches(D, s, rec, env);
    PublishedId(D, rec, env);
    var r := Published(D, rec, env);
    var mid := Insert(v, r);
    ExtendsNothing(v, s.records);
    StoreExtends(v, s.records, {}, v, r, mid);
    assert {} + {r.recordId} == {rec.recordId} && {rec.recordId} + {} == {rec.recordId};
    if Supersedes(s, rec) {
      SupersededKeyed(s, rec);
      var m := Marked(D, s.records[s.current[rec.stateId]], SUPERSEDED);
      MarkedId(D, s.records[s.current[rec.stateId]], SUPERSEDED);
      StoreExtends(v, s.records[r.recordId := r], {r.recordId}, mid, m, w);
    }
  }

  // -------- Locations --------

  lemma {:induction false} CountMeaning(ls: seq<StateLocation>, placement: u64)
    ensures CountPlacement(ls, placement) > 0 <==> exists j :: 0 <= j < |ls| && ls[j].placementId == placement
    decreases |ls|
  {
    if ls != [] {
      CountMeaning(ls[..|ls| - 1], placement);
    }
  }

  lemma CountOfNone(placement: u64)
    ensures CountPlacement([], placement) == 0
  {
  }

  lemma MergedFrom(ls: seq<StateLocation>, loc: StateLocation, locs: seq<StateLocation>)
    requires |locs| == |ls|
    requires forall j :: 0 <= j < |ls| ==> locs[j] == if ls[j].placementId == loc.placementId then loc else ls[j]
    ensures Merged(ls, loc) == if CountPlacement(ls, loc.placementId) == 0 then locs + [loc] else locs
  {
    hide CountPlacement;
    assert locs == ReplacePlacement(ls, loc);
    assert locs + [] == locs;
  }

  lemma CountOneMore(ls: seq<StateLocation>, i: nat, placement: u64)
    requires i < |ls|
    ensures CountPlacement(ls[..i + 1], placement)
         == CountPlacement(ls[..i], placement) + if ls[i].placementId == placement then 1 else 0
    ensures DropPlacement(ls[..i + 1], placement)
         == DropPlacement(ls[..i], placement) + if ls[i].placementId == placement then [] else [ls[i]]
  {
    assert ls[..i + 1][..i] == ls[..i];
  }

  lemma DomainsOneMore(ls: seq<StateLocation>, i: nat, domains: set<u8>)
    requires i < |ls|
    ensures CountDomains(ls[..i + 1], domains)
         == CountDomains(ls[..i], domains) + if ls[i].domain in domains then 1 else 0
  {
    assert ls[..i + 1][..i] == ls[..i];
  }

  /** The guards of a location step, and its effect when they pass. */
  lemma AdditionGuards(D: Digest, s: EngineState, state: u64, loc: StateLocation, env: Envelope)
    ensures
      var o, check, found := AddLocation(D, s, state, loc, env), CheckAuthority(s, env), FindState(s, state);
      if check != Accepted then o == Outcome(s, check)
      else if found.None? then o == Outcome(s, RejectedNotLive)
      else if RegressesLocation(found.value.locations, loc, env) then o == Outcome(s, RejectedGenerationRegression)
      else
        var rec, stamped := found.value, StampLocation(loc, env);
        o == Outcome(s.(records := s.records[rec.recordId := WithLocations(D, rec, Merged(rec.locations, stamped))],
                        accounting := CountMerged(s.accounting, rec.locations, stamped.placementId)), Accepted)
  {
    hide StampLocation, WithLocations, RegressesLocation, ReplacePlacement, CountPlacement, FindState, CheckAuthority;
  }

  lemma RemovalGuards(D: Digest, s: EngineState, state: u64, placement: u64, env: Envelope)
    ensures
      var o, check, found := RemoveLocation(D, s, state, placement, env), CheckAuthority(s, env), FindState(s, state);
      if check != Accepted then o == Outcome(s, check)
      else if found.None? then o == Outcome(s, RejectedNotLive)
      else if CountPlacement(found.value.locations, placement) == 0 then o == Outcome(s, Accepted)
      else
        var rec := found.value;
        var left := DropPlacement(rec.locations, placement);
        o == Outcome(s.(records := s.records[rec.recordId := WithLocations(D, rec, left)],
                        accounting := s.accounting.(locations := Decrement(s.accounting.locations))), Accepted)
  {
    hide WithLocations, CountPlacement, DropPlacement, FindState, CheckAuthority, Decrement;
  }

  /** Removing a location that is there finds the counter above zero. */
  lemma RemovalHasRoom(D: Digest, s: EngineState, state: u64, placement: u64)
    requires Inv(D, s) && FindState(s, state).Some?
      && CountPlacement(FindState(s, state).value.locations, placement) > 0
    ensures s.accounting.locations > 0 && Decrement(s.accounting.locations) == s.accounting.locations - 1
  {
    DropShortens(FindState(s, state).value.locations, placement);
    TotalWithout(s.records, s.current[state]);
  }

  lemma FoundKeyed(s: EngineState, state: u64)
    requires Shape(s) && FindState(s, state).Some?
    ensures state in s.current && FindState(s, state).value.recordId == s.current[state]
      && s.current[state] in s.records
    ensures FindState(s, state).value == s.records[s.current[state]]
  {
  }

  lemma RelocatedId(D: Digest, rec: StateRecord, ls: seq<StateLocation>)
    ensures WithLocations(D, rec, ls).recordId == rec.recordId
  {
  }

  /** The indexes after one record was re-indexed with other locations. */
  lemma RelocationExtends(D: Digest, s: EngineState, state: u64, ls: seq<StateLocation>, v: IndexView, w: IndexView)
    requires Shape(s) && FindState(s, state).Some?
    requires var u := WithLocations(D, FindState(s, state).value, ls); w == Insert(Remove(v, u), u)
    ensures Extends(v, s.records[s.current[state] := WithLocations(D, FindState(s, state).value, ls)],
                    {s.current[state]}, w)
  {
    hide *;
    FoundKeyed(s, state);
    var rec := FindState(s, state).value;
    RelocatedId(D, rec, ls);
    ExtendsNothing(v, s.records);
    StoreExtends(v, s.records, {}, v, WithLocations(D, rec, ls), w);
    assert {} + {rec.recordId} == {s.current[state]};
  }

  lemma AdditionTouches(D: Digest, s: EngineState, state: u64, loc: StateLocation, env: Envelope)
    ensures Touched(D, s, AddLocationOp(state, loc, env))
         == if AddLocation(D, s, state, loc, env).verdict == Accepted then {s.current[state]} else {}
  {
    hide AddLocation;
  }

  lemma RemovalTouches(D: Digest, s: EngineState, state: u64, placement: u64, env: Envelope)
    ensures Touched(D, s, RemoveLocationOp(state, placement, env))
         == if RemoveLocation(D, s, state, placement, env).verdict == Accepted
               && CountPlacement(FindState(s, state).value.locations, placement) > 0
            then {s.current[state]} else {}
  {
    hide RemoveLocation, FindState, CountPlacement;
  }

  lemma QuietAddition(D: Digest, s: EngineState, state: u64, loc: StateLocation, env: Envelope, v: IndexView)
    requires AddLocation(D, s, state, loc, env).verdict != Accepted
    ensures AddLocation(D, s, state, loc, env).state == s && IndexStep(D, s, AddLocationOp(state, loc, env), s, v, v)
  {
    hide AddLocation, Touched, Extends, IndexStep;
    AdditionGuards(D, s, state, loc, env);
    AdditionTouches(D, s, state, loc, env);
    ExtendsNothing(v, s.records);
    IndexStepOf(D, s, AddLocationOp(state, loc, env), s, v, v);
  }

  /** Nothing is touched by a removal that is refused or finds nothing. */
  lemma QuietRemoval(D: Digest, s: EngineState, state: u64, placement: u64, env: Envelope, v: IndexView)
    requires
      || RemoveLocation(D, s, state, placement, env).verdict != Accepted
      || (FindState(s, state).Some? && CountPlacement(FindState(s, state).value.locations, placement) == 0)
    ensures RemoveLocation(D, s, state, placement, env).state == s
    ensures IndexStep(D, s, RemoveLocationOp(state, placement, env), s, v, v)
  {
    hide RemoveLocation, Touched, Extends, IndexStep, FindState, CountPlacement;
    RemovalGuards(D, s, state, placement, env);
    RemovalTouches(D, s, state, placement, env);
    ExtendsNothing(v, s.records);
    IndexStepOf(D, s, RemoveLocationOp(state, placement, env), s, v, v);
  }

  // -------- Record lists --------

  /** The stored records with the given ids. */
  function RecordsOf(records: map<u64, StateRecord>, ids: set<u64>): set<StateRecord> {
    set id | id in ids && id in records :: records[id]
  }

  lemma RecordsOfOneMore(records: map<u64, StateRecord>, ids: seq<u64>, i: nat)
    requires i < |ids|
    ensures RecordsOf(records, Elements(ids[..i + 1]))
         == RecordsOf(records, Elements(ids[..i])) + if ids[i] in records then {records[ids[i]]} else {}
  {
    assert ids[..i + 1] == ids[..i] + [ids[i]];
    ElementsOfLonger(ids[..i], ids[i]);
  }

  lemma SameRecords(a: seq<StateRecord>, b: seq<StateRecord>)
    requires multiset(a) == multiset(b)
    ensures Elements(a) == Elements(b)
  {
    forall r ensures r in a <==> r in b {
      assert r in a <==> r in multiset(a);
      assert r in b <==> r in multiset(b);
    }
  }

  /** The ids of the listed records that an invalidation with this bound marks. */
  function BelowBound(hist: seq<StateRecord>, bound: u64): set<u64> {
    set r | r in hist && r.stateGeneration <= bound && r.lifecycle != INVALIDATED :: r.recordId
  }

  lemma BelowBoundOfNone(bound: u64)
    ensures BelowBound([], bound) == {}
  {
  }

  lemma BelowBoundOneMore(hist: seq<StateRecord>, i: nat, bound: u64)
    requires i < |hist|
    ensures BelowBound(hist[..i + 1], bound)
         == if hist[i].stateGeneration <= bound && hist[i].lifecycle != INVALIDATED
            then BelowBound(hist[..i], bound) + {hist[i].recordId} else BelowBound(hist[..i], bound)
  {
    assert hist[..i + 1] == hist[..i] + [hist[i]];
  }

  /** Marking a record of a partly marked table, whether or not it is marked already. */
  lemma MarkAgain(D: Digest, records: map<u64, StateRecord>, ids: set<u64>, id: u64, lifecycle: u8)
    requires IgnoresUnhashed(D) && id in records && records[id].recordId == id
    ensures
      var marked := MarkAll(D, records, ids, lifecycle);
      && id in marked && Marked(D, marked[id], lifecycle).recordId == id
      && MarkAll(D, records, ids + {id}, lifecycle) == marked[id := Marked(D, marked[id], lifecycle)]
      && (id in ids ==> marked[id] == Marked(D, marked[id], lifecycle))
      && marked[id].recordId == id
  {
    MarkOneMore(D, records, ids, id, lifecycle);
    MarkedTwice(D, records[id], lifecycle);
  }

  lemma MarkedTwice(D: Digest, rec: StateRecord, lifecycle: u8)
    requires IgnoresUnhashed(D)
    ensures Marked(D, Marked(D, rec, lifecycle), lifecycle) == Marked(D, rec, lifecycle)
  {
    var u := rec.(lifecycle := lifecycle, isHistorical := true);
    assert Marked(D, rec, lifecycle) == Resealed(u, D(u), true);
  }

  // -------- Invalidation --------

  /** What recomputing the current record does, given the record the scan settled on. */
  function Promoted(s: EngineState, state: u64, best: Option<u64>): EngineState {
    var touched := s.(history := TouchHistory(s.history, state));
    if best.Some? && best.value in s.records then
      var b := s.records[best.value];
      touched.(current := s.current[state := b.recordId],
               accounting := s.accounting.(currentStates := s.accounting.currentStates + 1),
               authority := s.authority.SetHolder(state, b.stateGeneration, b.authorityBoot))
    else
      touched.(current := s.current - {state}, authority := s.authority.ClearHolder(state))
  }

  lemma BestIsStored(s: EngineState, state: u64, bound: u64, best: Option<u64>)
    requires IsBestPromotable(s, state, bound, best)
    ensures best.Some? ==> best.value in s.records
  {
  }

  lemma InvalidationParts(D: Digest, s: EngineState, inv: InvalidationRecord, env: Envelope, best: Option<u64>)
    requires Invalidates(s, inv, env)
    ensures
      var marked := InvalidationMarked(D, s, inv, env);
      Invalidate(D, s, inv, env, best).state ==
        if InvalidationTargets(s, inv.stateId, inv.boundGeneration) == {} && FindState(s, inv.stateId).None? then marked
        else Promoted(marked, inv.stateId, best)
  {
    hide InvalidationTargets, FindState, MarkAll;
  }

  /** The state once the invalidation has been recorded but before anything is marked. */
  function Recorded(s: EngineState, inv: InvalidationRecord, env: Envelope): EngineState {
    var seqNo: u64 := if s.invalidationSeq == MAX_U64 then 0 else s.invalidationSeq + 1;
    var entry := inv.(invalidationSeq := seqNo, coordinatorEpoch := env.coordinatorEpoch, workerBoot := env.workerBoot,
                      recordGeneration := if env.recordGeneration != 0 then env.recordGeneration
                                          else inv.recordGeneration);
    s.(invalidations := s.invalidations + [entry], invalidationSeq := seqNo,
       accounting := s.accounting.(invalidations := s.accounting.invalidations + 1))
  }

  lemma RecordedKeeps(s: EngineState, inv: InvalidationRecord, env: Envelope)
    ensures var t := Recorded(s, inv, env);
      && t.records == s.records && t.current == s.current && t.history == s.history && t.tombstones == s.tombstones
      && t.authority == s.authority
    ensures forall state :: HistoryOf(Recorded(s, inv, env), state) == HistoryOf(s, state)
  {
  }

  lemma MarkedParts(D: Digest, s: EngineState, inv: InvalidationRecord, env: Envelope)
    ensures InvalidationMarked(D, s, inv, env)
      == Recorded(s, inv, env).(records :=
        MarkAll(D, s.records, InvalidationTargets(s, inv.stateId, inv.boundGeneration), INVALIDATED))
  {
    hide MarkAll, InvalidationTargets;
  }

  lemma MarkedKeyed(D: Digest, s: EngineState, inv: InvalidationRecord, env: Envelope)
    requires Shape(s)
    ensures var t := InvalidationMarked(D, s, inv, env); forall id :: id in t.records ==> t.records[id].recordId == id
  {
    hide InvalidationTargets;
  }

  lemma InvalidationGuards(s: EngineState, inv: InvalidationRecord, env: Envelope)
    ensures InvalidationVerdict(s, inv, env) ==
      if CheckAuthority(s, env) != Accepted then CheckAuthority(s, env)
      else if FindState(s, inv.stateId).Some? && FindState(s, inv.stateId).value.stateGeneration > inv.boundGeneration
      then RejectedNonMonotonic
      else Accepted
    ensures Invalidates(s, inv, env) <==> InvalidationVerdict(s, inv, env) == Accepted
  {
    hide CheckAuthority, FindState;
  }

  /** What the marking loop marks is what the specification marks. */
  lemma HistoryTargets(s: EngineState, state: u64, bound: u64, hist: seq<StateRecord>)
    requires Shape(s) && Elements(hist) == RecordsOf(s.records, HistoryOf(s, state))
    ensures BelowBound(hist, bound) == InvalidationTargets(s, state, bound)
    ensures forall r :: r in hist ==> r.recordId in s.records && s.records[r.recordId] == r
  {
    forall r | r in hist ensures r.recordId in s.records && s.records[r.recordId] == r {
      assert r in Elements(hist);
    }
    forall id ensures id in BelowBound(hist, bound) <==> id in InvalidationTargets(s, state, bound) {
      if id in InvalidationTargets(s, state, bound) {
        assert s.records[id] in Elements(hist);
      }
      if id in BelowBound(hist, bound) {
        var r :| r in hist && r.stateGeneration <= bound && r.lifecycle != INVALIDATED && r.recordId == id;
        assert r in Elements(hist);
      }
    }
  }

  /** Some best promotable record always exists, or there is none. */
  lemma {:induction false} BestAmong(s: EngineState, state: u64, bound: u64, ids: set<u64>) returns (best: Option<u64>)
    ensures best.None? ==> forall id :: id in ids ==> !Promotable(s, state, bound, id)
    ensures best.Some? ==>
      && best.value in ids && Promotable(s, state, bound, best.value)
      && forall id :: id in ids && Promotable(s, state, bound, id) ==>
           s.records[id].stateGeneration <= s.records[best.value].stateGeneration
    decreases |ids|
  {
    if ids == {} {
      return None;
    }
    var id :| id in ids;
    best := BestAmong(s, state, bound, ids - {id});
    if Promotable(s, state, bound, id)
       && (best.None? || s.records[id].stateGeneration > s.records[best.value].stateGeneration)
    {
      best := Some(id);
    }
  }

  lemma BestExists(s: EngineState, state: u64, bound: u64)
    ensures exists best :: IsBestPromotable(s, state, bound, best)
  {
    var best := BestAmong(s, state, bound, HistoryOf(s, state));
    assert IsBestPromotable(s, state, bound, best);
  }

  lemma RefusedInvalidation(D: Digest, s: EngineState, inv: InvalidationRecord, env: Envelope, v: IndexView)
    requires !Invalidates(s, inv, env)
    ensures Invalidate(D, s, inv, env, None).state == s
    ensures Step(D, s, InvalidateOp(inv, env), s) && IndexStep(D, s, InvalidateOp(inv, env), s, v, v)
  {
    hide IsBestPromotable, Extends, InvalidationMarked;
    BestExists(InvalidationMarked(D, s, inv, env), inv.stateId, inv.boundGeneration);
    ExtendsNothing(v, s.records);
  }

  /** The scan's result makes the invalidation step, and in a sound state it is the one that promotes nothing. */
  lemma AcceptedInvalidation(D: Digest, s: EngineState, inv: InvalidationRecord, env: Envelope, best: Option<u64>)
    requires Shape(s) && CurrentIsBatch(s) && Invalidates(s, inv, env)
    requires IsBestPromotable(InvalidationMarked(D, s, inv, env), inv.stateId, inv.boundGeneration, best)
    requires InvalidationTargets(s, inv.stateId, inv.boundGeneration) != {} || FindState(s, inv.stateId).Some?
    ensures var t := Promoted(InvalidationMarked(D, s, inv, env), inv.stateId, best);
      t == Invalidate(D, s, inv, env, None).state && Step(D, s, InvalidateOp(inv, env), t)
  {
    hide Shape, IsBatchCurrent, IsBestPromotable, InvalidationMarked, Promoted, Invalidate, InvalidationTargets;
    InvalidationClears(D, s, inv, env, best);
    InvalidationParts(D, s, inv, env, best);
  }

  lemma AcceptedInvalidationWithout(D: Digest, s: EngineState, inv: InvalidationRecord, env: Envelope)
    requires Shape(s) && CurrentIsBatch(s) && Invalidates(s, inv, env)
    requires InvalidationTargets(s, inv.stateId, inv.boundGeneration) == {} && FindState(s, inv.stateId).None?
    ensures var t := InvalidationMarked(D, s, inv, env);
      t == Invalidate(D, s, inv, env, None).state && Step(D, s, InvalidateOp(inv, env), t)
  {
    hide Shape, IsBatchCurrent, IsBestPromotable, InvalidationMarked, Promoted, Invalidate, InvalidationTargets;
    InvalidationParts(D, s, inv, env, None);
    var t := InvalidationMarked(D, s, inv, env);
    BestExists(t, inv.stateId, inv.boundGeneration);
    var best :| IsBestPromotable(t, inv.stateId, inv.boundGeneration, best);
    InvalidationClears(D, s, inv, env, best);
  }

  lemma InvalidationIndexed(D: Digest, s: EngineState, inv: InvalidationRecord, env: Envelope, v: IndexView,
                            w: IndexView)
    requires Shape(s) && CurrentIsBatch(s) && Invalidates(s, inv, env)
    requires Extends(v, MarkAll(D, s.records, InvalidationTargets(s, inv.stateId, inv.boundGeneration), INVALIDATED),
                     InvalidationTargets(s, inv.stateId, inv.boundGeneration), w)
    ensures IndexStep(D, s, InvalidateOp(inv, env), Invalidate(D, s, inv, env, None).state, v, w)
  {
    hide Shape, IsBatchCurrent, Extends, InvalidationTargets, MarkAll, Invalidate, Invalidates;
    InvalidateEffect(D, s, inv, env);
  }

  // -------- Tombstones --------

  /** The listed records that a tombstone with this floor marks. */
  function BelowFloor(records: map<u64, StateRecord>, ids: seq<u64>, floor: u64): set<u64> {
    set id | id in ids && id in records && records[id].stateGeneration <= floor && records[id].lifecycle != TOMBSTONED
  }

  lemma BelowFloorOfNone(records: map<u64, StateRecord>, floor: u64)
    ensures BelowFloor(records, [], floor) == {}
  {
  }

  /** The next record is marked exactly if its stored form, marked or not, asks for it. */
  lemma BelowFloorOneMore(D: Digest, records: map<u64, StateRecord>, ids: seq<u64>, i: nat, floor: u64)
    requires i < |ids|
    ensures
      var done := BelowFloor(records, ids[..i], floor);
      var now := MarkAll(D, records, done, TOMBSTONED);
      && (ids[i] in now <==> ids[i] in records)
      && BelowFloor(records, ids[..i + 1], floor) ==
           if ids[i] in now && now[ids[i]].stateGeneration <= floor && now[ids[i]].lifecycle != TOMBSTONED
           then done + {ids[i]} else done
  {
    assert ids[..i + 1] == ids[..i] + [ids[i]];
  }

  function Entombed(s: EngineState, t: TombstoneRecord): EngineState {
    s.(tombstones := s.tombstones[t.stateId := t], authority := s.authority.SetFloor(t.stateId, t.floorGeneration),
       accounting := s.accounting.(tombstones := s.accounting.tombstones + 1))
  }

  function Buried(D: Digest, s: EngineState, state: u64, floor: u64): EngineState {
    s.(history := TouchHistory(s.history, state),
       records := MarkAll(D, s.records, TombstoneTargets(s, state, floor), TOMBSTONED))
  }

  function Uncrowned(s: EngineState, state: u64): EngineState {
    var cur := FindState(s, state);
    if cur.Some? && Tombstoned(s.tombstones, state, cur.value.stateGeneration) then
      s.(current := s.current - {state}, authority := s.authority.ClearHolder(state))
    else s
  }

  lemma FloorTargets(s: EngineState, history: map<u64, seq<u64>>, state: u64, floor: u64)
    requires s.history == HistorySets(history)
    ensures BelowFloor(s.records, HistoryList(history, state), floor) == TombstoneTargets(s, state, floor)
  {
    ListElements(history, state);
    assert forall id :: id in HistoryList(history, state) <==> id in Elements(HistoryList(history, state));
  }

  lemma TombstoneParts(D: Digest, s: EngineState, t: TombstoneRecord, env: Envelope)
    ensures
      var o, check := Tombstone(D, s, t, env), CheckAuthority(s, env);
      if check != Accepted then o == Outcome(s, check)
      else if t.stateId in s.tombstones && s.tombstones[t.stateId].floorGeneration >= t.floorGeneration then
        o == Outcome(s, RejectedStaleBoot)
      else
        var stamped := t.(coordinatorEpoch := env.coordinatorEpoch, workerBoot := env.workerBoot);
        o == Outcome(Uncrowned(Buried(D, Entombed(s, stamped), t.stateId, t.floorGeneration), t.stateId), Accepted)
    ensures Tombstones(s, t, env) <==> Tombstone(D, s, t, env).verdict == Accepted
  {
    hide CheckAuthority, MarkAll, TouchHistory, FindState;
    var stamped := t.(coordinatorEpoch := env.coordinatorEpoch, workerBoot := env.workerBoot);
    assert TombstoneTargets(Entombed(s, stamped), t.stateId, t.floorGeneration)
      == TombstoneTargets(s, t.stateId, t.floorGeneration);
  }

  lemma RefusedTombstone(D: Digest, s: EngineState, t: TombstoneRecord, env: Envelope, v: IndexView)
    requires !Tombstones(s, t, env)
    ensures IndexStep(D, s, TombstoneOp(t, env), s, v, v)
  {
    hide Extends, Tombstones;
    ExtendsNothing(v, s.records);
  }

  lemma TombstoneIndexed(D: Digest, s: EngineState, t: TombstoneRecord, env: Envelope, v: IndexView, w: IndexView)
    requires Tombstones(s, t, env)
    requires Extends(v, Tombstone(D, s, t, env).state.records, TombstoneTargets(s, t.stateId, t.floorGeneration), w)
    ensures IndexStep(D, s, TombstoneOp(t, env), Tombstone(D, s, t, env).state, v, w)
  {
    hide Extends, Tombstone, Tombstones, TombstoneTargets;
  }

  lemma EntombedTargets(s: EngineState, t: TombstoneRecord)
    ensures TombstoneTargets(Entombed(s, t), t.stateId, t.floorGeneration)
      == TombstoneTargets(s, t.stateId, t.floorGeneration)
    ensures Entombed(s, t).records == s.records && Entombed(s, t).current == s.current
  {
  }

  lemma StampedTargets(s: EngineState, t: TombstoneRecord, env: Envelope)
    ensures var u := t.(coordinatorEpoch := env.coordinatorEpoch, workerBoot := env.workerBoot);
      TombstoneTargets(s, u.stateId, u.floorGeneration) == TombstoneTargets(s, t.stateId, t.floorGeneration)
  {
  }

  lemma BuriedKeys(D: Digest, s: EngineState, t: TombstoneRecord)
    requires Shape(s)
    ensures var u := Buried(D, Entombed(s, t), t.stateId, t.floorGeneration);
      u.current == s.current && forall x :: x in u.current ==> u.current[x] in u.records
  {
    hide TombstoneTargets;
  }

  // -------- Queries and canonical records --------

  lemma KeyedCatalog(D: Digest, s: EngineState)
    requires Inv(D, s)
    ensures Keyed(CatalogOf(s))
  {
    InvHasShape(D, s);
    KeyedRecords(s);
  }

  lemma CanonicalListsAll(records: map<u64, StateRecord>)
    requires forall id :: id in records ==> records[id].recordId == id
    ensures forall id :: id in AscendingOf(records.Keys) ==> id in records
    ensures ListsRecords(RecordsAt(records, AscendingOf(records.Keys)), records)
  {
    hide AscendingOf;
    var ids := AscendingOf(records.Keys);
    assert forall id :: id in ids <==> id in Elements(ids);
    var rs := RecordsAt(records, ids);
    forall r | r in rs ensures r.recordId in records && records[r.recordId] == r {
      var i :| 0 <= i < |rs| && rs[i] == r;
    }
    forall id | id in records ensures records[id] in rs {
      var i :| 0 <= i < |ids| && ids[i] == id;
      assert rs[i] == records[id];
    }
  }

  lemma ListedOneMore(xs: seq<u64>, domain: set<u64>, x: u64)
    requires Lists(xs, domain) && x !in domain
    ensures Lists(xs + [x], domain + {x})
  {
    ElementsOfLonger(xs, x);
    assert x !in Elements(xs);
  }
}
