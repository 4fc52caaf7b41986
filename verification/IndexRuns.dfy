/** The secondary indexes along whole runs. */
module IndexRuns {
  import opened Basics
  import opened Model
  import opened Authority
  import opened Transitions
  import opened Invariants
  import opened Retirement
  import opened Runs
  import opened Indexes

  /** The records a step inserts into the indexes, new or again. */
  ghost function Touched(D: Digest, s: EngineState, op: Op): set<u64> {
    match op
    case RegisterStateOp(rec, env) =>
      if Publishes(D, s, rec, env)
      then {rec.recordId} + if Supersedes(s, rec) then {s.current[rec.stateId]} else {}
      else {}
    case AddLocationOp(state, loc, env) =>
      if AddLocation(D, s, state, loc, env).verdict == Accepted then {s.current[state]} else {}
    case RemoveLocationOp(state, placement, env) =>
      if RemoveLocation(D, s, state, placement, env).verdict == Accepted
         && CountPlacement(FindState(s, state).value.locations, placement) > 0
      then {s.current[state]} else {}
    case InvalidateOp(inv, env) =>
      if Invalidates(s, inv, env) then InvalidationTargets(s, inv.stateId, inv.boundGeneration) else {}
    case TombstoneOp(tomb, env) =>
      if Tombstones(s, tomb, env) then TombstoneTargets(s, tomb.stateId, tomb.floorGeneration) else {}
    case _ => {}
  }

  /** A load rebuilds the indexes from nothing; every other step inserts what it touched. */
  ghost predicate IndexStep(D: Digest, s: EngineState, op: Op, t: EngineState, v: IndexView, w: IndexView) {
    if op.RecoverOp? then Extends(EMPTY_INDEX, t.records, t.records.Keys, w)
    else Extends(v, t.records, Touched(D, s, op), w)
  }

  ghost predicate IsIndexedRun(D: Digest, ss: seq<EngineState>, ops: seq<Op>, vs: seq<IndexView>) {
    && IsRun(D, ss, ops) && |vs| == |ss| && vs[0] == EMPTY_INDEX
    && forall i :: 0 <= i < |ops| ==> IndexStep(D, ss[i], ops[i], ss[i + 1], vs[i], vs[i + 1])
  }

  /** Records that are not touched do not change. */
  ghost predicate UntouchedSame(s: EngineState, t: EngineState, touched: set<u64>) {
    && touched <= t.records.Keys
    && forall id :: id in t.records && id !in touched ==> id in s.records && t.records[id] == s.records[id]
  }

  lemma RegisterTouches(D: Digest, s: EngineState, rec: StateRecord, env: Envelope)
    requires Shape(s)
    ensures UntouchedSame(s, RegisterState(D, s, rec, env).state, Touched(D, s, RegisterStateOp(rec, env)))
  {
    hide RegisterState, Publishes, HistoryOf, PushHistory, CountPublished, Published, Marked, Tombstoned;
    if Publishes(D, s, rec, env) {
      RegisterEffect(D, s, rec, env);
    } else {
      RegisterRefused(D, s, rec, env);
    }
  }

  lemma AdditionTouchesOne(D: Digest, s: EngineState, state: u64, loc: StateLocation, env: Envelope)
    requires Shape(s)
    ensures UntouchedSame(s, AddLocation(D, s, state, loc, env).state, Touched(D, s, AddLocationOp(state, loc, env)))
  {
    hide CountPlacement, ReplacePlacement, RegressesLocation, WithLocations, CheckAuthority;
  }

  lemma RemovalTouchesOne(D: Digest, s: EngineState, state: u64, placement: u64, env: Envelope)
    requires Shape(s)
    ensures UntouchedSame(s, RemoveLocation(D, s, state, placement, env).state,
                          Touched(D, s, RemoveLocationOp(state, placement, env)))
  {
    hide CountPlacement, DropPlacement, WithLocations, CheckAuthority;
  }

  lemma InvalidationTouches(D: Digest, s: EngineState, inv: InvalidationRecord, env: Envelope)
    requires Shape(s) && CurrentIsBatch(s)
    ensures UntouchedSame(s, Invalidate(D, s, inv, env, None).state, Touched(D, s, InvalidateOp(inv, env)))
  {
    hide Shape, IsBatchCurrent, InvalidationMarked;
    if Invalidates(s, inv, env) {
      InvalidateEffect(D, s, inv, env);
    }
  }

  lemma TombstoneTouches(D: Digest, s: EngineState, tomb: TombstoneRecord, env: Envelope)
    requires Shape(s) && GenerationsSet(s)
    ensures UntouchedSame(s, Tombstone(D, s, tomb, env).state, Touched(D, s, TombstoneOp(tomb, env)))
  {
    hide Shape;
    if Tombstones(s, tomb, env) {
      TombstoneEffect(D, s, tomb, env);
    }
  }

  lemma StepTouches(D: Digest, s: EngineState, op: Op, t: EngineState)
    requires SoundStep(D, s, op, t) && !op.RecoverOp?
    ensures UntouchedSame(s, t, Touched(D, s, op))
  {
    hide Shape, IsBatchCurrent, RegisterState, AddLocation, RemoveLocation, Invalidate, Tombstone, InvalidationMarked,
         IsBestPromotable, Publishes, Supersedes, InvalidationTargets, TombstoneTargets, Invalidates, Tombstones;
    match op {
      case RegisterStateOp(rec, env) => RegisterTouches(D, s, rec, env);
      case AddLocationOp(state, loc, env) => AdditionTouchesOne(D, s, state, loc, env);
      case RemoveLocationOp(state, placement, env) => RemovalTouchesOne(D, s, state, placement, env);
      case InvalidateOp(inv, env) =>
        InvalidationStep(D, s, inv, env, t);
        InvalidationTouches(D, s, inv, env);
      case TombstoneOp(tomb, env) => TombstoneTouches(D, s, tomb, env);
      case _ =>
    }
  }

  lemma IndexStepAt(D: Digest, ss: seq<EngineState>, ops: seq<Op>, vs: seq<IndexView>, i: nat)
    requires IgnoresUnhashed(D) && IsIndexedRun(D, ss, ops, vs) && i < |ops|
    ensures SoundStep(D, ss[i], ops[i], ss[i + 1])
    ensures Evolves(ss[i], ss[i + 1])
    ensures ops[i].RecoverOp? ==> Extends(EMPTY_INDEX, ss[i + 1].records, ss[i + 1].records.Keys, vs[i + 1])
    ensures !ops[i].RecoverOp? ==>
      && UntouchedSame(ss[i], ss[i + 1], Touched(D, ss[i], ops[i]))
      && Extends(vs[i], ss[i + 1].records, Touched(D, ss[i], ops[i]), vs[i + 1])
  {
    hide Step, Allowed, Extends, UntouchedSame, Touched, Evolves;
    StepAt(D, ss, ops, i);
    StepEvolves(D, ss[i], ops[i], ss[i + 1]);
    if !ops[i].RecoverOp? {
      StepTouches(D, ss[i], ops[i], ss[i + 1]);
    }
    assert IndexStep(D, ss[i], ops[i], ss[i + 1], vs[i], vs[i + 1]);
  }

  // -------- Every run can be indexed --------

  lemma {:induction false} ExtensionExists(v: IndexView, records: map<u64, StateRecord>, touched: set<u64>)
    returns (w: IndexView)
    requires touched <= records.Keys && forall id :: id in records ==> records[id].recordId == id
    ensures Extends(v, records, touched, w)
    decreases |touched|
  {
    hide Extends, Insert, Remove;
    if touched == {} {
      w := v;
      ExtendsNothing(v, records);
    } else {
      var id :| id in touched;
      var mid := ExtensionExists(v, records, touched - {id});
      w := Insert(mid, records[id]);
      ExtendsOneMore(v, records, touched - {id}, mid, id, w);
      assert touched - {id} + {id} == touched;
    }
  }

  lemma IndexStepExists(D: Digest, s: EngineState, op: Op, t: EngineState, v: IndexView) returns (w: IndexView)
    requires SoundStep(D, s, op, t) && Inv(D, t)
    ensures IndexStep(D, s, op, t, v, w)
  {
    hide Step, Allowed, Touched, Extends, IsBatchCurrent;
    if op.RecoverOp? {
      w := ExtensionExists(EMPTY_INDEX, t.records, t.records.Keys);
    } else {
      StepTouches(D, s, op, t);
      w := ExtensionExists(v, t.records, Touched(D, s, op));
    }
  }

  /** Whatever an engine goes through, its indexes go through something: what is said below of indexed runs
      is said of every run. */
  lemma {:induction false} RunIsIndexed(D: Digest, ss: seq<EngineState>, ops: seq<Op>,
                                        n: nat) returns (vs: seq<IndexView>)
    requires IgnoresUnhashed(D) && IsRun(D, ss, ops) && n < |ss|
    ensures |vs| == n + 1 && vs[0] == EMPTY_INDEX
    ensures forall i :: 0 <= i < n ==> IndexStep(D, ss[i], ops[i], ss[i + 1], vs[i], vs[i + 1])
    decreases n
  {
    hide IndexStep, Inv, Step, Allowed, SoundStep;
    if n == 0 {
      vs := [EMPTY_INDEX];
    } else {
      var front := RunIsIndexed(D, ss, ops, n - 1);
      StepAt(D, ss, ops, n - 1);
      ReachableInv(D, ss, ops, n);
      var w := IndexStepExists(D, ss[n - 1], ops[n - 1], ss[n], front[n - 1]);
      vs := front + [w];
      forall i | 0 <= i < n ensures IndexStep(D, ss[i], ops[i], ss[i + 1], vs[i], vs[i + 1]) {
        assert vs[i] == front[i];
      }
    }
  }

  lemma EveryRunIsIndexed(D: Digest, ss: seq<EngineState>, ops: seq<Op>) returns (vs: seq<IndexView>)
    requires IgnoresUnhashed(D) && IsRun(D, ss, ops)
    ensures IsIndexedRun(D, ss, ops, vs)
  {
    hide IndexStep, Step, Allowed;
    vs := RunIsIndexed(D, ss, ops, |ops|);
  }

  // -------- What the entries are --------

  /** The ids that had key k at some moment from r to n. */
  ghost function EverHeld(ss: seq<EngineState>, r: nat, n: nat, k: IndexKey): set<u64>
    requires r <= n < |ss|
    decreases n
  {
    if n == r then Holders(ss[r].records, k) else EverHeld(ss, r, n - 1, k) + Holders(ss[n].records, k)
  }

  /** Is r the start of the run or the state just after a load? */
  predicate RebuiltAt(ops: seq<Op>, r: nat) {
    r == 0 || (r <= |ops| && ops[r - 1].RecoverOp?)
  }

  lemma HoldersGrow(before: map<u64, StateRecord>, after: map<u64, StateRecord>, touched: set<u64>, k: IndexKey)
    requires forall id :: id in after && id !in touched ==> id in before && after[id] == before[id]
    ensures Holders(after, k) <= Holders(before, k) + HoldersAmong(after, touched, k)
  {
    hide KeysOf;
  }

  /** An entry that holds at least the present holders grows by the holders after the step. */
  lemma EntryGrows(s: EngineState, t: EngineState, touched: set<u64>, v: IndexView, w: IndexView, ever: set<u64>,
                   k: IndexKey)
    requires UntouchedSame(s, t, touched) && Extends(v, t.records, touched, w) && Lookup(v.ids, k) == ever
    ensures Holders(s.records, k) <= ever ==> Lookup(w.ids, k) == ever + Holders(t.records, k)
  {
    hide KeysOf, ExtendsOwner;
    HoldersGrow(s.records, t.records, touched, k);
    assert HoldersAmong(t.records, touched, k) <= Holders(t.records, k);
  }

  lemma RebuiltEntry(t: map<u64, StateRecord>, w: IndexView, k: IndexKey)
    requires Extends(EMPTY_INDEX, t, t.Keys, w)
    ensures Lookup(w.ids, k) == Holders(t, k)
  {
    hide KeysOf, ExtendsOwner;
    assert HoldersAmong(t, t.Keys, k) == Holders(t, k);
  }

  /** Every index holds, for each key, exactly the records that have had it since the run began or the
      indexes were last rebuilt: updates never take a record out of a list it has left. */
  lemma {:induction false} EntriesAreHistory(D: Digest, ss: seq<EngineState>, ops: seq<Op>, vs: seq<IndexView>,
                                             r: nat, n: nat, k: IndexKey)
    requires IgnoresUnhashed(D) && IsIndexedRun(D, ss, ops, vs) && r <= n < |ss| && RebuiltAt(ops, r)
    requires forall i :: r <= i < n ==> !ops[i].RecoverOp?
    ensures Lookup(vs[n].ids, k) == EverHeld(ss, r, n, k)
    decreases n
  {
    hide Step, Allowed, Holders, Touched, IndexStep, Evolves, Extends, UntouchedSame, SoundStep, IgnoresUnhashed;
    if n > r {
      EntriesAreHistory(D, ss, ops, vs, r, n - 1, k);
      IndexStepAt(D, ss, ops, vs, n - 1);
      EntryGrows(ss[n - 1], ss[n], Touched(D, ss[n - 1], ops[n - 1]), vs[n - 1], vs[n], EverHeld(ss, r, n - 1, k), k);
      HeldLast(ss, r, n - 1, k);
    } else if r > 0 {
      IndexStepAt(D, ss, ops, vs, r - 1);
      RebuiltEntry(ss[r].records, vs[r], k);
    } else {
      NoEntry(k);
    }
  }

  lemma NoEntry(k: IndexKey)
    ensures Lookup(EMPTY_INDEX.ids, k) == Holders(map[], k)
  {
    hide KeysOf;
  }

  lemma HeldLast(ss: seq<EngineState>, r: nat, n: nat, k: IndexKey)
    requires r <= n < |ss|
    ensures Holders(ss[n].records, k) <= EverHeld(ss, r, n, k)
  {
    hide Holders;
  }

  lemma FixedKeysStay(a: StateRecord, b: StateRecord, k: IndexKey)
    requires Evolved(a, b) && !k.Moving()
    ensures k in KeysOf(a) <==> k in KeysOf(b)
  {
    hide KeysOf, FixedKeys;
    FixedPart(a, k);
    FixedPart(b, k);
  }

  /** Indexes keyed on what never changes hold exactly the records with the key. */
  lemma {:induction false} FixedIndexesExact(D: Digest, ss: seq<EngineState>, ops: seq<Op>, vs: seq<IndexView>,
                                             n: nat, k: IndexKey)
    requires IgnoresUnhashed(D) && IsIndexedRun(D, ss, ops, vs) && n < |ss| && !k.Moving()
    ensures Lookup(vs[n].ids, k) == Holders(ss[n].records, k)
    decreases n
  {
    hide Step, Allowed, KeysOf, Touched, IndexStep, Evolved;
    if n > 0 {
      FixedIndexesExact(D, ss, ops, vs, n - 1, k);
      IndexStepAt(D, ss, ops, vs, n - 1);
      var s, t := ss[n - 1], ss[n];
      if ops[n - 1].RecoverOp? {
        assert HoldersAmong(t.records, t.records.Keys, k) == Holders(t.records, k);
      } else {
        var touched := Touched(D, s, ops[n - 1]);
        HoldersGrow(s.records, t.records, touched, k);
        forall id | id in Holders(s.records, k) ensures id in Holders(t.records, k) {
          FixedKeysStay(s.records[id], t.records[id], k);
        }
        assert HoldersAmong(t.records, touched, k) <= Holders(t.records, k);
      }
    }
  }

  // -------- verify --------

  lemma StepKeepsEntries(s: map<u64, StateRecord>, t: map<u64, StateRecord>, touched: set<u64>, v: IndexView,
                         w: IndexView)
    requires NoDanglingEntries(v, s) && Complete(v, s) && ExtendsIds(v.ids, t, touched, w.ids)
    requires s.Keys <= t.Keys && touched <= t.Keys
    requires forall id :: id in t && id !in touched ==> id in s && t[id] == s[id]
    ensures NoDanglingEntries(w, t) && Complete(w, t)
  {
    hide KeysOf;
    forall k ensures Lookup(w.ids, k) <= t.Keys && Holders(t, k) <= Lookup(w.ids, k) {
      HoldersGrow(s, t, touched, k);
      assert Holders(s, k) <= Lookup(v.ids, k) <= s.Keys;
      assert Lookup(w.ids, k) == Lookup(v.ids, k) + HoldersAmong(t, touched, k);
    }
  }

  lemma RebuiltEntries(t: map<u64, StateRecord>, w: IndexView)
    requires ExtendsIds(EMPTY_INDEX.ids, t, t.Keys, w.ids)
    ensures NoDanglingEntries(w, t) && Complete(w, t)
  {
    hide KeysOf;
    forall k ensures Lookup(w.ids, k) <= t.Keys && Holders(t, k) <= Lookup(w.ids, k) {
      assert HoldersAmong(t, t.Keys, k) == Holders(t, k);
    }
  }

  /** No index entry ever dangles and no record is ever missing from an index it belongs to. */
  lemma {:induction false} EntriesConsistent(D: Digest, ss: seq<EngineState>, ops: seq<Op>, vs: seq<IndexView>, n: nat)
    requires IgnoresUnhashed(D) && IsIndexedRun(D, ss, ops, vs) && n < |ss|
    ensures NoDanglingEntries(vs[n], ss[n].records) && Complete(vs[n], ss[n].records)
    decreases n
  {
    hide Step, Allowed, KeysOf, Touched, IndexStep, ExtendsIds, ExtendsOwner, NoDanglingEntries, Complete, Evolved;
    if n > 0 {
      EntriesConsistent(D, ss, ops, vs, n - 1);
      IndexStepAt(D, ss, ops, vs, n - 1);
      if ops[n - 1].RecoverOp? {
        RebuiltEntries(ss[n].records, vs[n]);
      } else {
        StepKeepsEntries(ss[n - 1].records, ss[n].records, Touched(D, ss[n - 1], ops[n - 1]), vs[n - 1], vs[n]);
      }
    } else {
      EmptyEntries();
    }
  }

  lemma EmptyEntries()
    ensures NoDanglingEntries(EMPTY_INDEX, map[]) && Complete(EMPTY_INDEX, map[])
  {
  }

  lemma OwnersStep(s: map<u64, StateRecord>, t: map<u64, StateRecord>, touched: set<u64>, v: IndexView, w: IndexView)
    requires OwnersMatch(v, s) && UniquePlacements(t) && ExtendsOwner(v.owner, t, touched, w.owner)
    requires forall id :: id in t && id !in touched ==> id in s && t[id] == s[id]
    ensures OwnersMatch(w, t)
  {
    hide Placements;
    forall id, p | HeldBy(t, id, p) ensures p in w.owner && w.owner[p] == id {
      if id !in touched {
        assert HeldBy(s, id, p);
      }
    }
  }

  lemma OwnersRebuilt(t: map<u64, StateRecord>, w: IndexView)
    requires UniquePlacements(t) && ExtendsOwner(EMPTY_INDEX.owner, t, t.Keys, w.owner)
    ensures OwnersMatch(w, t)
  {
    hide Placements;
  }

  lemma {:induction false} OwnersAlongRun(D: Digest, ss: seq<EngineState>, ops: seq<Op>, vs: seq<IndexView>, n: nat)
    requires IgnoresUnhashed(D) && IsIndexedRun(D, ss, ops, vs) && n < |ss|
    requires forall i :: 0 <= i <= n ==> UniquePlacements(ss[i].records)
    ensures OwnersMatch(vs[n], ss[n].records)
    decreases n
  {
    hide Step, Allowed, Touched, IndexStep, ExtendsIds, ExtendsOwner, UniquePlacements, Evolved;
    if n > 0 {
      OwnersAlongRun(D, ss, ops, vs, n - 1);
      IndexStepAt(D, ss, ops, vs, n - 1);
      if ops[n - 1].RecoverOp? {
        OwnersRebuilt(ss[n].records, vs[n]);
      } else {
        OwnersStep(ss[n - 1].records, ss[n].records, Touched(D, ss[n - 1], ops[n - 1]), vs[n - 1], vs[n]);
      }
    }
  }

  lemma MatchedOwnersAreUnique(v: IndexView, records: map<u64, StateRecord>)
    requires OwnersMatch(v, records)
    ensures UniquePlacements(records)
  {
    hide HeldBy;
  }

  /** The index check finds nothing wrong all along a run exactly when no two records ever share a
      placement at the same time. */
  lemma VerifyCleanIffPlacementsUnique(D: Digest, ss: seq<EngineState>, ops: seq<Op>, vs: seq<IndexView>)
    requires IgnoresUnhashed(D) && IsIndexedRun(D, ss, ops, vs)
    ensures (forall n :: 0 <= n < |ss| ==> Verified(vs[n], ss[n].records))
      <==> (forall n :: 0 <= n < |ss| ==> UniquePlacements(ss[n].records))
  {
    hide IsRun, IndexStep, NoDanglingEntries, Complete, OwnersMatch, UniquePlacements;
    forall n | 0 <= n < |ss| ensures NoDanglingEntries(vs[n], ss[n].records) && Complete(vs[n], ss[n].records) {
      EntriesConsistent(D, ss, ops, vs, n);
    }
    forall n | 0 <= n < |ss| && Verified(vs[n], ss[n].records) ensures UniquePlacements(ss[n].records) {
      MatchedOwnersAreUnique(vs[n], ss[n].records);
    }
    if forall n :: 0 <= n < |ss| ==> UniquePlacements(ss[n].records) {
      forall n | 0 <= n < |ss| ensures OwnersMatch(vs[n], ss[n].records) {
        OwnersAlongRun(D, ss, ops, vs, n);
      }
    }
  }
}
