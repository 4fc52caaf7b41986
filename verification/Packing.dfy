/** Workers build record ids by packing the state id and the generation into 64 bits. While they do,
    every run keeps one record per generation, which is what saving an image takes for granted. */
module Packing {
  import opened Basics
  import opened Model
  import opened Authority
  import opened Transitions
  import opened Recovery
  import opened Invariants
  import opened Retirement
  import opened Runs

  const HALF := 0x1_0000_0000

  /** The state id shifted left by 32 bits, or the generation; below 2^32 both keep their bits apart. */
  function Pack(state: u64, generation: u64): nat
    requires state < HALF && generation < HALF
  {
    state * HALF + generation
  }

  /** Packing is injective when both parts fit in 32 bits: the state id is the upper half and the generation the
      lower. */
  lemma PackInjective(a: u64, g: u64, b: u64, h: u64)
    requires a < HALF && g < HALF && b < HALF && h < HALF
    ensures Pack(a, g) == Pack(b, h) <==> a == b && g == h
    ensures Pack(a, g) <= MAX_U64 && Pack(a, g) / 0x1_0000_0000 == a && Pack(a, g) % 0x1_0000_0000 == g
  {
  }

  predicate Packed(rec: StateRecord) {
    rec.stateId < HALF && rec.stateGeneration < HALF && rec.recordId == Pack(rec.stateId, rec.stateGeneration)
  }

  predicate PacksIds(op: Op) {
    op.RegisterStateOp? ==> Packed(op.rec)
  }

  ghost predicate AllPacked(records: map<u64, StateRecord>) {
    forall id :: id in records ==>
      records[id].stateId < HALF && records[id].stateGeneration < HALF
      && id == Pack(records[id].stateId, records[id].stateGeneration)
  }

  lemma PackedAreUnique(records: map<u64, StateRecord>)
    requires AllPacked(records)
    ensures UniqueGenerations(records)
  {
  }

  /** The only records a step adds are those it publishes. */
  lemma StepKeys(D: Digest, s: EngineState, op: Op, t: EngineState)
    requires SoundStep(D, s, op, t)
    ensures forall id :: id in t.records ==> id in s.records || (op.RegisterStateOp? && Publishes(D, s, op.rec, op.env)
                                                                && id == op.rec.recordId)
    ensures op.RegisterStateOp? && Publishes(D, s, op.rec, op.env) ==>
      && op.rec.recordId in t.records
      && t.records[op.rec.recordId].stateId == op.rec.stateId
      && t.records[op.rec.recordId].stateGeneration == op.rec.stateGeneration
  {
    hide IsBatchCurrent, RegisterState, AddLocation, RemoveLocation, IsBestPromotable, InvalidationMarked, Relocates,
         LocationsAfter, WithLocations, DigestsMatch, CounterCovers, BecomesCurrent, GenerationsSet,
         TombstonesCurrent;
    match op {
      case RegisterStateOp(rec, env) =>
        if Publishes(D, s, rec, env) {
          PublicationAdds(D, s, rec, env);
        } else {
          RegisterRefused(D, s, rec, env);
        }
      case AddLocationOp(state, loc, env) => LocationEffect(D, s, op, t);
      case RemoveLocationOp(state, placement, env) => LocationEffect(D, s, op, t);
      case InvalidateOp(inv, env) =>
        InvalidationStep(D, s, inv, env, t);
        if Invalidates(s, inv, env) {
          InvalidateEffect(D, s, inv, env);
        }
      case TombstoneOp(tomb, env) =>
        if Tombstones(s, tomb, env) {
          TombstoneEffect(D, s, tomb, env);
        }
      case _ =>
    }
  }

  lemma PublicationAdds(D: Digest, s: EngineState, rec: StateRecord, env: Envelope)
    requires Shape(s) && Publishes(D, s, rec, env)
    ensures var t := RegisterState(D, s, rec, env).state;
      && t.records.Keys == s.records.Keys + {rec.recordId}
      && t.records[rec.recordId].stateId == rec.stateId
      && t.records[rec.recordId].stateGeneration == rec.stateGeneration
  {
    hide RegisterState;
    RegisterEffect(D, s, rec, env);
  }

  lemma StepPacked(D: Digest, s: EngineState, op: Op, t: EngineState)
    requires SoundStep(D, s, op, t) && AllPacked(s.records) && PacksIds(op)
    ensures AllPacked(t.records)
  {
    hide SoundStep, Publishes, Step;
    StepKeys(D, s, op, t);
    StepEvolves(D, s, op, t);
    forall id | id in t.records
      ensures t.records[id].stateId < HALF && t.records[id].stateGeneration < HALF
      ensures id == Pack(t.records[id].stateId, t.records[id].stateGeneration)
    {
      if id in s.records {
        assert Evolved(s.records[id], t.records[id]);
      }
    }
  }

  /** As long as every publication packs its id, no state ever has two records of one generation. */
  lemma {:induction false} PackedRunsHaveUniqueGenerations(D: Digest, ss: seq<EngineState>, ops: seq<Op>, i: nat)
    requires IgnoresUnhashed(D) && IsRun(D, ss, ops) && i < |ss|
    requires forall k :: 0 <= k < i ==> PacksIds(ops[k])
    ensures AllPacked(ss[i].records) && UniqueGenerations(ss[i].records)
    decreases i
  {
    hide Step, Allowed, Inv, PacksIds;
    if i > 0 {
      PackedRunsHaveUniqueGenerations(D, ss, ops, i - 1);
      StepAt(D, ss, ops, i - 1);
      StepPacked(D, ss[i - 1], ops[i - 1], ss[i]);
    }
    PackedAreUnique(ss[i].records);
  }
}
