/** Sample records, tokens and short runs from a fresh engine, for the inputs that show where a property
    ends. */
module Samples {
  import opened Basics
  import opened Model
  import opened Authority
  import opened Transitions
  import opened Invariants
  import opened Runs

  const WORKER: u64 := 1
  const BOOT: u64 := 7
  const STATE: u64 := 42
  const OTHER_STATE: u64 := 43
  const PLACEMENT: u64 := 3
  const INCOMPATIBLE: u8 := 5

  const TOKENS := Envelope(1, BOOT, 0, 0, 0)

  const FREE := RetrievalEstimate(0, 0, 0, 0, 0, 0, 0, false, false, 0)

  /** A healthy place for state bytes, always the same one. */
  const PLACE :=
    StateLocation(PLACEMENT, 0, 0, 0, 0, OBJECT_STORAGE_CLASS, 0, 0, 0, 0, 0, [], 0, 0, HEALTHY, FRESHNESS_CURRENT, 0,
                  [], FREE, 0, 0, 0, 0, 0, 0, None, None)

  const PLAIN := Descriptor(0, 16, 1, 0, 0, 0, [], None, None, [], FRESHNESS_CURRENT, HEALTHY, 0, 0, 0, 0, 0, [])

  const REFUSED := CompatibilityRef(1, 1, INCOMPATIBLE, 0, 0, [])

  /** An available record with one healthy place. */
  function Sample(id: u64, state: u64, generation: u64): StateRecord {
    StateRecord(id, state, generation, 0, PLAIN, [PLACE], AVAILABLE, [], false)
  }

  // -------- Runs, one step at a time --------

  lemma NoSteps(D: Digest)
    ensures IsRun(D, [FreshEngine(1)], [])
  {
  }

  lemma OneMoreStep(D: Digest, ss: seq<EngineState>, ops: seq<Op>, op: Op, t: EngineState)
    requires IsRun(D, ss, ops) && Allowed(ss[|ops|], op) && Step(D, ss[|ops|], op, t)
    ensures IsRun(D, ss + [t], ops + [op])
  {
    hide Allowed, Step;
    var longer, more := ss + [t], ops + [op];
    forall i | 0 <= i < |more| ensures Allowed(longer[i], more[i]) && Step(D, longer[i], more[i], longer[i + 1]) {
      assert longer[i] == ss[i];
    }
  }

  // -------- One worker, one record --------

  function Staffed(): EngineState {
    var s := FreshEngine(1);
    s.(authority := s.authority.RegisterWorker(WORKER, BOOT))
  }

  /** Generation 5 of the state published by the one worker. */
  function WithOne(D: Digest): EngineState {
    RegisterState(D, Staffed(), Sample(100, STATE, 5), TOKENS).state
  }

  lemma PublishedOne(D: Digest)
    ensures Publishes(D, Staffed(), Sample(100, STATE, 5), TOKENS)
    ensures var s := WithOne(D);
      && s.records == map[100 := Published(D, Sample(100, STATE, 5), TOKENS)] && s.current == map[STATE := 100]
      && s.tombstones == map[] && s.history == map[STATE := {100}]
      && s.authority == Registry(1, map[BOOT := WORKER], map[], map[STATE := Holder(5, BOOT)])
  {
    hide CountPublished;
    var none: set<u64> := {};
    assert none + {100} == {100};
  }

  lemma RunToOne(D: Digest) returns (ss: seq<EngineState>, ops: seq<Op>)
    ensures IsRun(D, ss, ops) && |ops| == 2 && ss[2] == WithOne(D)
  {
    hide IsRun;
    NoSteps(D);
    ss, ops := [FreshEngine(1)], [];
    OneMoreStep(D, ss, ops, RegisterWorkerOp(WORKER, BOOT), Staffed());
    ss, ops := ss + [Staffed()], ops + [RegisterWorkerOp(WORKER, BOOT)];
    var op := RegisterStateOp(Sample(100, STATE, 5), TOKENS);
    OneMoreStep(D, ss, ops, op, WithOne(D));
    ss, ops := ss + [WithOne(D)], ops + [op];
    RunLength(D, ss, ops);
  }

  lemma RunLength(D: Digest, ss: seq<EngineState>, ops: seq<Op>)
    requires IsRun(D, ss, ops)
    ensures |ss| == |ops| + 1
  {
  }
}
