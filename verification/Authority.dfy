/** The registry that decides whether a mutation is stale: the coordinator epoch, the live worker
    boots, tombstone floors, and who holds the current generation of each state. */
module Authority {
  import opened Basics

  datatype Verdict =
    | Accepted
    | RejectedStaleEpoch
    | RejectedStaleBoot
    | RejectedGenerationRegression
    | RejectedDuplicate
    | RejectedTombstoned
    | RejectedNotLive
    | RejectedNonMonotonic

  /** The tokens of a mutation that any decision reads. */
  datatype Envelope = Envelope(
    coordinatorEpoch: u64,
    workerBoot: u64,
    recordGeneration: u64,
    locationGeneration: u64,
    provenanceGeneration: u64
  )

  datatype Holder = Holder(generation: u64, boot: u64)

  datatype Registry = Registry(
    epoch: u64,
    live: map<u64, u64>,
    floors: map<u64, u64>,
    holders: map<u64, Holder>
  ) {
    /** The decision on publishing `generation` of `state`, branch for branch. */
    function Validate(state: u64, env: Envelope, generation: u64): (v: Verdict)
      ensures v == Accepted <==>
        && env.coordinatorEpoch == epoch
        && env.workerBoot in live
        && generation != 0
        && (state in floors ==> generation > floors[state])
        && (state in holders && (env.workerBoot == holders[state].boot || holders[state].boot in live)
            ==> generation > holders[state].generation)
      ensures v == RejectedStaleEpoch <==> env.coordinatorEpoch != epoch
      ensures v == RejectedStaleBoot <==> env.coordinatorEpoch == epoch && env.workerBoot !in live
      ensures v in {RejectedTombstoned, RejectedDuplicate, RejectedGenerationRegression, Accepted}
        <==> env.coordinatorEpoch == epoch && env.workerBoot in live
      ensures v == RejectedTombstoned <==>
        && env.coordinatorEpoch == epoch && env.workerBoot in live
        && generation != 0 && state in floors && generation <= floors[state]
      ensures v == RejectedDuplicate <==>
        && env.coordinatorEpoch == epoch && env.workerBoot in live
        && generation != 0 && (state in floors ==> generation > floors[state])
        && state in holders && (env.workerBoot == holders[state].boot || holders[state].boot in live)
        && generation == holders[state].generation
    {
      if env.coordinatorEpoch != epoch then RejectedStaleEpoch
      else if env.workerBoot !in live then RejectedStaleBoot
      else if generation == 0 then RejectedGenerationRegression
      else if state in floors && generation <= floors[state] then RejectedTombstoned
      else if state in holders then
        var held := holders[state];
        if env.workerBoot == held.boot then
          if generation == held.generation then RejectedDuplicate
          else if generation < held.generation then RejectedGenerationRegression
          else Accepted
        else if held.boot in live then
          if generation == held.generation then RejectedDuplicate
          else if generation < held.generation then RejectedGenerationRegression
          else Accepted
        else if state in floors && generation <= floors[state] then RejectedTombstoned
        else Accepted
      else if state in floors && generation <= floors[state] then RejectedTombstoned
      else Accepted
    }

    function RegisterWorker(worker: u64, boot: u64): Registry {
      this.(live := live[boot := worker])
    }

    function UnregisterWorker(boot: u64): Registry {
      this.(live := live - {boot})
    }

    /** A 64-bit counter: after the last epoch comes zero. */
    function AdvanceEpoch(): Registry {
      this.(epoch := if epoch == MAX_U64 then 0 else epoch + 1)
    }

    function SetFloor(state: u64, floor: u64): Registry {
      this.(floors := floors[state := floor])
    }

    function SetHolder(state: u64, generation: u64, boot: u64): Registry {
      this.(holders := holders[state := Holder(generation, boot)])
    }

    function ClearHolder(state: u64): Registry {
      this.(holders := holders - {state})
    }

    /** What a load does to the registry: the image gives the epoch, and no boot survives. */
    function Reset(newEpoch: u64): Registry {
      this.(epoch := newEpoch, live := map[])
    }
  }

  class AuthorityRegistry {
    var epoch: u64
    var liveBoots: map<u64, u64>
    var tombstoneFloor: map<u64, u64>
    var currentAuthority: map<u64, Holder>

    ghost function View(): Registry
      reads this
    {
      Registry(epoch, liveBoots, tombstoneFloor, currentAuthority)
    }

    constructor (initialEpoch: u64)
      ensures View() == Registry(initialEpoch, map[], map[], map[])
    {
      epoch := initialEpoch;
      liveBoots, tombstoneFloor, currentAuthority := map[], map[], map[];
    }

    method RegisterWorker(worker: u64, boot: u64)
      modifies this
      ensures View() == old(View()).RegisterWorker(worker, boot)
    {
      liveBoots := liveBoots[boot := worker];
    }

    method UnregisterWorker(boot: u64)
      modifies this
      ensures View() == old(View()).UnregisterWorker(boot)
    {
      if boot in liveBoots {
        liveBoots := liveBoots - {boot};
      }
    }

    method AdvanceEpoch()
      modifies this
      ensures View() == old(View()).AdvanceEpoch()
    {
      epoch := if epoch == MAX_U64 then 0 else epoch + 1;
    }

    method SetEpoch(e: u64)
      modifies this
      ensures View() == old(View()).(epoch := e)
    {
      epoch := e;
    }

    method ClearLiveWorkers()
      modifies this
      ensures View() == old(View()).(live := map[])
    {
      liveBoots := map[];
    }

    method SetTombstoneFloor(state: u64, floor: u64)
      modifies this
      ensures View() == old(View()).SetFloor(state, floor)
    {
      tombstoneFloor := tombstoneFloor[state := floor];
    }

    method SetCurrentAuthority(state: u64, generation: u64, boot: u64)
      modifies this
      ensures View() == old(View()).SetHolder(state, generation, boot)
    {
      currentAuthority := currentAuthority[state := Holder(generation, boot)];
    }

    method ClearCurrentAuthority(state: u64)
      modifies this
      ensures View() == old(View()).ClearHolder(state)
    {
      currentAuthority := currentAuthority - {state};
    }

    method ValidateStatePublication(state: u64, env: Envelope, generation: u64) returns (v: Verdict)
      ensures v == View().Validate(state, env, generation)
      ensures v == Accepted <==>
        && env.coordinatorEpoch == epoch && env.workerBoot in liveBoots && generation != 0
        && (state in tombstoneFloor ==> generation > tombstoneFloor[state])
        && (state in currentAuthority
            && (env.workerBoot == currentAuthority[state].boot || currentAuthority[state].boot in liveBoots)
            ==> generation > currentAuthority[state].generation)
    {
      if env.coordinatorEpoch != epoch {
        return RejectedStaleEpoch;
      }
      if env.workerBoot !in liveBoots {
        return RejectedStaleBoot;
      }
      if generation == 0 {
        return RejectedGenerationRegression;
      }
      if state in tombstoneFloor && generation <= tombstoneFloor[state] {
        return RejectedTombstoned;
      }
      if state in currentAuthority {
        var held := currentAuthority[state];
        if env.workerBoot == held.boot {
          if generation == held.generation {
            return RejectedDuplicate;
          }
          if generation < held.generation {
            return RejectedGenerationRegression;
          }
          return Accepted;
        }
        if held.boot in liveBoots {
          if generation == held.generation {
            return RejectedDuplicate;
          }
          if generation < held.generation {
            return RejectedGenerationRegression;
          }
          return Accepted;
        }
      }
      // the floor has been tested, so asking again before accepting changes nothing
      v := Accepted;
    }
  }
}
