/** What the indexes and the candidate lists hold, on the fields of the records. */
module IndexMeaning {
  import opened Basics
  import opened Model
  import opened Transitions
  import opened Invariants
  import opened Runs
  import opened Indexes
  import opened IndexRuns
  import opened Queries
  import opened Planner
  import opened Answers

  // -------- Keys --------

  function TwoTo(n: nat): nat {
    if n == 0 then 1 else 2 * TwoTo(n - 1)
  }

  /** The bucket is the exponent of the highest power of two in the size; nothing and one share the first. */
  predicate InBucket(size: nat, bucket: nat) {
    if bucket == 0 then size < 2 else TwoTo(bucket) <= size < TwoTo(bucket + 1)
  }

  /** Does the record belong under the key? Owner, producer, digest and device may be unset. */
  predicate BelongsUnder(rec: StateRecord, k: IndexKey) {
    match k
    case ByState(state) => rec.stateId == state
    case ByKind(kind) => rec.descriptor.kind == kind
    case ByNamespace(ns) => rec.descriptor.namespaceId == ns
    case ByOwner(owner) => rec.descriptor.ownerId == owner && owner != 0
    case ByProducer(producer) => rec.descriptor.producerId == producer && producer != 0
    case ByDigest(digest) => rec.descriptor.contentDigest == digest && |digest| > 0
    case ByCompat(compat) => rec.descriptor.compatibility.Some? && rec.descriptor.compatibility.value.id == compat
    case ByDepTarget(target) =>
      exists i :: 0 <= i < |rec.descriptor.dependencies| && rec.descriptor.dependencies[i].targetState == target
    case ByNode(node) => exists i :: 0 <= i < |rec.locations| && rec.locations[i].nodeId == node
    case ByDevice(device) => device != 0 && exists i :: 0 <= i < |rec.locations| && rec.locations[i].deviceId == device
    case ByDomain(domain) => exists i :: 0 <= i < |rec.locations| && rec.locations[i].domain == domain
    case ByFreshness(freshness) => rec.descriptor.freshness == freshness
    case ByHealth(health) => rec.descriptor.health == health
    case ByLifecycle(lifecycle) => rec.lifecycle == lifecycle
    case ByGeneration(generation) => rec.stateGeneration == generation
    case BySize(bucket) => InBucket(rec.descriptor.logicalSize, bucket)
  }

  lemma {:induction false} BucketMeaning(size: nat, bucket: nat)
    ensures SizeBucket(size) == bucket <==> InBucket(size, bucket)
    decreases size
  {
    if size <= 1 {
      PowerPositive(bucket);
    } else {
      if bucket > 0 {
        BucketMeaning(size / 2, bucket - 1);
      }
    }
  }

  lemma {:induction false} PowerPositive(n: nat)
    ensures TwoTo(n) >= 1
  {
    if n > 0 {
      PowerPositive(n - 1);
    }
  }

  lemma LocationKeysMeaning(ls: seq<StateLocation>, k: IndexKey)
    ensures k in AllLocationKeys(ls) <==> exists i :: 0 <= i < |ls| && k in LocationKeys(ls[i])
  {
    hide LocationKeys;
  }

  lemma MovingMeaning(rec: StateRecord, k: IndexKey)
    requires k.Moving()
    ensures k in KeysOf(rec) <==> BelongsUnder(rec, k)
  {
    hide AllLocationKeys;
    LocationKeysMeaning(rec.locations, k);
    assert k !in FixedKeys(rec.stateId, rec.stateGeneration, rec.descriptor);
  }

  lemma FixedMeaning(rec: StateRecord, k: IndexKey)
    requires !k.Moving()
    ensures k in KeysOf(rec) <==> BelongsUnder(rec, k)
  {
    hide SizeBucket, InBucket, KeysOf;
    FixedPart(rec, k);
    if k.BySize? {
      BucketMeaning(rec.descriptor.logicalSize, k.bucket);
    }
    if k.ByDepTarget? && BelongsUnder(rec, k) {
      var i :| 0 <= i < |rec.descriptor.dependencies| && rec.descriptor.dependencies[i].targetState == k.target;
      assert rec.descriptor.dependencies[i] in rec.descriptor.dependencies;
    }
  }

  /** A record is filed under exactly the keys that its fields give. */
  lemma KeysMeaning(rec: StateRecord, k: IndexKey)
    ensures k in KeysOf(rec) <==> BelongsUnder(rec, k)
  {
    hide KeysOf, BelongsUnder;
    if k.Moving() {
      MovingMeaning(rec, k);
    } else {
      FixedMeaning(rec, k);
    }
  }

  // -------- Along runs --------

  /** In every reachable state an index on unchanging fields lists exactly the records with that field. */
  lemma FiledByFields(D: Digest, ss: seq<EngineState>, ops: seq<Op>, vs: seq<IndexView>, n: nat, k: IndexKey, id: u64)
    requires n < |ss| && IgnoresUnhashed(D) && IsIndexedRun(D, ss, ops, vs)
    requires !k.ByLifecycle? && !k.ByNode? && !k.ByDevice? && !k.ByDomain?
    ensures id in Lookup(vs[n].ids, k) <==> id in ss[n].records && BelongsUnder(ss[n].records[id], k)
  {
    hide KeysOf, BelongsUnder, IsIndexedRun, IgnoresUnhashed;
    FixedIndexesExact(D, ss, ops, vs, n, k);
    if id in ss[n].records {
      KeysMeaning(ss[n].records[id], k);
    }
  }

  /** A query looks at the records of its state, else at those of its kind, else at all of them. */
  predicate LooksAt(q: Query, rec: StateRecord) {
    if q.stateId.Some? then rec.stateId == q.stateId.value
    else q.kind.Some? ==> rec.descriptor.kind == q.kind.value
  }

  lemma CandidatesMeaning(D: Digest, ss: seq<EngineState>, ops: seq<Op>, vs: seq<IndexView>, n: nat, q: Query, id: u64)
    requires n < |ss| && IgnoresUnhashed(D) && IsIndexedRun(D, ss, ops, vs)
    ensures id in CandidateSet(vs[n].ids, CatalogOf(ss[n]), q) <==>
      id in ss[n].records && LooksAt(q, ss[n].records[id])
  {
    hide Lookup, IsIndexedRun, IgnoresUnhashed;
    if q.stateId.Some? {
      FiledByFields(D, ss, ops, vs, n, ByState(q.stateId.value), id);
    } else if q.kind.Some? {
      FiledByFields(D, ss, ops, vs, n, ByKind(q.kind.value), id);
    }
  }
}
