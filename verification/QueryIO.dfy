/** The methods that write and read queries, proved against the format. */
module QueryIO {
  import opened Basics
  import opened ByteBuf
  import opened Model
  import opened RecordCodec
  import opened Queries
  import opened QueryCodec

  // -------- Writers --------

  method PushMaybeId(x: Option<u64>, w: ByteWriter)
    modifies w
    ensures forall t: Bytes {:trigger PutOption(PutId, x, t)} :: w.buf + t == old(w.buf) + PutOption(PutId, x, t)
  {
    w.PushBool(x.Some?);
    if x.Some? {
      w.PushU64(x.value);
    }
  }

  method PushMaybeKind(x: Option<u16>, w: ByteWriter)
    modifies w
    ensures forall t: Bytes {:trigger PutOption(PutKind, x, t)} :: w.buf + t == old(w.buf) + PutOption(PutKind, x, t)
  {
    w.PushBool(x.Some?);
    if x.Some? {
      w.PushU16(x.value);
    }
  }

  method SerializeRequirement(d: DependencyRequirement, w: ByteWriter)
    modifies w
    ensures forall t: Bytes {:trigger PutRequirement(d, t)} :: w.buf + t == old(w.buf) + PutRequirement(d, t)
  {
    w.PushU64(d.targetState);
    w.PushU64(d.minimumGeneration);
    w.PushBool(d.required);
  }

  method PushCodes(codes: seq<u8>, w: ByteWriter)
    modifies w
    ensures forall t: Bytes {:trigger PutList(PutCode, codes, t)} ::
      w.buf + t == old(w.buf) + PutList(PutCode, codes, t)
  {
    ghost var before := w.buf;
    AppendedNothing(PutCode, before, codes);
    var i := 0;
    while i < |codes|
      invariant 0 <= i <= |codes| && Appended(PutCode, before, codes, i, w.buf)
    {
      ghost var middle := w.buf;
      w.PushByte(codes[i]);
      assert forall t: Bytes :: PutCode(codes[i], t) == PutU8(codes[i], t);
      AppendedOneMore(PutCode, before, codes, i, middle, w.buf);
      i := i + 1;
    }
    AppendedAll(PutCode, before, codes, w.buf);
  }

  method PushIds(ids: seq<u64>, w: ByteWriter)
    modifies w
    ensures forall t: Bytes {:trigger PutList(PutId, ids, t)} :: w.buf + t == old(w.buf) + PutList(PutId, ids, t)
  {
    ghost var before := w.buf;
    AppendedNothing(PutId, before, ids);
    var i := 0;
    while i < |ids|
      invariant 0 <= i <= |ids| && Appended(PutId, before, ids, i, w.buf)
    {
      ghost var middle := w.buf;
      w.PushU64(ids[i]);
      assert forall t: Bytes :: PutId(ids[i], t) == PutU64(ids[i], t);
      AppendedOneMore(PutId, before, ids, i, middle, w.buf);
      i := i + 1;
    }
    AppendedAll(PutId, before, ids, w.buf);
  }

  method SerializeRequirements(ds: seq<DependencyRequirement>, w: ByteWriter)
    modifies w
    ensures forall t: Bytes {:trigger PutList(PutRequirement, ds, t)} ::
      w.buf + t == old(w.buf) + PutList(PutRequirement, ds, t)
  {
    ghost var before := w.buf;
    AppendedNothing(PutRequirement, before, ds);
    var i := 0;
    while i < |ds|
      invariant 0 <= i <= |ds| && Appended(PutRequirement, before, ds, i, w.buf)
    {
      ghost var middle := w.buf;
      SerializeRequirement(ds[i], w);
      AppendedOneMore(PutRequirement, before, ds, i, middle, w.buf);
      i := i + 1;
    }
    AppendedAll(PutRequirement, before, ds, w.buf);
  }

  method SerializeConstraint(k: LocationConstraint, w: ByteWriter)
    modifies w
    ensures forall t: Bytes {:trigger PutConstraint(k, t)} :: w.buf + t == old(w.buf) + PutConstraint(k, t)
  {
    hide PutList, PutNumber, PutU8;
    w.PushNumber(|k.domains|, 8);
    PushCodes(k.domains, w);
    w.PushNumber(|k.nodes|, 8);
    PushIds(k.nodes, w);
    w.PushNumber(|k.devices|, 8);
    PushIds(k.devices, w);
    w.PushByte(k.preferredAccess);
  }

  method SerializeQueryHead(q: Query, w: ByteWriter)
    modifies w
    ensures forall t: Bytes {:trigger PutQueryHead(q, t)} :: w.buf + t == old(w.buf) + PutQueryHead(q, t)
  {
    hide PutOption, PutU8, PutU64, PutBool;
    w.PushU64(q.queryId);
    PushMaybeKind(q.kind, w);
    PushMaybeId(q.stateId, w);
    w.PushBool(q.wildcardStateId);
    PushMaybeId(q.namespaceId, w);
    w.PushByte(q.generationRule);
    PushMaybeId(q.minimumGeneration, w);
    PushMaybeId(q.exactGeneration, w);
    PushMaybeId(q.asOfGeneration, w);
    w.PushByte(q.compatibility);
  }

  method SerializeQueryBody(q: Query, w: ByteWriter)
    modifies w
    ensures forall t: Bytes {:trigger PutQueryBody(q, t)} :: w.buf + t == old(w.buf) + PutQueryBody(q, t)
  {
    hide PutOption, PutList, PutNumber, PutText, PutConstraint;
    w.PushNumber(|q.dependencyRequirements|, 8);
    SerializeRequirements(q.dependencyRequirements, w);
    w.PushString(q.contentDigest);
    PushMaybeId(q.ownerId, w);
    PushMaybeId(q.producerId, w);
    SerializeConstraint(q.locationConstraint, w);
  }

  method SerializeQueryEnd(q: Query, w: ByteWriter)
    requires CostFits(q.maxRetrievalCost)
    modifies w
    ensures forall t: Bytes {:trigger PutQueryEnd(q, t)} :: w.buf + t == old(w.buf) + PutQueryEnd(q, t)
  {
    hide PutList, PutNumber, PutU8, PutU32, PutU64, PutBool;
    w.PushByte(q.requiredFreshness);
    w.PushByte(q.requiredHealth);
    w.PushU64(Thousandths(q.maxRetrievalCost));
    w.PushNumber(|q.localityPreference|, 8);
    PushCodes(q.localityPreference, w);
    w.PushU32(q.minReplicaCount);
    w.PushU64(q.policyGeneration);
    w.PushU64(q.queryGeneration);
    w.PushBool(q.includeInvalidated);
    w.PushBool(q.historicalOnly);
  }

  method SerializeQuery(q: Query, w: ByteWriter)
    requires CostFits(q.maxRetrievalCost)
    modifies w
    ensures forall t: Bytes {:trigger PutQuery(q, t)} :: w.buf + t == old(w.buf) + PutQuery(q, t)
  {
    hide PutQueryHead, PutQueryBody, PutQueryEnd;
    SerializeQueryHead(q, w);
    SerializeQueryBody(q, w);
    SerializeQueryEnd(q, w);
  }

  // -------- Readers --------

  method ReadMaybeId(r: ByteReader) returns (res: Option<Option<u64>>)
    requires r.Valid()
    modifies r`pos
    ensures r.Valid() && Reads(res, r.Rest(), GetOption(GetId, old(r.Rest())))
  {
    var present :- r.ReadBool();
    if present {
      var v :- r.ReadU64();
      return Some(Some(v));
    }
    res := Some(None);
  }

  method ReadMaybeKind(r: ByteReader) returns (res: Option<Option<u16>>)
    requires r.Valid()
    modifies r`pos
    ensures r.Valid() && Reads(res, r.Rest(), GetOption(GetKind, old(r.Rest())))
  {
    var present :- r.ReadBool();
    if present {
      var v :- r.ReadU16();
      return Some(Some(v));
    }
    res := Some(None);
  }

  method DeserializeRequirement(r: ByteReader) returns (res: Option<DependencyRequirement>)
    requires r.Valid()
    modifies r`pos
    ensures r.Valid() && Reads(res, r.Rest(), GetRequirement(old(r.Rest())))
  {
    var target :- r.ReadU64();
    var minimum :- r.ReadU64();
    var required :- r.ReadBool();
    res := Some(DependencyRequirement(target, minimum, required));
  }

  method ReadCodes(r: ByteReader) returns (res: Option<seq<u8>>)
    requires r.Valid()
    modifies r`pos
    ensures r.Valid() && Reads(res, r.Rest(), GetBounded(GetCode, MAX_LOCATIONS, old(r.Rest())))
  {
    var n :- r.ReadU64();
    if n > MAX_LOCATIONS {
      return None;
    }
    ghost var start := r.Rest();
    var xs: seq<u8> := [];
    var i := 0;
    while i < n
      invariant 0 <= i <= n && r.Valid()
      invariant Pending(GetCode, xs, n - i, r.Rest()) == Pending(GetCode, [], n, start)
    {
      ghost var before := r.Rest();
      var x := r.ReadU8();
      PendingStep(GetCode, xs, n - i, before, x, r.Rest());
      if x.None? {
        PendingEnds(GetCode, [], n, start);
        return None;
      }
      xs := xs + [x.value];
      i := i + 1;
    }
    PendingEnds(GetCode, xs, n, start);
    PendingEnds(GetCode, xs, 0, r.Rest());
    res := Some(xs);
  }

  method ReadIds(r: ByteReader) returns (res: Option<seq<u64>>)
    requires r.Valid()
    modifies r`pos
    ensures r.Valid() && Reads(res, r.Rest(), GetBounded(GetId, MAX_LOCATIONS, old(r.Rest())))
  {
    var n :- r.ReadU64();
    if n > MAX_LOCATIONS {
      return None;
    }
    ghost var start := r.Rest();
    var xs: seq<u64> := [];
    var i := 0;
    while i < n
      invariant 0 <= i <= n && r.Valid()
      invariant Pending(GetId, xs, n - i, r.Rest()) == Pending(GetId, [], n, start)
    {
      ghost var before := r.Rest();
      var x := r.ReadU64();
      PendingStep(GetId, xs, n - i, before, x, r.Rest());
      if x.None? {
        PendingEnds(GetId, [], n, start);
        return None;
      }
      xs := xs + [x.value];
      i := i + 1;
    }
    PendingEnds(GetId, xs, n, start);
    PendingEnds(GetId, xs, 0, r.Rest());
    res := Some(xs);
  }

  method DeserializeRequirements(r: ByteReader) returns (res: Option<seq<DependencyRequirement>>)
    requires r.Valid()
    modifies r`pos
    ensures r.Valid() && Reads(res, r.Rest(), GetBounded(GetRequirement, MAX_DEPENDENCIES, old(r.Rest())))
  {
    var n :- r.ReadU64();
    if n > MAX_DEPENDENCIES {
      return None;
    }
    ghost var start := r.Rest();
    var xs: seq<DependencyRequirement> := [];
    var i := 0;
    while i < n
      invariant 0 <= i <= n && r.Valid()
      invariant Pending(GetRequirement, xs, n - i, r.Rest()) == Pending(GetRequirement, [], n, start)
    {
      ghost var before := r.Rest();
      var x := DeserializeRequirement(r);
      PendingStep(GetRequirement, xs, n - i, before, x, r.Rest());
      if x.None? {
        PendingEnds(GetRequirement, [], n, start);
        return None;
      }
      xs := xs + [x.value];
      i := i + 1;
    }
    PendingEnds(GetRequirement, xs, n, start);
    PendingEnds(GetRequirement, xs, 0, r.Rest());
    res := Some(xs);
  }

  method DeserializeConstraint(r: ByteReader) returns (res: Option<LocationConstraint>)
    requires r.Valid()
    modifies r`pos
    ensures r.Valid() && Reads(res, r.Rest(), GetConstraint(old(r.Rest())))
  {
    hide GetBounded, GetU8;
    var domains :- ReadCodes(r);
    var nodes :- ReadIds(r);
    var devices :- ReadIds(r);
    var access :- r.ReadU8();
    res := Some(LocationConstraint(domains, nodes, devices, access));
  }

  method DeserializeQueryHead(r: ByteReader) returns (res: Option<Query>)
    requires r.Valid()
    modifies r`pos
    ensures r.Valid() && Reads(res, r.Rest(), GetQueryHead(old(r.Rest())))
  {
    hide GetOption, GetU8, GetU64, GetBool;
    var id :- r.ReadU64();
    var kind :- ReadMaybeKind(r);
    var state :- ReadMaybeId(r);
    var wildcard :- r.ReadBool();
    var namespaceId :- ReadMaybeId(r);
    var rule :- r.ReadU8();
    var minimum :- ReadMaybeId(r);
    var exact :- ReadMaybeId(r);
    var asOf :- ReadMaybeId(r);
    var compatibility :- r.ReadU8();
    res := Some(BLANK_QUERY.(queryId := id, kind := kind, stateId := state, wildcardStateId := wildcard,
                             namespaceId := namespaceId, generationRule := rule, minimumGeneration := minimum,
                             exactGeneration := exact, asOfGeneration := asOf, compatibility := compatibility));
  }

  method DeserializeQueryBody(q: Query, r: ByteReader) returns (res: Option<Query>)
    requires r.Valid()
    modifies r`pos
    ensures r.Valid() && Reads(res, r.Rest(), GetQueryBody(q, old(r.Rest())))
  {
    hide GetBounded, GetText, GetOption, GetConstraint;
    var requirements :- DeserializeRequirements(r);
    var digest :- r.ReadString();
    var owner :- ReadMaybeId(r);
    var producer :- ReadMaybeId(r);
    var constraint :- DeserializeConstraint(r);
    res := Some(q.(dependencyRequirements := requirements, contentDigest := digest, ownerId := owner,
                   producerId := producer, locationConstraint := constraint));
  }

  method DeserializeQueryEnd(q: Query, r: ByteReader) returns (res: Option<Query>)
    requires r.Valid()
    modifies r`pos
    ensures r.Valid() && Reads(res, r.Rest(), GetQueryEnd(q, old(r.Rest())))
  {
    hide GetBounded, GetU8, GetU32, GetU64, GetBool;
    var freshness :- r.ReadU8();
    var health :- r.ReadU8();
    var cost :- r.ReadU64();
    var locality :- ReadCodes(r);
    var replicas :- r.ReadU32();
    var policy :- r.ReadU64();
    var generation :- r.ReadU64();
    var invalidated :- r.ReadBool();
    var historical :- r.ReadBool();
    res := Some(q.(requiredFreshness := freshness, requiredHealth := health, maxRetrievalCost := CostOf(cost),
                   localityPreference := locality, minReplicaCount := replicas, policyGeneration := policy,
                   queryGeneration := generation, includeInvalidated := invalidated, historicalOnly := historical));
  }

  method DeserializeQuery(r: ByteReader) returns (res: Option<Query>)
    requires r.Valid()
    modifies r`pos
    ensures r.Valid() && Reads(res, r.Rest(), GetQuery(old(r.Rest())))
  {
    hide GetQueryHead, GetQueryBody, GetQueryEnd;
    var q :- DeserializeQueryHead(r);
    q :- DeserializeQueryBody(q, r);
    res := DeserializeQueryEnd(q, r);
  }
}
