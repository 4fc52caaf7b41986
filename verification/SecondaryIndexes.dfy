/** The index object: lists of record ids kept sorted and free of duplicates, changed in place. */
module SecondaryIndexes {
  import opened Basics
  import opened Model
  import opened Sorting
  import opened RecordSorting
  import opened Indexes

  // -------- Composing additions and removals --------

  lemma LookupWith(ids: map<IndexKey, set<u64>>, keys: set<IndexKey>, id: u64, x: IndexKey)
    ensures x in WithKeys(ids, keys, id) <==> x in ids || x in keys
    ensures x in WithKeys(ids, keys, id) ==>
      WithKeys(ids, keys, id)[x] == Lookup(ids, x) + if x in keys then {id} else {}
    ensures Lookup(WithKeys(ids, keys, id), x) == Lookup(ids, x) + if x in keys then {id} else {}
  {
  }

  lemma WithKeysUnion(ids: map<IndexKey, set<u64>>, a: set<IndexKey>, b: set<IndexKey>, id: u64)
    ensures WithKeys(WithKeys(ids, a, id), b, id) == WithKeys(ids, a + b, id)
    ensures WithKeys(ids, {}, id) == ids
  {
    hide WithKeys;
    var mid := WithKeys(ids, a, id);
    var left, right := WithKeys(mid, b, id), WithKeys(ids, a + b, id);
    forall x ensures (x in left <==> x in right) && (x in left ==> left[x] == right[x]) {
      LookupWith(ids, a, id, x);
      LookupWith(mid, b, id, x);
      LookupWith(ids, a + b, id, x);
    }
    assert left == right;
    var same := WithKeys(ids, {}, id);
    forall x ensures (x in same <==> x in ids) && (x in same ==> same[x] == ids[x]) {
      LookupWith(ids, {}, id, x);
    }
    assert same == ids;
  }

  lemma WithoutKeysUnion(ids: map<IndexKey, set<u64>>, a: set<IndexKey>, b: set<IndexKey>, id: u64)
    ensures WithoutKeys(WithoutKeys(ids, a, id), b, id) == WithoutKeys(ids, a + b, id)
    ensures WithoutKeys(ids, {}, id) == ids
  {
    var left, right := WithoutKeys(WithoutKeys(ids, a, id), b, id), WithoutKeys(ids, a + b, id);
    forall x ensures x in left <==> x in right {
      if x in ids {
        assert ids[x] - {id} - {id} == ids[x] - {id};
      }
    }
    forall x | x in left ensures left[x] == right[x] {
      assert ids[x] - {id} - {id} == ids[x] - {id};
    }
  }

  // -------- The keys in the order the source visits them --------

  function HeadKeys(rec: StateRecord): set<IndexKey> {
    var d := rec.descriptor;
    {} + {ByState(rec.stateId)} + {ByKind(d.kind)} + {ByNamespace(d.namespaceId)}
    + (if d.ownerId != 0 then {ByOwner(d.ownerId)} else {})
    + (if d.producerId != 0 then {ByProducer(d.producerId)} else {})
    + (if d.contentDigest != [] then {ByDigest(d.contentDigest)} else {})
    + (if d.compatibility.Some? then {ByCompat(d.compatibility.value.id)} else {})
  }

  function TailKeys(rec: StateRecord): set<IndexKey> {
    {} + {ByFreshness(rec.descriptor.freshness)} + {ByHealth(rec.descriptor.health)} + {ByLifecycle(rec.lifecycle)}
    + {ByGeneration(rec.stateGeneration)} + {BySize(SizeBucket(rec.descriptor.logicalSize))}
  }

  lemma KeysInOrder(rec: StateRecord)
    ensures KeysOf(rec)
         == HeadKeys(rec) + DependencyKeys(rec.descriptor.dependencies) + AllLocationKeys(rec.locations) + TailKeys(rec)
  {
    hide SizeBucket, DependencyKeys, AllLocationKeys;
  }

  lemma NoDependencyKeys()
    ensures DependencyKeys([]) == {}
  {
  }

  lemma NoLocationKeys()
    ensures AllLocationKeys([]) == {} && Placements([]) == {}
  {
  }

  lemma LongerDependencyKeys(ds: seq<DependencyRef>, i: nat)
    requires i < |ds|
    ensures DependencyKeys(ds[..i + 1]) == DependencyKeys(ds[..i]) + {ByDepTarget(ds[i].targetState)}
  {
    assert ds[..i + 1] == ds[..i] + [ds[i]];
  }

  lemma LongerLocationKeys(ls: seq<StateLocation>, i: nat)
    requires i < |ls|
    ensures AllLocationKeys(ls[..i + 1]) == AllLocationKeys(ls[..i]) + LocationKeys(ls[i])
    ensures Placements(ls[..i + 1]) == Placements(ls[..i]) + {ls[i].placementId}
  {
    assert ls[..i + 1] == ls[..i] + [ls[i]];
  }

  lemma WithOwnerUnion(owner: map<u64, u64>, a: set<u64>, p: u64, id: u64)
    ensures WithOwner(owner, a, id)[p := id] == WithOwner(owner, a + {p}, id)
    ensures WithOwner(owner, {}, id) == owner
  {
  }

  lemma WithoutOwnerUnion(owner: map<u64, u64>, a: set<u64>, p: u64, id: u64)
    ensures var rest := WithoutOwner(owner, a, id);
      (if p in rest && rest[p] == id then rest - {p} else rest) == WithoutOwner(owner, a + {p}, id)
    ensures WithoutOwner(owner, {}, id) == owner
  {
  }

  // -------- Rebuilding and checking --------

  /** rs holds exactly the records of the table. */
  ghost predicate ListsRecords(rs: seq<StateRecord>, table: map<u64, StateRecord>) {
    && (forall r :: r in rs ==> r.recordId in table && table[r.recordId] == r)
    && (forall id :: id in table ==> table[id] in rs && table[id].recordId == id)
  }

  /** Where records share a placement, the last inserted one, of the highest id, owns it. */
  ghost predicate LatestOwns(owner: map<u64, u64>, records: map<u64, StateRecord>) {
    forall p, id :: HeldBy(records, id, p) ==> p in owner && id <= owner[p]
  }

  lemma SortedListsSame(rs: seq<StateRecord>, sorted: seq<StateRecord>, table: map<u64, StateRecord>)
    requires ListsRecords(rs, table) && multiset(sorted) == multiset(rs)
    ensures ListsRecords(sorted, table)
  {
    forall r ensures r in sorted <==> r in rs {
      assert r in sorted <==> r in multiset(sorted);
      assert r in rs <==> r in multiset(rs);
    }
  }

  function IdsOf(rs: seq<StateRecord>): set<u64> {
    set r | r in rs :: r.recordId
  }

  /** Every placement of a listed record has an owner of at least the record's id. */
  ghost predicate OwnedLatest(owner: map<u64, u64>, rs: seq<StateRecord>) {
    forall r, p :: r in rs && p in Placements(r.locations) ==> p in owner && r.recordId <= owner[p]
  }

  lemma LatestOneMore(owner: map<u64, u64>, done: seq<StateRecord>, rec: StateRecord)
    requires OwnedLatest(owner, done)
    requires forall r :: r in done ==> r.recordId <= rec.recordId
    ensures OwnedLatest(WithOwner(owner, Placements(rec.locations), rec.recordId), done + [rec])
  {
    hide Placements;
  }

  lemma FirstRecords(rs: seq<StateRecord>, i: nat)
    requires OrderedBy(rs, RecordId) && i < |rs|
    ensures rs[..i + 1] == rs[..i] + [rs[i]] && IdsOf(rs[..i + 1]) == IdsOf(rs[..i]) + {rs[i].recordId}
    ensures forall r :: r in rs[..i] ==> r.recordId <= rs[i].recordId
  {
    assert rs[..i + 1] == rs[..i] + [rs[i]];
  }

  lemma AllListed(rs: seq<StateRecord>, table: map<u64, StateRecord>)
    requires ListsRecords(rs, table)
    ensures IdsOf(rs) == table.Keys
    ensures forall i :: 0 <= i < |rs| ==> rs[i].recordId in table && table[rs[i].recordId] == rs[i]
    ensures forall owner :: OwnedLatest(owner, rs) ==> LatestOwns(owner, table)
  {
    hide Placements;
    forall id ensures id in IdsOf(rs) <==> id in table {
      if id in table {
        assert table[id] in rs;
      }
    }
    forall owner, p, id | OwnedLatest(owner, rs) && HeldBy(table, id, p) ensures p in owner && id <= owner[p] {
      assert table[id] in rs;
    }
  }

  /** The part of Verified that is about one record. */
  ghost predicate RecordIndexed(v: IndexView, rec: StateRecord) {
    && (forall k :: k in KeysOf(rec) ==> rec.recordId in Lookup(v.ids, k))
    && (forall p :: p in Placements(rec.locations) ==> p in v.owner && v.owner[p] == rec.recordId)
  }

  lemma VerifiedByRecord(v: IndexView, rs: seq<StateRecord>, table: map<u64, StateRecord>)
    requires ListsRecords(rs, table)
    ensures Complete(v, table) && OwnersMatch(v, table) <==> forall i :: 0 <= i < |rs| ==> RecordIndexed(v, rs[i])
  {
    hide KeysOf, Placements;
    if forall i :: 0 <= i < |rs| ==> RecordIndexed(v, rs[i]) {
      forall id | id in table ensures RecordIndexed(v, table[id]) {
        var i :| 0 <= i < |rs| && rs[i] == table[id];
      }
      forall k ensures Holders(table, k) <= Lookup(v.ids, k) {
        forall id | id in Holders(table, k) ensures id in Lookup(v.ids, k) {
          assert RecordIndexed(v, table[id]);
        }
      }
      forall id, p | HeldBy(table, id, p) ensures p in v.owner && v.owner[p] == id {
        assert RecordIndexed(v, table[id]);
      }
    }
    if Complete(v, table) && OwnersMatch(v, table) {
      forall i | 0 <= i < |rs| ensures RecordIndexed(v, rs[i]) {
        var rec := rs[i];
        assert rec in rs;
        forall k | k in KeysOf(rec) ensures rec.recordId in Lookup(v.ids, k) {
          assert rec.recordId in Holders(table, k);
        }
        forall p | p in Placements(rec.locations) ensures p in v.owner && v.owner[p] == rec.recordId {
          assert HeldBy(table, rec.recordId, p);
        }
      }
    }
  }

  // -------- The class --------

  datatype IndexError =
    | UnknownRecord(id: u64)
    | MissingRecord(id: u64)
    | DependencyMissing(id: u64)
    | NodeMissing(id: u64)
    | DeviceMissing(id: u64)
    | DomainMissing(id: u64)
    | OwnerMismatch(placement: u64)

  class SecondaryIndexes {
    var entries: map<IndexKey, seq<u64>>
    var locationOwner: map<u64, u64>

    ghost predicate Valid()
      reads this
    {
      forall k :: k in entries ==> Ascending(entries[k])
    }

    ghost function View(): IndexView
      reads this
    {
      IndexView(map k | k in entries :: Elements(entries[k]), locationOwner)
    }

    constructor ()
      ensures Valid() && View() == EMPTY_INDEX
    {
      entries, locationOwner := map[], map[];
    }

    method Clear()
      modifies this
      ensures Valid() && View() == EMPTY_INDEX
    {
      entries, locationOwner := map[], map[];
    }

    /** Append, sort, drop duplicates. */
    method Add(k: IndexKey, id: u64)
      requires Valid()
      modifies this`entries
      ensures Valid() && View() == old(View()).(ids := WithKeys(old(View()).ids, {k}, id))
    {
      hide Ascending, NonDecreasing;
      var list := (if k in entries then entries[k] else []) + [id];
      ElementsOfLonger(if k in entries then entries[k] else [], id);
      var sorted := SortIds(list);
      SameElements(sorted, list);
      var unique := Unique(sorted);
      entries := entries[k := unique];
      hide WithKeys;
      ghost var added := WithKeys(old(View()).ids, {k}, id);
      forall x ensures (x in added <==> x in View().ids) && (x in added ==> added[x] == View().ids[x]) {
        LookupWith(old(View()).ids, {k}, id, x);
      }
      assert View().ids == WithKeys(old(View()).ids, {k}, id);
    }

    /** Drop every occurrence; an emptied list disappears. */
    method Rem(k: IndexKey, id: u64)
      requires Valid()
      modifies this`entries
      ensures Valid() && View() == old(View()).(ids := WithoutKeys(old(View()).ids, {k}, id))
    {
      if k !in entries {
        assert View().ids == WithoutKeys(old(View()).ids, {k}, id);
        return;
      }
      var list := Without(entries[k], id);
      if list == [] {
        assert Elements(list) == {};
        entries := entries - {k};
      } else {
        assert list[0] in Elements(list);
        entries := entries[k := list];
      }
      assert View().ids == WithoutKeys(old(View()).ids, {k}, id);
    }

    /** Every id of a list but one. */
    static method Without(ids: seq<u64>, id: u64) returns (r: seq<u64>)
      requires Ascending(ids)
      ensures Ascending(r) && Elements(r) == Elements(ids) - {id}
    {
      r := [];
      var i := 0;
      while i < |ids|
        invariant 0 <= i <= |ids| && Ascending(r) && Elements(r) == Elements(ids[..i]) - {id}
        invariant forall j :: 0 <= j < |r| && i < |ids| ==> r[j] < ids[i]
      {
        assert ids[..i + 1] == ids[..i] + [ids[i]];
        ElementsOfLonger(ids[..i], ids[i]);
        ElementsOfLonger(r, ids[i]);
        if ids[i] != id {
          r := r + [ids[i]];
        }
        i := i + 1;
      }
      assert ids[..|ids|] == ids;
    }

    /** The position of the highest bit, by shifting. */
    static method SizeBucketOf(size: u64) returns (b: nat)
      ensures b == SizeBucket(size)
    {
      if size == 0 {
        return 0;
      }
      b := 0;
      var rest: nat := size;
      while rest > 1
        invariant b + SizeBucket(rest) == SizeBucket(size)
      {
        rest := rest / 2;
        b := b + 1;
      }
    }

    // -------- insert --------

    /** One more addition to those made to `start`. */
    method AddMore(k: IndexKey, id: u64, ghost start: map<IndexKey, set<u64>>, ghost done: set<IndexKey>)
      returns (ghost all: set<IndexKey>)
      requires Valid() && View().ids == WithKeys(start, done, id)
      modifies this`entries
      ensures Valid() && all == done + {k} && View().ids == WithKeys(start, all, id)
      ensures View().owner == old(View()).owner
    {
      hide Valid, WithKeys;
      Add(k, id);
      WithKeysUnion(start, done, {k}, id);
      all := done + {k};
    }

    method InsertHead(rec: StateRecord)
      requires Valid()
      modifies this`entries
      ensures Valid() && View() == old(View()).(ids := WithKeys(old(View()).ids, HeadKeys(rec), rec.recordId))
    {
      hide Valid, View, WithKeys;
      var d, id := rec.descriptor, rec.recordId;
      ghost var ids := View().ids;
      WithKeysUnion(ids, {}, {}, id);
      ghost var done := AddMore(ByState(rec.stateId), id, ids, {});
      done := AddMore(ByKind(d.kind), id, ids, done);
      done := AddMore(ByNamespace(d.namespaceId), id, ids, done);
      if d.ownerId != 0 {
        done := AddMore(ByOwner(d.ownerId), id, ids, done);
      }
      if d.producerId != 0 {
        done := AddMore(ByProducer(d.producerId), id, ids, done);
      }
      if d.contentDigest != [] {
        done := AddMore(ByDigest(d.contentDigest), id, ids, done);
      }
      if d.compatibility.Some? {
        done := AddMore(ByCompat(d.compatibility.value.id), id, ids, done);
      }
      assert done == HeadKeys(rec);
    }

    method InsertDependencies(rec: StateRecord)
      requires Valid()
      modifies this`entries
      ensures Valid() && View() == old(View()).(ids :=
        WithKeys(old(View()).ids, DependencyKeys(rec.descriptor.dependencies), rec.recordId))
    {
      hide Valid, View, WithKeys, DependencyKeys;
      var ds := rec.descriptor.dependencies;
      ghost var start := View();
      NoDependencyKeys();
      WithKeysUnion(start.ids, {}, {}, rec.recordId);
      assert ds[..0] == [];
      var i := 0;
      while i < |ds|
        invariant 0 <= i <= |ds| && Valid()
        invariant View() == start.(ids := WithKeys(start.ids, DependencyKeys(ds[..i]), rec.recordId))
      {
        LongerDependencyKeys(ds, i);
        ghost var all := AddMore(ByDepTarget(ds[i].targetState), rec.recordId, start.ids, DependencyKeys(ds[..i]));
        i := i + 1;
      }
      assert ds[..|ds|] == ds;
    }

    method InsertLocation(l: StateLocation, id: u64)
      requires Valid()
      modifies this
      ensures Valid() && View().ids == WithKeys(old(View()).ids, LocationKeys(l), id)
      ensures View().owner == old(View()).owner[l.placementId := id]
    {
      ghost var ids := View().ids;
      WithKeysUnion(ids, {}, {}, id);
      hide WithKeys;
      ghost var done := AddMore(ByNode(l.nodeId), id, ids, {});
      if l.deviceId != 0 {
        done := AddMore(ByDevice(l.deviceId), id, ids, done);
      }
      done := AddMore(ByDomain(l.domain), id, ids, done);
      assert done == LocationKeys(l);
      locationOwner := locationOwner[l.placementId := id];
    }

    method InsertLocations(rec: StateRecord)
      requires Valid()
      modifies this
      ensures Valid() && View().ids == WithKeys(old(View()).ids, AllLocationKeys(rec.locations), rec.recordId)
      ensures View().owner == WithOwner(old(View()).owner, Placements(rec.locations), rec.recordId)
    {
      hide Valid, View, WithKeys, WithOwner, AllLocationKeys, LocationKeys, Placements;
      var ls, id := rec.locations, rec.recordId;
      ghost var start := View();
      NoLocationKeys();
      WithKeysUnion(start.ids, {}, {}, id);
      WithOwnerUnion(start.owner, {}, 0, id);
      assert ls[..0] == [];
      var i := 0;
      while i < |ls|
        invariant 0 <= i <= |ls| && Valid()
        invariant View().ids == WithKeys(start.ids, AllLocationKeys(ls[..i]), id)
        invariant View().owner == WithOwner(start.owner, Placements(ls[..i]), id)
      {
        LongerLocationKeys(ls, i);
        WithKeysUnion(start.ids, AllLocationKeys(ls[..i]), LocationKeys(ls[i]), id);
        WithOwnerUnion(start.owner, Placements(ls[..i]), ls[i].placementId, id);
        InsertLocation(ls[i], id);
        i := i + 1;
      }
      assert ls[..|ls|] == ls;
    }

    method InsertTail(rec: StateRecord)
      requires Valid()
      modifies this`entries
      ensures Valid() && View() == old(View()).(ids := WithKeys(old(View()).ids, TailKeys(rec), rec.recordId))
    {
      hide Valid, View, WithKeys;
      var id := rec.recordId;
      ghost var ids := View().ids;
      WithKeysUnion(ids, {}, {}, id);
      ghost var done := AddMore(ByFreshness(rec.descriptor.freshness), id, ids, {});
      done := AddMore(ByHealth(rec.descriptor.health), id, ids, done);
      done := AddMore(ByLifecycle(rec.lifecycle), id, ids, done);
      done := AddMore(ByGeneration(rec.stateGeneration), id, ids, done);
      var bucket := SizeBucketOf(rec.descriptor.logicalSize);
      done := AddMore(BySize(bucket), id, ids, done);
    }

    method InsertRecord(rec: StateRecord)
      requires Valid()
      modifies this
      ensures Valid() && View() == Insert(old(View()), rec)
    {
      hide Valid, View, WithKeys, WithOwner, HeadKeys, TailKeys, DependencyKeys, AllLocationKeys, Placements, KeysOf;
      ghost var ids, id := View().ids, rec.recordId;
      ghost var deps, locs := DependencyKeys(rec.descriptor.dependencies), AllLocationKeys(rec.locations);
      InsertHead(rec);
      InsertDependencies(rec);
      WithKeysUnion(ids, HeadKeys(rec), deps, id);
      InsertLocations(rec);
      WithKeysUnion(ids, HeadKeys(rec) + deps, locs, id);
      InsertTail(rec);
      WithKeysUnion(ids, HeadKeys(rec) + deps + locs, TailKeys(rec), id);
      KeysInOrder(rec);
    }

    // -------- remove --------

    /** One more removal after those made to `start`. */
    method RemMore(k: IndexKey, id: u64, ghost start: map<IndexKey, set<u64>>, ghost done: set<IndexKey>)
      returns (ghost all: set<IndexKey>)
      requires Valid() && View().ids == WithoutKeys(start, done, id)
      modifies this`entries
      ensures Valid() && all == done + {k} && View().ids == WithoutKeys(start, all, id)
      ensures View().owner == old(View()).owner
    {
      hide Valid, WithoutKeys;
      Rem(k, id);
      WithoutKeysUnion(start, done, {k}, id);
      all := done + {k};
    }

    method RemoveHead(rec: StateRecord)
      requires Valid()
      modifies this`entries
      ensures Valid() && View() == old(View()).(ids := WithoutKeys(old(View()).ids, HeadKeys(rec), rec.recordId))
    {
      hide Valid, View, WithoutKeys;
      var d, id := rec.descriptor, rec.recordId;
      ghost var ids := View().ids;
      WithoutKeysUnion(ids, {}, {}, id);
      ghost var done := RemMore(ByState(rec.stateId), id, ids, {});
      done := RemMore(ByKind(d.kind), id, ids, done);
      done := RemMore(ByNamespace(d.namespaceId), id, ids, done);
      if d.ownerId != 0 {
        done := RemMore(ByOwner(d.ownerId), id, ids, done);
      }
      if d.producerId != 0 {
        done := RemMore(ByProducer(d.producerId), id, ids, done);
      }
      if d.contentDigest != [] {
        done := RemMore(ByDigest(d.contentDigest), id, ids, done);
      }
      if d.compatibility.Some? {
        done := RemMore(ByCompat(d.compatibility.value.id), id, ids, done);
      }
      assert done == HeadKeys(rec);
    }

    method RemoveDependencies(rec: StateRecord)
      requires Valid()
      modifies this`entries
      ensures Valid() && View() == old(View()).(ids :=
        WithoutKeys(old(View()).ids, DependencyKeys(rec.descriptor.dependencies), rec.recordId))
    {
      hide Valid, View, WithoutKeys, DependencyKeys;
      var ds := rec.descriptor.dependencies;
      ghost var start := View();
      NoDependencyKeys();
      WithoutKeysUnion(start.ids, {}, {}, rec.recordId);
      assert ds[..0] == [];
      var i := 0;
      while i < |ds|
        invariant 0 <= i <= |ds| && Valid()
        invariant View() == start.(ids := WithoutKeys(start.ids, DependencyKeys(ds[..i]), rec.recordId))
      {
        LongerDependencyKeys(ds, i);
        ghost var all := RemMore(ByDepTarget(ds[i].targetState), rec.recordId, start.ids, DependencyKeys(ds[..i]));
        i := i + 1;
      }
      assert ds[..|ds|] == ds;
    }

    method RemoveLocation(l: StateLocation, id: u64)
      requires Valid()
      modifies this
      ensures Valid() && View().ids == WithoutKeys(old(View()).ids, LocationKeys(l), id)
      ensures var owner, p := old(View()).owner, l.placementId;
        View().owner == if p in owner && owner[p] == id then owner - {p} else owner
    {
      ghost var ids := View().ids;
      WithoutKeysUnion(ids, {}, {}, id);
      hide WithoutKeys;
      ghost var done := RemMore(ByNode(l.nodeId), id, ids, {});
      if l.deviceId != 0 {
        done := RemMore(ByDevice(l.deviceId), id, ids, done);
      }
      done := RemMore(ByDomain(l.domain), id, ids, done);
      assert done == LocationKeys(l);
      if l.placementId in locationOwner && locationOwner[l.placementId] == id {
        locationOwner := locationOwner - {l.placementId};
      }
    }

    method RemoveLocations(rec: StateRecord)
      requires Valid()
      modifies this
      ensures Valid() && View().ids == WithoutKeys(old(View()).ids, AllLocationKeys(rec.locations), rec.recordId)
      ensures View().owner == WithoutOwner(old(View()).owner, Placements(rec.locations), rec.recordId)
    {
      hide Valid, View, WithoutKeys, WithoutOwner, AllLocationKeys, LocationKeys, Placements;
      var ls, id := rec.locations, rec.recordId;
      ghost var start := View();
      NoLocationKeys();
      WithoutKeysUnion(start.ids, {}, {}, id);
      WithoutOwnerUnion(start.owner, {}, 0, id);
      assert ls[..0] == [];
      var i := 0;
      while i < |ls|
        invariant 0 <= i <= |ls| && Valid()
        invariant View().ids == WithoutKeys(start.ids, AllLocationKeys(ls[..i]), id)
        invariant View().owner == WithoutOwner(start.owner, Placements(ls[..i]), id)
      {
        LongerLocationKeys(ls, i);
        WithoutKeysUnion(start.ids, AllLocationKeys(ls[..i]), LocationKeys(ls[i]), id);
        WithoutOwnerUnion(start.owner, Placements(ls[..i]), ls[i].placementId, id);
        RemoveLocation(ls[i], id);
        i := i + 1;
      }
      assert ls[..|ls|] == ls;
    }

    method RemoveTail(rec: StateRecord)
      requires Valid()
      modifies this`entries
      ensures Valid() && View() == old(View()).(ids := WithoutKeys(old(View()).ids, TailKeys(rec), rec.recordId))
    {
      hide Valid, View, WithoutKeys;
      var id := rec.recordId;
      ghost var ids := View().ids;
      WithoutKeysUnion(ids, {}, {}, id);
      ghost var done := RemMore(ByFreshness(rec.descriptor.freshness), id, ids, {});
      done := RemMore(ByHealth(rec.descriptor.health), id, ids, done);
      done := RemMore(ByLifecycle(rec.lifecycle), id, ids, done);
      done := RemMore(ByGeneration(rec.stateGeneration), id, ids, done);
      var bucket := SizeBucketOf(rec.descriptor.logicalSize);
      done := RemMore(BySize(bucket), id, ids, done);
    }

    method RemoveRecord(rec: StateRecord)
      requires Valid()
      modifies this
      ensures Valid() && View() == Remove(old(View()), rec)
    {
      hide Valid, View, WithoutKeys, WithoutOwner, HeadKeys, TailKeys, DependencyKeys, AllLocationKeys, Placements,
           KeysOf;
      ghost var ids, id := View().ids, rec.recordId;
      ghost var deps, locs := DependencyKeys(rec.descriptor.dependencies), AllLocationKeys(rec.locations);
      RemoveHead(rec);
      RemoveDependencies(rec);
      WithoutKeysUnion(ids, HeadKeys(rec), deps, id);
      RemoveLocations(rec);
      WithoutKeysUnion(ids, HeadKeys(rec) + deps, locs, id);
      RemoveTail(rec);
      WithoutKeysUnion(ids, HeadKeys(rec) + deps + locs, TailKeys(rec), id);
      KeysInOrder(rec);
    }

    // -------- lookups --------

    /** The ids filed under a key, in ascending order. */
    method IdsWith(k: IndexKey) returns (ids: seq<u64>)
      requires Valid()
      ensures ids == AscendingOf(Lookup(View().ids, k))
    {
      ids := if k in entries then entries[k] else [];
      AscendingUnique(ids, AscendingOf(Lookup(View().ids, k)));
    }

    method OwnerOf(placement: u64) returns (owner: Option<u64>)
      ensures owner == if placement in View().owner then Some(View().owner[placement]) else None
    {
      owner := if placement in locationOwner then Some(locationOwner[placement]) else None;
    }

    // -------- rebuild --------

    /** From nothing, every record in order of its id. */
    method Rebuild(records: seq<StateRecord>, ghost table: map<u64, StateRecord>)
      requires ListsRecords(records, table)
      modifies this
      ensures Valid() && Extends(EMPTY_INDEX, table, table.Keys, View())
      ensures LatestOwns(View().owner, table)
    {
      Clear();
      var sorted := SortRecords(records, RecordId);
      SortedListsSame(records, sorted, table);
      AllListed(sorted, table);
      ExtendsNothing(EMPTY_INDEX, table);
      assert IdsOf(sorted[..0]) == {} && OwnedLatest(View().owner, sorted[..0]);
      hide Valid, View, Extends, KeysOf, Placements, IdsOf, OwnedLatest, LatestOwns, OrderedBy, ListsRecords;
      var i := 0;
      while i < |sorted|
        invariant 0 <= i <= |sorted| && Valid()
        invariant Extends(EMPTY_INDEX, table, IdsOf(sorted[..i]), View())
        invariant OwnedLatest(View().owner, sorted[..i])
      {
        ghost var before := View();
        FirstRecords(sorted, i);
        InsertRecord(sorted[i]);
        ExtendsOneMore(EMPTY_INDEX, table, IdsOf(sorted[..i]), before, sorted[i].recordId, View());
        LatestOneMore(before.owner, sorted[..i], sorted[i]);
        i := i + 1;
      }
      assert sorted[..|sorted|] == sorted;
    }

    // -------- verify --------

    static method Contains(ids: seq<u64>, id: u64) returns (b: bool)
      ensures b <==> id in ids
    {
      var i := 0;
      while i < |ids|
        invariant 0 <= i <= |ids| && id !in ids[..i]
      {
        if ids[i] == id {
          return true;
        }
        i := i + 1;
      }
      return false;
    }

    method Has(k: IndexKey, id: u64) returns (b: bool)
      ensures b <==> id in Lookup(View().ids, k)
    {
      if k in entries {
        b := Contains(entries[k], id);
      } else {
        b := false;
      }
    }

    method CheckReferences(known: set<u64>) returns (errors: seq<IndexError>)
      ensures errors == [] <==> forall k :: Lookup(View().ids, k) <= known
    {
      errors := [];
      var keys := entries.Keys;
      while keys != {}
        invariant keys <= entries.Keys
        invariant errors == [] <==> forall k :: k in entries && k !in keys ==> Elements(entries[k]) <= known
        decreases keys
      {
        var k :| k in keys;
        var ids := entries[k];
        var i := 0;
        while i < |ids|
          invariant 0 <= i <= |ids|
          invariant errors == [] <==>
            && (forall x :: x in entries && x !in keys ==> Elements(entries[x]) <= known)
            && (forall j :: 0 <= j < i ==> ids[j] in known)
        {
          if ids[i] !in known {
            errors := errors + [UnknownRecord(ids[i])];
          }
          i := i + 1;
        }
        assert Elements(ids) <= known <==> forall j :: 0 <= j < |ids| ==> ids[j] in known by {
          assert forall j :: 0 <= j < |ids| ==> ids[j] in Elements(ids);
        }
        keys := keys - {k};
      }
      assert forall k :: Lookup(View().ids, k) == if k in entries then Elements(entries[k]) else {};
    }

    method CheckDependencies(rec: StateRecord) returns (errors: seq<IndexError>)
      ensures errors == [] <==>
        forall k :: k in DependencyKeys(rec.descriptor.dependencies) ==> rec.recordId in Lookup(View().ids, k)
    {
      hide View;
      var ds := rec.descriptor.dependencies;
      errors := [];
      var i := 0;
      while i < |ds|
        invariant 0 <= i <= |ds|
        invariant errors == []
          <==> forall j :: 0 <= j < i ==> rec.recordId in Lookup(View().ids, ByDepTarget(ds[j].targetState))
      {
        var found := Has(ByDepTarget(ds[i].targetState), rec.recordId);
        if !found {
          errors := errors + [DependencyMissing(rec.recordId)];
        }
        i := i + 1;
      }
      assert forall j :: 0 <= j < |ds| ==> ByDepTarget(ds[j].targetState) in DependencyKeys(ds) by {
        assert forall j :: 0 <= j < |ds| ==> ds[j] in ds;
      }
    }

    method CheckLocation(l: StateLocation, id: u64) returns (errors: seq<IndexError>)
      ensures errors == [] <==>
        && (forall k :: k in LocationKeys(l) ==> id in Lookup(View().ids, k))
        && l.placementId in View().owner && View().owner[l.placementId] == id
    {
      errors := [];
      assert LocationKeys(l)
          == {ByNode(l.nodeId), ByDomain(l.domain)} + if l.deviceId != 0 then {ByDevice(l.deviceId)} else {};
      hide LocationKeys, Lookup;
      var node := Has(ByNode(l.nodeId), id);
      if !node {
        errors := errors + [NodeMissing(id)];
      }
      if l.deviceId != 0 {
        var device := Has(ByDevice(l.deviceId), id);
        if !device {
          errors := errors + [DeviceMissing(id)];
        }
      }
      var domain := Has(ByDomain(l.domain), id);
      if !domain {
        errors := errors + [DomainMissing(id)];
      }
      if l.placementId !in locationOwner || locationOwner[l.placementId] != id {
        errors := errors + [OwnerMismatch(l.placementId)];
      }
    }

    method CheckLocations(rec: StateRecord) returns (errors: seq<IndexError>)
      ensures errors == [] <==>
        && (forall k :: k in AllLocationKeys(rec.locations) ==> rec.recordId in Lookup(View().ids, k))
        && (forall p :: p in Placements(rec.locations) ==> p in View().owner && View().owner[p] == rec.recordId)
    {
      hide View, LocationKeys;
      var ls := rec.locations;
      errors := [];
      NoLocationKeys();
      assert ls[..0] == [];
      hide AllLocationKeys, Placements;
      var i := 0;
      while i < |ls|
        invariant 0 <= i <= |ls|
        invariant errors == [] <==>
          && (forall k :: k in AllLocationKeys(ls[..i]) ==> rec.recordId in Lookup(View().ids, k))
          && (forall p :: p in Placements(ls[..i]) ==> p in View().owner && View().owner[p] == rec.recordId)
      {
        LongerLocationKeys(ls, i);
        var more := CheckLocation(ls[i], rec.recordId);
        errors := errors + more;
        i := i + 1;
      }
      assert ls[..|ls|] == ls;
    }

    /** Is the record in every index on its identity and origin? */
    method InHeadIndexes(rec: StateRecord) returns (all: bool)
      ensures all <==> forall k :: k in HeadKeys(rec) ==> rec.recordId in Lookup(View().ids, k)
    {
      hide View, Lookup;
      var d, id := rec.descriptor, rec.recordId;
      var state := Has(ByState(rec.stateId), id);
      var kind := Has(ByKind(d.kind), id);
      var ns := Has(ByNamespace(d.namespaceId), id);
      var owner := Has(ByOwner(d.ownerId), id);
      var producer := Has(ByProducer(d.producerId), id);
      var digest := Has(ByDigest(d.contentDigest), id);
      var compatible := d.compatibility.None?;
      if d.compatibility.Some? {
        compatible := Has(ByCompat(d.compatibility.value.id), id);
      }
      all := state && kind && ns && (d.ownerId != 0 ==> owner) && (d.producerId != 0 ==> producer)
             && (d.contentDigest != [] ==> digest) && compatible;
    }

    /** Is the record in every index on its condition, generation and size? */
    method InTailIndexes(rec: StateRecord) returns (all: bool)
      ensures all <==> forall k :: k in TailKeys(rec) ==> rec.recordId in Lookup(View().ids, k)
    {
      hide View, Lookup, SizeBucket;
      var d, id := rec.descriptor, rec.recordId;
      var freshness := Has(ByFreshness(d.freshness), id);
      var health := Has(ByHealth(d.health), id);
      var lifecycle := Has(ByLifecycle(rec.lifecycle), id);
      var generation := Has(ByGeneration(rec.stateGeneration), id);
      var bucket := SizeBucketOf(d.logicalSize);
      var size := Has(BySize(bucket), id);
      all := freshness && health && lifecycle && generation && size;
    }

    method CheckRecord(rec: StateRecord) returns (errors: seq<IndexError>)
      ensures errors == [] <==> RecordIndexed(View(), rec)
    {
      hide View, Lookup, HeadKeys, TailKeys, DependencyKeys, AllLocationKeys, Placements, KeysOf;
      KeysInOrder(rec);
      var head := InHeadIndexes(rec);
      var tail := InTailIndexes(rec);
      if !head || !tail {
        return [MissingRecord(rec.recordId)];
      }
      var dependencies := CheckDependencies(rec);
      var locations := CheckLocations(rec);
      errors := dependencies + locations;
    }

    /** The consistency checker finds no error exactly when the indexes are consistent with the records. */
    method Verify(canonical: seq<StateRecord>, ghost table: map<u64, StateRecord>) returns (errors: seq<IndexError>)
      requires ListsRecords(canonical, table)
      ensures errors == [] <==> Verified(View(), table)
    {
      hide View, KeysOf, Placements, RecordIndexed, Complete, OwnersMatch;
      AllListed(canonical, table);
      VerifiedByRecord(View(), canonical, table);
      var known := set r | r in canonical :: r.recordId;
      assert known == IdsOf(canonical);
      errors := CheckReferences(known);
      var i := 0;
      while i < |canonical|
        invariant 0 <= i <= |canonical|
        invariant errors == [] <==>
          NoDanglingEntries(View(), table) && forall j :: 0 <= j < i ==> RecordIndexed(View(), canonical[j])
      {
        var more := CheckRecord(canonical[i]);
        errors := errors + more;
        i := i + 1;
      }
    }
  }
}
