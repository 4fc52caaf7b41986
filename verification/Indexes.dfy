/** The secondary indexes. Sixteen maps from a key to a sorted list of record ids are one map here, whose
    key says which index it belongs to; a seventeenth maps a placement to its owning record. */
module Indexes {
  import opened Basics
  import opened Model

  datatype IndexKey =
    | ByState(state: u64)
    | ByKind(kind: u16)
    | ByNamespace(ns: u64)
    | ByOwner(owner: u64)
    | ByProducer(producer: u64)
    | ByDigest(digest: Bytes)
    | ByCompat(compat: u64)
    | ByDepTarget(target: u64)
    | ByNode(node: u64)
    | ByDevice(device: u64)
    | ByDomain(domain: u8)
    | ByFreshness(freshness: u8)
    | ByHealth(health: u8)
    | ByLifecycle(lifecycle: u8)
    | ByGeneration(generation: u64)
    | BySize(bucket: nat)
  {
    /** Indexes on what mutations change; the others are keyed on what never changes. */
    predicate Moving() {
      ByLifecycle? || ByNode? || ByDevice? || ByDomain?
    }
  }

  datatype IndexView = IndexView(ids: map<IndexKey, set<u64>>, owner: map<u64, u64>)

  // -------- The keys of a record --------

  function SizeBucket(size: nat): nat {
    if size <= 1 then 0 else 1 + SizeBucket(size / 2)
  }

  /** The keys that publication fixes for good. */
  function FixedKeys(state: u64, generation: u64, d: Descriptor): set<IndexKey> {
    {ByState(state), ByKind(d.kind), ByNamespace(d.namespaceId), ByFreshness(d.freshness), ByHealth(d.health),
     ByGeneration(generation), BySize(SizeBucket(d.logicalSize))}
    + (if d.ownerId != 0 then {ByOwner(d.ownerId)} else {})
    + (if d.producerId != 0 then {ByProducer(d.producerId)} else {})
    + (if d.contentDigest != [] then {ByDigest(d.contentDigest)} else {})
    + (if d.compatibility.Some? then {ByCompat(d.compatibility.value.id)} else {})
    + DependencyKeys(d.dependencies)
  }

  function DependencyKeys(ds: seq<DependencyRef>): set<IndexKey> {
    set d | d in ds :: ByDepTarget(d.targetState)
  }

  function LocationKeys(l: StateLocation): set<IndexKey> {
    {ByNode(l.nodeId), ByDomain(l.domain)} + if l.deviceId != 0 then {ByDevice(l.deviceId)} else {}
  }

  function AllLocationKeys(ls: seq<StateLocation>): set<IndexKey> {
    set l, k | l in ls && k in LocationKeys(l) :: k
  }

  function KeysOf(rec: StateRecord): set<IndexKey> {
    FixedKeys(rec.stateId, rec.stateGeneration, rec.descriptor) + {ByLifecycle(rec.lifecycle)}
    + AllLocationKeys(rec.locations)
  }

  function Placements(ls: seq<StateLocation>): set<u64> {
    set l | l in ls :: l.placementId
  }

  lemma FixedPart(rec: StateRecord, k: IndexKey)
    ensures !k.Moving() ==> (k in KeysOf(rec) <==> k in FixedKeys(rec.stateId, rec.stateGeneration, rec.descriptor))
  {
    hide FixedKeys;
  }

  // -------- Index operations --------

  function Lookup(ids: map<IndexKey, set<u64>>, k: IndexKey): set<u64> {
    if k in ids then ids[k] else {}
  }

  function WithKeys(ids: map<IndexKey, set<u64>>, keys: set<IndexKey>, id: u64): map<IndexKey, set<u64>> {
    map k | k in ids.Keys + keys :: Lookup(ids, k) + if k in keys then {id} else {}
  }

  /** Emptied entries disappear. */
  function WithoutKeys(ids: map<IndexKey, set<u64>>, keys: set<IndexKey>, id: u64): map<IndexKey, set<u64>> {
    map k | k in ids && !(k in keys && ids[k] - {id} == {}) :: if k in keys then ids[k] - {id} else ids[k]
  }

  function WithOwner(owner: map<u64, u64>, placements: set<u64>, id: u64): map<u64, u64> {
    owner + map p | p in placements :: id
  }

  function WithoutOwner(owner: map<u64, u64>, placements: set<u64>, id: u64): map<u64, u64> {
    map p | p in owner && !(p in placements && owner[p] == id) :: owner[p]
  }

  function Insert(v: IndexView, rec: StateRecord): IndexView {
    IndexView(WithKeys(v.ids, KeysOf(rec), rec.recordId), WithOwner(v.owner, Placements(rec.locations), rec.recordId))
  }

  function Remove(v: IndexView, rec: StateRecord): IndexView {
    IndexView(WithoutKeys(v.ids, KeysOf(rec), rec.recordId),
              WithoutOwner(v.owner, Placements(rec.locations), rec.recordId))
  }

  const EMPTY_INDEX := IndexView(map[], map[])

  /** Updates remove the record as it already is after the update, so keys it has lost keep their entry:
      the net effect of removing and inserting again is to add. */
  lemma ReindexOnlyAdds(v: IndexView, rec: StateRecord)
    ensures var w := Insert(Remove(v, rec), rec);
      && (forall k :: Lookup(w.ids, k) == Lookup(v.ids, k) + if k in KeysOf(rec) then {rec.recordId} else {})
      && w.owner == WithOwner(v.owner, Placements(rec.locations), rec.recordId)
  {
    hide KeysOf, Placements;
    var keys, id := KeysOf(rec), rec.recordId;
    var r := Remove(v, rec);
    forall k ensures Lookup(WithKeys(r.ids, keys, id), k) == Lookup(v.ids, k) + if k in keys then {id} else {} {
      assert Lookup(r.ids, k) == if k in keys then Lookup(v.ids, k) - {id} else Lookup(v.ids, k);
    }
    assert WithOwner(r.owner, Placements(rec.locations), id) == WithOwner(v.owner, Placements(rec.locations), id);
  }

  // -------- What re-indexing a set of records does --------

  /** The ids of the records with key k. */
  function Holders(records: map<u64, StateRecord>, k: IndexKey): set<u64> {
    set id | id in records && k in KeysOf(records[id])
  }

  /** The ids among `touched` of the records with key k. */
  function HoldersAmong(records: map<u64, StateRecord>, touched: set<u64>, k: IndexKey): set<u64> {
    set id | id in touched && id in records && k in KeysOf(records[id])
  }

  predicate HeldBy(records: map<u64, StateRecord>, id: u64, p: u64) {
    id in records && p in Placements(records[id].locations)
  }

  ghost predicate ExtendsIds(before: map<IndexKey, set<u64>>, records: map<u64, StateRecord>, touched: set<u64>,
                             after: map<IndexKey, set<u64>>) {
    forall k :: Lookup(after, k) == Lookup(before, k) + HoldersAmong(records, touched, k)
  }

  /** Touched records own their placements, whichever of them came last; other placements keep their owner. */
  ghost predicate ExtendsOwner(before: map<u64, u64>, records: map<u64, StateRecord>, touched: set<u64>,
                               after: map<u64, u64>) {
    && (forall p :: p in after ==>
          || (after[p] in touched && HeldBy(records, after[p], p))
          || ((forall id :: id in touched ==> !HeldBy(records, id, p)) && p in before && before[p] == after[p]))
    && (forall p :: p in before ==> p in after)
    && (forall p, id :: id in touched && HeldBy(records, id, p) ==> p in after)
  }

  /** after is before with every touched record inserted, in any order. */
  ghost predicate Extends(before: IndexView, records: map<u64, StateRecord>, touched: set<u64>, after: IndexView) {
    ExtendsIds(before.ids, records, touched, after.ids) && ExtendsOwner(before.owner, records, touched, after.owner)
  }

  lemma ExtendsNothing(v: IndexView, records: map<u64, StateRecord>)
    ensures Extends(v, records, {}, v)
  {
  }

  lemma OwnersOneMore(before: map<u64, u64>, records: map<u64, StateRecord>, touched: set<u64>, mid: map<u64, u64>,
                      id: u64, placements: set<u64>)
    requires ExtendsOwner(before, records, touched, mid)
    requires forall p :: HeldBy(records, id, p) <==> p in placements
    ensures ExtendsOwner(before, records, touched + {id}, WithOwner(mid, placements, id))
  {
    hide HeldBy;
  }

  lemma IdsOneMore(before: map<IndexKey, set<u64>>, records: map<u64, StateRecord>, touched: set<u64>,
                   mid: map<IndexKey, set<u64>>, id: u64, after: map<IndexKey, set<u64>>)
    requires ExtendsIds(before, records, touched, mid) && id in records
    requires forall k :: Lookup(after, k) == Lookup(mid, k) + if k in KeysOf(records[id]) then {id} else {}
    ensures ExtendsIds(before, records, touched + {id}, after)
  {
    hide KeysOf;
    forall k ensures Lookup(after, k) == Lookup(before, k) + HoldersAmong(records, touched + {id}, k) {
      assert HoldersAmong(records, touched + {id}, k)
          == HoldersAmong(records, touched, k) + if k in KeysOf(records[id]) then {id} else {};
    }
  }

  /** Inserting one more record, whether or not it was removed first. */
  lemma ExtendsOneMore(before: IndexView, records: map<u64, StateRecord>, touched: set<u64>, mid: IndexView,
                       id: u64, after: IndexView)
    requires Extends(before, records, touched, mid)
    requires id in records && records[id].recordId == id
    requires after == Insert(mid, records[id]) || after == Insert(Remove(mid, records[id]), records[id])
    ensures Extends(before, records, touched + {id}, after)
  {
    hide KeysOf, Placements, ExtendsIds, ExtendsOwner;
    ReindexOnlyAdds(mid, records[id]);
    IdsOneMore(before.ids, records, touched, mid.ids, id, after.ids);
    OwnersOneMore(before.owner, records, touched, mid.owner, id, Placements(records[id].locations));
  }

  /** Records that are not touched may change freely. */
  lemma ExtendsReadsTouched(before: IndexView, records: map<u64, StateRecord>, other: map<u64, StateRecord>,
                            touched: set<u64>, after: IndexView)
    requires Extends(before, records, touched, after)
    requires forall id :: id in touched ==>
      (id in records <==> id in other) && (id in records ==> records[id] == other[id])
    ensures Extends(before, other, touched, after)
  {
    hide KeysOf, Placements;
    forall k ensures HoldersAmong(records, touched, k) == HoldersAmong(other, touched, k) {
    }
  }

  // -------- The consistency check --------

  /** No two records share a placement. */
  ghost predicate UniquePlacements(records: map<u64, StateRecord>) {
    forall i, j, p :: HeldBy(records, i, p) && HeldBy(records, j, p) ==> i == j
  }

  /** Every index entry is a known record. */
  ghost predicate NoDanglingEntries(v: IndexView, records: map<u64, StateRecord>) {
    forall k :: Lookup(v.ids, k) <= records.Keys
  }

  /** Every record is in every index it qualifies for. */
  ghost predicate Complete(v: IndexView, records: map<u64, StateRecord>) {
    forall k :: Holders(records, k) <= Lookup(v.ids, k)
  }

  /** Every placement is owned by the record that holds it. */
  ghost predicate OwnersMatch(v: IndexView, records: map<u64, StateRecord>) {
    forall id, p :: HeldBy(records, id, p) ==> p in v.owner && v.owner[p] == id
  }

  /** What `verify` checks. */
  ghost predicate Verified(v: IndexView, records: map<u64, StateRecord>) {
    NoDanglingEntries(v, records) && Complete(v, records) && OwnersMatch(v, records)
  }
}
