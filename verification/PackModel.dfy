/** The index on values: what it means over a data region, its invariant, and the operations
    that change it. */
module PackModel {
  import opened Bytes
  import opened Crypto
  import opened StoreModel
  import opened Index
  import opened Paths
  import opened Delta

  datatype Status = Ok | ErrArg | ErrNotFound | ErrExists | ErrCorrupt | ErrIo | ErrAuth

  // ---- reading records from the data region ----

  /** `read_at` followed by decryption, for a record at an absolute file offset. */
  function ReadRecord(cs: Suite, key: bytes, data: bytes, off: nat, len: nat): Option<bytes> {
    if off < DATA_START || off - DATA_START + len > |data| then None
    else Unseal(cs, key, data[off - DATA_START..off - DATA_START + len])
  }

  function ReadBlob(cs: Suite, key: bytes, data: bytes, ref: BlobRef): Option<bytes> {
    if ref.encSize < OVERHEAD || ref.plainSize != ref.encSize - OVERHEAD then None
    else ReadRecord(cs, key, data, ref.offset, ref.encSize)
  }

  /** `load_manifest`. */
  function LoadIndex(cs: Suite, key: bytes, data: bytes, root: Root): Option<Index> {
    if root.len == 0 then Some(EMPTY)
    else if root.len < OVERHEAD then None
    else
      match ReadRecord(cs, key, data, root.offset, root.len)
      case None => None
      case Some(plain) => Deserialized(plain)
  }

  // ---- the same, from the whole file ----

  function FileRecord(cs: Suite, key: bytes, f: bytes, off: nat, len: nat): Option<bytes> {
    if off + len > |f| then None else Unseal(cs, key, f[off..off + len])
  }

  /** `read_decrypt`, for any reference whatever. */
  function FileBlob(cs: Suite, key: bytes, f: bytes, ref: BlobRef): Option<bytes> {
    if ref.encSize < OVERHEAD || ref.plainSize != ref.encSize - OVERHEAD then None
    else FileRecord(cs, key, f, ref.offset, ref.encSize)
  }

  /** `load_manifest`, for any root whatever. */
  function FileIndex(cs: Suite, key: bytes, f: bytes, root: Root): Option<Index> {
    if root.len == 0 then Some(EMPTY)
    else if root.len < OVERHEAD then None
    else
      match FileRecord(cs, key, f, root.offset, root.len)
      case None => None
      case Some(plain) => Deserialized(plain)
  }

  /** Content is returned only if the reference's two sizes are its length and 40 more. */
  lemma BlobSizes(cs: Suite, key: bytes, f: bytes, ref: BlobRef)
    requires FileBlob(cs, key, f, ref).Some?
    ensures |FileBlob(cs, key, f, ref).value| == ref.plainSize && ref.encSize == ref.plainSize + 40
    ensures ref.offset + ref.encSize <= |f|
  {
  }

  lemma SubSlice(f: bytes, a: nat, b: nat, lo: nat, hi: nat)
    requires a <= lo <= hi <= b <= |f|
    ensures f[a..b][lo - a..hi - a] == f[lo..hi]
  {
    var l, r := f[a..b][lo - a..hi - a], f[lo..hi];
    assert |l| == |r| && forall i | 0 <= i < |l| :: l[i] == r[i];
  }

  lemma FileRecordData(cs: Suite, key: bytes, f: bytes, end: nat, off: nat, len: nat)
    requires DATA_START <= off && off + len <= end <= |f|
    ensures ReadRecord(cs, key, f[DATA_START..end], off, len) == FileRecord(cs, key, f, off, len)
  {
    hide Unseal;
    SubSlice(f, DATA_START, end, off, off + len);
  }

  lemma FileBlobData(cs: Suite, key: bytes, f: bytes, end: nat, ref: BlobRef)
    requires DATA_START <= end <= |f| && ReadBlob(cs, key, f[DATA_START..end], ref).Some?
    ensures FileBlob(cs, key, f, ref) == ReadBlob(cs, key, f[DATA_START..end], ref)
  {
    hide Unseal;
    FileRecordData(cs, key, f, end, ref.offset, ref.encSize);
  }

  lemma FileIndexData(cs: Suite, key: bytes, f: bytes, root: Root)
    requires |f| >= DATA_START && (root.len == 0 || DATA_START <= root.offset)
    ensures FileIndex(cs, key, f, root) == LoadIndex(cs, key, f[DATA_START..], root)
  {
    hide Unseal, Deserialized;
    assert f[DATA_START..|f|] == f[DATA_START..];
    if OVERHEAD <= root.len && root.offset + root.len <= |f| {
      FileRecordData(cs, key, f, |f|, root.offset, root.len);
    }
  }

  // ---- what an index means ----

  function Content(cs: Suite, key: bytes, data: bytes, idx: Index, h: bytes): bytes {
    if h in idx.blobs then
      match ReadBlob(cs, key, data, idx.blobs[h])
      case None => []
      case Some(c) => c
    else []
  }

  function Contents(cs: Suite, key: bytes, data: bytes, idx: Index): View {
    map p | p in idx.paths :: Content(cs, key, data, idx, idx.paths[p].hash)
  }

  function Users(paths: map<bytes, PathEntry>, h: bytes): set<bytes> {
    set p | p in paths && paths[p].hash == h
  }

  predicate Disjoint(a: BlobRef, b: BlobRef) {
    a.offset + a.encSize <= b.offset || b.offset + b.encSize <= a.offset
  }

  /** The record of a blob decrypts to content whose hash is its key. */
  ghost predicate Sound(cs: Suite, key: bytes, data: bytes, h: bytes, ref: BlobRef) {
    var c := ReadBlob(cs, key, data, ref);
    c.Some? && cs.hash(c.value) == h
  }

  ghost predicate BlobsOk(cs: Suite, key: bytes, data: bytes, blobs: map<bytes, BlobRef>) {
    && (forall h | h in blobs :: Sound(cs, key, data, h, blobs[h]))
    && (forall h, k | h in blobs && k in blobs && h != k :: Disjoint(blobs[h], blobs[k]))
  }

  ghost predicate PathsOk(idx: Index) {
    forall p | p in idx.paths :: IsNormal(p) && idx.paths[p].hash in idx.blobs
  }

  /** Every blob is counted once for each path that uses it. */
  ghost predicate CountsOk(idx: Index) {
    forall h | h in idx.blobs :: idx.blobs[h].refcount == |Users(idx.paths, h)|
  }

  ghost predicate IndexInv(cs: Suite, key: bytes, data: bytes, idx: Index) {
    BlobsOk(cs, key, data, idx.blobs) && PathsOk(idx) && CountsOk(idx)
  }

  /** Sizes the 32-bit fields of the manifest can carry. */
  predicate Fits(idx: Index) {
    && |idx.blobs| < U32_LIMIT
    && |idx.paths| < U32_LIMIT
    && forall p | p in idx.paths :: |p| < U32_LIMIT
  }

  lemma InvWellFormed(cs: Suite, key: bytes, data: bytes, idx: Index)
    requires IndexInv(cs, key, data, idx) && Fits(idx)
    ensures WellFormed(idx)
  {
    forall h | h in idx.blobs
      ensures |h| == HASH_SIZE
    {
      assert Sound(cs, key, data, h, idx.blobs[h]);
    }
  }

  // ---- more data never changes what is there ----

  lemma RecordStays(cs: Suite, key: bytes, data: bytes, data': bytes, off: nat, len: nat)
    requires data <= data' && ReadRecord(cs, key, data, off, len).Some?
    ensures ReadRecord(cs, key, data', off, len) == ReadRecord(cs, key, data, off, len)
  {
    var lo := off - DATA_START;
    assert data'[lo..lo + len] == data[lo..lo + len];
  }

  lemma IndexStays(cs: Suite, key: bytes, data: bytes, data': bytes, idx: Index)
    requires data <= data' && IndexInv(cs, key, data, idx)
    ensures IndexInv(cs, key, data', idx)
    ensures Contents(cs, key, data', idx) == Contents(cs, key, data, idx)
  {
    hide ReadBlob, PathsOk, CountsOk, Disjoint;
    forall h | h in idx.blobs
      ensures Sound(cs, key, data', h, idx.blobs[h])
      ensures ReadBlob(cs, key, data', idx.blobs[h]) == ReadBlob(cs, key, data, idx.blobs[h])
    {
      assert Sound(cs, key, data, h, idx.blobs[h]);
      BlobStays(cs, key, data, data', idx.blobs[h]);
    }
    assert forall h :: Content(cs, key, data', idx, h) == Content(cs, key, data, idx, h);
  }

  lemma BlobStays(cs: Suite, key: bytes, data: bytes, data': bytes, ref: BlobRef)
    requires data <= data' && ReadBlob(cs, key, data, ref).Some?
    ensures ReadBlob(cs, key, data', ref) == ReadBlob(cs, key, data, ref)
  {
    hide ReadRecord;
    RecordStays(cs, key, data, data', ref.offset, ref.encSize);
  }

  lemma LoadStays(cs: Suite, key: bytes, data: bytes, data': bytes, root: Root)
    requires data <= data' && LoadIndex(cs, key, data, root).Some?
    ensures LoadIndex(cs, key, data', root) == LoadIndex(cs, key, data, root)
  {
    hide ReadRecord;
    if root.len != 0 {
      RecordStays(cs, key, data, data', root.offset, root.len);
    }
  }

  // ---- index operations ----

  function Decrement(blobs: map<bytes, BlobRef>, h: bytes): map<bytes, BlobRef> {
    if h in blobs && blobs[h].refcount > 0 then blobs[h := blobs[h].(refcount := blobs[h].refcount - 1)] else blobs
  }

  /** A 32-bit counter. */
  function Increment(blobs: map<bytes, BlobRef>, h: bytes): map<bytes, BlobRef>
    requires h in blobs
  {
    blobs[h := blobs[h].(refcount := (blobs[h].refcount + 1) % U32_LIMIT)]
  }

  /** The index part of `put`: the path gives up its old blob and takes h. */
  function Repoint(idx: Index, p: bytes, h: bytes, now: u64): Index
    requires h in idx.blobs
  {
    var released := if p in idx.paths then Decrement(idx.blobs, idx.paths[p].hash) else idx.blobs;
    Index(Increment(released, h), idx.paths[p := PathEntry(h, now)])
  }

  function DelIndex(idx: Index, path: bytes): (Status, Index) {
    var p := Normalize(path);
    if p !in idx.paths then (ErrNotFound, idx)
    else (Ok, Index(Decrement(idx.blobs, idx.paths[p].hash), idx.paths - {p}))
  }

  function MoveIndex(idx: Index, from: bytes, to: bytes): (Status, Index) {
    var f, t := Normalize(from), Normalize(to);
    if f == [] || t == [] then (ErrArg, idx)
    else if f !in idx.paths then (ErrNotFound, idx)
    else if t in idx.paths then (ErrExists, idx)
    else (Ok, idx.(paths := idx.paths[t := idx.paths[f]] - {f}))
  }

  function CopyIndex(idx: Index, from: bytes, to: bytes, now: u64): (Status, Index) {
    var f, t := Normalize(from), Normalize(to);
    if f == [] || t == [] then (ErrArg, idx)
    else if f !in idx.paths then (ErrNotFound, idx)
    else if t in idx.paths then (ErrExists, idx)
    else if idx.paths[f].hash !in idx.blobs then (ErrCorrupt, idx)
    else
      var h := idx.paths[f].hash;
      (Ok, Index(Increment(idx.blobs, h), idx.paths[t := PathEntry(h, now)]))
  }

  // ---- reference counts under the map updates ----

  function One(b: bool): nat { if b then 1 else 0 }

  predicate Uses(paths: map<bytes, PathEntry>, p: bytes, h: bytes) { p in paths && paths[p].hash == h }

  lemma UsersAdd(paths: map<bytes, PathEntry>, p: bytes, e: PathEntry, h: bytes)
    ensures |Users(paths[p := e], h)| == |Users(paths, h)| - One(Uses(paths, p, h)) + One(e.hash == h)
  {
    var a, b := Users(paths, h), Users(paths[p := e], h);
    assert a - {p} == b - {p};
    WithoutOne(a, p);
    WithoutOne(b, p);
  }

  lemma WithoutOne(a: set<bytes>, p: bytes)
    ensures |a| == |a - {p}| + One(p in a)
  {
    if p !in a {
      assert a - {p} == a;
    }
  }

  lemma UsersRemove(paths: map<bytes, PathEntry>, p: bytes, h: bytes)
    ensures |Users(paths - {p}, h)| == |Users(paths, h)| - One(Uses(paths, p, h))
  {
    assert Users(paths - {p}, h) == Users(paths, h) - {p};
  }

  lemma {:induction false} UsersBound(paths: map<bytes, PathEntry>, h: bytes)
    ensures |Users(paths, h)| <= |paths|
  {
    SubsetSize(Users(paths, h), paths.Keys);
    assert |paths.Keys| == |paths|;
  }

  lemma {:induction false} SubsetSize<T>(a: set<T>, b: set<T>)
    requires a <= b
    ensures |a| <= |b|
  {
    if a != {} {
      var x :| x in a;
      SubsetSize(a - {x}, b - {x});
    }
  }

  /** The two indexes place every blob alike; only counts and paths may differ. */
  ghost predicate SamePlaces(a: map<bytes, BlobRef>, b: map<bytes, BlobRef>) {
    && a.Keys == b.Keys
    && forall h | h in a :: a[h].(refcount := 0) == b[h].(refcount := 0)
  }

  lemma PlacesSuffice(cs: Suite, key: bytes, data: bytes, a: Index, b: Index)
    requires SamePlaces(a.blobs, b.blobs) && BlobsOk(cs, key, data, a.blobs)
    ensures BlobsOk(cs, key, data, b.blobs)
    ensures forall h :: Content(cs, key, data, a, h) == Content(cs, key, data, b, h)
  {
    hide ReadRecord;
    forall h | h in a.blobs
      ensures ReadBlob(cs, key, data, a.blobs[h]) == ReadBlob(cs, key, data, b.blobs[h])
    {
      assert a.blobs[h].(refcount := 0) == b.blobs[h].(refcount := 0);
    }
    forall h, k | h in b.blobs && k in b.blobs && h != k
      ensures Disjoint(b.blobs[h], b.blobs[k])
    {
      assert a.blobs[h].(refcount := 0) == b.blobs[h].(refcount := 0);
      assert a.blobs[k].(refcount := 0) == b.blobs[k].(refcount := 0);
      assert Disjoint(a.blobs[h], a.blobs[k]);
    }
    forall h | h in b.blobs
      ensures Sound(cs, key, data, h, b.blobs[h])
    {
      assert Sound(cs, key, data, h, a.blobs[h]);
    }
  }

  lemma RepointCounts(idx: Index, p: bytes, h: bytes, now: u64)
    requires PathsOk(idx) && CountsOk(idx) && h in idx.blobs && |idx.paths| + 1 < U32_LIMIT
    ensures CountsOk(Repoint(idx, p, h, now)) && SamePlaces(idx.blobs, Repoint(idx, p, h, now).blobs)
  {
    hide IsNormal, Users, Repoint;
    var idx' := Repoint(idx, p, h, now);
    RepointShape(idx, p, h, now);
    forall k | k in idx'.blobs
      ensures idx'.blobs[k].refcount == |Users(idx'.paths, k)|
    {
      assert idx.blobs[k].refcount == |Users(idx.paths, k)|;
      RepointCount(idx, p, h, now, k);
    }
  }

  lemma RepointShape(idx: Index, p: bytes, h: bytes, now: u64)
    requires h in idx.blobs
    ensures var idx' := Repoint(idx, p, h, now);
            idx'.paths == idx.paths[p := PathEntry(h, now)] && SamePlaces(idx.blobs, idx'.blobs)
  {
  }

  lemma RepointCount(idx: Index, p: bytes, h: bytes, now: u64, k: bytes)
    requires h in idx.blobs && k in idx.blobs && |idx.paths| + 1 < U32_LIMIT
    requires idx.blobs[k].refcount == |Users(idx.paths, k)|
    ensures var idx' := Repoint(idx, p, h, now);
            k in idx'.blobs && idx'.blobs[k].refcount == |Users(idx'.paths, k)|
  {
    hide Users;
    UsersAdd(idx.paths, p, PathEntry(h, now), k);
    UsersBound(idx.paths, k);
    UsedOnce(idx.paths, p, k);
  }

  lemma UsedOnce(paths: map<bytes, PathEntry>, p: bytes, h: bytes)
    ensures Uses(paths, p, h) ==> |Users(paths, h)| > 0
  {
    if Uses(paths, p, h) {
      assert p in Users(paths, h);
    }
  }

  lemma RepointInv(cs: Suite, key: bytes, data: bytes, idx: Index, p: bytes, h: bytes, now: u64)
    requires IndexInv(cs, key, data, idx) && IsNormal(p) && h in idx.blobs && |idx.paths| + 1 < U32_LIMIT
    ensures var idx' := Repoint(idx, p, h, now);
            && IndexInv(cs, key, data, idx')
            && Contents(cs, key, data, idx') == Contents(cs, key, data, idx)[p := Content(cs, key, data, idx, h)]
  {
    hide BlobsOk, Content, CountsOk, IsNormal;
    RepointCounts(idx, p, h, now);
    PlacesSuffice(cs, key, data, idx, Repoint(idx, p, h, now));
  }

  lemma DelInv(cs: Suite, key: bytes, data: bytes, idx: Index, path: bytes)
    requires IndexInv(cs, key, data, idx)
    ensures var (st, idx') := DelIndex(idx, path);
            && IndexInv(cs, key, data, idx')
            && Contents(cs, key, data, idx') == Contents(cs, key, data, idx) - {Normalize(path)}
            && (st == Ok <==> Normalize(path) in idx.paths)
            && SamePlaces(idx.blobs, idx'.blobs)
  {
    hide BlobsOk, Content, IsNormal, Normalize, Users;
    var p, idx' := Normalize(path), DelIndex(idx, path).1;
    if p in idx.paths {
      forall k | k in idx'.blobs
        ensures idx'.blobs[k].refcount == |Users(idx'.paths, k)|
      {
        assert idx.blobs[k].refcount == |Users(idx.paths, k)|;
        UsersRemove(idx.paths, p, k);
        UsedOnce(idx.paths, p, k);
      }
      PlacesSuffice(cs, key, data, idx, idx');
    }
  }

  lemma MoveInv(cs: Suite, key: bytes, data: bytes, idx: Index, from: bytes, to: bytes)
    requires IndexInv(cs, key, data, idx)
    ensures var (st, idx') := MoveIndex(idx, from, to);
            var v, f, t := Contents(cs, key, data, idx), Normalize(from), Normalize(to);
            && IndexInv(cs, key, data, idx')
            && (st == Ok <==> f != [] && t != [] && f in v && t !in v)
            && Contents(cs, key, data, idx') == (if st == Ok then (v - {f})[t := v[f]] else v)
            && (st == Ok ==> f in idx.paths && t in idx'.paths && idx'.paths[t] == idx.paths[f])
  {
    hide BlobsOk, Normalize, IsNormal, Users, Content;
    var f, t, idx' := Normalize(from), Normalize(to), MoveIndex(idx, from, to).1;
    if MoveIndex(idx, from, to).0 == Ok {
      assert IsNormal(t) by { NormalizeIdempotent(to); }
      forall k | k in idx'.blobs
        ensures idx'.blobs[k].refcount == |Users(idx'.paths, k)|
      {
        assert idx.blobs[k].refcount == |Users(idx.paths, k)|;
        UsersAdd(idx.paths, t, idx.paths[f], k);
        UsersRemove(idx.paths[t := idx.paths[f]], f, k);
      }
      PlacesSuffice(cs, key, data, idx, idx');
    }
  }

  lemma CopyInv(cs: Suite, key: bytes, data: bytes, idx: Index, from: bytes, to: bytes, now: u64)
    requires IndexInv(cs, key, data, idx) && |idx.paths| + 1 < U32_LIMIT
    ensures var (st, idx') := CopyIndex(idx, from, to, now);
            var v, f, t := Contents(cs, key, data, idx), Normalize(from), Normalize(to);
            && IndexInv(cs, key, data, idx')
            && (st == Ok <==> f != [] && t != [] && f in v && t !in v)
            && Contents(cs, key, data, idx') == (if st == Ok then v[t := v[f]] else v)
            && SamePlaces(idx.blobs, idx'.blobs)
  {
    hide BlobsOk, Content, Normalize, IsNormal;
    var f, t := Normalize(from), Normalize(to);
    if f != [] && t != [] && f in idx.paths && t !in idx.paths {
      NormalizeIdempotent(to);
      var h := idx.paths[f].hash;
      assert CopyIndex(idx, from, to, now).1 == Repoint(idx, t, h, now);
      RepointInv(cs, key, data, idx, t, h, now);
      RepointCounts(idx, t, h, now);
    }
  }
}
