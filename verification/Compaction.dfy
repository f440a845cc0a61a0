/** Compaction: the live records are copied to a new file, which then takes the pack's
    name in one step. */
module Compaction {
  import opened Bytes
  import opened Crypto
  import opened StoreModel
  import opened Order
  import opened Index
  import opened Paths
  import opened PackModel

  // ---- the new data region and index, as functions of the old ----

  /** A record's bytes in the data region. */
  function Record(data: bytes, ref: BlobRef): bytes {
    if ref.offset < DATA_START || ref.offset - DATA_START + ref.encSize > |data| then []
    else data[ref.offset - DATA_START..ref.offset - DATA_START + ref.encSize]
  }

  /** The live records among the keys, one after the other. */
  function LiveRecords(data: bytes, blobs: map<bytes, BlobRef>, keys: seq<bytes>): bytes
    requires forall k | k in keys :: k in blobs
  {
    if keys == [] then []
    else
      var k, init := keys[|keys| - 1], keys[..|keys| - 1];
      if blobs[k].refcount == 0 then LiveRecords(data, blobs, init)
      else LiveRecords(data, blobs, init) + Record(data, blobs[k])
  }

  /** Where they are then. */
  function LiveBlobs(data: bytes, blobs: map<bytes, BlobRef>, keys: seq<bytes>): map<bytes, BlobRef>
    requires forall k | k in keys :: k in blobs
    requires DATA_START + |LiveRecords(data, blobs, keys)| <= MAX_OFFSET
  {
    if keys == [] then map[]
    else
      var k, init := keys[|keys| - 1], keys[..|keys| - 1];
      if blobs[k].refcount == 0 then LiveBlobs(data, blobs, init)
      else LiveBlobs(data, blobs, init)[k := blobs[k].(offset := DATA_START + |LiveRecords(data, blobs, init)|)]
  }

  /** The sum of the live records' sizes. */
  function LiveSize(blobs: map<bytes, BlobRef>, keys: seq<bytes>): nat
    requires forall k | k in keys :: k in blobs
  {
    if keys == [] then 0
    else
      var k, init := keys[|keys| - 1], keys[..|keys| - 1];
      LiveSize(blobs, init) + if blobs[k].refcount == 0 then 0 else blobs[k].encSize
  }

  function CompactPaths(paths: map<bytes, PathEntry>, blobs: map<bytes, BlobRef>): map<bytes, PathEntry> {
    map p | p in paths && paths[p].hash in blobs :: paths[p]
  }

  /** The new blobs are the live old ones, with the same sizes and counts, their records
      copied byte for byte into extents that do not overlap. */
  ghost predicate Copied(data: bytes, blobs: map<bytes, BlobRef>, keys: seq<bytes>, data': bytes,
                         blobs': map<bytes, BlobRef>)
    requires forall k | k in keys :: k in blobs
  {
    && (forall h :: h in blobs' <==> h in keys && blobs[h].refcount > 0)
    && (forall h | h in blobs' ::
          && blobs'[h].(offset := 0) == blobs[h].(offset := 0)
          && Record(data', blobs'[h]) == Record(data, blobs[h])
          && DATA_START <= blobs'[h].offset && blobs'[h].offset + blobs'[h].encSize <= DATA_START + |data'|)
    && (forall h, k | h in blobs' && k in blobs' && h != k :: Disjoint(blobs'[h], blobs'[k]))
    && |data'| == LiveSize(blobs, keys)
  }

  lemma {:induction false} LiveCopied(data: bytes, blobs: map<bytes, BlobRef>, keys: seq<bytes>)
    requires forall k | k in keys :: k in blobs && |Record(data, blobs[k])| == blobs[k].encSize
    requires forall i, j | 0 <= i < j < |keys| :: keys[i] != keys[j]
    requires DATA_START + |LiveRecords(data, blobs, keys)| <= MAX_OFFSET
    ensures Copied(data, blobs, keys, LiveRecords(data, blobs, keys), LiveBlobs(data, blobs, keys))
    decreases |keys|
  {
    hide Copied, Record;
    if keys == [] {
      CopiedNone(data, blobs, keys);
    } else {
      var k, init := keys[|keys| - 1], keys[..|keys| - 1];
      assert keys == init + [k] && k !in init;
      LiveCopied(data, blobs, init);
      if blobs[k].refcount == 0 {
        CopiedSkip(data, blobs, keys, init, k, LiveRecords(data, blobs, init), LiveBlobs(data, blobs, init));
      } else {
        CopiedMore(data, blobs, keys, init, k, LiveRecords(data, blobs, init), LiveBlobs(data, blobs, init));
      }
    }
  }

  lemma CopiedNone(data: bytes, blobs: map<bytes, BlobRef>, keys: seq<bytes>)
    requires keys == []
    ensures Copied(data, blobs, keys, [], map[])
  {
  }

  lemma CopiedSkip(data: bytes, blobs: map<bytes, BlobRef>, keys: seq<bytes>, init: seq<bytes>, k: bytes,
                   data': bytes, blobs': map<bytes, BlobRef>)
    requires keys == init + [k] && forall h | h in keys :: h in blobs
    requires blobs[k].refcount == 0
    requires Copied(data, blobs, init, data', blobs')
    ensures Copied(data, blobs, keys, data', blobs')
  {
    hide Record, Disjoint;
    assert keys[..|keys| - 1] == init;
  }

  lemma CopiedMore(data: bytes, blobs: map<bytes, BlobRef>, keys: seq<bytes>, init: seq<bytes>, k: bytes,
                   data': bytes, blobs': map<bytes, BlobRef>)
    requires keys == init + [k] && k !in init && forall h | h in keys :: h in blobs
    requires |Record(data, blobs[k])| == blobs[k].encSize && blobs[k].refcount > 0
    requires Copied(data, blobs, init, data', blobs')
    requires DATA_START + |data'| < U64_LIMIT
    ensures Copied(data, blobs, keys, data' + Record(data, blobs[k]),
                   blobs'[k := blobs[k].(offset := DATA_START + |data'|)])
  {
    hide Record;
    assert keys[..|keys| - 1] == init;
    var rec := Record(data, blobs[k]);
    var ref := blobs[k].(offset := DATA_START + |data'|);
    var blobs'' := blobs'[k := ref];
    RecordAtEnd(data', rec, ref);
    forall h | h in blobs''
      ensures blobs''[h].(offset := 0) == blobs[h].(offset := 0)
      ensures Record(data' + rec, blobs''[h]) == Record(data, blobs[h])
      ensures DATA_START <= blobs''[h].offset && blobs''[h].offset + blobs''[h].encSize <= DATA_START + |data' + rec|
      ensures h != k ==> blobs''[h] == blobs'[h] && Disjoint(blobs''[h], ref)
    {
      if h != k {
        assert h in blobs';
        RecordInPrefix(data', rec, blobs'[h]);
      }
    }
  }

  lemma RecordAtEnd(data: bytes, rec: bytes, ref: BlobRef)
    requires ref.offset == DATA_START + |data| && ref.encSize == |rec|
    ensures Record(data + rec, ref) == rec
  {
    assert (data + rec)[|data|..|data| + |rec|] == rec;
  }

  lemma RecordInPrefix(data: bytes, more: bytes, ref: BlobRef)
    requires DATA_START <= ref.offset && ref.offset + ref.encSize <= DATA_START + |data|
    ensures Record(data + more, ref) == Record(data, ref)
  {
    var lo := ref.offset - DATA_START;
    assert (data + more)[lo..lo + ref.encSize] == data[lo..lo + ref.encSize];
  }

  lemma BlobIsRecord(cs: Suite, key: bytes, data: bytes, ref: BlobRef)
    requires ReadBlob(cs, key, data, ref).Some?
    ensures |Record(data, ref)| == ref.encSize && ReadBlob(cs, key, data, ref) == Unseal(cs, key, Record(data, ref))
  {
  }

  /** Compaction keeps every path, time, count and content, drops every unused blob, and
      leaves no byte between or after the live records. */
  lemma {:induction false} CompactSound(cs: Suite, key: bytes, data: bytes, idx: Index)
    requires IndexInv(cs, key, data, idx)
    requires DATA_START + |LiveRecords(data, idx.blobs, SortedKeys(idx.blobs.Keys))| <= MAX_OFFSET
    ensures var keys := SortedKeys(idx.blobs.Keys);
            var data', blobs' := LiveRecords(data, idx.blobs, keys), LiveBlobs(data, idx.blobs, keys);
            var idx' := Index(blobs', CompactPaths(idx.paths, blobs'));
            && IndexInv(cs, key, data', idx') && Contents(cs, key, data', idx') == Contents(cs, key, data, idx)
            && idx'.paths == idx.paths
            && Copied(data, idx.blobs, keys, data', blobs')
            && |data'| == LiveSize(idx.blobs, keys)
            && forall h | h in blobs' :: blobs'[h].refcount > 0
  {
    hide LiveRecords, LiveBlobs, SortedKeys, LexLe, ReadBlob, IsNormal, Record;
    var keys := SortedKeys(idx.blobs.Keys);
    forall k | k in keys
      ensures |Record(data, idx.blobs[k])| == idx.blobs[k].encSize
    {
      assert Sound(cs, key, data, k, idx.blobs[k]);
      BlobIsRecord(cs, key, data, idx.blobs[k]);
    }
    LiveCopied(data, idx.blobs, keys);
    CopiedSound(cs, key, data, idx, keys, LiveRecords(data, idx.blobs, keys), LiveBlobs(data, idx.blobs, keys));
  }

  lemma CopiedSound(cs: Suite, key: bytes, data: bytes, idx: Index, keys: seq<bytes>, data': bytes,
                    blobs': map<bytes, BlobRef>)
    requires IndexInv(cs, key, data, idx) && (forall k :: k in keys <==> k in idx.blobs)
    requires Copied(data, idx.blobs, keys, data', blobs')
    ensures var idx' := Index(blobs', CompactPaths(idx.paths, blobs'));
            && IndexInv(cs, key, data', idx') && Contents(cs, key, data', idx') == Contents(cs, key, data, idx)
            && idx'.paths == idx.paths
  {
    hide ReadBlob, IsNormal, Record, LiveSize, CompactPaths, CountsOk, Users;
    var idx' := Index(blobs', CompactPaths(idx.paths, blobs'));
    forall h | h in blobs'
      ensures ReadBlob(cs, key, data', blobs'[h]) == ReadBlob(cs, key, data, idx.blobs[h])
      ensures Sound(cs, key, data', h, blobs'[h])
    {
      assert Sound(cs, key, data, h, idx.blobs[h]);
      SameRecord(cs, key, data, idx.blobs[h], data', blobs'[h]);
    }
    UsedIsLive(idx, keys, blobs');
    assert CountsOk(idx') by { LiveCounts(idx, keys, blobs'); }
  }

  lemma UsedIsLive(idx: Index, keys: seq<bytes>, blobs': map<bytes, BlobRef>)
    requires PathsOk(idx) && CountsOk(idx) && (forall k :: k in keys <==> k in idx.blobs)
    requires forall h :: h in blobs' <==> h in keys && idx.blobs[h].refcount > 0
    ensures CompactPaths(idx.paths, blobs') == idx.paths
    ensures forall p | p in idx.paths :: idx.paths[p].hash in blobs'
  {
    hide IsNormal, Users;
    forall p | p in idx.paths
      ensures idx.paths[p].hash in blobs'
    {
      UsedOnce(idx.paths, p, idx.paths[p].hash);
      assert idx.blobs[idx.paths[p].hash].refcount == |Users(idx.paths, idx.paths[p].hash)|;
    }
  }

  lemma LiveCounts(idx: Index, keys: seq<bytes>, blobs': map<bytes, BlobRef>)
    requires CountsOk(idx)
             && (forall h | h in blobs' :: h in idx.blobs && blobs'[h].(offset := 0) == idx.blobs[h].(offset := 0))
    ensures CountsOk(Index(blobs', idx.paths))
  {
    hide Users;
    forall h | h in blobs'
      ensures blobs'[h].refcount == |Users(idx.paths, h)|
    {
      assert blobs'[h].(offset := 0) == idx.blobs[h].(offset := 0);
    }
  }

  lemma SameRecord(cs: Suite, key: bytes, data: bytes, ref: BlobRef, data': bytes, ref': BlobRef)
    requires ReadBlob(cs, key, data, ref).Some? && ref'.(offset := 0) == ref.(offset := 0)
    requires Record(data', ref') == Record(data, ref)
    requires DATA_START <= ref'.offset && ref'.offset + ref'.encSize <= DATA_START + |data'|
    ensures ReadBlob(cs, key, data', ref') == ReadBlob(cs, key, data, ref)
  {
  }
}
