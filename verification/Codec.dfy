/** The manifest printer and parser as the loops of index.cpp, proved equal to the
    functions of Index. */
module Codec {
  import opened Bytes
  import opened Order
  import opened Index

  /** put_u32, put_u64: the low bytes of v, one push at a time. */
  method PutInt(s: bytes, v: nat, width: nat) returns (r: bytes)
    ensures r == s + LE(v, width)
  {
    r := s;
    var shifted := v;
    var i := 0;
    while i < width
      invariant 0 <= i <= width
      invariant r + LE(shifted, width - i) == s + LE(v, width)
    {
      r := r + [shifted % 256];
      shifted := shifted / 256;
      i := i + 1;
    }
  }

  lemma {:induction false} UnLEStep(b: bytes, i: nat, low: nat)
    requires i < |b|
    ensures low + Pow256(i) * UnLE(b[i..]) == low + b[i] * Pow256(i) + Pow256(i + 1) * UnLE(b[i + 1..])
  {
    var x, y, p := b[i], UnLE(b[i + 1..]), Pow256(i);
    assert b[i..][0] == x && b[i..][1..] == b[i + 1..];
    assert UnLE(b[i..]) == x + 256 * y;
    assert p * (x + 256 * y) == x * p + (256 * p) * y;
  }

  /** get_u32, get_u64: false leaves the cursor alone. */
  method TakeInt(d: bytes, p: nat, width: nat) returns (ok: bool, v: nat, q: nat)
    requires p <= |d|
    ensures ok <==> GetInt(d, p, width).Some?
    ensures ok ==> GetInt(d, p, width) == Some((v, q))
    ensures !ok ==> q == p
  {
    v, q := 0, p;
    if p + width > |d| {
      return false, v, q;
    }
    ghost var b := d[p..p + width];
    var scale: nat := 1;
    var i := 0;
    while i < width
      invariant 0 <= i <= width && scale == Pow256(i)
      invariant v + Pow256(i) * UnLE(b[i..]) == UnLE(b)
    {
      UnLEStep(b, i, v);
      v := v + d[p + i] * scale;
      scale := 256 * scale;
      i := i + 1;
    }
    assert UnLE(b[i..]) == 0;
    return true, v, p + width;
  }

  method TakeU32(d: bytes, p: nat) returns (ok: bool, v: u32, q: nat)
    requires p <= |d|
    ensures ok <==> GetU32(d, p).Some?
    ensures ok ==> GetU32(d, p) == Some((v, q))
    ensures p <= q <= |d|
  {
    Pow256Values();
    var n: nat;
    ok, n, q := TakeInt(d, p, 4);
    v := if ok then n else 0;
  }

  method TakeU64(d: bytes, p: nat) returns (ok: bool, v: u64, q: nat)
    requires p <= |d|
    ensures ok <==> GetU64(d, p).Some?
    ensures ok ==> GetU64(d, p) == Some((v, q))
    ensures p <= q <= |d|
  {
    Pow256Values();
    var n: nat;
    ok, n, q := TakeInt(d, p, 8);
    v := if ok then n else 0;
  }

  method TakeBytes(d: bytes, p: nat, len: nat) returns (ok: bool, b: bytes, q: nat)
    requires p <= |d|
    ensures ok <==> GetBytes(d, p, len).Some?
    ensures ok ==> GetBytes(d, p, len) == Some((b, q))
    ensures p <= q <= |d|
  {
    if len > |d| - p {
      return false, [], p;
    }
    return true, d[p..p + len], p + len;
  }

  /** `serialize`. */
  method Print(idx: Index) returns (s: bytes)
    ensures s == Serialize(idx)
  {
    hide LE, EncBlobs, EncPaths, SortedKeys;
    s := PutInt([], INDEX_MAGIC, 4);
    s := PutInt(s, |idx.blobs|, 4);
    s := PrintBlobs(s, idx.blobs);
    s := PutInt(s, |idx.paths|, 4);
    s := PrintPaths(s, idx.paths);
  }

  method PrintBlobs(s: bytes, blobs: map<bytes, BlobRef>) returns (r: bytes)
    ensures r == s + EncBlobs(SortedKeys(blobs.Keys), blobs)
  {
    hide EncBlob, EncBlobs, SortedKeys;
    r := s;
    var keys := SortedKeys(blobs.Keys);
    var i := 0;
    while i < |keys|
      invariant 0 <= i <= |keys|
      invariant r + EncBlobs(keys[i..], blobs) == s + EncBlobs(keys, blobs)
    {
      EncBlobsStep(r, keys, i, blobs);
      r := PrintBlob(r, keys[i], blobs[keys[i]]);
      i := i + 1;
    }
    assert EncBlobs(keys[i..], blobs) == [] by { EncBlobsEnd(keys[i..], blobs); }
  }

  lemma EncBlobsStep(r: bytes, keys: seq<bytes>, i: nat, m: map<bytes, BlobRef>)
    requires i < |keys| && (forall k | k in keys :: k in m)
    ensures r + EncBlobs(keys[i..], m) == r + EncBlob(keys[i], m[keys[i]]) + EncBlobs(keys[i + 1..], m)
  {
    hide EncBlob;
    assert keys[i..][0] == keys[i] && keys[i..][1..] == keys[i + 1..];
  }

  lemma EncBlobsEnd(keys: seq<bytes>, m: map<bytes, BlobRef>)
    requires keys == []
    ensures EncBlobs(keys, m) == []
  {
  }

  method PrintPaths(s: bytes, paths: map<bytes, PathEntry>) returns (r: bytes)
    ensures r == s + EncPaths(SortedKeys(paths.Keys), paths)
  {
    hide EncPath, EncPaths, SortedKeys;
    r := s;
    var keys := SortedKeys(paths.Keys);
    var i := 0;
    while i < |keys|
      invariant 0 <= i <= |keys|
      invariant r + EncPaths(keys[i..], paths) == s + EncPaths(keys, paths)
    {
      EncPathsStep(r, keys, i, paths);
      r := PrintPath(r, keys[i], paths[keys[i]]);
      i := i + 1;
    }
    assert EncPaths(keys[i..], paths) == [] by { EncPathsEnd(keys[i..], paths); }
  }

  lemma EncPathsStep(r: bytes, keys: seq<bytes>, i: nat, m: map<bytes, PathEntry>)
    requires i < |keys| && (forall k | k in keys :: k in m)
    ensures r + EncPaths(keys[i..], m) == r + EncPath(keys[i], m[keys[i]]) + EncPaths(keys[i + 1..], m)
  {
    hide EncPath;
    assert keys[i..][0] == keys[i] && keys[i..][1..] == keys[i + 1..];
  }

  lemma EncPathsEnd(keys: seq<bytes>, m: map<bytes, PathEntry>)
    requires keys == []
    ensures EncPaths(keys, m) == []
  {
  }

  method PrintBlob(s: bytes, h: bytes, ref: BlobRef) returns (r: bytes)
    ensures r == s + EncBlob(h, ref)
  {
    hide LE;
    r := PutInt(s + h, ref.offset, 8);
    r := PutInt(r, ref.encSize, 8);
    r := PutInt(r, ref.plainSize, 8);
    r := PutInt(r, ref.refcount, 4);
  }

  method PrintPath(s: bytes, path: bytes, e: PathEntry) returns (r: bytes)
    ensures r == s + EncPath(path, e)
  {
    hide LE;
    r := PutInt(s, |path|, 4);
    r := PutInt(r + path + e.hash, e.mtime, 8);
  }

  /** `deserialize`: nothing is returned unless all of it could be read. */
  method Read(d: bytes) returns (r: Option<Index>)
    ensures r == Deserialized(d)
  {
    hide GetU32, GetBlob, GetPath;
    var ok, magic, p := TakeU32(d, 0);
    if !ok || magic != INDEX_MAGIC {
      return None;
    }
    var nb: u32;
    ok, nb, p := TakeU32(d, p);
    if !ok {
      return None;
    }
    ghost var all := GetBlobs(d, p, nb, map[]);
    var blobs: map<bytes, BlobRef> := map[];
    var i := 0;
    while i < nb
      invariant 0 <= i <= nb && p <= |d|
      invariant GetBlobs(d, p, nb - i, blobs) == all
    {
      var h: bytes, ref: BlobRef;
      ok, h, ref, p := ReadBlobEntry(d, p);
      if !ok {
        return None;
      }
      blobs := Emplace(blobs, h, ref);
      i := i + 1;
    }
    var np: u32;
    ok, np, p := TakeU32(d, p);
    if !ok {
      return None;
    }
    ghost var rest := GetPaths(d, p, np, map[]);
    var paths: map<bytes, PathEntry> := map[];
    i := 0;
    while i < np
      invariant 0 <= i <= np && p <= |d|
      invariant GetPaths(d, p, np - i, paths) == rest
    {
      var name: bytes, e: PathEntry;
      ok, name, e, p := ReadPathEntry(d, p);
      if !ok {
        return None;
      }
      paths := Emplace(paths, name, e);
      i := i + 1;
    }
    return Some(Index(blobs, paths));
  }

  method ReadBlobEntry(d: bytes, p: nat) returns (ok: bool, h: bytes, ref: BlobRef, q: nat)
    requires p <= |d|
    ensures ok <==> GetBlob(d, p).Some?
    ensures ok ==> GetBlob(d, p) == Some(Parsed((h, ref), q))
    ensures p <= q <= |d|
  {
    hide GetBytes, GetU32, GetU64;
    ref := BlobRef(0, 0, 0, 0);
    ok, h, q := TakeBytes(d, p, HASH_SIZE);
    if !ok { return; }
    var off: u64, enc: u64, plain: u64, rc: u32;
    ok, off, q := TakeU64(d, q);
    if !ok { return; }
    ok, enc, q := TakeU64(d, q);
    if !ok { return; }
    ok, plain, q := TakeU64(d, q);
    if !ok { return; }
    ok, rc, q := TakeU32(d, q);
    if !ok { return; }
    ref := BlobRef(off, enc, plain, rc);
  }

  method ReadPathEntry(d: bytes, p: nat) returns (ok: bool, path: bytes, e: PathEntry, q: nat)
    requires p <= |d|
    ensures ok <==> GetPath(d, p).Some?
    ensures ok ==> GetPath(d, p) == Some(Parsed((path, e), q))
    ensures p <= q <= |d|
  {
    hide GetBytes, GetU32, GetU64;
    path, e := [], PathEntry([], 0);
    var len: u32, hash: bytes, mtime: u64;
    ok, len, q := TakeU32(d, p);
    if !ok { return; }
    ok, path, q := TakeBytes(d, q, len);
    if !ok { return; }
    ok, hash, q := TakeBytes(d, q, HASH_SIZE);
    if !ok { return; }
    ok, mtime, q := TakeU64(d, q);
    if !ok { return; }
    e := PathEntry(hash, mtime);
  }
}
