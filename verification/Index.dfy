/** The manifest: what a pack knows about its paths and blobs, and its binary form. */
module Index {
  import opened Bytes
  import opened Order

  datatype BlobRef = BlobRef(offset: u64, encSize: u64, plainSize: u64, refcount: u32)

  datatype PathEntry = PathEntry(hash: bytes, mtime: u64)

  datatype Index = Index(blobs: map<bytes, BlobRef>, paths: map<bytes, PathEntry>)

  const EMPTY: Index := Index(map[], map[])
  const INDEX_MAGIC: u32 := 0x53504958
  const HASH_SIZE: nat := 32

  /** What the fixed-width fields of the binary form can carry. */
  ghost predicate WellFormed(idx: Index) {
    && |idx.blobs| < U32_LIMIT
    && |idx.paths| < U32_LIMIT
    && (forall h | h in idx.blobs :: |h| == HASH_SIZE)
    && (forall p | p in idx.paths :: |p| < U32_LIMIT && |idx.paths[p].hash| == HASH_SIZE)
  }

  // ---- printing ----
  function EncBlob(h: bytes, r: BlobRef): bytes {
    h + LE(r.offset, 8) + LE(r.encSize, 8) + LE(r.plainSize, 8) + LE(r.refcount, 4)
  }

  function EncPath(p: bytes, e: PathEntry): bytes {
    LE(|p|, 4) + p + e.hash + LE(e.mtime, 8)
  }

  function EncBlobs(keys: seq<bytes>, blobs: map<bytes, BlobRef>): bytes
    requires forall k | k in keys :: k in blobs
  {
    if keys == [] then [] else EncBlob(keys[0], blobs[keys[0]]) + EncBlobs(keys[1..], blobs)
  }

  function EncPaths(keys: seq<bytes>, paths: map<bytes, PathEntry>): bytes
    requires forall k | k in keys :: k in paths
  {
    if keys == [] then [] else EncPath(keys[0], paths[keys[0]]) + EncPaths(keys[1..], paths)
  }

  function Serialize(idx: Index): bytes {
    LE(INDEX_MAGIC, 4)
    + LE(|idx.blobs|, 4) + EncBlobs(SortedKeys(idx.blobs.Keys), idx.blobs)
    + LE(|idx.paths|, 4) + EncPaths(SortedKeys(idx.paths.Keys), idx.paths)
  }

  // ---- where everything stands ----

  lemma BlobLayout(h: bytes, r: BlobRef)
    requires |h| == HASH_SIZE
    ensures var x := EncBlob(h, r);
            && |x| == 60 && x[0..32] == h && UnLE(x[32..40]) == r.offset && UnLE(x[40..48]) == r.encSize
            && UnLE(x[48..56]) == r.plainSize && UnLE(x[56..60]) == r.refcount
  {
    hide LE, UnLE;
    var x := EncBlob(h, r);
    assert x[32..40] == LE(r.offset, 8) && x[40..48] == LE(r.encSize, 8);
    assert x[48..56] == LE(r.plainSize, 8) && x[56..60] == LE(r.refcount, 4);
    LE64(r.offset);
    LE64(r.encSize);
    LE64(r.plainSize);
    LE32(r.refcount);
  }

  lemma PathLayout(p: bytes, e: PathEntry)
    requires |p| < U32_LIMIT && |e.hash| == HASH_SIZE
    ensures var x, n := EncPath(p, e), |p|;
            && |x| == 44 + n && UnLE(x[0..4]) == n && x[4..4 + n] == p && x[4 + n..36 + n] == e.hash
            && UnLE(x[36 + n..44 + n]) == e.mtime
  {
    hide LE, UnLE;
    var x, n := EncPath(p, e), |p|;
    assert x[0..4] == LE(n, 4) && x[36 + n..44 + n] == LE(e.mtime, 8);
    LE32(n);
    LE64(e.mtime);
  }

  lemma {:induction false} BlobsLayout(keys: seq<bytes>, blobs: map<bytes, BlobRef>)
    requires forall k | k in keys :: k in blobs && |k| == HASH_SIZE
    ensures |EncBlobs(keys, blobs)| == 60 * |keys|
    ensures forall i: nat | i < |keys| ::
              EncBlobs(keys, blobs)[60 * i..60 * i + 60] == EncBlob(keys[i], blobs[keys[i]])
  {
    hide EncBlob;
    if keys != [] {
      var rest := keys[1..];
      BlobLayout(keys[0], blobs[keys[0]]);
      BlobsLayout(rest, blobs);
      var e, es := EncBlob(keys[0], blobs[keys[0]]), EncBlobs(rest, blobs);
      forall i: nat | i < |keys|
        ensures (e + es)[60 * i..60 * i + 60] == EncBlob(keys[i], blobs[keys[i]])
      {
        if i > 0 {
          Later(e, es, 60 * (i - 1), 60 * (i - 1) + 60);
          assert keys[i] == rest[i - 1];
        }
      }
    }
  }

  lemma Later(a: bytes, b: bytes, lo: nat, hi: nat)
    requires lo <= hi <= |b|
    ensures (a + b)[|a| + lo..|a| + hi] == b[lo..hi]
  {
  }

  lemma {:induction false} PathsLayout(keys: seq<bytes>, paths: map<bytes, PathEntry>, i: nat)
    requires i < |keys| && forall k | k in keys :: k in paths
    ensures EncPaths(keys, paths) ==
            EncPaths(keys[..i], paths) + EncPath(keys[i], paths[keys[i]]) + EncPaths(keys[i + 1..], paths)
  {
    hide EncPath;
    if i > 0 {
      PathsLayout(keys[1..], paths, i - 1);
      assert keys[..i][1..] == keys[1..][..i - 1] && keys[1..][i..] == keys[i + 1..];
    }
  }

  /** The manifest: "SPIX" read as a number, the blobs 60 bytes each, and the paths, both after
      their counts and in ascending order of their keys. */
  lemma ManifestLayout(idx: Index)
    requires WellFormed(idx)
    ensures var m, nb := Serialize(idx), |idx.blobs|;
            && |m| >= 12 + 60 * nb && UnLE(m[0..4]) == 0x53504958 && UnLE(m[4..8]) == nb
            && UnLE(m[8 + 60 * nb..12 + 60 * nb]) == |idx.paths|
            && m[12 + 60 * nb..] == EncPaths(SortedKeys(idx.paths.Keys), idx.paths)
    ensures Ascending(SortedKeys(idx.blobs.Keys)) && Ascending(SortedKeys(idx.paths.Keys))
  {
    hide LE, UnLE, EncBlobs, EncPaths, EncBlob, SortedKeys, LexLe, Ascending, Serialize;
    KeysAscend(idx.blobs.Keys);
    KeysAscend(idx.paths.Keys);
    assert |idx.blobs.Keys| == |idx.blobs|;
    BlobsLayout(SortedKeys(idx.blobs.Keys), idx.blobs);
    ManifestParts(idx);
  }

  /** The i-th blob's entry. */
  lemma ManifestBlob(idx: Index, i: nat)
    requires WellFormed(idx) && i < |idx.blobs|
    ensures var m, keys := Serialize(idx), SortedKeys(idx.blobs.Keys);
            |m| >= 68 + 60 * i && i < |keys| && keys[i] in idx.blobs
            && m[8 + 60 * i..68 + 60 * i] == EncBlob(keys[i], idx.blobs[keys[i]])
  {
    hide LE, UnLE, EncBlobs, EncPaths, EncBlob, SortedKeys, LexLe, Serialize;
    var keys := SortedKeys(idx.blobs.Keys);
    assert |idx.blobs.Keys| == |idx.blobs|;
    BlobsLayout(keys, idx.blobs);
    ManifestParts(idx);
    InPart(Serialize(idx), 8, EncBlobs(keys, idx.blobs), 60 * i, 60 * i + 60);
  }

  lemma ManifestParts(idx: Index)
    requires |idx.blobs| < U32_LIMIT && |idx.paths| < U32_LIMIT
    ensures var m, c := Serialize(idx), EncBlobs(SortedKeys(idx.blobs.Keys), idx.blobs);
            && |m| >= 12 + |c| && UnLE(m[0..4]) == 0x53504958 && UnLE(m[4..8]) == |idx.blobs| && m[8..8 + |c|] == c
            && UnLE(m[8 + |c|..12 + |c|]) == |idx.paths|
            && m[12 + |c|..] == EncPaths(SortedKeys(idx.paths.Keys), idx.paths)
  {
    hide LE, UnLE, EncBlobs, EncPaths, SortedKeys, LexLe;
    var c, e := EncBlobs(SortedKeys(idx.blobs.Keys), idx.blobs), EncPaths(SortedKeys(idx.paths.Keys), idx.paths);
    FiveParts(LE(INDEX_MAGIC, 4), LE(|idx.blobs|, 4), c, LE(|idx.paths|, 4), e);
    LE32(INDEX_MAGIC);
    LE32(|idx.blobs|);
    LE32(|idx.paths|);
  }

  lemma FiveParts(a: bytes, b: bytes, c: bytes, d: bytes, e: bytes)
    requires |a| == |b| == |d| == 4
    ensures var m, n := a + b + c + d + e, |c|;
            && |m| == 12 + n + |e| && m[0..4] == a && m[4..8] == b && m[8..8 + n] == c && m[8 + n..12 + n] == d
            && m[12 + n..] == e
  {
  }

  lemma InPart(m: bytes, p: nat, c: bytes, lo: nat, hi: nat)
    requires p + |c| <= |m| && m[p..p + |c|] == c && lo <= hi <= |c|
    ensures m[p + lo..p + hi] == c[lo..hi]
  {
    var l, r := m[p + lo..p + hi], c[lo..hi];
    assert forall i | 0 <= i < hi - lo :: l[i] == m[p..p + |c|][lo + i] == r[i];
  }

  // ---- parsing: every getter takes the cursor and returns the value and the new cursor ----
  function GetInt(d: bytes, p: nat, width: nat): (r: Option<(nat, nat)>)
    ensures r.Some? ==> r.value.0 < Pow256(width) && r.value.1 == p + width <= |d|
  {
    if p + width > |d| then None else Some((UnLE(d[p..p + width]), p + width))
  }

  function GetBytes(d: bytes, p: nat, len: nat): (r: Option<(bytes, nat)>)
    ensures r.Some? ==> |r.value.0| == len && r.value.1 == p + len <= |d|
  {
    if p + len > |d| then None else Some((d[p..p + len], p + len))
  }

  function GetU32(d: bytes, p: nat): (r: Option<(u32, nat)>)
    ensures r.Some? ==> r.value.1 == p + 4 <= |d|
  {
    Pow256Values();
    match GetInt(d, p, 4)
    case None => None
    case Some((v, q)) => Some((v, q))
  }

  function GetU64(d: bytes, p: nat): (r: Option<(u64, nat)>)
    ensures r.Some? ==> r.value.1 == p + 8 <= |d|
  {
    Pow256Values();
    match GetInt(d, p, 8)
    case None => None
    case Some((v, q)) => Some((v, q))
  }

  datatype Parsed<T> = Parsed(value: T, next: nat)

  function GetBlob(d: bytes, p: nat): (r: Option<Parsed<(bytes, BlobRef)>>)
    ensures r.Some? ==> p <= r.value.next <= |d| && |r.value.value.0| == HASH_SIZE
  {
    match GetBytes(d, p, HASH_SIZE)
    case None => None
    case Some((h, p1)) =>
      match GetU64(d, p1)
      case None => None
      case Some((off, p2)) =>
        match GetU64(d, p2)
        case None => None
        case Some((enc, p3)) =>
          match GetU64(d, p3)
          case None => None
          case Some((plain, p4)) =>
            match GetU32(d, p4)
            case None => None
            case Some((rc, p5)) => Some(Parsed((h, BlobRef(off, enc, plain, rc)), p5))
  }

  function GetPath(d: bytes, p: nat): (r: Option<Parsed<(bytes, PathEntry)>>)
    ensures r.Some? ==> p <= r.value.next <= |d| && |r.value.value.0| < U32_LIMIT && |r.value.value.1.hash| == HASH_SIZE
  {
    match GetU32(d, p)
    case None => None
    case Some((len, p1)) =>
      match GetBytes(d, p1, len)
      case None => None
      case Some((path, p2)) =>
        match GetBytes(d, p2, HASH_SIZE)
        case None => None
        case Some((hash, p3)) =>
          match GetU64(d, p3)
          case None => None
          case Some((mtime, p4)) => Some(Parsed((path, PathEntry(hash, mtime)), p4))
  }

  /** std::map::emplace: an existing key keeps its value. */
  function Emplace<V>(m: map<bytes, V>, k: bytes, v: V): map<bytes, V> {
    if k in m then m else m[k := v]
  }

  function GetBlobs(d: bytes, p: nat, n: nat, acc: map<bytes, BlobRef>): (r: Option<Parsed<map<bytes, BlobRef>>>)
    decreases n
  {
    if n == 0 then Some(Parsed(acc, p))
    else
      match GetBlob(d, p)
      case None => None
      case Some(Parsed((h, ref), q)) => GetBlobs(d, q, n - 1, Emplace(acc, h, ref))
  }

  function GetPaths(d: bytes, p: nat, n: nat, acc: map<bytes, PathEntry>): (r: Option<Parsed<map<bytes, PathEntry>>>)
    decreases n
  {
    if n == 0 then Some(Parsed(acc, p))
    else
      match GetPath(d, p)
      case None => None
      case Some(Parsed((path, e), q)) => GetPaths(d, q, n - 1, Emplace(acc, path, e))
  }

  /** The index and the number of bytes that were read. */
  function Parse(d: bytes): Option<Parsed<Index>> {
    match GetU32(d, 0)
    case None => None
    case Some((magic, p0)) =>
      if magic != INDEX_MAGIC then None
      else
        match GetU32(d, p0)
        case None => None
        case Some((nb, p1)) =>
          match GetBlobs(d, p1, nb, map[])
          case None => None
          case Some(Parsed(blobs, p2)) =>
            match GetU32(d, p2)
            case None => None
            case Some((np, p3)) =>
              match GetPaths(d, p3, np, map[])
              case None => None
              case Some(Parsed(paths, p4)) => Some(Parsed(Index(blobs, paths), p4))
  }

  function Deserialized(d: bytes): Option<Index> {
    match Parse(d)
    case None => None
    case Some(Parsed(idx, _)) => Some(idx)
  }

  // ---- getters read what was printed ----

  /** The bytes x stand at position p of d. */
  ghost predicate At(d: bytes, p: nat, x: bytes) {
    p + |x| <= |d| && d[p..p + |x|] == x
  }

  lemma AtSplit(d: bytes, p: nat, x: bytes, y: bytes)
    requires At(d, p, x + y)
    ensures At(d, p, x) && At(d, p + |x|, y)
  {
    var z := d[p..p + |x + y|];
    assert z[..|x|] == x && z[|x|..] == y;
  }

  lemma GetIntAt(d: bytes, p: nat, v: nat, width: nat)
    requires At(d, p, LE(v, width))
    ensures GetInt(d, p, width) == Some((v % Pow256(width), p + width))
  {
    UnLEofLE(v, width);
  }

  lemma GetU32At(d: bytes, p: nat, v: nat)
    requires At(d, p, LE(v, 4))
    ensures GetU32(d, p) == Some((v % U32_LIMIT, p + 4))
  {
    hide LE, UnLE, GetInt, At;
    GetIntAt(d, p, v, 4);
    Pow256Values();
  }

  lemma GetSmallAt(d: bytes, p: nat, v: u32)
    requires At(d, p, LE(v, 4))
    ensures GetU32(d, p) == Some((v, p + 4))
  {
    hide LE, GetU32, At;
    GetU32At(d, p, v);
  }

  lemma GetU64At(d: bytes, p: nat, v: u64)
    requires At(d, p, LE(v, 8))
    ensures GetU64(d, p) == Some((v, p + 8))
  {
    hide LE, UnLE, GetInt, At;
    GetIntAt(d, p, v, 8);
    Pow256Values();
  }

  lemma GetBlobAt(d: bytes, p: nat, h: bytes, r: BlobRef)
    requires |h| == HASH_SIZE && At(d, p, EncBlob(h, r))
    ensures GetBlob(d, p) == Some(Parsed((h, r), p + |EncBlob(h, r)|))
  {
    hide LE, UnLE, GetU32, GetU64, At;
    var o, e, n, c := LE(r.offset, 8), LE(r.encSize, 8), LE(r.plainSize, 8), LE(r.refcount, 4);
    AtSplit(d, p, h + o + e + n, c);
    AtSplit(d, p, h + o + e, n);
    AtSplit(d, p, h + o, e);
    AtSplit(d, p, h, o);
    assert GetBytes(d, p, HASH_SIZE) == Some((h, p + HASH_SIZE)) by { BytesAt(d, p, h); }
    GetU64At(d, p + HASH_SIZE, r.offset);
    GetU64At(d, p + HASH_SIZE + 8, r.encSize);
    GetU64At(d, p + HASH_SIZE + 16, r.plainSize);
    GetU32At(d, p + HASH_SIZE + 24, r.refcount);
  }

  lemma BytesAt(d: bytes, p: nat, x: bytes)
    requires At(d, p, x)
    ensures GetBytes(d, p, |x|) == Some((x, p + |x|))
  {
  }

  lemma GetPathAt(d: bytes, p: nat, path: bytes, e: PathEntry)
    requires |path| < U32_LIMIT && |e.hash| == HASH_SIZE && At(d, p, EncPath(path, e))
    ensures GetPath(d, p) == Some(Parsed((path, e), p + |EncPath(path, e)|))
  {
    hide LE, UnLE, GetU32, GetU64, At, GetBytes;
    var n, t := LE(|path|, 4), LE(e.mtime, 8);
    AtSplit(d, p, n + path + e.hash, t);
    AtSplit(d, p, n + path, e.hash);
    AtSplit(d, p, n, path);
    GetU32At(d, p, |path|);
    BytesAt(d, p + 4, path);
    BytesAt(d, p + 4 + |path|, e.hash);
    GetU64At(d, p + 4 + |path| + HASH_SIZE, e.mtime);
  }

  ghost function Select<V>(keys: seq<bytes>, m: map<bytes, V>): map<bytes, V>
    requires forall k | k in keys :: k in m
  {
    map k | k in keys :: m[k]
  }

  lemma SelectRest<V>(acc: map<bytes, V>, keys: seq<bytes>, m: map<bytes, V>)
    requires keys != [] && (forall k | k in keys :: k in m)
    requires keys[0] !in keys[1..]
    ensures acc[keys[0] := m[keys[0]]] + Select(keys[1..], m) == acc + Select(keys, m)
  {
    assert forall k :: k in keys <==> k == keys[0] || k in keys[1..];
  }

  /** Keys of m, each once, none of them in acc. */
  ghost predicate Fresh<V>(keys: seq<bytes>, m: map<bytes, V>, acc: map<bytes, V>) {
    && (forall k | k in keys :: k in m && k !in acc)
    && forall i, j | 0 <= i < j < |keys| :: keys[i] != keys[j]
  }

  lemma FreshRest<V>(keys: seq<bytes>, m: map<bytes, V>, acc: map<bytes, V>)
    requires Fresh(keys, m, acc) && keys != []
    ensures keys[0] in m && keys[0] !in acc && keys[0] !in keys[1..] && forall k | k in keys :: k in m
    ensures Fresh(keys[1..], m, acc[keys[0] := m[keys[0]]])
  {
  }

  lemma {:induction false} GetBlobsAt(d: bytes, p: nat, keys: seq<bytes>, blobs: map<bytes, BlobRef>,
                                      acc: map<bytes, BlobRef>)
    requires Fresh(keys, blobs, acc) && forall h | h in blobs :: |h| == HASH_SIZE
    requires At(d, p, EncBlobs(keys, blobs))
    ensures GetBlobs(d, p, |keys|, acc) == Some(Parsed(acc + Select(keys, blobs), p + |EncBlobs(keys, blobs)|))
    decreases |keys|
  {
    hide EncBlobs, GetBlobs, EncBlob, At, Select, Fresh;
    if keys == [] {
      NoBlobs(d, p, keys, blobs, acc);
    } else {
      var k, rest := keys[0], keys[1..];
      FreshRest(keys, blobs, acc);
      BlobsStep(d, p, keys, blobs, acc);
      GetBlobsAt(d, p + |EncBlob(k, blobs[k])|, rest, blobs, acc[k := blobs[k]]);
      SelectRest(acc, keys, blobs);
    }
  }

  lemma NoBlobs(d: bytes, p: nat, keys: seq<bytes>, blobs: map<bytes, BlobRef>, acc: map<bytes, BlobRef>)
    requires keys == []
    ensures GetBlobs(d, p, |keys|, acc) == Some(Parsed(acc + Select(keys, blobs), p + |EncBlobs(keys, blobs)|))
  {
    SelectNone(keys, blobs);
    assert acc + map[] == acc;
  }

  lemma BlobsStep(d: bytes, p: nat, keys: seq<bytes>, blobs: map<bytes, BlobRef>, acc: map<bytes, BlobRef>)
    requires keys != [] && (forall k | k in keys :: k in blobs) && keys[0] !in acc && |keys[0]| == HASH_SIZE
    requires At(d, p, EncBlobs(keys, blobs))
    ensures var e, rest := EncBlob(keys[0], blobs[keys[0]]), EncBlobs(keys[1..], blobs);
            && At(d, p + |e|, rest) && |EncBlobs(keys, blobs)| == |e| + |rest|
            && GetBlobs(d, p, |keys|, acc) == GetBlobs(d, p + |e|, |keys[1..]|, acc[keys[0] := blobs[keys[0]]])
  {
    hide EncBlob, GetBlob, At;
    AtSplit(d, p, EncBlob(keys[0], blobs[keys[0]]), EncBlobs(keys[1..], blobs));
    GetBlobAt(d, p, keys[0], blobs[keys[0]]);
  }

  lemma SelectNone<V>(keys: seq<bytes>, m: map<bytes, V>)
    requires keys == []
    ensures Select(keys, m) == map[]
  {
  }

  lemma {:induction false} GetPathsAt(d: bytes, p: nat, keys: seq<bytes>, paths: map<bytes, PathEntry>,
                                      acc: map<bytes, PathEntry>)
    requires Fresh(keys, paths, acc) && forall k | k in paths :: |k| < U32_LIMIT && |paths[k].hash| == HASH_SIZE
    requires At(d, p, EncPaths(keys, paths))
    ensures GetPaths(d, p, |keys|, acc) == Some(Parsed(acc + Select(keys, paths), p + |EncPaths(keys, paths)|))
    decreases |keys|
  {
    hide EncPaths, GetPaths, EncPath, At, Select, Fresh;
    if keys == [] {
      NoPaths(d, p, keys, paths, acc);
    } else {
      var k, rest := keys[0], keys[1..];
      FreshRest(keys, paths, acc);
      PathsStep(d, p, keys, paths, acc);
      GetPathsAt(d, p + |EncPath(k, paths[k])|, rest, paths, acc[k := paths[k]]);
      SelectRest(acc, keys, paths);
    }
  }

  lemma NoPaths(d: bytes, p: nat, keys: seq<bytes>, paths: map<bytes, PathEntry>, acc: map<bytes, PathEntry>)
    requires keys == []
    ensures GetPaths(d, p, |keys|, acc) == Some(Parsed(acc + Select(keys, paths), p + |EncPaths(keys, paths)|))
  {
    SelectNone(keys, paths);
    assert acc + map[] == acc;
  }

  lemma PathsStep(d: bytes, p: nat, keys: seq<bytes>, paths: map<bytes, PathEntry>, acc: map<bytes, PathEntry>)
    requires keys != [] && (forall k | k in keys :: k in paths) && keys[0] !in acc
    requires |keys[0]| < U32_LIMIT && |paths[keys[0]].hash| == HASH_SIZE
    requires At(d, p, EncPaths(keys, paths))
    ensures var e, rest := EncPath(keys[0], paths[keys[0]]), EncPaths(keys[1..], paths);
            && At(d, p + |e|, rest) && |EncPaths(keys, paths)| == |e| + |rest|
            && GetPaths(d, p, |keys|, acc) == GetPaths(d, p + |e|, |keys[1..]|, acc[keys[0] := paths[keys[0]]])
  {
    hide EncPath, GetPath, At;
    AtSplit(d, p, EncPath(keys[0], paths[keys[0]]), EncPaths(keys[1..], paths));
    GetPathAt(d, p, keys[0], paths[keys[0]]);
  }

  /** Where the parts of a manifest stand. */
  lemma Parts(d: bytes, idx: Index)
    requires At(d, 0, Serialize(idx))
    ensures var eb := EncBlobs(SortedKeys(idx.blobs.Keys), idx.blobs);
            var ep := EncPaths(SortedKeys(idx.paths.Keys), idx.paths);
            && At(d, 0, LE(INDEX_MAGIC, 4)) && At(d, 4, LE(|idx.blobs|, 4)) && At(d, 8, eb)
            && At(d, 8 + |eb|, LE(|idx.paths|, 4)) && At(d, 12 + |eb|, ep)
            && |Serialize(idx)| == 12 + |eb| + |ep|
  {
    hide LE, EncBlobs, EncPaths, SortedKeys, At;
    var m, nb, eb, np, ep :=
      LE(INDEX_MAGIC, 4), LE(|idx.blobs|, 4), EncBlobs(SortedKeys(idx.blobs.Keys), idx.blobs),
      LE(|idx.paths|, 4), EncPaths(SortedKeys(idx.paths.Keys), idx.paths);
    AtSplit(d, 0, m + nb + eb + np, ep);
    AtSplit(d, 0, m + nb + eb, np);
    AtSplit(d, 0, m + nb, eb);
    AtSplit(d, 0, m, nb);
  }

  /** The keys of m, each once. */
  ghost predicate Enumerates<V>(keys: seq<bytes>, m: map<bytes, V>) {
    && (forall k :: k in keys <==> k in m) && |keys| == |m|
    && forall i, j | 0 <= i < j < |keys| :: keys[i] != keys[j]
  }

  lemma SortedEnumerates<V>(m: map<bytes, V>)
    ensures Enumerates(SortedKeys(m.Keys), m)
  {
    hide LexLe, SortedKeys;
    assert |m.Keys| == |m|;
  }

  lemma SelectAll<V>(keys: seq<bytes>, m: map<bytes, V>)
    requires Enumerates(keys, m)
    ensures map[] + Select(keys, m) == m
  {
  }

  lemma BlobsPart(d: bytes, p: nat, idx: Index)
    requires WellFormed(idx)
    requires At(d, p, EncBlobs(SortedKeys(idx.blobs.Keys), idx.blobs))
    ensures GetBlobs(d, p, |idx.blobs|, map[])
         == Some(Parsed(idx.blobs, p + |EncBlobs(SortedKeys(idx.blobs.Keys), idx.blobs)|))
  {
    hide EncBlobs, GetBlobs, At, SortedKeys, LexLe, Enumerates;
    SortedEnumerates(idx.blobs);
    AllBlobsAt(d, p, SortedKeys(idx.blobs.Keys), idx.blobs);
  }

  lemma AllBlobsAt(d: bytes, p: nat, keys: seq<bytes>, blobs: map<bytes, BlobRef>)
    requires Enumerates(keys, blobs) && forall h | h in blobs :: |h| == HASH_SIZE
    requires At(d, p, EncBlobs(keys, blobs))
    ensures GetBlobs(d, p, |blobs|, map[]) == Some(Parsed(blobs, p + |EncBlobs(keys, blobs)|))
  {
    hide EncBlobs, GetBlobs, At, Select;
    GetBlobsAt(d, p, keys, blobs, map[]);
    SelectAll(keys, blobs);
  }

  lemma PathsPart(d: bytes, p: nat, idx: Index)
    requires WellFormed(idx)
    requires At(d, p, EncPaths(SortedKeys(idx.paths.Keys), idx.paths))
    ensures GetPaths(d, p, |idx.paths|, map[])
         == Some(Parsed(idx.paths, p + |EncPaths(SortedKeys(idx.paths.Keys), idx.paths)|))
  {
    hide EncPaths, GetPaths, At, SortedKeys, LexLe, Enumerates;
    SortedEnumerates(idx.paths);
    AllPathsAt(d, p, SortedKeys(idx.paths.Keys), idx.paths);
  }

  lemma AllPathsAt(d: bytes, p: nat, keys: seq<bytes>, paths: map<bytes, PathEntry>)
    requires Enumerates(keys, paths) && forall k | k in paths :: |k| < U32_LIMIT && |paths[k].hash| == HASH_SIZE
    requires At(d, p, EncPaths(keys, paths))
    ensures GetPaths(d, p, |paths|, map[]) == Some(Parsed(paths, p + |EncPaths(keys, paths)|))
  {
    hide EncPaths, GetPaths, At, Select;
    GetPathsAt(d, p, keys, paths, map[]);
    SelectAll(keys, paths);
  }

  lemma {:induction false} ParseOfSerialize(idx: Index, t: bytes)
    requires WellFormed(idx)
    ensures Parse(Serialize(idx) + t) == Some(Parsed(idx, |Serialize(idx)|))
  {
    hide LE, UnLE, Serialize, EncBlobs, EncPaths, GetBlobs, GetPaths, SortedKeys, GetU32, At;
    var d := Serialize(idx) + t;
    var n := |EncBlobs(SortedKeys(idx.blobs.Keys), idx.blobs)|;
    PrefixAt(Serialize(idx), t);
    Parts(d, idx);
    GetSmallAt(d, 0, INDEX_MAGIC);
    GetSmallAt(d, 4, |idx.blobs|);
    BlobsPart(d, 8, idx);
    GetSmallAt(d, 8 + n, |idx.paths|);
    PathsPart(d, 12 + n, idx);
  }

  lemma PrefixAt(x: bytes, t: bytes)
    ensures At(x + t, 0, x)
  {
  }

  // ---- only well-formed indexes can be read ----
  /** Only what begins with the magic number is read at all. */
  lemma MagicRequired(d: bytes)
    ensures Parse(d).Some? ==> |d| >= 8 && UnLE(d[0..4]) == 0x53504958
  {
    hide UnLE, GetBlobs, GetPaths;
  }

  /** Of two entries for one key, the first one counts. */
  lemma {:induction false} FirstBlobWins(d: bytes, p: nat, n: nat, acc: map<bytes, BlobRef>)
    ensures var r := GetBlobs(d, p, n, acc);
            r.Some? ==> forall k | k in acc :: k in r.value.value && r.value.value[k] == acc[k]
    decreases n
  {
    hide GetBlob;
    if n > 0 && GetBlob(d, p).Some? {
      var e := GetBlob(d, p).value;
      FirstBlobWins(d, e.next, n - 1, Emplace(acc, e.value.0, e.value.1));
    }
  }

  lemma {:induction false} FirstPathWins(d: bytes, p: nat, n: nat, acc: map<bytes, PathEntry>)
    ensures var r := GetPaths(d, p, n, acc);
            r.Some? ==> forall k | k in acc :: k in r.value.value && r.value.value[k] == acc[k]
    decreases n
  {
    hide GetPath;
    if n > 0 && GetPath(d, p).Some? {
      var e := GetPath(d, p).value;
      FirstPathWins(d, e.next, n - 1, Emplace(acc, e.value.0, e.value.1));
    }
  }

  lemma {:induction false} GetBlobsShape(d: bytes, p: nat, n: nat, acc: map<bytes, BlobRef>)
    requires GetBlobs(d, p, n, acc).Some? && p <= |d|
    requires forall h | h in acc :: |h| == HASH_SIZE
    ensures var r := GetBlobs(d, p, n, acc).value;
            p <= r.next <= |d| && |r.value| <= |acc| + n && forall h | h in r.value :: |h| == HASH_SIZE
    decreases n
  {
    hide GetBlob;
    if n > 0 {
      var Parsed((h, ref), q) := GetBlob(d, p).value;
      GetBlobsShape(d, q, n - 1, Emplace(acc, h, ref));
    }
  }

  lemma {:induction false} GetPathsShape(d: bytes, p: nat, n: nat, acc: map<bytes, PathEntry>)
    requires GetPaths(d, p, n, acc).Some? && p <= |d|
    requires forall k | k in acc :: |k| < U32_LIMIT && |acc[k].hash| == HASH_SIZE
    ensures var r := GetPaths(d, p, n, acc).value;
            && p <= r.next <= |d| && |r.value| <= |acc| + n
            && forall k | k in r.value :: |k| < U32_LIMIT && |r.value[k].hash| == HASH_SIZE
    decreases n
  {
    hide GetPath;
    if n > 0 {
      var Parsed((k, e), q) := GetPath(d, p).value;
      GetPathsShape(d, q, n - 1, Emplace(acc, k, e));
    }
  }

  /** Whatever bytes are read, a successful parse stayed in bounds and is well-formed. */
  lemma ParseShape(d: bytes)
    requires Parse(d).Some?
    ensures WellFormed(Parse(d).value.value) && Parse(d).value.next <= |d|
  {
    hide GetU32, GetBlobs, GetPaths;
    var (magic, p0) := GetU32(d, 0).value;
    var (nb, p1) := GetU32(d, p0).value;
    GetBlobsShape(d, p1, nb, map[]);
    var p2 := GetBlobs(d, p1, nb, map[]).value.next;
    var (np, p3) := GetU32(d, p2).value;
    GetPathsShape(d, p3, np, map[]);
  }

  /** Writing and reading back gives the same index, whatever follows it, exactly for the
      indexes whose hashes are 32 bytes and whose counts and lengths fit in 32 bits. */
  lemma RoundTrip(idx: Index, t: bytes)
    ensures Deserialized(Serialize(idx) + t) == Some(idx) <==> WellFormed(idx)
  {
    if WellFormed(idx) {
      ParseOfSerialize(idx, t);
    } else if Parse(Serialize(idx) + t).Some? {
      ParseShape(Serialize(idx) + t);
    }
  }

  lemma SerializeInjective(a: Index, b: Index)
    requires WellFormed(a) && WellFormed(b) && Serialize(a) == Serialize(b)
    ensures a == b
  {
    ParseOfSerialize(a, []);
    ParseOfSerialize(b, []);
  }

  // ---- a successful parse does not depend on what follows ----
  lemma GetIntMore(d: bytes, t: bytes, p: nat, width: nat)
    requires GetInt(d, p, width).Some?
    ensures GetInt(d + t, p, width) == GetInt(d, p, width)
  {
    assert (d + t)[p..p + width] == d[p..p + width];
  }

  lemma GetBytesMore(d: bytes, t: bytes, p: nat, len: nat)
    requires GetBytes(d, p, len).Some?
    ensures GetBytes(d + t, p, len) == GetBytes(d, p, len)
  {
    assert (d + t)[p..p + len] == d[p..p + len];
  }

  lemma GetBlobMore(d: bytes, t: bytes, p: nat)
    requires GetBlob(d, p).Some?
    ensures GetBlob(d + t, p) == GetBlob(d, p)
  {
    hide GetInt, GetBytes;
    GetBytesMore(d, t, p, HASH_SIZE);
    GetIntMore(d, t, p + HASH_SIZE, 8);
    GetIntMore(d, t, p + HASH_SIZE + 8, 8);
    GetIntMore(d, t, p + HASH_SIZE + 16, 8);
    GetIntMore(d, t, p + HASH_SIZE + 24, 4);
  }

  lemma GetPathMore(d: bytes, t: bytes, p: nat)
    requires GetPath(d, p).Some?
    ensures GetPath(d + t, p) == GetPath(d, p)
  {
    hide GetInt, GetBytes;
    GetIntMore(d, t, p, 4);
    var (len, p1) := GetU32(d, p).value;
    GetBytesMore(d, t, p1, len);
    GetBytesMore(d, t, p1 + len, HASH_SIZE);
    GetIntMore(d, t, p1 + len + HASH_SIZE, 8);
  }

  lemma {:induction false} GetBlobsMore(d: bytes, t: bytes, p: nat, n: nat, acc: map<bytes, BlobRef>)
    requires GetBlobs(d, p, n, acc).Some?
    ensures GetBlobs(d + t, p, n, acc) == GetBlobs(d, p, n, acc)
    decreases n
  {
    hide GetBlob;
    if n > 0 {
      GetBlobMore(d, t, p);
      var Parsed((h, ref), q) := GetBlob(d, p).value;
      GetBlobsMore(d, t, q, n - 1, Emplace(acc, h, ref));
    }
  }

  lemma {:induction false} GetPathsMore(d: bytes, t: bytes, p: nat, n: nat, acc: map<bytes, PathEntry>)
    requires GetPaths(d, p, n, acc).Some?
    ensures GetPaths(d + t, p, n, acc) == GetPaths(d, p, n, acc)
    decreases n
  {
    hide GetPath;
    if n > 0 {
      GetPathMore(d, t, p);
      var Parsed((k, e), q) := GetPath(d, p).value;
      GetPathsMore(d, t, q, n - 1, Emplace(acc, k, e));
    }
  }

  lemma {:induction false} ParseMore(d: bytes, t: bytes)
    requires Parse(d).Some?
    ensures Parse(d + t) == Parse(d)
  {
    hide GetInt, GetBlobs, GetPaths;
    GetIntMore(d, t, 0, 4);
    var (magic, p0) := GetU32(d, 0).value;
    GetIntMore(d, t, p0, 4);
    var (nb, p1) := GetU32(d, p0).value;
    GetBlobsMore(d, t, p1, nb, map[]);
    var p2 := GetBlobs(d, p1, nb, map[]).value.next;
    GetIntMore(d, t, p2, 4);
    var (np, p3) := GetU32(d, p2).value;
    GetPathsMore(d, t, p3, np, map[]);
  }

  /** A manifest cut short anywhere is rejected. */
  lemma TruncationRejected(idx: Index, k: nat)
    requires WellFormed(idx) && k < |Serialize(idx)|
    ensures Deserialized(Serialize(idx)[..k]) == None
  {
    hide Serialize, Parse, WellFormed;
    var s := Serialize(idx);
    if Parse(s[..k]).Some? {
      ParseMore(s[..k], s[k..]);
      assert s[..k] + s[k..] == s == s + [];
      ParseOfSerialize(idx, []);
      ParseShape(s[..k]);
    }
  }
}
