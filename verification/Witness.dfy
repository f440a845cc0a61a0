/** Concrete runs: that the hypotheses about runs can be met, also when superblock writes are
    torn, and runs in which the code fails. */
module Witness {
  import opened Bytes
  import opened Crypto
  import opened Disk
  import opened StoreModel
  import opened Order
  import opened Index
  import opened Paths
  import opened Delta
  import opened PackModel
  import opened PackRuns
  import opened Store

  // ---- an authenticator that tells two messages and their mixtures apart ----

  function Same(n: nat, b: byte): (r: bytes)
    ensures |r| == n && forall i | 0 <= i < n :: r[i] == b
  {
    seq(n, _ => b)
  }

  function Tag(p0: bytes, p1: bytes, m: bytes): (t: bytes)
    ensures |t| == MAC
  {
    Same(MAC, if m == p0 then 0 else if m == p1 then 1 else 2)
  }

  ghost function Tagging(p0: bytes, p1: bytes): (p: Primitives)
    ensures p.Ideal()
  {
    var p := Primitives(
      (k: bytes, n: bytes, m: bytes) => Tag(p0, p1, m) + m,
      (k: bytes, n: bytes, c: bytes) =>
        if |c| >= MAC && c[..MAC] == Tag(p0, p1, c[MAC..]) then Some(c[MAC..]) else None,
      (m: bytes) => Zeros(HASH),
      (p: bytes, s: bytes, c: Kdf) => Zeros(KEY));
    assert forall k, n, m :: p.lock(k, n, m)[..MAC] == Tag(p0, p1, m) && p.lock(k, n, m)[MAC..] == m;
    p
  }

  ghost function Tagged(p0: bytes, p1: bytes): Suite {
    Tagging(p0, p1)
  }

  /** b takes each of its bytes from one of the two blocks. */
  ghost predicate Mixes(b: bytes, b0: bytes, b1: bytes) {
    && |b| == |b0| == |b1| == SB_SIZE
    && forall i | 0 <= i < SB_SIZE :: b[i] == b0[i] || b[i] == b1[i]
  }

  /** Any mixture, byte by byte, of the two sealed messages is one of them or not authentic. */
  lemma Mixture(p0: bytes, p1: bytes, key: bytes, nonce: bytes, b: bytes)
    requires |p0| == |p1| == 24 && |nonce| == NONCE
    requires Mixes(b, Seal(Tagged(p0, p1), key, nonce, p0), Seal(Tagged(p0, p1), key, nonce, p1))
    ensures var cs := Tagged(p0, p1);
            b == Seal(cs, key, nonce, p0) || b == Seal(cs, key, nonce, p1) || DecodeSb(cs, key, b).None?
  {
    hide SbPlain, UnLE;
    var cs := Tagged(p0, p1);
    var b0, b1 := Seal(cs, key, nonce, p0), Seal(cs, key, nonce, p1);
    SealedParts(p0, p1, key, nonce, p0);
    SealedParts(p0, p1, key, nonce, p1);
    var n, t, m := b[..NONCE], b[NONCE..NONCE + MAC], b[NONCE + MAC..];
    assert b == n + t + m;
    assert b[NONCE..][..MAC] == t && b[NONCE..][MAC..] == m;
    forall i | 0 <= i < NONCE
      ensures n[i] == nonce[i]
    {
      assert b0[i] == nonce[i] == b1[i] && n[i] == b[i];
    }
    assert t[0] != 2 by {
      assert b[NONCE] == b0[NONCE] || b[NONCE] == b1[NONCE];
    }
    if Unseal(cs, key, b).Some? {
      assert t == Tag(p0, p1, m);
      assert t[0] == Tag(p0, p1, m)[0];
    }
  }

  lemma SealedParts(p0: bytes, p1: bytes, key: bytes, nonce: bytes, m: bytes)
    requires |nonce| == NONCE
    ensures Seal(Tagged(p0, p1), key, nonce, m) == nonce + Tag(p0, p1, m) + m
    ensures |Seal(Tagged(p0, p1), key, nonce, m)| == OVERHEAD + |m|
  {
    assert nonce + (Tag(p0, p1, m) + m) == nonce + Tag(p0, p1, m) + m;
  }

  /** A write of b1 over b0 that was cut off half way. */
  function Torn(b0: bytes, b1: bytes): (t: bytes)
    requires |b0| == |b1| == SB_SIZE
    ensures |t| == SB_SIZE
  {
    b1[..32] + b0[32..]
  }

  /** The tag of a torn block begins as the one and ends as the other. */
  lemma HalfTag(b: bytes, p0: bytes, p1: bytes, nonce: bytes)
    requires |p0| == |p1| == 24 && |nonce| == NONCE && p0 != p1
    requires b == Torn(nonce + Tag(p0, p1, p0) + p0, nonce + Tag(p0, p1, p1) + p1)
    ensures b[NONCE..][..MAC][0] == 1 && b[NONCE..][..MAC][MAC - 1] == 0
  {
    hide Tag;
    var b0, b1 := nonce + Tag(p0, p1, p0) + p0, nonce + Tag(p0, p1, p1) + p1;
    assert b[NONCE..][..MAC][0] == b[NONCE] == b1[NONCE] == Tag(p0, p1, p1)[0];
    assert b[NONCE..][..MAC][MAC - 1] == b[NONCE + MAC - 1] == b0[NONCE + MAC - 1] == Tag(p0, p1, p0)[MAC - 1];
    Tags(p0, p1);
  }

  lemma Tags(p0: bytes, p1: bytes)
    requires p0 != p1
    ensures Tag(p0, p1, p0)[MAC - 1] == 0 && Tag(p0, p1, p1)[0] == 1
  {
  }

  /** A superblock torn between the two messages is not authentic. */
  lemma TornInvalid(p0: bytes, p1: bytes, key: bytes, nonce: bytes)
    requires |p0| == |p1| == 24 && |nonce| == NONCE && p0 != p1
    ensures var cs := Tagged(p0, p1);
            && |Seal(cs, key, nonce, p0)| == |Seal(cs, key, nonce, p1)| == SB_SIZE
            && DecodeSb(cs, key, Torn(Seal(cs, key, nonce, p0), Seal(cs, key, nonce, p1))).None?
  {
    hide SbPlain, UnLE;
    var cs := Tagged(p0, p1);
    SealedParts(p0, p1, key, nonce, p0);
    SealedParts(p0, p1, key, nonce, p1);
    var b := Torn(Seal(cs, key, nonce, p0), Seal(cs, key, nonce, p1));
    HalfTag(b, p0, p1, nonce);
  }

  // ---- what the canonical states look like ----

  const KDF: Kdf := Kdf(8, 1, 1)
  const N: bytes := Zeros(NONCE)
  const K: bytes := Zeros(KEY)

  /** An open store whose file has the given size and superblocks. */
  ghost predicate Stands(st: State, size: nat, a: bytes, b: bytes) {
    && MemBounds(st) && st.mem.value.fileSize == |Cache(st.disk)| == size && size >= DATA_START
    && ReadHeader(Cache(st.disk)).Some? && Block(Cache(st.disk), A) == a && Block(Cache(st.disk), B) == b
  }

  lemma CreatedStands(cs: Suite)
    ensures var s := CreatedState(CreatedFile(cs, K, KDF, N, N));
            && Stands(s, DATA_START, SbBlock(cs, K, N, 1, Root(0, 0)), SbBlock(cs, K, N, 0, Root(0, 0)))
            && PackInv(cs, K, PackState(s, EMPTY))
  {
    hide Inv, CreatedFile, SbBlock, ReadHeader, IndexInv, SnapsOk;
    CreatedPack(cs, K, KDF, N, N);
    CreatedParts(cs);
    CacheSynced(Disk(CreatedFile(cs, K, KDF, N, N), []));
  }

  lemma CreatedParts(cs: Suite)
    ensures var f := CreatedFile(cs, K, KDF, N, N);
            && |f| == DATA_START && ReadHeader(f).Some?
            && Block(f, A) == SbBlock(cs, K, N, 1, Root(0, 0)) && Block(f, B) == SbBlock(cs, K, N, 0, Root(0, 0))
  {
    hide Inv, SbBlock, ReadHeader, Header;
    var f, a, b := CreatedFile(cs, K, KDF, N, N), SbBlock(cs, K, N, 1, Root(0, 0)), SbBlock(cs, K, N, 0, Root(0, 0));
    SbRoundTrip(cs, K, N, 1, Root(0, 0));
    SbRoundTrip(cs, K, N, 0, Root(0, 0));
    var front := Header(KDF) + Zeros(NUM_SLOTS * SLOT_SIZE);
    assert f == front + a + b && |front| == SB_A_OFF;
    ThreeParts(front, a, b);
    assert f[..HEADER_SIZE] == Header(KDF);
    HeaderRoundTrip(KDF, f);
  }

  lemma ThreeParts(x: bytes, a: bytes, b: bytes)
    requires |a| == SB_SIZE
    ensures (x + a + b)[|x|..|x| + SB_SIZE] == a && (x + a + b)[|x| + SB_SIZE..|x| + SB_SIZE + |b|] == b
  {
  }

  lemma AppendedStands(st: State, rec: bytes, size: nat, a: bytes, b: bytes)
    requires Stands(st, size, a, b) && rec != [] && size + |rec| <= MAX_OFFSET
    ensures Stands(Appended(st, rec), size + |rec|, a, b)
    ensures AppendStep(st, Appended(st, rec), rec, size)
  {
    hide ReadHeader, Splice;
    AppendedStep(st, rec);
    var f, st' := Cache(st.disk), Appended(st, rec);
    CacheMore(st.disk, Write(size, rec[0..|rec|]));
    assert rec[0..|rec|] == rec;
    AppendSplice(f, rec);
    FrontOfLonger(f, rec);
  }

  lemma FrontOfLonger(f: bytes, rec: bytes)
    requires |f| >= DATA_START
    ensures ReadHeader(f + rec) == ReadHeader(f) && Block(f + rec, A) == Block(f, A) && Block(f + rec, B) == Block(f, B)
  {
    hide ReadHeader;
    assert (f + rec)[0..HEADER_SIZE] == f[0..HEADER_SIZE];
    HeaderStays(f, f + rec);
  }

  lemma CommittedStands(cs: Suite, st: State, root: Root, size: nat, a: bytes, b: bytes)
    requires Stands(st, size, a, b) && st.mem.value.seqno + 1 < U64_LIMIT
    ensures var st', block := Committed(cs, K, st, root, N), SbBlock(cs, K, N, st.mem.value.seqno + 1, root);
            && st'.disk.pending == []
            && (if st.mem.value.active == A then Stands(st', size, a, block) else Stands(st', size, block, b))
  {
    hide ReadHeader, Splice, SbBlock;
    SbRoundTrip(cs, K, N, st.mem.value.seqno + 1, root);
    BlockSplice(Cache(st.disk), st.mem.value.active.Other(), SbBlock(cs, K, N, st.mem.value.seqno + 1, root), 0);
    CacheSynced(Committed(cs, K, st, root, N).disk);
  }

  lemma UnsyncedDisk(cs: Suite, st: State, root: Root)
    requires MemBounds(st) && st.mem.value.seqno + 1 < U64_LIMIT
    ensures var block := SbBlock(cs, K, N, st.mem.value.seqno + 1, root);
            && |block| == SB_SIZE
            && Unsynced(cs, K, st, root, N).disk
               == Disk(Cache(st.disk), [Write(st.mem.value.active.Other().Off(), block)])
  {
    hide SbBlock, Cache;
    SbRoundTrip(cs, K, N, st.mem.value.seqno + 1, root);
    var block := SbBlock(cs, K, N, st.mem.value.seqno + 1, root);
    assert block[0..|block|] == block;
  }

  /** A superblock write between two blocks that cannot be mixed up forges nothing. */
  lemma {:induction false} UnsyncedUnforged(p0: bytes, p1: bytes, st: State, root: Root, size: nat, a: bytes, b: bytes)
    requires |p0| == |p1| == 24 && Stands(st, size, a, b) && st.mem.value.seqno + 1 < U64_LIMIT
    requires p1 == SbPlain(st.mem.value.seqno + 1, root)
    requires (if st.mem.value.active == A then b else a) == Seal(Tagged(p0, p1), K, N, p0)
    ensures Unforged(Tagged(p0, p1), K, Unsynced(Tagged(p0, p1), K, st, root, N))
  {
    hide Stands, Cache, SbPlain, DecodeSb, CrashImage, Unsynced, Tagged, SbBlock, Block;
    StandsFacts(st, size, a, b);
    var cs := Tagged(p0, p1);
    var u := Unsynced(cs, K, st, root, N);
    UnsyncedDisk(cs, st, root);
    forall img, side: Side | CrashImage(u.disk, img)
      ensures |img| >= DATA_START
      ensures || Block(img, side) == Block(u.disk.durable, side)
              || (exists j: nat :: j < |u.later| && u.later[j].block == Block(img, side))
              || DecodeSb(cs, K, Block(img, side)).None?
    {
      UnforgedAt(p0, p1, st, root, size, a, b, img, side);
    }
  }

  lemma {:induction false} UnforgedAt(p0: bytes, p1: bytes, st: State, root: Root, size: nat, a: bytes, b: bytes,
                                      img: bytes, side: Side)
    requires |p0| == |p1| == 24 && Stands(st, size, a, b) && st.mem.value.seqno + 1 < U64_LIMIT
    requires p1 == SbPlain(st.mem.value.seqno + 1, root)
    requires (if st.mem.value.active == A then b else a) == Seal(Tagged(p0, p1), K, N, p0)
    requires CrashImage(Unsynced(Tagged(p0, p1), K, st, root, N).disk, img)
    ensures |Cache(st.disk)| >= DATA_START && |img| >= DATA_START
    ensures var u := Unsynced(Tagged(p0, p1), K, st, root, N);
            || Block(img, side) == Block(Cache(st.disk), side)
            || (exists j: nat :: j < |u.later| && u.later[j].block == Block(img, side))
            || DecodeSb(Tagged(p0, p1), K, Block(img, side)).None?
  {
    hide Stands, Cache, SbPlain, DecodeSb, CrashImage, Unsynced, Tagged, SbBlock, Seal, Mixes, Block;
    var cs := Tagged(p0, p1);
    StandsFacts(st, size, a, b);
    var o := st.mem.value.active.Other();
    UnsyncedDisk(cs, st, root);
    UnsyncedLater(cs, st, root);
    OneWrite(Unsynced(cs, K, st, root, N).disk, img, o, SbBlock(cs, K, N, st.mem.value.seqno + 1, root), side);
    if side == o {
      SealedParts(p0, p1, K, N, p0);
      MixedBlock(p0, p1, st.mem.value.seqno + 1, root, Block(img, side));
    }
  }

  lemma StandsFacts(st: State, size: nat, a: bytes, b: bytes)
    requires Stands(st, size, a, b)
    ensures MemBounds(st) && |Cache(st.disk)| >= DATA_START
    ensures Block(Cache(st.disk), A) == a && Block(Cache(st.disk), B) == b
  {
    hide ReadHeader, Cache;
  }

  lemma UnsyncedLater(cs: Suite, st: State, root: Root)
    requires MemBounds(st)
    ensures var later := Unsynced(cs, K, st, root, N).later;
            later != [] && later[|later| - 1].block == SbBlock(cs, K, N, st.mem.value.seqno + 1, root)
  {
    hide SbBlock, Cache, NewSnapshot;
  }

  lemma MixedBlock(p0: bytes, p1: bytes, seqno: u64, root: Root, b: bytes)
    requires |p0| == |p1| == 24 && p1 == SbPlain(seqno, root)
    requires Mixes(b, Seal(Tagged(p0, p1), K, N, p0), SbBlock(Tagged(p0, p1), K, N, seqno, root))
    ensures var cs := Tagged(p0, p1);
            b == Seal(cs, K, N, p0) || b == SbBlock(cs, K, N, seqno, root) || DecodeSb(cs, K, b).None?
  {
    hide SbPlain, DecodeSb, Seal, Tagged, Mixes;
    Mixture(p0, p1, K, N, b);
  }

  /** With one superblock write unsynced, a crash mixes that side's bytes and leaves the other. */
  lemma OneWrite(d: Disk, img: bytes, o: Side, block: bytes, side: Side)
    requires |d.durable| >= DATA_START && |block| == SB_SIZE && d.pending == [Write(o.Off(), block)]
             && CrashImage(d, img)
    ensures |img| >= DATA_START
    ensures side != o ==> Block(img, side) == Block(d.durable, side)
    ensures side == o ==> Mixes(Block(img, side), Block(d.durable, side), block)
  {
    hide Cache;
    forall i: nat | i < DATA_START
      ensures img[i] == d.durable[i] || (o.Off() <= i < o.Off() + SB_SIZE && img[i] == block[i - o.Off()])
    {
      if Puts(d.pending, i, img[i]) {
        var j: nat :| j < |d.pending| && Covers(d.pending[j], i) && d.pending[j].data[i - d.pending[j].off] == img[i];
        assert j == 0;
      }
    }
  }

  lemma TornBlock(f: bytes, off: nat, block: bytes)
    requires off + SB_SIZE <= |f| && |block| == SB_SIZE
    ensures |Splice(f, off, block[..32])| == |f|
    ensures Splice(f, off, block[..32])[off..off + SB_SIZE] == Torn(f[off..off + SB_SIZE], block)
  {
    SpliceAt(f, off, block[..32]);
    var l, r := Splice(f, off, block[..32])[off..off + SB_SIZE], Torn(f[off..off + SB_SIZE], block);
    assert forall i | 0 <= i < SB_SIZE :: l[i] == r[i];
  }

  /** A crash may leave that write half done. */
  lemma HalfDone(d: Disk, o: Side, block: bytes)
    requires |d.durable| >= DATA_START && |block| == SB_SIZE && d.pending == [Write(o.Off(), block)]
    ensures var img := Splice(d.durable, o.Off(), block[..32]);
            && CrashImage(d, img) && |img| == |d.durable| && ReadHeader(img) == ReadHeader(d.durable)
            && Block(img, o) == Torn(Block(d.durable, o), block) && Block(img, o.Other()) == Block(d.durable, o.Other())
  {
    hide ReadHeader;
    var w, img := Write(o.Off(), block), Splice(d.durable, o.Off(), block[..32]);
    SpliceAt(d.durable, o.Off(), block[..32]);
    assert Disk(d.durable, []).(pending := [] + [w]) == d;
    CacheMore(Disk(d.durable, []), w);
    CacheSynced(Disk(d.durable, []));
    assert Cache(d) == Splice(d.durable, o.Off(), block);
    forall i: nat | i < |img|
      ensures img[i] == d.durable[i] || Puts(d.pending, i, img[i])
    {
      if o.Off() <= i < o.Off() + 32 {
        assert Covers(d.pending[0], i);
      }
    }
    assert img[0..HEADER_SIZE] == d.durable[0..HEADER_SIZE];
    HeaderStays(img, d.durable);
    TornBlock(d.durable, o.Off(), block);
    assert Block(img, o.Other()) == Block(d.durable, o.Other());
  }

  // ---- steps between canonical states ----

  /** The store with the manifest appended. */
  function Mid(cs: Suite, s: PackState): State
    requires s.store.mem.Some?
  {
    Appended(s.store, Seal(cs, K, N, Serialize(s.index)))
  }

  lemma CommitFrom(cs: Suite, s: PackState, size: nat, a: bytes, b: bytes, len: nat)
    requires Stands(s.store, size, a, b) && OVERHEAD + |Serialize(s.index)| == len && size + len <= MAX_OFFSET
    requires s.store.mem.value.seqno + 1 < U64_LIMIT
    ensures var mid, root := Mid(cs, s), Root(size, len);
            && MemBounds(mid) && Stands(mid, size + len, a, b)
            && mid.mem.value == s.store.mem.value.(fileSize := size + len)
            && mid.base == s.store.base && mid.live == s.store.live && mid.later == s.store.later
            && AppendStep(s.store, mid, Seal(cs, K, N, Serialize(s.index)), size)
            && Step(cs, K, s, Commit(N, N, Reached(Done)), s.(store := Committed(cs, K, mid, root, N)))
            && Step(cs, K, s, Commit(N, N, Reached(FlushFailed)), s.(store := Unsynced(cs, K, mid, root, N)))
  {
    hide Seal, Serialize, Cache, ReadHeader, Committed, Unsynced, Step, Stands, AppendStep;
    SealThenUnseal(cs, K, N, Serialize(s.index));
    StandsFile(s.store, size, a, b);
    AppendedStands(s.store, Seal(cs, K, N, Serialize(s.index)), size, a, b);
    StandsFile(Mid(cs, s), size + len, a, b);
    CommitEnabled(cs, K, s, N, N);
  }

  lemma StandsFile(st: State, size: nat, a: bytes, b: bytes)
    requires Stands(st, size, a, b)
    ensures MemBounds(st) && st.mem.value.fileSize == size && |Cache(st.disk)| == size
  {
    hide Cache, ReadHeader;
  }

  /** The state after the first put into an empty pack. */
  function PutState(cs: Suite, s: PackState, path: bytes): PackState
    requires s.store.mem.Some? && s.store.mem.value.fileSize < U64_LIMIT
  {
    var h := cs.hash([]);
    PackState(Appended(s.store, Seal(cs, K, N, [])),
              Repoint(EMPTY.(blobs := EMPTY.blobs[h := BlobRef(s.store.mem.value.fileSize, OVERHEAD, 0, 0)]), path, h,
                      0))
  }

  lemma PutFrom(cs: Suite, s: PackState, path: bytes, size: nat, a: bytes, b: bytes)
    requires Stands(s.store, size, a, b) && s.index == EMPTY && size + OVERHEAD <= MAX_OFFSET
    requires path != [] && Normalize(path) == path && |path| < U32_LIMIT
    ensures var s' := PutState(cs, s, path);
            && Stands(s'.store, size + OVERHEAD, a, b)
            && s'.store.mem.value == s.store.mem.value.(fileSize := size + OVERHEAD)
            && s'.store.base == s.store.base && s'.store.live == s.store.live && s'.store.later == s.store.later
            && AppendStep(s.store, s'.store, Seal(cs, K, N, []), size)
            && Sane(cs, K, s, Put(path, [], 0, N, true)) && Step(cs, K, s, Put(path, [], 0, N, true), s')
            && path in s'.index.paths && |Serialize(s'.index)| == 116 + |path| && Fits(s'.index)
            && |s'.index.paths| == 1
  {
    hide Seal, Serialize, Cache, ReadHeader, Normalize, AppendStep, Stands;
    SealThenUnseal(cs, K, N, []);
    StandsFile(s.store, size, a, b);
    AppendedStands(s.store, Seal(cs, K, N, []), size, a, b);
    var s', h := PutState(cs, s, path), cs.hash([]);
    assert s'.index.blobs.Keys == {h} && s'.index.paths == map[path := PathEntry(h, 0)];
    assert s'.index.paths.Keys == {path} && |s'.index.paths| == |{path}| && |s'.index.blobs| == |s'.index.blobs.Keys|;
    OneSize(s'.index, h, path);
  }

  lemma OneSize(idx: Index, h: bytes, p: bytes)
    requires idx.blobs.Keys == {h} && |h| == HASH_SIZE
    requires idx.paths.Keys == {p} && |idx.paths[p].hash| == HASH_SIZE
    ensures |Serialize(idx)| == 116 + |p|
  {
    hide LexLe;
    OneKey(h);
    OneKey(p);
    assert EncBlobs([h], idx.blobs) == EncBlob(h, idx.blobs[h]) + EncBlobs([], idx.blobs);
    assert EncPaths([p], idx.paths) == EncPath(p, idx.paths[p]) + EncPaths([], idx.paths);
  }

  lemma OneKey(k: bytes)
    ensures SortedKeys({k}) == [k]
  {
    hide LexLe;
    var r := SortedKeys({k});
    assert |r| == 1 && r[0] in r;
  }

  lemma EmptySize()
    ensures |Serialize(EMPTY)| == 12
  {
    assert SortedKeys({}) == [];
  }

  lemma OneLetter(c: byte)
    requires c != SLASH && [c] != DOT
    ensures Normalize([c]) == [c]
  {
    SplitNone([c], SLASH);
    assert Keep([[c]]) == [[c]];
  }

  // ---- a commit that fails at its second sync ----

  lemma PlainsDiffer(s1: u64, r1: Root, s2: u64, r2: Root)
    requires s1 != s2 || r1 != r2
    ensures SbPlain(s1, r1) != SbPlain(s2, r2)
  {
    hide LE, UnLE;
    var p, q := SbPlain(s1, r1), SbPlain(s2, r2);
    LE64(s1);
    LE64(s2);
    LE64(r1.offset);
    LE64(r2.offset);
    LE64(r1.len);
    LE64(r2.len);
    assert p[..8] == LE(s1, 8) && p[8..16] == LE(r1.offset, 8) && p[16..] == LE(r1.len, 8);
    assert q[..8] == LE(s2, 8) && q[8..16] == LE(r2.offset, 8) && q[16..] == LE(r2.len, 8);
  }

  ghost function FailingSuite(): Suite {
    Tagged(SbPlain(1, Root(0, 0)), SbPlain(3, Root(908, 52)))
  }

  const DONE: Op := Commit(N, N, Reached(Done))
  const FAILED: Op := Commit(N, N, Reached(FlushFailed))

  /** A created pack and its first commit. */
  lemma {:induction false} FirstCommit(cs: Suite) returns (s0: PackState, s1: PackState)
    ensures PackInv(cs, K, s0) && s0.store.later == [] && s0.store.disk.pending == [] && s0.index == s1.index == EMPTY
    ensures Step(cs, K, s0, DONE, s1) && PackInv(cs, K, s1)
    ensures s0.store.mem.Some? && s0.store.mem.value.seqno == s0.store.base.seqno == 1
    ensures s1.store.disk.pending == [] && s1.store.later == [] && s1.store.mem.Some? && s1.store.base == s1.store.live
    ensures s1.store.mem == Some(Mem(2, B, Root(856, 52), 908)) && s1.store.base.seqno == 2
    ensures s1.store.prev == s0.store.live && s0.store == CreatedState(CreatedFile(cs, K, KDF, N, N))
    ensures Stands(s1.store, 908, SbBlock(cs, K, N, 1, Root(0, 0)), SbBlock(cs, K, N, 2, Root(856, 52)))
  {
    hide PackInv, CommitOp, Unforged, Seal, Cache, Serialize, SbBlock, Stands, Committed, Unsynced, AppendStep, Mid,
         ReadHeader, LayerStep;
    EmptySize();
    CreatedStands(cs);
    s0 := PackState(CreatedState(CreatedFile(cs, K, KDF, N, N)), EMPTY);
    var a, b := SbBlock(cs, K, N, 1, Root(0, 0)), SbBlock(cs, K, N, 0, Root(0, 0));
    CommitFrom(cs, s0, 856, a, b, 52);
    var m0 := Mid(cs, s0);
    s1 := s0.(store := Committed(cs, K, m0, Root(856, 52), N));
    CommittedStands(cs, m0, Root(856, 52), 908, a, b);
    CommittedMem(cs, m0, Root(856, 52));
    StandsFile(s0.store, 856, a, b);
    SyncedUnforged(cs, K, s1.store);
    CommitRefines(cs, K, s0, s1, N, N, Reached(Done));
  }

  /** A created pack, a commit, and a second one that wrote its superblock but could not sync it. */
  lemma {:induction false} FailedCommit() returns (run: seq<PackState>, mid: State)
    ensures IsRun(FailingSuite(), K, run, [DONE, FAILED]) && |run| == 3 && !Behind(run[1].store)
            && !Behind(run[2].store)
    ensures Inv(FailingSuite(), K, mid) && MemBounds(mid) && |Cache(mid.disk)| >= DATA_START
    ensures Block(Cache(mid.disk), A) == SbBlock(FailingSuite(), K, N, 1, Root(0, 0))
    ensures mid.mem.value.seqno == mid.live.seqno == 2 && mid.mem.value.active == B && mid.later == []
            && mid.live == mid.base
    ensures run[2] == PackState(Unsynced(FailingSuite(), K, mid, Root(908, 52), N), EMPTY)
  {
    hide PackInv, Inv, Step, Unforged, Seal, Cache, Serialize, SbBlock, Stands, FailingSuite, SbPlain, Committed,
         Unsynced, AppendStep, Mid, IsRun, Sane, Room, ReadHeader;
    var cs := FailingSuite();
    EmptySize();
    var s0, s1 := FirstCommit(cs);
    var a, b := SbBlock(cs, K, N, 1, Root(0, 0)), SbBlock(cs, K, N, 2, Root(856, 52));
    CommitFrom(cs, s1, 908, a, b, 52);
    mid := Mid(cs, s1);
    var s2 := s1.(store := Unsynced(cs, K, mid, Root(908, 52), N));
    SyncedUnforged(cs, K, s0.store);
    SyncedUnforged(cs, K, s1.store);
    FirstBlock();
    UnsyncedUnforged(SbPlain(1, Root(0, 0)), SbPlain(3, Root(908, 52)), mid, Root(908, 52), 960, a, b);
    UnsyncedMem(cs, mid, Root(908, 52));
    EmptyRoom(s0);
    EmptyRoom(s1);
    PlainSane(cs, s0);
    PlainSane(cs, s1);
    run := [s0, s1, s2];
    TwoSteps(cs, run, DONE, FAILED);
    StoreInv(cs, s1);
    StandsBlocks(mid, 960, a, b);
    AppendInv(cs, K, s1.store, mid, Seal(cs, K, N, Serialize(EMPTY)), 908);
  }

  lemma PlainSane(cs: Suite, s: PackState)
    ensures Sane(cs, K, s, DONE) && Sane(cs, K, s, FAILED) && Sane(cs, K, s, Crash) && Sane(cs, K, s, Close)
    ensures Sane(cs, K, s, Open(true, true)) && Sane(cs, K, s, Open(true, false))
  {
  }

  lemma FirstBlock()
    ensures FailingSuite() == Tagged(SbPlain(1, Root(0, 0)), SbPlain(3, Root(908, 52)))
    ensures SbBlock(FailingSuite(), K, N, 1, Root(0, 0)) == Seal(FailingSuite(), K, N, SbPlain(1, Root(0, 0)))
  {
    hide Seal, SbPlain;
  }

  lemma StandsBlocks(st: State, size: nat, a: bytes, b: bytes)
    requires Stands(st, size, a, b)
    ensures |Cache(st.disk)| >= DATA_START && b == Block(Cache(st.disk), B) && a == Block(Cache(st.disk), A)
  {
    hide Cache, ReadHeader;
  }

  lemma StoreInv(cs: Suite, s: PackState)
    requires PackInv(cs, K, s)
    ensures Inv(cs, K, s.store)
  {
    hide Inv;
  }

  lemma CommittedMem(cs: Suite, st: State, root: Root)
    requires MemBounds(st)
    ensures var c := Committed(cs, K, st, root, N);
            && c.mem == Some(st.mem.value.(seqno := st.mem.value.seqno + 1, active := st.mem.value.active.Other(),
                                           root := root))
            && c.base == c.live == NewSnapshot(st, root) && c.later == [] && c.prev == st.live
            && c.base.seqno == st.mem.value.seqno + 1
  {
    hide SbBlock, Splice, Cache;
  }

  lemma UnsyncedMem(cs: Suite, st: State, root: Root)
    requires MemBounds(st)
    ensures var u := Unsynced(cs, K, st, root, N);
            && u.mem == st.mem
            && (st.live == st.base && !Behind(st) ==>
                  u.base == u.live == st.live && (st.later == [] ==> |u.later| == 1))
  {
    hide SbBlock, Cache, NewSnapshot;
  }

  lemma TwoSteps(cs: Suite, run: seq<PackState>, op1: Op, op2: Op)
    requires |run| == 3 && PackInv(cs, K, run[0]) && run[0].store.later == []
    requires Step(cs, K, run[0], op1, run[1]) && Step(cs, K, run[1], op2, run[2])
    requires Allowed(cs, K, run[0], op1) && Allowed(cs, K, run[1], op2)
    requires Unforged(cs, K, run[0].store) && Unforged(cs, K, run[1].store) && Unforged(cs, K, run[2].store)
    ensures IsRun(cs, K, run, [op1, op2])
  {
    hide PackInv, Step, Allowed, Unforged;
    assert Next(cs, K, run, [op1, op2], 0) && Next(cs, K, run, [op1, op2], 1);
  }

  /** A real run in which an open pack stands on a superblock that is not durable: commit, fail
      a second commit at its second sync, close, open. */
  lemma {:induction false} NotDurableRun() returns (run: seq<PackState>, ops: seq<Op>)
    ensures ops == [DONE, FAILED, Close, Open(true, true)] && IsRun(FailingSuite(), K, run, ops)
    ensures Lasting(ops, 0)
    ensures run[4].store.mem.Some? && |run[4].store.disk.durable| >= DATA_START
    ensures var st := run[4].store;
            var m := st.mem.value;
            DecodeSb(FailingSuite(), K, Block(st.disk.durable, m.active)) != Some((m.seqno, m.root))
  {
    hide PackInv, Inv, Unforged, Cache, SbBlock, FailingSuite, DecodeSb, Unsynced, Step, IsRun, Sane, Room, RootsApart;
    var cs := FailingSuite();
    var mid: State;
    run, mid := FailedCommit();
    var u := run[2];
    var c := u.(store := CloseState(u.store));
    UnsyncedStep(cs, K, mid, Root(908, 52), N);
    UnsyncedMem(cs, mid, Root(908, 52));
    RunUnforged(cs, run, [DONE, FAILED], 2);
    SameForgery(cs, K, u.store, c.store);
    EmptyRoom(u);
    PlainSane(cs, u);
    CloseIsStep(cs, u);
    LongerRun(cs, K, run, [DONE, FAILED], Close, c);
    run := run + [c];
    assert [DONE, FAILED] + [Close] == [DONE, FAILED, Close];
    var p := RunOpens(cs, run, [DONE, FAILED, Close], u.store);
    StillPending(cs, mid, u.store);
    OpenedPending(cs, c, p);
    SameForgery(cs, K, c.store, p.store);
    EmptyRoom(c);
    PlainSane(cs, c);
    LongerRun(cs, K, run, [DONE, FAILED, Close], Open(true, true), p);
    OneApart(u.store);
    ActiveNotDurable(cs, K, mid, u.store, p.store, Root(908, 52), N);
    run := run + [p];
    ops := [DONE, FAILED, Close] + [Open(true, true)];
    NothingLingers(ops);
  }

  lemma RunUnforged(cs: Suite, run: seq<PackState>, ops: seq<Op>, i: nat)
    requires IsRun(cs, K, run, ops) && i < |run|
    ensures Unforged(cs, K, run[i].store)
  {
    hide PackInv, Next, Allowed, Unforged;
  }

  /** A closed run can be continued by an opening. */
  lemma {:induction false} RunOpens(cs: Suite, run: seq<PackState>, ops: seq<Op>, u: State) returns (p: PackState)
    requires |run| == |ops| + 1 && IsRun(cs, K, run, ops) && run[|ops|].store == CloseState(u)
    ensures Step(cs, K, run[|ops|], Open(true, true), p)
  {
    hide PackInv, Step, IsRun, Unforged;
    RunRefines(cs, K, run, ops, |ops|);
    RunUnforged(cs, run, ops, |ops|);
    OpenEnabled(cs, K, run[|ops|]);
    p :| Step(cs, K, run[|ops|], Open(true, true), p) && PackInv(cs, K, p);
  }

  lemma EmptyRoom(s: PackState)
    requires s.index == EMPTY && (s.store.mem.Some? ==> s.store.mem.value.seqno < 100)
    ensures Room(s)
  {
  }

  lemma NothingLingers(ops: seq<Op>)
    requires ops != [] && !ops[0].Compact?
    ensures Lingers(ops, 1) == {}
  {
    assert Lingers(ops, 0) == {};
  }

  lemma OneApart(st: State)
    requires |st.later| == 1
    ensures RootsApart(st)
  {
  }

  lemma StillPending(cs: Suite, mid: State, u: State)
    requires MemBounds(mid) && mid.mem.value.seqno + 1 < U64_LIMIT && u == Unsynced(cs, K, mid, Root(908, 52), N)
    ensures u.disk.pending != []
  {
    hide SbBlock, Cache;
    UnsyncedDisk(cs, mid, Root(908, 52));
  }

  lemma OpenedPending(cs: Suite, s: PackState, s': PackState)
    requires Step(cs, K, s, Open(true, true), s') && s.store.disk.pending != []
    ensures s'.store.mem.Some? && s'.store.disk == s.store.disk && s'.store.later == s.store.later
    ensures OpenStep(cs, K, s.store, s'.store)
  {
    hide OpenReads, Cache, FileIndex;
  }

  /** A real run with a torn superblock write: the power goes while the second commit's
      superblock is half written, and the side it was written to is no longer valid. */
  lemma {:induction false} TornRun() returns (run: seq<PackState>, ops: seq<Op>)
    ensures ops == [DONE, FAILED, Crash] && IsRun(FailingSuite(), K, run, ops) && Lasting(ops, 0)
    ensures Steady(run, ops, 0, 3)
    ensures |run[2].store.disk.durable| >= DATA_START && |run[3].store.disk.durable| >= DATA_START
    ensures DecodeSb(FailingSuite(), K, Block(run[2].store.disk.durable, A)).Some?
    ensures DecodeSb(FailingSuite(), K, Block(run[3].store.disk.durable, A)).None?
  {
    hide PackInv, Inv, Unforged, Cache, SbBlock, FailingSuite, DecodeSb, Unsynced, SbPlain, Seal, CrashImage, Splice,
         Torn, IsRun, Sane, Room, ReadHeader, Tagged;
    var cs := FailingSuite();
    var mid: State;
    run, mid := FailedCommit();
    var u := run[2];
    var block := SbBlock(cs, K, N, 3, Root(908, 52));
    UnsyncedDisk(cs, mid, Root(908, 52));
    UnsyncedMem(cs, mid, Root(908, 52));
    HalfDone(u.store.disk, A, block);
    var img := Splice(u.store.disk.durable, A.Off(), block[..32]);
    FirstBlock();
    ThirdBlock();
    PlainsDiffer(1, Root(0, 0), 3, Root(908, 52));
    TornInvalid(SbPlain(1, Root(0, 0)), SbPlain(3, Root(908, 52)), K, N);
    SbRoundTrip(cs, K, N, 1, Root(0, 0));
    var t := u.(store := u.store.(disk := Disk(img, []), mem := None));
    SyncedUnforged(cs, K, t.store);
    EmptyRoom(u);
    PlainSane(cs, u);
    LongerRun(cs, K, run, [DONE, FAILED], Crash, t);
    run := run + [t];
    ops := [DONE, FAILED] + [Crash];
    NothingLingers(ops);
  }

  lemma ThirdBlock()
    ensures SbBlock(FailingSuite(), K, N, 3, Root(908, 52)) == Seal(FailingSuite(), K, N, SbPlain(3, Root(908, 52)))
  {
    hide Seal, SbPlain;
  }

  // ---- a reopening that misses the newest commit ----

  ghost function LosingSuite(): Suite {
    Tagged(SbPlain(2, Root(896, 157)), SbPlain(2, Root(1093, 157)))
  }

  const PATH_A: bytes := [97]
  const PATH_B: bytes := [98]
  const LOSING: seq<Op> := [Put(PATH_A, [], 0, N, true), DONE, Close, Open(true, false), Put(PATH_B, [], 0, N, true),
                            FAILED, Crash]

  /** Put and commit a file, close. */
  lemma {:induction false} FirstSession() returns (run: seq<PackState>)
    ensures IsRun(LosingSuite(), K, run, LOSING[..3]) && PATH_A in run[1].index.paths && MemBounds(run[1].store)
    ensures run[3].store.mem.None? && run[3].store.disk.pending == [] && run[3].index.paths.Keys == {PATH_A}
            && Room(run[3])
    ensures run[3].store.base.seqno == 2 && run[3].store.prev == Snapshot(1, Root(0, 0), [])
    ensures var f := Cache(run[3].store.disk); var cs := LosingSuite();
            && |f| == 1053 && ReadHeader(f).Some? && Block(f, A) == SbBlock(cs, K, N, 1, Root(0, 0))
            && Block(f, B) == SbBlock(cs, K, N, 2, Root(896, 157))
  {
    hide PackInv, Inv, Step, Unforged, Seal, Cache, Serialize, SbBlock, Stands, LosingSuite, SbPlain, Committed,
         Unsynced, AppendStep, Mid, PutState, ReadHeader, Normalize;
    var cs := LosingSuite();
    CreatedStands(cs);
    var s0 := PackState(CreatedState(CreatedFile(cs, K, KDF, N, N)), EMPTY);
    var a, b := SbBlock(cs, K, N, 1, Root(0, 0)), SbBlock(cs, K, N, 0, Root(0, 0));
    OneLetter(97);
    PutFrom(cs, s0, PATH_A, 856, a, b);
    var s1 := PutState(cs, s0, PATH_A);
    StandsFile(s1.store, 896, a, b);
    CommitFrom(cs, s1, 896, a, b, 157);
    var m := Mid(cs, s1);
    var s2 := s1.(store := Committed(cs, K, m, Root(896, 157), N));
    CommittedStands(cs, m, Root(896, 157), 1053, a, b);
    CommittedMem(cs, m, Root(896, 157));
    var s3 := s2.(store := CloseState(s2.store));
    StandsAll(s2.store, 1053, a, SbBlock(cs, K, N, 2, Root(896, 157)));
    SyncedUnforged(cs, K, s0.store);
    AppendUnforged(cs, K, s0.store, s1.store, Seal(cs, K, N, []), 856);
    SyncedUnforged(cs, K, s2.store);
    SyncedUnforged(cs, K, s3.store);
    EmptyRoom(s0);
    ThreeSteps(cs, s0, s1, s2, s3);
    run := [s0, s1, s2, s3];
    assert LOSING[..3] == [Put(PATH_A, [], 0, N, true), DONE, Close];
    assert s1.index.paths.Keys == {PATH_A} by { OnePath(cs, s0, PATH_A); }
  }

  lemma OnePath(cs: Suite, s: PackState, path: bytes)
    requires s.store.mem.Some? && s.store.mem.value.fileSize < U64_LIMIT
    ensures PutState(cs, s, path).index.paths.Keys == {path}
  {
    hide Seal;
  }

  lemma StandsAll(st: State, size: nat, a: bytes, b: bytes)
    requires Stands(st, size, a, b)
    ensures var f := Cache(st.disk);
            |f| == size && size >= DATA_START && ReadHeader(f).Some? && Block(f, A) == a && Block(f, B) == b
  {
    hide Cache, ReadHeader;
  }

  lemma ThreeSteps(cs: Suite, s0: PackState, s1: PackState, s2: PackState, s3: PackState)
    requires PackInv(cs, K, s0) && s0.store.later == []
    requires Step(cs, K, s0, Put(PATH_A, [], 0, N, true), s1) && Step(cs, K, s1, DONE, s2)
             && s3 == s2.(store := CloseState(s2.store))
    requires Sane(cs, K, s0, Put(PATH_A, [], 0, N, true)) && Room(s0) && Room(s1) && Room(s2)
    requires Unforged(cs, K, s0.store) && Unforged(cs, K, s1.store) && Unforged(cs, K, s2.store)
             && Unforged(cs, K, s3.store)
    ensures IsRun(cs, K, [s0, s1, s2, s3], [Put(PATH_A, [], 0, N, true), DONE, Close])
  {
    hide PackInv, Step, Unforged, Room, NoCollision;
    var run, ops := [s0, s1, s2, s3], [Put(PATH_A, [], 0, N, true), DONE, Close];
    assert Step(cs, K, s2, Close, s3) by { CloseIsStep(cs, s2); }
    assert Next(cs, K, run, ops, 0) && Next(cs, K, run, ops, 1) && Next(cs, K, run, ops, 2);
    assert Allowed(cs, K, s0, ops[0]) && Allowed(cs, K, s1, ops[1]) && Allowed(cs, K, s2, ops[2]);
  }

  lemma CloseIsStep(cs: Suite, s: PackState)
    ensures Step(cs, K, s, Close, s.(store := CloseState(s.store)))
  {
  }

  /** Opening without superblock B: the empty pack of superblock A. */
  lemma {:induction false} BlindOpen(cs: Suite, c: PackState) returns (p: PackState)
    requires c.store.mem.None? && c.store.disk.pending == [] && c.store.base.seqno == 2
    requires var f := Cache(c.store.disk);
             && |f| == 1053 && ReadHeader(f).Some? && Block(f, A) == SbBlock(cs, K, N, 1, Root(0, 0))
             && Block(f, B) == SbBlock(cs, K, N, 2, Root(896, 157))
    ensures Step(cs, K, c, Open(true, false), p) && p.index == EMPTY && p.store.disk == c.store.disk
    ensures p.store == c.store.(mem := Some(Mem(1, A, Root(0, 0), 1053)), live := c.store.prev) && Behind(p.store)
  {
    hide ReadHeader, SbBlock, DecodeSb, Cache;
    var f := Cache(c.store.disk);
    SbRoundTrip(cs, K, N, 1, Root(0, 0));
    SbRoundTrip(cs, K, N, 2, Root(896, 157));
    p := PackState(c.store.(mem := Some(Mem(1, A, Root(0, 0), 1053)), live := c.store.prev), EMPTY);
    assert ReadSide(cs, K, f, A) == Some((1, Root(0, 0))) && ReadSide(cs, K, f, B) == Some((2, Root(896, 157)));
    assert OpenReads(cs, K, f, true, false) == Some(Mem(1, A, Root(0, 0), 1053));
    assert OpenImage(cs, K, f) == Some(Mem(2, B, Root(896, 157), 1053));
  }

  /** What opens as an image whose only valid superblock is the first one, of the empty pack. */
  lemma {:induction false} OnlyEmpty(cs: Suite, img: bytes, v: View)
    requires |img| >= DATA_START && ReadHeader(img).Some?
    requires Block(img, A) == SbBlock(cs, K, N, 1, Root(0, 0)) && DecodeSb(cs, K, Block(img, B)).None?
    ensures OpensAs(cs, K, img, v) ==> v == map[]
  {
    hide ReadHeader, SbBlock, DecodeSb;
    SbRoundTrip(cs, K, N, 1, Root(0, 0));
    assert ReadSide(cs, K, img, A) == Some((1, Root(0, 0))) && ReadSide(cs, K, img, B).None?;
    assert OpenedIndex(cs, K, img) == Some(EMPTY);
  }

  lemma NotEmpty(cs: Suite, s: PackState, p: bytes)
    requires MemBounds(s.store) && p in s.index.paths
    ensures Buffered(cs, K, s) != map[]
  {
    hide Cache, Data, Content;
    assert p in Buffered(cs, K, s);
  }

  /** Second session, which cannot read superblock B: put another file, commit, and lose power
      while the superblock of the first session is being overwritten. */
  lemma {:induction false} SecondSession(c: PackState) returns (p: PackState, q: PackState, u: PackState, t: PackState)
    requires c.store.mem.None? && c.store.disk.pending == [] && c.store.base.seqno == 2
             && Unforged(LosingSuite(), K, c.store)
    requires var f := Cache(c.store.disk); var cs := LosingSuite();
             && |f| == 1053 && ReadHeader(f).Some? && Block(f, A) == SbBlock(cs, K, N, 1, Root(0, 0))
             && Block(f, B) == SbBlock(cs, K, N, 2, Root(896, 157))
    ensures var cs := LosingSuite();
            && Step(cs, K, c, Open(true, false), p) && Unforged(cs, K, p.store) && Behind(p.store) && Room(p)
            && Step(cs, K, p, Put(PATH_B, [], 0, N, true), q) && Sane(cs, K, p, Put(PATH_B, [], 0, N, true))
            && Unforged(cs, K, q.store) && Room(q) && Endangers(q, FAILED)
            && Step(cs, K, q, FAILED, u) && Unforged(cs, K, u.store) && Room(u)
            && Step(cs, K, u, Crash, t) && Unforged(cs, K, t.store) && t.store.disk.pending == []
    ensures MemBounds(q.store) && PATH_B in q.index.paths
    ensures var img := t.store.disk.durable;
            && |img| >= DATA_START && ReadHeader(img).Some?
            && Block(img, A) == SbBlock(LosingSuite(), K, N, 1, Root(0, 0))
            && DecodeSb(LosingSuite(), K, Block(img, B)).None?
  {
    hide PackInv, Inv, Unforged, Seal, Cache, Serialize, SbBlock, Stands, LosingSuite, SbPlain, Unsynced, AppendStep,
         Mid, PutState, ReadHeader, Normalize, DecodeSb, CrashImage, Splice, Torn, CommitOp, PutStep, OpenAnyStep,
         FileIndex, NoCollision;
    var cs := LosingSuite();
    p := BlindOpen(cs, c);
    SyncedUnforged(cs, K, p.store);
    var a, b := SbBlock(cs, K, N, 1, Root(0, 0)), SbBlock(cs, K, N, 2, Root(896, 157));
    assert Stands(p.store, 1053, a, b) by { OpenedStands(p.store, 1053, a, b); }
    OneLetter(98);
    PutFrom(cs, p, PATH_B, 1053, a, b);
    q := PutState(cs, p, PATH_B);
    StandsFile(q.store, 1093, a, b);
    AppendUnforged(cs, K, p.store, q.store, Seal(cs, K, N, []), 1053);
    CommitFrom(cs, q, 1093, a, b, 157);
    var mid, root := Mid(cs, q), Root(1093, 157);
    u := q.(store := Unsynced(cs, K, mid, root, N));
    LosingBlocks();
    UnsyncedUnforged(SbPlain(2, Root(896, 157)), SbPlain(2, root), mid, root, 1250, a, b);
    StandsAll(mid, 1250, a, b);
    UnsyncedDisk(cs, mid, root);
    UnsyncedMem(cs, mid, root);
    var block := SbBlock(cs, K, N, 2, root);
    HalfDone(u.store.disk, B, block);
    var img := Splice(u.store.disk.durable, B.Off(), block[..32]);
    PlainsDiffer(2, Root(896, 157), 2, root);
    TornInvalid(SbPlain(2, Root(896, 157)), SbPlain(2, root), K, N);
    t := u.(store := u.store.(disk := Disk(img, []), mem := None));
    SyncedUnforged(cs, K, t.store);
  }

  lemma OpenedStands(st: State, size: nat, a: bytes, b: bytes)
    requires st.mem.Some? && st.mem.value.fileSize == |Cache(st.disk)| == size >= DATA_START
    requires ReadHeader(Cache(st.disk)).Some? && Block(Cache(st.disk), A) == a && Block(Cache(st.disk), B) == b
    ensures Stands(st, size, a, b)
  {
  }

  lemma LosingBlocks()
    ensures LosingSuite() == Tagged(SbPlain(2, Root(896, 157)), SbPlain(2, Root(1093, 157)))
    ensures SbBlock(LosingSuite(), K, N, 2, Root(896, 157)) == Seal(LosingSuite(), K, N, SbPlain(2, Root(896, 157)))
    ensures SbBlock(LosingSuite(), K, N, 2, Root(1093, 157)) == Seal(LosingSuite(), K, N, SbPlain(2, Root(1093, 157)))
  {
    hide Seal, SbPlain;
  }

  /** After a commit from behind the theorem fails: a run in which an acknowledged commit is
      lost. The second opening cannot read superblock B and finds the empty pack, as the law
      says, and commits; what the power loss leaves opens as the empty pack again, which is
      neither the acknowledged contents nor those of the commit begun later. */
  lemma {:induction false} LosingRun() returns (run: seq<PackState>)
    ensures IsRun(LosingSuite(), K, run, LOSING) && Lasting(LOSING, 1)
    ensures Steady(run, LOSING, 1, 5) && Endangers(run[5], LOSING[5])
    ensures Leaves(run, LOSING, 7, run[7].store.disk.durable)
    ensures !exists k: nat | 1 <= k < 7 ::
              && Begins(LOSING[k]) && MemBounds(run[k].store)
              && OpensAs(LosingSuite(), K, run[7].store.disk.durable, Buffered(LosingSuite(), K, run[k]))
  {
    hide PackInv, Step, Unforged, Cache, SbBlock, LosingSuite, ReadHeader, Sane, Room, CrashImage, OpensAs, DecodeSb,
         Buffered, MemBounds, Behind;
    var cs := LosingSuite();
    run := FirstSession();
    var c := run[3];
    var p, q, u, t := SecondSession(c);
    PlainSane(cs, c);
    PlainSane(cs, q);
    PlainSane(cs, u);
    LongerRun(cs, K, run, LOSING[..3], Open(true, false), p);
    assert LOSING[..3] + [Open(true, false)] == LOSING[..4];
    LongerRun(cs, K, run + [p], LOSING[..4], Put(PATH_B, [], 0, N, true), q);
    assert LOSING[..4] + [Put(PATH_B, [], 0, N, true)] == LOSING[..5];
    LongerRun(cs, K, run + [p] + [q], LOSING[..5], FAILED, u);
    assert LOSING[..5] + [FAILED] == LOSING[..6];
    LongerRun(cs, K, run + [p] + [q] + [u], LOSING[..6], Crash, t);
    assert LOSING[..6] + [Crash] == LOSING;
    var first := run;
    run := run + [p] + [q] + [u] + [t];
    assert run == first + [p, q, u, t];
    NothingLingersTwo();
    var img := t.store.disk.durable;
    assert CrashImage(t.store.disk, img) by { CacheIsImage(t.store.disk); CacheSynced(t.store.disk); }
    forall k: nat | 1 <= k < 7 && Begins(LOSING[k]) && MemBounds(run[k].store)
      ensures !OpensAs(cs, K, img, Buffered(cs, K, run[k]))
    {
      assert k == 1 || k == 5;
      OnlyEmpty(cs, img, Buffered(cs, K, run[k]));
      NotEmpty(cs, run[k], if k == 1 then PATH_A else PATH_B);
    }
  }

  lemma NothingLingersTwo()
    ensures Lingers(LOSING, 2) == {}
  {
    assert Lingers(LOSING, 0) == {} && Lingers(LOSING, 1) == {};
  }

  // ---- a replacement that is undone ----

  const UNDONE: seq<Op> := [Compact(true, true, false, true, true), Put(PATH_A, [], 0, N, true), DONE, Crash]

  /** The compaction of the created pack: its file is that of a created pack and one commit. */
  lemma {:induction false} CompactCreated(cs: Suite, s0: PackState, s1: PackState)
    requires s0.store == CreatedState(CreatedFile(cs, K, KDF, N, N)) && s0.index == s1.index == EMPTY
    requires PackInv(cs, K, s1) && MemBounds(s1.store) && s1.store.disk.pending == [] && s1.store.later == []
    requires s1.store.mem == Some(Mem(2, B, Root(856, 52), 908)) && s1.store.prev == s0.store.live
    requires s1.store.base == s1.store.live && s1.store.base.seqno == 2
    requires Stands(s1.store, 908, SbBlock(cs, K, N, 1, Root(0, 0)), SbBlock(cs, K, N, 2, Root(856, 52)))
    requires Step(cs, K, s0, DONE, s1) && PackInv(cs, K, s0)
    ensures Step(cs, K, s0, UNDONE[0], s1)
  {
    hide PackInv, ReadHeader, SbBlock, DecodeSb, Cache, CreatedFile, CommitOp, LayerStep, Unforged;
    CreatedStands(cs);
    SyncedUnforged(cs, K, s1.store);
    EmptyRoom(s0);
    CommitRefines(cs, K, s0, s1, N, N, Reached(Done));
    EmptyMeans(cs, s0, s1);
    ReopenedSame(cs, s1.store);
    assert Replacement(cs, K, s0, s1);
    assert Reopened(cs, K, s1.store, s1.store, true, true);
  }

  lemma EmptyMeans(cs: Suite, s0: PackState, s1: PackState)
    requires s0.store == CreatedState(CreatedFile(cs, K, KDF, N, N)) && s0.index == s1.index == EMPTY
    requires MemBounds(s0.store) && MemBounds(s1.store) && s1.store.prev == s0.store.live
    requires LayerStep(Abstract(cs, K, s0), DONE, Abstract(cs, K, s1))
    ensures SnapView(cs, K, s1.store.prev) == map[]
    ensures SnapView(cs, K, s1.store.base) == Buffered(cs, K, s1) == Buffered(cs, K, s0) == map[]
  {
    hide Cache, CreatedFile;
  }

  /** Opened again, a committed store is as it was. */
  lemma {:induction false} ReopenedSame(cs: Suite, st: State)
    requires st.disk.pending == [] && st.later == [] && st.base == st.live && st.base.seqno == 2
    requires st.mem == Some(Mem(2, B, Root(856, 52), 908))
    requires Stands(st, 908, SbBlock(cs, K, N, 1, Root(0, 0)), SbBlock(cs, K, N, 2, Root(856, 52)))
    ensures OpenAnyStep(cs, K, CloseState(st), st, true, true)
  {
    hide ReadHeader, SbBlock, DecodeSb, Cache;
    StandsAll(st, 908, SbBlock(cs, K, N, 1, Root(0, 0)), SbBlock(cs, K, N, 2, Root(856, 52)));
    var f := Cache(st.disk);
    SbRoundTrip(cs, K, N, 1, Root(0, 0));
    SbRoundTrip(cs, K, N, 2, Root(856, 52));
    assert ReadSide(cs, K, f, A) == Some((1, Root(0, 0))) && ReadSide(cs, K, f, B) == Some((2, Root(856, 52)));
    assert OpenReads(cs, K, f, true, true) == Some(Mem(2, B, Root(856, 52), 908));
  }

  /** A commit acknowledged to a file whose replacement is not durable can be lost, whatever the
      cryptography: compact a created pack without the directory being synced, put a file and
      commit it; the power loss brings the old file back, which opens as the empty pack. */
  lemma {:induction false} UndoneRun(cs: Suite) returns (run: seq<PackState>)
    ensures IsRun(cs, K, run, UNDONE) && Acknowledges(UNDONE[2]) && Lingers(UNDONE, 3) == {0}
    ensures MemBounds(run[2].store) && PATH_A in Buffered(cs, K, run[2])
    ensures Leaves(run, UNDONE, 3, run[4].store.disk.durable) && OpensAs(cs, K, run[4].store.disk.durable, map[])
  {
    hide PackInv, Inv, Step, Unforged, Seal, Cache, Serialize, SbBlock, Stands, Committed, AppendStep, Mid, PutState,
         ReadHeader, Normalize, CreatedFile, Sane, CrashImage, OpensAs, Lingers, CrashStep;
    var s0, s1 := FirstCommit(cs);
    var a, b := SbBlock(cs, K, N, 1, Root(0, 0)), SbBlock(cs, K, N, 2, Root(856, 52));
    StandsFile(s1.store, 908, a, b);
    CompactCreated(cs, s0, s1);
    OneLetter(97);
    PutFrom(cs, s1, PATH_A, 908, a, b);
    var s2 := PutState(cs, s1, PATH_A);
    StandsFile(s2.store, 948, a, b);
    SyncedUnforged(cs, K, s1.store);
    AppendUnforged(cs, K, s1.store, s2.store, Seal(cs, K, N, []), 908);
    CommitFrom(cs, s2, 948, a, b, 157);
    var s3 := s2.(store := Committed(cs, K, Mid(cs, s2), Root(948, 157), N));
    CommittedStands(cs, Mid(cs, s2), Root(948, 157), 1105, a, b);
    CommittedMem(cs, Mid(cs, s2), Root(948, 157));
    var t := s0.(store := s0.store.(mem := None));
    ComesBack(cs, s0);
    UndoneSteps(cs, s0, s1, s2, s3, t);
    run := [s0, s1, s2, s3, t];
    assert PATH_A in Buffered(cs, K, s2) by { assert PATH_A in s2.index.paths; }
  }

  /** What is left of a created file is the file, and opens as the empty pack. */
  lemma {:induction false} ComesBack(cs: Suite, s0: PackState)
    requires s0.store == CreatedState(CreatedFile(cs, K, KDF, N, N)) && s0.index == EMPTY
    ensures CrashStep(s0.store, s0.store.(mem := None)) && CrashImage(s0.store.disk, s0.store.disk.durable)
    ensures OpensAs(cs, K, s0.store.disk.durable, map[])
  {
    hide PackInv, CreatedFile, OpensAs, Unforged, CrashImage, Inv;
    CreatedPack(cs, K, KDF, N, N);
    SyncedUnforged(cs, K, s0.store);
    CacheIsImage(s0.store.disk);
    CacheSynced(s0.store.disk);
    StateRecovers(cs, K, s0, s0.store.disk.durable);
  }

  lemma UndoneSteps(cs: Suite, s0: PackState, s1: PackState, s2: PackState, s3: PackState, t: PackState)
    requires PackInv(cs, K, s0) && s0.store.later == [] && s0.store.disk.pending == []
             && t == s0.(store := s0.store.(mem := None))
    requires Step(cs, K, s0, UNDONE[0], s1) && Step(cs, K, s1, UNDONE[1], s2) && Step(cs, K, s2, UNDONE[2], s3)
    requires Sane(cs, K, s1, UNDONE[1]) && CrashStep(s0.store, t.store)
    requires s0.index == s1.index == EMPTY && Fits(s2.index) && |s2.index.paths| == 1 && s3.index == s2.index
    requires s0.store.mem.Some? && s0.store.mem.value.seqno == 1 && s1.store.mem.Some? && s1.store.mem.value.seqno == 2
    requires s2.store.mem.Some? && s2.store.mem.value.seqno == 2 && s3.store.mem.Some? && s3.store.mem.value.seqno == 3
    requires Unforged(cs, K, s1.store) && Unforged(cs, K, s2.store) && s3.store.disk.pending == []
    requires CrashImage(s0.store.disk, t.store.disk.durable)
    ensures IsRun(cs, K, [s0, s1, s2, s3, t], UNDONE) && Lingers(UNDONE, 3) == {0}
    ensures Leaves([s0, s1, s2, s3, t], UNDONE, 3, t.store.disk.durable)
  {
    hide PackInv, Step, Unforged, CrashStep, CrashImage, NoCollision;
    var run, ops := [s0, s1, s2, s3, t], UNDONE;
    assert Lingers(ops, 0) == {} && Lingers(ops, 1) == {0} && Lingers(ops, 2) == {0};
    assert Next(cs, K, run, ops, 0) && Next(cs, K, run, ops, 1) && Next(cs, K, run, ops, 2) && Next(cs, K, run, ops, 3);
    SyncedUnforged(cs, K, s0.store);
    SyncedUnforged(cs, K, s3.store);
    SyncedUnforged(cs, K, t.store);
  }
}
