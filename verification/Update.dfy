/** The producer of updates: `Pack::diff` and the update pack that `sealpack diff` writes;
    and the whole trip from two packs to an updated one. */
module Update {
  import opened Bytes
  import opened Crypto
  import opened Disk
  import opened StoreModel
  import opened Os
  import opened Order
  import opened Index
  import opened Paths
  import opened Delta
  import opened PackModel
  import opened PackRuns
  import opened Keys
  import opened Pack
  import opened Walks
  import opened Merging

  /** The paths both packs have with different hashes. */
  function HashChanged(was: map<bytes, PathEntry>, now: map<bytes, PathEntry>): set<bytes> {
    set p | p in now && p in was && was[p].hash != now[p].hash
  }

  /** `Pack::diff`, by hashes alone; each list is in ascending order of the paths' bytes. */
  method Diff(im: Pack, newer: Pack) returns (added: seq<bytes>, modified: seq<bytes>, deleted: seq<bytes>)
    ensures Ascending(added) && forall p :: p in added <==> p in newer.index.paths && p !in im.index.paths
    ensures Ascending(modified)
    ensures forall p :: p in modified <==>
              p in newer.index.paths && p in im.index.paths && im.index.paths[p].hash != newer.index.paths[p].hash
    ensures Ascending(deleted) && forall p :: p in deleted <==> p in im.index.paths && p !in newer.index.paths
    ensures added == SortedKeys(newer.index.paths.Keys - im.index.paths.Keys)
    ensures modified == SortedKeys(HashChanged(im.index.paths, newer.index.paths))
    ensures deleted == SortedKeys(im.index.paths.Keys - newer.index.paths.Keys)
  {
    hide SortedKeys, LexLe, Ascending;
    added, modified := NewAndChanged(im.index.paths, newer.index.paths);
    deleted := Missing(im.index.paths, newer.index.paths);
    KeysAscend(newer.index.paths.Keys - im.index.paths.Keys);
    KeysAscend(HashChanged(im.index.paths, newer.index.paths));
    KeysAscend(im.index.paths.Keys - newer.index.paths.Keys);
  }

  method NewAndChanged(was: map<bytes, PathEntry>, now: map<bytes, PathEntry>)
    returns (added: seq<bytes>, modified: seq<bytes>)
    ensures added == SortedKeys(now.Keys - was.Keys)
    ensures modified == SortedKeys(HashChanged(was, now))
  {
    hide SortedKeys, Filter, LexLe, HashChanged;
    added, modified := [], [];
    ghost var extra, changed := now.Keys - was.Keys, HashChanged(was, now);
    var keys := SortedKeys(now.Keys);
    var i := 0;
    NothingFiltered(keys[..0], extra);
    NothingFiltered(keys[..0], changed);
    while i < |keys|
      invariant 0 <= i <= |keys|
      invariant added == Filter(keys[..i], extra) && modified == Filter(keys[..i], changed)
    {
      var k := keys[i];
      FilterStep(keys, i, extra);
      FilterStep(keys, i, changed);
      HashChangedAt(was, now, k);
      if k !in was {
        added := added + [k];
      } else if was[k].hash != now[k].hash {
        modified := modified + [k];
      }
      i := i + 1;
    }
    assert keys[..i] == keys;
    FilterAll(now.Keys, extra);
    HashChangedIn(was, now);
    FilterAll(now.Keys, changed);
  }

  method Missing(was: map<bytes, PathEntry>, now: map<bytes, PathEntry>) returns (deleted: seq<bytes>)
    ensures deleted == SortedKeys(was.Keys - now.Keys)
  {
    hide SortedKeys, Filter, LexLe;
    deleted := [];
    ghost var gone := was.Keys - now.Keys;
    var keys := SortedKeys(was.Keys);
    var i := 0;
    NothingFiltered(keys[..0], gone);
    while i < |keys|
      invariant 0 <= i <= |keys|
      invariant deleted == Filter(keys[..i], gone)
    {
      FilterStep(keys, i, gone);
      if keys[i] !in now {
        deleted := deleted + [keys[i]];
      }
      i := i + 1;
    }
    assert keys[..i] == keys;
    FilterAll(was.Keys, gone);
  }

  lemma HashChangedAt(was: map<bytes, PathEntry>, now: map<bytes, PathEntry>, k: bytes)
    ensures k in HashChanged(was, now) <==> k in was && k in now && was[k].hash != now[k].hash
  {
  }

  lemma HashChangedIn(was: map<bytes, PathEntry>, now: map<bytes, PathEntry>)
    ensures HashChanged(was, now) <= now.Keys
  {
  }

  lemma FilterStep(keys: seq<bytes>, i: nat, t: set<bytes>)
    requires i < |keys|
    ensures Filter(keys[..i + 1], t) == if keys[i] in t then Filter(keys[..i], t) + [keys[i]] else Filter(keys[..i], t)
  {
    assert keys[..i + 1][..i] == keys[..i];
  }

  lemma NothingFiltered(keys: seq<bytes>, t: set<bytes>)
    requires keys == []
    ensures Filter(keys, t) == []
  {
  }

  /** As long as hashes tell contents apart, comparing hashes compares contents. */
  lemma DiffByContent(cs: Suite, okey: bytes, o: PackState, nkey: bytes, n: PackState, all: set<bytes>)
    requires PackInv(cs, okey, o) && MemBounds(o.store) && PackInv(cs, nkey, n) && MemBounds(n.store)
    requires Distinct(cs, all) && Stored(cs, okey, o) <= all && Stored(cs, nkey, n) <= all
    ensures var ov, nv := Buffered(cs, okey, o), Buffered(cs, nkey, n);
            && (n.index.paths.Keys - o.index.paths.Keys) + HashChanged(o.index.paths, n.index.paths) == Changed(ov, nv)
            && o.index.paths.Keys - n.index.paths.Keys == Gone(ov, nv)
  {
    hide PackInv, Buffered, Stored, Cache;
    ViewKeys(cs, okey, o);
    ViewKeys(cs, nkey, n);
    var ov, nv := Buffered(cs, okey, o), Buffered(cs, nkey, n);
    forall p | p in ov && p in nv
      ensures ov[p] == nv[p] <==> o.index.paths[p].hash == n.index.paths[p].hash
    {
      PathHash(cs, okey, o, p);
      PathHash(cs, nkey, n, p);
    }
  }

  /** The control file's text. */
  method PrintList(deleted: seq<bytes>) returns (dl: bytes)
    ensures dl == PrintDeletions(deleted)
  {
    dl := [];
    var i := 0;
    while i < |deleted|
      invariant 0 <= i <= |deleted| && dl == PrintDeletions(deleted[..i])
    {
      assert deleted[..i + 1] == deleted[..i] + [deleted[i]];
      PrintAppend(deleted[..i], deleted[i]);
      dl := dl + deleted[i];
      dl := dl + [NEWLINE];
      i := i + 1;
    }
    assert deleted[..i] == deleted;
  }

  function Elements(keys: seq<bytes>, i: nat): set<bytes>
    requires i <= |keys|
  {
    set k | k in keys[..i]
  }

  lemma ElementsNone(keys: seq<bytes>)
    ensures Elements(keys, 0) == {}
  {
  }

  lemma {:induction false} ElementsSize(keys: seq<bytes>, i: nat)
    requires i <= |keys|
    ensures |Elements(keys, i)| <= i
  {
    if i > 0 {
      ElementsSize(keys, i - 1);
      assert keys[..i] == keys[..i - 1] + [keys[i - 1]];
      assert Elements(keys, i) == Elements(keys, i - 1) + {keys[i - 1]};
    } else {
      ElementsNone(keys);
    }
  }

  /** Paths of a pack, each listed once. */
  ghost predicate Picks(keys: seq<bytes>, paths: map<bytes, PathEntry>) {
    && (forall p | p in keys :: p in paths)
    && (forall i, j | 0 <= i < j < |keys| :: keys[i] != keys[j])
  }

  lemma ElementsStep(keys: seq<bytes>, i: nat, paths: map<bytes, PathEntry>)
    requires i < |keys| && Picks(keys, paths)
    ensures Elements(keys, i + 1) == Elements(keys, i) + {keys[i]} && keys[i] !in Elements(keys, i)
    ensures |Elements(keys, i)| <= i && keys[i] in paths
  {
    assert keys[..i + 1] == keys[..i] + [keys[i]];
    ElementsSize(keys, i);
  }

  /** The header and the key slots. */
  function Front(d: Disk): bytes {
    if |Cache(d)| >= DATA_START then Cache(d)[..SB_A_OFF] else []
  }

  lemma MovedFront(cs: Suite, key: bytes, s: PackState, steps: seq<Op>, s': PackState)
    requires MemBounds(s.store) && Moved(cs, key, s, steps, s')
    ensures Front(s'.store.disk) == Front(s.store.disk)
  {
    hide Cache, Step, Sane;
    if steps != [] {
      FrontStays(cs, key, s, steps[0], s');
    }
  }

  lemma StepFront(cs: Suite, key: bytes, s: PackState, op: Op, s': PackState)
    requires MemBounds(s.store) && Step(cs, key, s, op, s') && (op.Put? || op.Commit?)
    ensures Front(s'.store.disk) == Front(s.store.disk)
  {
    hide Cache, Step;
    FrontStays(cs, key, s, op, s');
  }

  /** Copies the i-th of the named files of one pack into another. */
  method ShipOne(up: Pack, newpk: Pack, changed: seq<bytes>, i: nat, ghost s0: PackState, ghost all: set<bytes>)
    returns (ok: bool)
    requires up.Valid() && newpk.Valid() && Apart(up, newpk) && s0.index == EMPTY
    requires Picks(changed, newpk.index.paths) && i < |changed| && |changed| + 2 < U32_LIMIT
    requires Distinct(up.cs, all) && Stored(up.cs, newpk.key, newpk.Now()) <= all
    requires Progress(up.cs, up.key, s0, up.Now(), newpk.key, newpk.Now(), Elements(changed, i), all)
    modifies up`index, up`lastErr, newpk`lastErr, up.store`fileSize, up.os
    ensures up.Valid() && newpk.Valid() && newpk.Now() == old(newpk.Now())
    ensures Touched(up.name, old(up.os.files), old(up.os.trace), up.os.files, up.os.trace)
    ensures up.os.Onward() && (!ok ==> up.os.faults > old(up.os.faults))
    ensures Front(up.os.files[up.name]) == old(Front(up.os.files[up.name]))
    ensures ok ==> Progress(up.cs, up.key, s0, up.Now(), newpk.key, newpk.Now(), Elements(changed, i + 1), all)
  {
    hide PackInv, Buffered, Stored, Cache, ReadHeader, Distinct, Data, Progress, Touched, Elements, Picks, Front,
         Moved, Moments;
    ProgressRoom(up.cs, up.key, s0, up.Now(), newpk.key, newpk.Now(), Elements(changed, i), all);
    ElementsStep(changed, i, newpk.index.paths);
    ghost var s := up.Now();
    ghost var steps: seq<Op>;
    ok, steps := CopyFile(up, newpk, changed[i], s0, Elements(changed, i), all);
    MovedFront(up.cs, up.key, s, steps, up.Now());
  }

  /** Copies the named files of one pack into another. */
  method Ship(up: Pack, newpk: Pack, changed: seq<bytes>, ghost all: set<bytes>) returns (ok: bool)
    requires up.Valid() && newpk.Valid() && Apart(up, newpk) && up.index == EMPTY
    requires Picks(changed, newpk.index.paths) && |changed| + 2 < U32_LIMIT
    requires Distinct(up.cs, all) && Stored(up.cs, newpk.key, newpk.Now()) <= all
    modifies up`index, up`lastErr, newpk`lastErr, up.store`fileSize, up.os
    ensures up.Valid() && newpk.Valid() && newpk.Now() == old(newpk.Now())
    ensures Touched(up.name, old(up.os.files), old(up.os.trace), up.os.files, up.os.trace)
    ensures up.os.Onward() && (!ok ==> up.os.faults > old(up.os.faults))
    ensures Front(up.os.files[up.name]) == old(Front(up.os.files[up.name]))
    ensures ok ==> up.View() == Restrict(newpk.View(), Elements(changed, |changed|))
    ensures ok ==>
              Stored(up.cs, up.key, up.Now()) <= all && |up.index.paths| <= |changed| && |up.index.blobs| <= |changed|
  {
    hide PackInv, Buffered, Stored, Cache, ReadHeader, Distinct, Data, Progress, Touched, Restrict, Elements, Picks,
         Front;
    ghost var s0, n := up.Now(), newpk.Now();
    ghost var f0, t0 := up.os.files, up.os.trace;
    TouchedRefl(up.name, f0, t0);
    EmptyStores(up.cs, up.key, s0);
    ProgressStart(up.cs, up.key, s0, newpk.key, n, all);
    ElementsNone(changed);
    var i := 0;
    while i < |changed|
      invariant 0 <= i <= |changed|
      invariant up.Valid() && newpk.Valid() && newpk.Now() == n
      invariant Touched(up.name, f0, t0, up.os.files, up.os.trace)
      invariant up.os.Onward()
      invariant Front(up.os.files[up.name]) == Front(f0[up.name])
      invariant Progress(up.cs, up.key, s0, up.Now(), newpk.key, n, Elements(changed, i), all)
    {
      ghost var f1, t1 := up.os.files, up.os.trace;
      ok := ShipOne(up, newpk, changed, i, s0, all);
      TouchedTrans(up.name, f0, t0, f1, t1, up.os.files, up.os.trace);
      if !ok {
        return;
      }
      i := i + 1;
    }
    ShipMeaning(up.cs, up.key, s0, up.Now(), newpk.key, n, changed, all);
    ok := true;
  }

  lemma EmptyStores(cs: Suite, key: bytes, s: PackState)
    requires MemBounds(s.store) && s.index == EMPTY
    ensures Stored(cs, key, s) == {} && Buffered(cs, key, s) == map[]
  {
  }

  lemma ShipMeaning(cs: Suite, key: bytes, s0: PackState, s: PackState, nkey: bytes, n: PackState, changed: seq<bytes>,
                    all: set<bytes>)
    requires Progress(cs, key, s0, s, nkey, n, Elements(changed, |changed|), all) && s0.index == EMPTY
    ensures MemBounds(s.store) && MemBounds(n.store)
    ensures Buffered(cs, key, s) == Restrict(Buffered(cs, nkey, n), Elements(changed, |changed|))
    ensures Stored(cs, key, s) <= all && |s.index.paths| <= |changed| && |s.index.blobs| <= |changed|
  {
    hide Progress, Stored, Buffered, Restrict, Elements;
    var copied := Elements(changed, |changed|);
    ProgressBounds(cs, key, s0, s, nkey, n, copied, all);
    ProgressRoom(cs, key, s0, s, nkey, n, copied, all);
    EmptyStores(cs, key, s0);
    ElementsSize(changed, |changed|);
    EmptyUnder(Restrict(Buffered(cs, nkey, n), copied));
  }

  lemma EmptyUnder(v: View)
    ensures map[] + v == v
  {
  }

  /** All the contents an update between two packs handles. */
  ghost function Traffic(cs: Suite, okey: bytes, o: PackState, nkey: bytes, n: PackState): set<bytes>
    requires MemBounds(o.store) && MemBounds(n.store)
  {
    Stored(cs, okey, o) + Stored(cs, nkey, n)
    + {PrintDeletions(SortedKeys(Gone(Buffered(cs, okey, o), Buffered(cs, nkey, n))))}
  }

  /** Adds the deletion list, if anything was deleted. */
  method PutList(up: Pack, deleted: seq<bytes>, ghost all: set<bytes>) returns (ok: bool)
    requires up.Valid() && |up.index.paths| + 1 < U32_LIMIT
    requires Distinct(up.cs, all) && Stored(up.cs, up.key, up.Now()) <= all && PrintDeletions(deleted) in all
    modifies up`index, up`lastErr, up.store`fileSize, up.os
    ensures up.Valid() && Touched(up.name, old(up.os.files), old(up.os.trace), up.os.files, up.os.trace)
    ensures up.os.Onward() && (!ok ==> up.os.faults > old(up.os.faults))
    ensures Front(up.os.files[up.name]) == old(Front(up.os.files[up.name]))
    ensures ok ==> up.View() == if deleted == [] then old(up.View())
            else old(up.View())[DEL_LIST := PrintDeletions(deleted)]
    ensures ok ==> Stored(up.cs, up.key, up.Now()) <= all
    ensures ok ==> |up.index.paths| <= |old(up.index.paths)| + 1 && |up.index.blobs| <= |old(up.index.blobs)| + 1
  {
    hide PackInv, Buffered, Stored, Cache, ReadHeader, Distinct, Data, Touched, NoCollision, Normalize, PutStep, Front,
         Moments;
    ghost var s := up.Now();
    TouchedRefl(up.name, up.os.files, up.os.trace);
    if deleted == [] {
      return true;
    }
    var dl := PrintList(deleted);
    DistinctPut(up.cs, up.key, s, dl, all);
    ghost var op: Op;
    ok, op := up.Put(DEL_LIST, dl);
    StepFront(up.cs, up.key, s, op, up.Now());
    ControlName();
    if ok {
      PutStored(up.cs, up.key, s, up.Now(), DEL_LIST, dl, op.now, op.nonce, true);
      GrowsByOne(s.index.paths, up.index.paths, DEL_LIST);
      GrowsByOne(s.index.blobs, up.index.blobs, up.cs.hash(dl));
    }
  }

  /** What the update pack means once both parts are in. */
  lemma Composed(ov: View, nv: View, deleted: seq<bytes>)
    requires deleted == SortedKeys(Gone(ov, nv))
    ensures UpdateView(ov, nv) ==
            var shipped := Restrict(nv, Changed(ov, nv));
            if deleted == [] then shipped else shipped[DEL_LIST := PrintDeletions(deleted)]
  {
    hide PrintDeletions, SortedKeys, Gone;
    EmptyEnumeration(Gone(ov, nv));
    assert Restrict(nv, Changed(ov, nv)) == map p | p in Changed(ov, nv) :: nv[p];
  }

  lemma EmptyEnumeration(s: set<bytes>)
    ensures SortedKeys(s) == [] <==> s == {}
  {
    hide SortedKeys, LexLe;
    assert |SortedKeys(s)| == |s|;
  }

  lemma UpdateFits(cs: Suite, key: bytes, s: PackState, ov: View, nkey: bytes, n: PackState)
    requires PackInv(cs, key, s) && MemBounds(s.store) && PackInv(cs, nkey, n) && MemBounds(n.store) && Fits(n.index)
    requires Buffered(cs, key, s) == UpdateView(ov, Buffered(cs, nkey, n))
    requires |s.index.paths| < U32_LIMIT && |s.index.blobs| < U32_LIMIT
    ensures Fits(s.index)
  {
    hide PackInv, Buffered, UpdateView, NormalKeys;
    ViewKeys(cs, key, s);
    ViewKeys(cs, nkey, n);
    UpdateKeys(ov, Buffered(cs, nkey, n));
    assert |DEL_LIST| == 7;
  }

  lemma UpdateKeys(ov: View, nv: View)
    ensures UpdateView(ov, nv).Keys <= nv.Keys + {DEL_LIST}
  {
    hide PrintDeletions, SortedKeys;
  }

  /** What is known of a finished update's file: nothing unsynced, and two commits, the empty
      pack and then one that means v, stores nothing outside `all`, and has at most `bound` paths. */
  ghost predicate Written(cs: Suite, key: bytes, c: PackState, v: View, all: set<bytes>, bound: nat) {
    && PackInv(cs, key, c) && Unforged(cs, key, c.store) && c.store.mem.None?
    && c.store.prev == Snapshot(1, Root(0, 0), []) && c.store.later == []
    && Holding(cs, key, c.store.base, v, all, bound)
  }

  ghost predicate Holding(cs: Suite, key: bytes, snap: Snapshot, v: View, all: set<bytes>, bound: nat) {
    var idx := LoadIndex(cs, key, snap.data, snap.root);
    && snap.seqno == 2 && SnapOk(cs, key, snap) && SnapView(cs, key, snap) == v
    && (forall h | h in idx.value.blobs :: Content(cs, key, snap.data, idx.value, h) in all)
    && |idx.value.paths| <= bound
  }

  /** The snapshot of a commit holds exactly the index it was made of. */
  lemma {:induction false} CommitHolds(cs: Suite, key: bytes, s: PackState, mid: State, nonceM: bytes, root: Root,
                                       all: set<bytes>)
    requires PackInv(cs, key, s) && MemBounds(s.store) && Fits(s.index) && s.store.mem.value.seqno == 1
             && |nonceM| == NONCE
    requires Stored(cs, key, s) <= all
    requires var off, rec := s.store.mem.value.fileSize, Seal(cs, key, nonceM, Serialize(s.index));
             off > 0 && rec != [] && off + |rec| <= MAX_OFFSET && AppendStep(s.store, mid, rec, off)
             && root == Root(off, |rec|)
    ensures MemBounds(mid) && mid.mem.value.seqno == 1
    ensures Holding(cs, key, NewSnapshot(mid, root), Buffered(cs, key, s), all, |s.index.paths|)
  {
    hide Inv, Seal, Serialize, Unseal, Parse, IndexInv, Contents, SnapsOk, Cache, Data, AppendStep, WellFormed, Fits;
    var off, rec := s.store.mem.value.fileSize, Seal(cs, key, nonceM, Serialize(s.index));
    AppendData(s.store, mid, rec, off);
    AppendSeq(s.store, mid, rec, off);
    FlushedSnap(cs, key, Data(s.store), s.index, nonceM, 2, |rec|, off);
    InvWellFormed(cs, key, Data(s.store), s.index);
    FreshRecord(cs, key, Data(s.store), nonceM, Serialize(s.index));
    ParseOfSerialize(s.index, []);
    assert Serialize(s.index) + [] == Serialize(s.index);
    assert LoadIndex(cs, key, Data(mid), root) == Some(s.index);
    SameStored(cs, key, s, mid, all);
  }

  lemma SameStored(cs: Suite, key: bytes, s: PackState, st': State, all: set<bytes>)
    requires PackInv(cs, key, s) && MemBounds(s.store) && MemBounds(st') && Data(s.store) <= Data(st')
    requires Stored(cs, key, s) <= all
    ensures forall h | h in s.index.blobs :: Content(cs, key, Data(st'), s.index, h) in all
  {
    hide PackInv, Cache, Data, Content;
    forall h | h in s.index.blobs
      ensures Content(cs, key, Data(st'), s.index, h) in all
    {
      SoundAt(cs, key, s, h);
      PlaceContent(cs, key, Data(s.store), Data(st'), s.index, s.index, h);
      ContentHash(cs, key, s, h);
    }
  }

  /** The file of a first commit, closed. */
  lemma {:induction false} WrittenUpdate(cs: Suite, key: bytes, s: PackState, s': PackState, op: Op, all: set<bytes>)
    returns (c: PackState)
    requires PackInv(cs, key, s) && MemBounds(s.store) && Fits(s.index) && Stored(cs, key, s) <= all
    requires s.store.mem.value.seqno == 1 && s.store.live == Snapshot(1, Root(0, 0), [])
    requires op.Commit? && op.outcome == Reached(Done) && |op.nonceM| == |op.nonceS| == NONCE
             && Step(cs, key, s, op, s')
    ensures c.store.disk == s'.store.disk && Written(cs, key, c, Buffered(cs, key, s), all, |s.index.paths|)
  {
    hide PackInv, CommitOp, Fits, Stored, Holding, Unforged, LayerStep, Buffered;
    c := s'.(store := CloseState(s'.store));
    DoneIsSynced(cs, key, s, s', op.nonceM, op.nonceS);
    SyncedUnforged(cs, key, s'.store);
    SyncedUnforged(cs, key, c.store);
    CommitRefines(cs, key, s, s', op.nonceM, op.nonceS, op.outcome);
    CloseRefines(cs, key, s', c);
    DoneHolds(cs, key, s, s', op.nonceM, op.nonceS, all);
  }

  lemma {:induction false} DoneHolds(cs: Suite, key: bytes, s: PackState, s': PackState, nonceM: bytes, nonceS: bytes,
                                     all: set<bytes>)
    requires PackInv(cs, key, s) && MemBounds(s.store) && Fits(s.index) && Stored(cs, key, s) <= all
    requires s.store.mem.value.seqno == 1 && |nonceM| == |nonceS| == NONCE
    requires CommitOp(cs, key, s, s', nonceM, nonceS, Reached(Done))
    ensures Holding(cs, key, s'.store.base, Buffered(cs, key, s), all, |s.index.paths|)
  {
    hide PackInv, Seal, Serialize, Cache, Data, AppendStep, Fits, Stored, Holding, NewSnapshot, Buffered, SbBlock,
         Splice;
    var rec := Seal(cs, key, nonceM, Serialize(s.index));
    var mid: State :| Flushed(cs, key, s.store, mid, s'.store, rec, nonceS, Done);
    CommitHolds(cs, key, s, mid, nonceM, Root(s.store.mem.value.fileSize, |rec|), all);
  }

  lemma HoldingOk(cs: Suite, key: bytes, snap: Snapshot, v: View, all: set<bytes>, bound: nat)
    requires Holding(cs, key, snap, v, all, bound)
    ensures SnapOk(cs, key, snap) && snap.seqno == 2
  {
    hide LoadIndex, SnapView, IndexInv;
  }

  /** However a finished update is opened, the pack is sound: it holds the update, or, if the
      newer superblock could not be read, nothing. */
  lemma {:induction false} OpenedUpdate(cs: Suite, key: bytes, c: PackState, p: PackState, readA: bool, readB: bool,
                                        v: View, all: set<bytes>, bound: nat)
    requires Written(cs, key, c, v, all, bound) && Step(cs, key, c, Op.Open(readA, readB), p)
    ensures PackInv(cs, key, p) && MemBounds(p.store)
    ensures Buffered(cs, key, p) == if p.store.mem.value.seqno == 2 then v else map[]
    ensures !Behind(p.store) ==> p.store.mem.value.seqno == 2
    ensures Stored(cs, key, p) <= all && |p.index.paths| <= bound
  {
    hide Inv, IndexInv, Contents, OpenAnyStep, FileIndex, LoadIndex, Cache, Data, Unforged, SnapView, SnapOk, Holding,
         LayerStep;
    OpenRefines(cs, key, c, p, readA, readB);
    OpenAnyInv(cs, key, c.store, p.store, readA, readB);
    OpenedDisk(cs, key, c.store, p.store, readA, readB);
    MemFacts(cs, key, p.store);
    StandsOn(cs, key, p.store);
    LiveData(cs, key, p.store);
    HoldingOk(cs, key, c.store.base, v, all, bound);
    if Behind(p.store) {
      EmptyOpened(cs, key, p);
    } else {
      HoldsOpened(cs, key, p, c.store.base, v, all, bound);
    }
  }

  lemma EmptyOpened(cs: Suite, key: bytes, p: PackState)
    requires MemBounds(p.store) && p.store.mem.value.root.len == 0 && p.store.mem.value.root == p.store.live.root
    requires FileIndex(cs, key, Cache(p.store.disk), p.store.mem.value.root) == Some(p.index)
    ensures Buffered(cs, key, p) == map[] && Stored(cs, key, p) == {} && |p.index.paths| == 0
  {
    hide Cache;
    EmptyStores(cs, key, p);
  }

  lemma HoldsOpened(cs: Suite, key: bytes, p: PackState, snap: Snapshot, v: View, all: set<bytes>, bound: nat)
    requires PackInv(cs, key, p) && MemBounds(p.store) && Holding(cs, key, snap, v, all, bound)
    requires LoadIndex(cs, key, snap.data, snap.root) == Some(p.index) && snap.data <= Data(p.store)
    ensures Buffered(cs, key, p) == v && Stored(cs, key, p) <= all && |p.index.paths| <= bound
  {
    hide PackInv, LoadIndex, IndexInv, Cache, Data, Content;
    forall h | h in p.index.blobs
      ensures Content(cs, key, Data(p.store), p.index, h) in all
    {
      SnapSound(cs, key, snap, h);
      PlaceContent(cs, key, snap.data, Data(p.store), p.index, p.index, h);
    }
    IndexStays(cs, key, snap.data, Data(p.store), p.index);
  }

  lemma SnapSound(cs: Suite, key: bytes, snap: Snapshot, h: bytes)
    requires SnapOk(cs, key, snap) && h in LoadIndex(cs, key, snap.data, snap.root).value.blobs
    ensures Sound(cs, key, snap.data, h, LoadIndex(cs, key, snap.data, snap.root).value.blobs[h])
  {
    hide LoadIndex, Sound, PathsOk, CountsOk;
  }

  /** The update pack's contents: the changed files and the deletion list. */
  method ShipAll(up: Pack, newpk: Pack, changed: seq<bytes>, deleted: seq<bytes>, ghost ov: View, ghost all: set<bytes>)
    returns (ok: bool)
    requires up.Valid() && newpk.Valid() && Apart(up, newpk) && up.index == EMPTY
    requires Picks(changed, newpk.index.paths) && |changed| + 2 < U32_LIMIT && Fits(newpk.index)
    requires Elements(changed, |changed|) == Changed(ov, newpk.View()) && deleted == SortedKeys(Gone(ov, newpk.View()))
    requires Distinct(up.cs, all) && Stored(up.cs, newpk.key, newpk.Now()) <= all && PrintDeletions(deleted) in all
    modifies up`index, up`lastErr, newpk`lastErr, up.store`fileSize, up.os
    ensures up.Valid() && newpk.Valid() && newpk.Now() == old(newpk.Now())
    ensures Touched(up.name, old(up.os.files), old(up.os.trace), up.os.files, up.os.trace)
    ensures up.os.Onward() && (!ok ==> up.os.faults > old(up.os.faults))
    ensures Front(up.os.files[up.name]) == old(Front(up.os.files[up.name]))
    ensures ok ==>
              && up.View() == UpdateView(ov, newpk.View()) && Fits(up.index)
              && Stored(up.cs, up.key, up.Now()) <= all && |up.index.paths| <= |changed| + 1
  {
    hide PackInv, Buffered, Stored, Cache, ReadHeader, Distinct, Data, Touched, SortedKeys, LexLe, UpdateView,
         Fits, Elements, Picks, Restrict, Changed, Gone, PrintDeletions, Front;
    ghost var n := newpk.Now();
    ghost var f0, t0 := up.os.files, up.os.trace;
    ok := Ship(up, newpk, changed, all);
    if !ok {
      return;
    }
    ghost var f1, t1 := up.os.files, up.os.trace;
    ok := PutList(up, deleted, all);
    TouchedTrans(up.name, f0, t0, f1, t1, up.os.files, up.os.trace);
    OtherUntouched(up.name, newpk.name, f1, t1, up.os.files, up.os.trace);
    if ok {
      Composed(ov, newpk.View(), deleted);
      UpdateFits(up.cs, up.key, up.Now(), ov, newpk.key, n);
    }
  }

  /** The update pack's contents, and its commit. */
  method FillUpdate(up: Pack, newpk: Pack, changed: seq<bytes>, deleted: seq<bytes>, ghost ov: View,
                    ghost all: set<bytes>)
    returns (ok: bool, ghost closed: PackState)
    requires up.Valid() && newpk.Valid() && Apart(up, newpk) && up.index == EMPTY && up.store.seqno == 1
    requires up.store.live == Snapshot(1, Root(0, 0), [])
    requires Picks(changed, newpk.index.paths) && |changed| + 2 < U32_LIMIT && Fits(newpk.index)
    requires Elements(changed, |changed|) == Changed(ov, newpk.View()) && deleted == SortedKeys(Gone(ov, newpk.View()))
    requires Distinct(up.cs, all) && Stored(up.cs, newpk.key, newpk.Now()) <= all && PrintDeletions(deleted) in all
    modifies up`index, up`lastErr, newpk`lastErr, up.store, up.os
    ensures newpk.Valid() && newpk.Now() == old(newpk.Now())
    ensures Touched(up.name, old(up.os.files), old(up.os.trace), up.os.files, up.os.trace)
    ensures up.os.Onward() && (!ok ==> up.os.faults > old(up.os.faults))
    ensures Front(up.os.files[up.name]) == old(Front(up.os.files[up.name]))
    ensures ok ==>
              && closed.store.disk == up.os.files[up.name]
              && Written(up.cs, up.key, closed, UpdateView(ov, newpk.View()), all, |changed| + 1)
  {
    hide PackInv, Buffered, Stored, Cache, ReadHeader, Distinct, Data, Touched, SortedKeys, LexLe, UpdateView,
         Abstract, Fits, Elements, Picks, Restrict, Changed, Gone, PrintDeletions, Step, Unforged, Front, Moments,
         Written;
    ghost var f0, t0 := up.os.files, up.os.trace;
    closed := up.Now();
    ok := ShipAll(up, newpk, changed, deleted, ov, all);
    if !ok {
      return;
    }
    ghost var s2 := up.Now();
    ghost var f2, t2 := up.os.files, up.os.trace;
    ghost var op: Op;
    ok, op := up.Commit();
    TouchedTrans(up.name, f0, t0, f2, t2, up.os.files, up.os.trace);
    OtherUntouched(up.name, newpk.name, f2, t2, up.os.files, up.os.trace);
    StepFront(up.cs, up.key, s2, op, up.Now());
    if ok {
      closed := WrittenUpdate(up.cs, up.key, s2, up.Now(), op, all);
      FewerPathsWritten(up.cs, up.key, closed, UpdateView(ov, newpk.View()), all, |s2.index.paths|, |changed| + 1);
    }
  }

  lemma FewerPathsWritten(cs: Suite, key: bytes, c: PackState, v: View, all: set<bytes>, bound: nat, more: nat)
    requires Written(cs, key, c, v, all, bound) && bound <= more
    ensures Written(cs, key, c, v, all, more)
  {
    hide PackInv, LoadIndex, SnapView, Content, Unforged, SnapOk;
  }

  lemma ConcatPicks(a: seq<bytes>, b: seq<bytes>, s: set<bytes>, t: set<bytes>, now: map<bytes, PathEntry>)
    requires (forall k :: k in a <==> k in s) && (forall k :: k in b <==> k in t) && s !! t && s + t <= now.Keys
    requires forall i, j | 0 <= i < j < |a| :: a[i] != a[j]
    requires forall i, j | 0 <= i < j < |b| :: b[i] != b[j]
    ensures Picks(a + b, now)
  {
    forall i, j | 0 <= i < j < |a + b|
      ensures (a + b)[i] != (a + b)[j]
    {
      if i < |a| <= j {
        assert a[i] in s && b[j - |a|] in t;
      }
    }
    forall p | p in a + b
      ensures p in now
    {
      assert p in s || p in t;
    }
  }

  lemma ConcatElements(a: seq<bytes>, b: seq<bytes>, s: set<bytes>, t: set<bytes>)
    requires (forall k :: k in a <==> k in s) && (forall k :: k in b <==> k in t)
    ensures Elements(a + b, |a + b|) == s + t
  {
    assert (a + b)[..|a + b|] == a + b;
    assert forall k :: k in a + b <==> k in s || k in t;
  }

  /** What diff's lists say, in contents. */
  lemma Plan(cs: Suite, okey: bytes, o: PackState, nkey: bytes, n: PackState,
             added: seq<bytes>, modified: seq<bytes>, deleted: seq<bytes>)
    requires PackInv(cs, okey, o) && MemBounds(o.store) && PackInv(cs, nkey, n) && MemBounds(n.store)
    requires Distinct(cs, Traffic(cs, okey, o, nkey, n))
    requires added == SortedKeys(n.index.paths.Keys - o.index.paths.Keys)
    requires modified == SortedKeys(HashChanged(o.index.paths, n.index.paths))
    requires deleted == SortedKeys(o.index.paths.Keys - n.index.paths.Keys)
    ensures var ov, nv, changed := Buffered(cs, okey, o), Buffered(cs, nkey, n), added + modified;
            && Picks(changed, n.index.paths) && |changed| <= |n.index.paths|
            && Elements(changed, |changed|) == Changed(ov, nv) && deleted == SortedKeys(Gone(ov, nv))
            && Stored(cs, nkey, n) <= Traffic(cs, okey, o, nkey, n)
            && PrintDeletions(deleted) in Traffic(cs, okey, o, nkey, n)
  {
    hide PackInv, Buffered, Stored, Cache, Distinct, SortedKeys, LexLe, Changed, Gone, PrintDeletions, Picks, Elements;
    var s, t := n.index.paths.Keys - o.index.paths.Keys, HashChanged(o.index.paths, n.index.paths);
    DiffByContent(cs, okey, o, nkey, n, Traffic(cs, okey, o, nkey, n));
    ConcatPicks(added, modified, s, t, n.index.paths);
    ConcatElements(added, modified, s, t);
    ElementsCount(added + modified, |added + modified|, n.index.paths);
    SubsetSize(s + t, n.index.paths.Keys);
    assert |n.index.paths.Keys| == |n.index.paths|;
  }

  lemma {:induction false} ElementsCount(keys: seq<bytes>, i: nat, paths: map<bytes, PathEntry>)
    requires i <= |keys| && Picks(keys, paths)
    ensures |Elements(keys, i)| == i
  {
    hide Picks;
    if i == 0 {
      ElementsNone(keys);
    } else {
      ElementsStep(keys, i - 1, paths);
      ElementsCount(keys, i - 1, paths);
    }
  }

  /** The second random value drawn since is `salt`: the first is a created pack's master key. */
  ghost predicate Drew(drawn: seq<bytes>, drawn': seq<bytes>, salt: bytes) {
    drawn <= drawn' && |drawn| + 1 < |drawn'| && drawn'[|drawn| + 1] == salt
  }

  lemma DrewMore(a: seq<bytes>, b: seq<bytes>, c: seq<bytes>, salt: bytes)
    requires Drew(a, b, salt) && b <= c
    ensures Drew(a, c, salt)
  {
  }

  /** A new pack under a name that may be taken. */
  method CreateOver(os: System, out: Name, cs: Suite, password: bytes) returns (up: Pack?, ghost salt: bytes)
    modifies os
    ensures os.Onward() && (up == null ==> os.faults > old(os.faults))
    ensures os.files - {out} == old(os.files) - {out}
    ensures up != null ==>
              && fresh(up) && fresh(up.store) && up.os == os && up.name == out && up.cs == cs && up.Valid()
              && up.index == EMPTY && up.store.seqno == 1
              && up.store.live == Snapshot(1, Root(0, 0), [])
              && KeysAgree(cs, Cache(os.files[out]), password, up.key) && |Cache(os.files[out])| >= DATA_START
    ensures up != null ==>
              && Drew(old(os.drawn), os.drawn, salt)
              && (salt != Zeros(SALT) ==> Unlocks(cs, Cache(os.files[out]), password))
  {
    hide PackInv, Cache, Only, Touched, Abstract, KeysAgree, FreshSlots, Unlock, ReadHeader;
    ghost var f0 := os.files;
    var removed := os.Remove(out);
    ghost var f1, t1 := os.files, os.trace;
    ghost var nonce: bytes;
    up, salt, nonce := Pack.Create(os, out, cs, password);
    if up != null {
      TouchedOnly(out, f1, t1, os.files, os.trace);
      FreshHeader(cs, Cache(os.files[out]), DEFAULT_KDF, up.key, password, salt, nonce);
    }
    assert os.files - {out} == f0 - {out} by { SameRest(out, f0, f1, os.files); }
  }

  /** Under the name there is a finished update that the password opens with that key only. */
  ghost predicate Delivered(files: map<Name, Disk>, out: Name, cs: Suite, password: bytes, closed: PackState,
                            master: bytes, v: View, all: set<bytes>, bound: nat) {
    && out in files && closed.store.disk == files[out] && |master| == KEY
    && KeysAgree(cs, Cache(files[out]), password, master) && Written(cs, master, closed, v, all, bound)
  }

  /** Creates, fills, commits and closes the update pack. */
  method Produce(newpk: Pack, out: Name, password: bytes, changed: seq<bytes>, deleted: seq<bytes>, ghost ov: View,
                 ghost all: set<bytes>)
    returns (ok: bool, ghost closed: PackState, ghost master: bytes, ghost salt: bytes)
    requires newpk.Valid() && out != newpk.name
    requires Picks(changed, newpk.index.paths) && |changed| + 2 < U32_LIMIT && Fits(newpk.index)
    requires Elements(changed, |changed|) == Changed(ov, newpk.View()) && deleted == SortedKeys(Gone(ov, newpk.View()))
    requires Distinct(newpk.cs, all) && Stored(newpk.cs, newpk.key, newpk.Now()) <= all
             && PrintDeletions(deleted) in all
    modifies newpk.os, newpk`lastErr
    ensures newpk.Valid() && newpk.Now() == old(newpk.Now())
    ensures newpk.os.files - {out} == old(newpk.os.files) - {out}
    ensures newpk.os.Onward() && (!ok ==> newpk.os.faults > old(newpk.os.faults))
    ensures ok ==> Drew(old(newpk.os.drawn), newpk.os.drawn, salt)
    ensures ok ==> Delivered(newpk.os.files, out, newpk.cs, password, closed, master, UpdateView(ov, newpk.View()),
                             all, |changed| + 1)
    ensures ok && salt != Zeros(SALT) ==> Unlocks(newpk.cs, Cache(newpk.os.files[out]), password)
  {
    hide PackInv, Buffered, Stored, Cache, ReadHeader, Distinct, Data, SortedKeys, LexLe, UpdateView, Fits, Changed,
         Gone, Picks, Elements, Only, PrintDeletions, Touched, KeysAgree, Written, Front, Unlocks;
    ghost var f0 := newpk.os.files;
    closed, master := newpk.Now(), [];
    var up: Pack?;
    up, salt := CreateOver(newpk.os, out, newpk.cs, password);
    ghost var f1, t1 := newpk.os.files, newpk.os.trace;
    KeepFile(out, newpk.name, f0, f1);
    if up == null {
      return false, closed, master, salt;
    }
    ok, closed := FillUpdate(up, newpk, changed, deleted, ov, all);
    master := up.key;
    TouchedOnly(out, f1, t1, newpk.os.files, newpk.os.trace);
    TouchedHas(out, f1, t1, newpk.os.files, newpk.os.trace);
    SameRest(out, f0, f1, newpk.os.files);
    KeysKept(newpk.cs, f1[out], newpk.os.files[out], password, master);
  }

  /** What the diff command ships: the added and then the modified files, and the deleted names. */
  method ToShip(oldpk: Pack, newpk: Pack) returns (changed: seq<bytes>, deleted: seq<bytes>)
    requires oldpk.Valid() && newpk.Valid() && oldpk.cs == newpk.cs
    requires Distinct(oldpk.cs, Traffic(oldpk.cs, oldpk.key, oldpk.Now(), newpk.key, newpk.Now()))
    ensures Picks(changed, newpk.index.paths) && |changed| <= |newpk.index.paths|
    ensures Elements(changed, |changed|) == Changed(oldpk.View(), newpk.View())
    ensures deleted == SortedKeys(Gone(oldpk.View(), newpk.View()))
    ensures var all := Traffic(oldpk.cs, oldpk.key, oldpk.Now(), newpk.key, newpk.Now());
            Stored(newpk.cs, newpk.key, newpk.Now()) <= all && PrintDeletions(deleted) in all
  {
    hide PackInv, Buffered, Stored, Cache, ReadHeader, Distinct, Data, SortedKeys, LexLe, HashChanged, Changed, Gone,
         Picks, Elements, Traffic, PrintDeletions;
    var added: seq<bytes>, modified: seq<bytes>;
    added, modified, deleted := Diff(oldpk, newpk);
    Plan(oldpk.cs, oldpk.key, oldpk.Now(), newpk.key, newpk.Now(), added, modified, deleted);
    changed := added + modified;
  }

  /** The diff command with an output: a new pack holding the added and modified files and,
      if anything was deleted, the deletion list; committed and closed. */
  method BuildUpdate(oldpk: Pack, newpk: Pack, out: Name, password: bytes)
    returns (ok: bool, ghost closed: PackState, ghost master: bytes, ghost salt: bytes)
    requires oldpk.Valid() && newpk.Valid() && oldpk.os == newpk.os && oldpk.cs == newpk.cs
    requires out != oldpk.name && out != newpk.name
    requires Fits(newpk.index) && |newpk.index.paths| + 2 < U32_LIMIT
    requires Distinct(oldpk.cs, Traffic(oldpk.cs, oldpk.key, oldpk.Now(), newpk.key, newpk.Now()))
    modifies oldpk.os, newpk`lastErr
    ensures oldpk.os.files - {out} == old(oldpk.os.files) - {out}
    ensures oldpk.os.Onward() && (!ok ==> oldpk.os.faults > old(oldpk.os.faults))
    ensures ok ==> out in oldpk.os.files && Drew(old(oldpk.os.drawn), oldpk.os.drawn, salt)
    ensures ok && salt != Zeros(SALT) ==> Unlocks(oldpk.cs, Cache(oldpk.os.files[out]), password)
    ensures oldpk.Valid() && newpk.Valid() && oldpk.Now() == old(oldpk.Now()) && newpk.Now() == old(newpk.Now())
    ensures ok ==> Delivered(oldpk.os.files, out, oldpk.cs, password, closed, master,
                             UpdateView(oldpk.View(), newpk.View()),
                             Traffic(oldpk.cs, oldpk.key, oldpk.Now(), newpk.key, newpk.Now()), |newpk.index.paths| + 1)
  {
    hide PackInv, Buffered, Stored, Cache, ReadHeader, Distinct, Data, SortedKeys, LexLe, UpdateView, Fits,
         HashChanged, Changed, Gone, Picks, Elements, Traffic, PrintDeletions, Delivered, Unlocks, Drew;
    ghost var o, n, f0 := oldpk.Now(), newpk.Now(), oldpk.os.files;
    ghost var all := Traffic(oldpk.cs, oldpk.key, o, newpk.key, n);
    var changed, deleted := ToShip(oldpk, newpk);
    ok, closed, master, salt := Produce(newpk, out, password, changed, deleted, oldpk.View(), all);
    KeepFile(out, oldpk.name, f0, oldpk.os.files);
    if ok {
      DeliveredThere(oldpk.os.files, out, oldpk.cs, password, closed, master, UpdateView(oldpk.View(), newpk.View()),
                     all, |changed| + 1);
      FewerPathsDelivered(oldpk.os.files, out, oldpk.cs, password, closed, master,
                          UpdateView(oldpk.View(), newpk.View()), all, |changed| + 1, |n.index.paths| + 1);
    }
  }

  lemma DeliveredThere(files: map<Name, Disk>, out: Name, cs: Suite, password: bytes, closed: PackState,
                       master: bytes, v: View, all: set<bytes>, bound: nat)
    requires Delivered(files, out, cs, password, closed, master, v, all, bound)
    ensures out in files
  {
    hide KeysAgree, Written, Cache;
  }

  lemma FewerPathsDelivered(files: map<Name, Disk>, out: Name, cs: Suite, password: bytes, closed: PackState,
                            master: bytes, v: View, all: set<bytes>, bound: nat, more: nat)
    requires Delivered(files, out, cs, password, closed, master, v, all, bound) && bound <= more
    ensures Delivered(files, out, cs, password, closed, master, v, all, more)
  {
    hide KeysAgree, Written, Cache;
    FewerPathsWritten(cs, master, closed, v, all, bound, more);
  }

  lemma KeysKept(cs: Suite, d: Disk, d': Disk, password: bytes, master: bytes)
    requires |Cache(d)| >= DATA_START && KeysAgree(cs, Cache(d), password, master) && Front(d') == Front(d)
    ensures KeysAgree(cs, Cache(d'), password, master)
    ensures Unlocks(cs, Cache(d), password) ==> Unlocks(cs, Cache(d'), password)
  {
    hide Cache, KeysAgree, Unlocks;
    assert |Cache(d')| >= DATA_START by { assert |Front(d)| == SB_A_OFF; }
    SameFront(cs, Cache(d), Cache(d'), password, master);
    SameUnlocks(cs, Cache(d), Cache(d'), password);
  }

  /** Opens a finished update by its password: it is sound, and holds the update, or nothing if
      the newer superblock could not be read. */
  method OpenDelivered(os: System, out: Name, cs: Suite, password: bytes, ghost closed: PackState, ghost master: bytes,
                       ghost v: View, ghost all: set<bytes>, ghost bound: nat)
    returns (up: Pack?, ghost sighted: bool)
    requires Delivered(os.files, out, cs, password, closed, master, v, all, bound)
    modifies os`interrupts, os`faults
    ensures old(os.faults) <= os.faults
    ensures out in os.files && Unlocks(cs, Cache(os.files[out]), password) && os.faults == old(os.faults) ==>
              up != null && sighted
    ensures up != null ==>
              && fresh(up) && fresh(up.store) && up.os == os && up.name == out && up.cs == cs && up.Valid()
              && up.View() == (if sighted then v else map[])
              && Stored(cs, up.key, up.Now()) <= all && |up.index.paths| <= bound
  {
    hide PackInv, Buffered, Stored, Cache, KeysAgree, Written, Unforged, Step, ReadHeader, Accepts, Unlock, OpensAs,
         Behind;
    sighted := false;
    WrittenFacts(cs, master, closed, v, all, bound);
    ghost var readA: bool, readB: bool;
    up, readA, readB := Pack.Open(os, out, cs, password, closed, master);
    if up != null {
      OpenedUpdate(cs, master, closed, up.Now(), readA, readB, v, all, bound);
      sighted := up.store.seqno == 2;
    }
  }

  /** The receiving end: open a finished update by its password and merge it. */
  method Receive(target: Pack, out: Name, password: bytes, ghost closed: PackState, ghost master: bytes,
                 ghost v: View, ghost all: set<bytes>, ghost bound: nat)
    returns (ok: bool, ghost sighted: bool)
    requires target.Valid() && out != target.name && |target.index.paths| + bound + 1 < U32_LIMIT
    requires Delivered(target.os.files, out, target.cs, password, closed, master, v, all, bound)
    requires Distinct(target.cs, all) && Stored(target.cs, target.key, target.Now()) <= all
    modifies target`index, target`lastErr, target.store`fileSize, target.os
    ensures target.Valid()
    ensures Touched(target.name, old(target.os.files), old(target.os.trace), target.os.files, target.os.trace)
    ensures ok ==> target.View() == if sighted then MergeView(old(target.View()), v)
            else MergeView(old(target.View()), map[])
    ensures target.os.Onward()
    ensures target.os.faults == old(target.os.faults) ==>
              old(out in target.os.files && Unlocks(target.cs, Cache(target.os.files[out]), password)) ==> ok && sighted
  {
    hide PackInv, Buffered, Stored, Cache, ReadHeader, Distinct, Data, MergeView, Reuses, Restrict, Delivered, FilesOf,
         SortedKeys, LexLe, Walked, RoomFor, AllRoom, Touched, Unlocks;
    ghost var t := target.Now();
    TouchedRefl(target.name, target.os.files, target.os.trace);
    var up: Pack?;
    up, sighted := OpenDelivered(target.os, out, target.cs, password, closed, master, v, all, bound);
    if up == null {
      return false, sighted;
    }
    FewerStored(target.cs, all, Stored(target.cs, target.key, t), Stored(up.cs, up.key, up.Now()));
    ghost var upto: nat, run: seq<PackState>, ops: seq<Op>;
    ok, upto, run, ops := Merge(target, up);
  }

  /** The whole trip: write the update between two packs, open it by its password, and merge
      it into the old pack. The old pack then holds what the new one holds exactly if every
      deleted name can be carried on a line and the control file's name need not be shipped;
      unless the update's newer superblock could not be read, when nothing is merged. It could,
      and the whole trip succeeds, if no call fails and the salt drawn for the update's password
      is not the mark of an empty slot. */
  method Deploy(target: Pack, newpk: Pack, out: Name, password: bytes)
    returns (ok: bool, ghost sighted: bool, ghost salt: bytes)
    requires target.Valid() && newpk.Valid() && target != newpk && target.os == newpk.os && target.cs == newpk.cs
    requires target.store != newpk.store && target.name != newpk.name && out != target.name && out != newpk.name
    requires Fits(newpk.index) && |target.index.paths| + |newpk.index.paths| + 2 < U32_LIMIT
    requires Distinct(target.cs, Traffic(target.cs, target.key, target.Now(), newpk.key, newpk.Now()))
    modifies target`index, target`lastErr, target.store`fileSize, target.os, newpk`lastErr
    ensures target.Valid() && newpk.Valid() && newpk.Now() == old(newpk.Now())
    ensures ok && sighted ==> (target.View() == newpk.View() <==> Shippable(old(target.View()), old(newpk.View())))
    ensures ok && !sighted ==> target.View() == old(target.View())
    ensures target.os.Onward()
    ensures target.os.faults == old(target.os.faults) ==>
              Drew(old(target.os.drawn), target.os.drawn, salt) && (salt != Zeros(SALT) ==> ok && sighted)
  {
    hide PackInv, Buffered, Stored, Cache, ReadHeader, Distinct, Data, UpdateView, MergeView, Abstract, Fits, Traffic,
         Shippable, Reuses, Restrict, NormalKeys, Delivered, FilesOf, SortedKeys, LexLe, Walked, RoomFor, AllRoom,
         Touched, Unlocks, Drew;
    ghost var t, n := target.Now(), newpk.Now();
    ghost var d0 := target.os.drawn;
    ghost var closed: PackState, master: bytes;
    sighted := false;
    ok, closed, master, salt := BuildUpdate(target, newpk, out, password);
    if !ok {
      return;
    }
    ghost var v, all := UpdateView(target.View(), newpk.View()), Traffic(target.cs, target.key, t, newpk.key, n);
    ghost var d1, f1, t1 := target.os.drawn, target.os.files, target.os.trace;
    TrafficHas(target.cs, target.key, t, newpk.key, n);
    ok, sighted := Receive(target, out, password, closed, master, v, all, |n.index.paths| + 1);
    OtherUntouched(target.name, newpk.name, f1, t1, target.os.files, target.os.trace);
    DrewMore(d0, d1, target.os.drawn, salt);
    Deployed(target.cs, target.key, t, newpk.key, n);
  }

  /** What merging an update, or nothing, makes of a pack. */
  lemma Deployed(cs: Suite, okey: bytes, o: PackState, nkey: bytes, n: PackState)
    requires PackInv(cs, okey, o) && MemBounds(o.store) && PackInv(cs, nkey, n) && MemBounds(n.store)
    ensures var ov, nv := Buffered(cs, okey, o), Buffered(cs, nkey, n);
            && (MergeView(ov, UpdateView(ov, nv)) == nv <==> Shippable(ov, nv)) && MergeView(ov, map[]) == ov
  {
    hide PackInv, Buffered, UpdateView, MergeView, Shippable, NormalKeys;
    ViewKeys(cs, okey, o);
    ViewKeys(cs, nkey, n);
    DiffThenMerge(Buffered(cs, okey, o), Buffered(cs, nkey, n));
    MergeNothing(Buffered(cs, okey, o));
  }

  lemma WrittenFacts(cs: Suite, key: bytes, c: PackState, v: View, all: set<bytes>, bound: nat)
    requires Written(cs, key, c, v, all, bound)
    ensures PackInv(cs, key, c) && Unforged(cs, key, c.store) && c.store.mem.None?
  {
    hide PackInv, Unforged, Holding;
  }

  lemma MergeNothing(v: View)
    ensures MergeView(v, map[]) == v
  {
  }

  lemma TrafficHas(cs: Suite, okey: bytes, o: PackState, nkey: bytes, n: PackState)
    requires MemBounds(o.store) && MemBounds(n.store)
    ensures Stored(cs, okey, o) <= Traffic(cs, okey, o, nkey, n)
  {
    hide Stored, Buffered, PrintDeletions, SortedKeys, Gone;
  }

  lemma FewerStored(cs: Suite, all: set<bytes>, a: set<bytes>, b: set<bytes>)
    requires Distinct(cs, all) && a <= all && b <= all
    ensures Distinct(cs, a + b)
  {
  }
}
