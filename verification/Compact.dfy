/** `Pack::compact`: the live records go to a new file, which then takes the pack's name
    in one step. */
module Compact {
  import opened Bytes
  import opened Crypto
  import opened Disk
  import opened StoreModel
  import opened Os
  import opened Store
  import opened Keys
  import opened Order
  import opened Index
  import opened PackModel
  import opened PackRuns
  import opened Pack
  import opened Walks
  import opened Compaction

  const TMP_SUFFIX: bytes := [46, 99, 111, 109, 112, 97, 99, 116, 46, 116, 109, 112]  // ".compact.tmp"

  // ---- the file being built ----

  /** A created store that has not been committed to; `front` is its header and key slots. */
  ghost predicate Blank(cs: Suite, key: bytes, st: State, front: bytes) {
    && Inv(cs, key, st) && st.later == []
    && st.prev == Snapshot(0, Root(0, 0), []) && st.base == st.live == Snapshot(1, Root(0, 0), [])
    && MemBounds(st) && st.mem.value.fileSize == |Cache(st.disk)|
    && Cache(st.disk)[..SB_A_OFF] == front
  }

  lemma BlankBounds(cs: Suite, key: bytes, st: State, front: bytes)
    requires Blank(cs, key, st, front)
    ensures MemBounds(st) && |front| == SB_A_OFF && st.mem.value.seqno == 1
  {
    MemFacts(cs, key, st);
  }

  lemma BlankCreated(cs: Suite, key: bytes, kdf: Kdf, nonceA: bytes, nonceB: bytes)
    requires |nonceA| == |nonceB| == NONCE && ValidKdf(kdf)
    ensures var st := CreatedState(CreatedFile(cs, key, kdf, nonceA, nonceB));
            Blank(cs, key, st, Header(kdf) + Zeros(NUM_SLOTS * SLOT_SIZE)) && Data(st) == []
  {
    hide Inv, SbBlock, Header;
    CreatedInv(cs, key, kdf, nonceA, nonceB);
    var f := CreatedFile(cs, key, kdf, nonceA, nonceB);
    assert f[..SB_A_OFF] == Header(kdf) + Zeros(NUM_SLOTS * SLOT_SIZE);
  }

  lemma BlankSlot(cs: Suite, key: bytes, st: State, st': State, front: bytes, idx: nat, content: bytes)
    requires Blank(cs, key, st, front) && idx < NUM_SLOTS && |content| == SLOT_SIZE
    requires WriteSlotStep(st, st', idx, content, true)
    ensures Blank(cs, key, st', Splice(front, SlotOff(idx), content)) && Data(st') == Data(st)
  {
    hide Inv, Splice;
    WriteSlotInv(cs, key, st, st', idx, content, true);
    MemFacts(cs, key, st);
    FrontSplice(Cache(st.disk), SlotOff(idx), content);
  }

  lemma FrontSplice(f: bytes, off: nat, content: bytes)
    requires off + |content| <= SB_A_OFF <= |f|
    ensures Splice(f, off, content)[..SB_A_OFF] == Splice(f[..SB_A_OFF], off, content)
    ensures |Splice(f, off, content)| == |f|
  {
    SpliceAt(f, off, content);
    SpliceAt(f[..SB_A_OFF], off, content);
  }

  lemma {:induction false} BlankAppend(cs: Suite, key: bytes, st: State, st': State, front: bytes, rec: bytes, off: nat)
    requires Blank(cs, key, st, front) && AppendStep(st, st', rec, off) && off != 0
    ensures Blank(cs, key, st', front) && Data(st') == Data(st) + rec
    ensures off == DATA_START + |Data(st)|
  {
    hide Inv, Splice, Cache, Data;
    MemFacts(cs, key, st);
    AppendInv(cs, key, st, st', rec, off);
    AppendData(st, st', rec, off);
    Longer(st, st', rec, off);
  }

  lemma Longer(st: State, st': State, rec: bytes, off: nat)
    requires st.mem.Some? && st.mem.value.fileSize == |Cache(st.disk)| && AppendStep(st, st', rec, off) && off != 0
    requires |Cache(st.disk)| >= SB_A_OFF
    ensures Cache(st'.disk) == Cache(st.disk) + rec && st'.mem.value.fileSize == |Cache(st'.disk)|
    ensures st'.prev == st.prev && st'.base == st.base && st'.live == st.live && st'.later == st.later
    ensures Cache(st'.disk)[..SB_A_OFF] == Cache(st.disk)[..SB_A_OFF]
  {
    hide Splice, Cache;
    if rec != [] {
      IssuedAtEnd(st.disk, st'.disk, off, rec);
    }
  }

  // ---- only the new file is touched ----

  /** Nothing but `tmp` is, or ever was in between, different. */
  ghost predicate Aside(tmp: Name, files: map<Name, Disk>, trace: seq<map<Name, Disk>>,
                        files': map<Name, Disk>, trace': seq<map<Name, Disk>>) {
    files' - {tmp} == files - {tmp} && Only(trace, trace', files, tmp)
  }

  lemma AsideRemoved(tmp: Name, f0: map<Name, Disk>, t0: seq<map<Name, Disk>>,
                     f1: map<Name, Disk>, t1: seq<map<Name, Disk>>)
    requires (f1 == f0 || f1 == f0 - {tmp}) && Only(t0, t1, f0, tmp)
    ensures Aside(tmp, f0, t0, f1, t1)
  {
    hide Only;
  }

  lemma AsideTrans(tmp: Name, f0: map<Name, Disk>, t0: seq<map<Name, Disk>>,
                   f1: map<Name, Disk>, t1: seq<map<Name, Disk>>, f2: map<Name, Disk>, t2: seq<map<Name, Disk>>)
    requires Aside(tmp, f0, t0, f1, t1) && f2 - {tmp} == f1 - {tmp} && Only(t1, t2, f1, tmp)
    ensures Aside(tmp, f0, t0, f2, t2)
  {
    hide Only;
    OnlyTrans(t0, t1, t2, f0, f1, tmp);
  }

  lemma AsideTouched(tmp: Name, f0: map<Name, Disk>, t0: seq<map<Name, Disk>>,
                     f1: map<Name, Disk>, t1: seq<map<Name, Disk>>, f2: map<Name, Disk>, t2: seq<map<Name, Disk>>)
    requires Aside(tmp, f0, t0, f1, t1) && Touched(tmp, f1, t1, f2, t2)
    ensures Aside(tmp, f0, t0, f2, t2)
  {
    hide Only;
    TouchedOnly(tmp, f1, t1, f2, t2);
    OnlyTrans(t0, t1, t2, f0, f1, tmp);
  }

  lemma AsideKeeps(tmp: Name, name: Name, f0: map<Name, Disk>, t0: seq<map<Name, Disk>>,
                   f1: map<Name, Disk>, t1: seq<map<Name, Disk>>)
    requires Aside(tmp, f0, t0, f1, t1) && name != tmp && name in f0
    ensures name in f1 && f1[name] == f0[name]
    ensures forall i | |t0| <= i < |t1| ::
              name in t1[i] && t1[i][name] == f0[name] && t1[i] - {name, tmp} == f0 - {name, tmp}
  {
    KeepFile(tmp, name, f0, f1);
    forall i | |t0| <= i < |t1|
      ensures name in t1[i] && t1[i][name] == f0[name] && t1[i] - {name, tmp} == f0 - {name, tmp}
    {
      KeepFile(tmp, name, f0, t1[i]);
      assert t1[i] - {name, tmp} == t1[i] - {tmp} - {name};
      assert f0 - {name, tmp} == f0 - {tmp} - {name};
    }
  }

  // ---- key slots ----

  function SlotBytes(f: bytes, j: nat): (b: bytes)
    requires |f| >= SB_A_OFF && j < NUM_SLOTS
    ensures |b| == SLOT_SIZE
  {
    f[SlotOff(j)..SlotOff(j) + SLOT_SIZE]
  }

  /** What compaction carries over of slot j: nothing of an empty one, nor of one it could not read. */
  function Carried(was: bytes, j: nat, read: bool): bytes
    requires |was| >= SB_A_OFF && j < NUM_SLOTS
  {
    if read && !SlotOf(SlotBytes(was, j)).Empty() then SlotBytes(was, j) else Zeros(SLOT_SIZE)
  }

  /** The first slots hold what was carried over, the rest are still empty. */
  ghost predicate SlotsSoFar(was: bytes, f: bytes, seen: seq<bool>) {
    && |was| >= SB_A_OFF && |f| >= SB_A_OFF && |seen| <= NUM_SLOTS
    && forall j: nat | j < NUM_SLOTS ::
         SlotBytes(f, j) == if j < |seen| then Carried(was, j, seen[j]) else Zeros(SLOT_SIZE)
  }

  lemma NoSlotsYet(was: bytes, h: bytes)
    requires |was| >= SB_A_OFF && |h| == HEADER_SIZE
    ensures SlotsSoFar(was, h + Zeros(NUM_SLOTS * SLOT_SIZE), [])
  {
    var f := h + Zeros(NUM_SLOTS * SLOT_SIZE);
    forall j: nat | j < NUM_SLOTS
      ensures SlotBytes(f, j) == Zeros(SLOT_SIZE)
    {
      assert forall i | 0 <= i < SLOT_SIZE :: SlotBytes(f, j)[i] == 0;
    }
  }

  lemma SlotLeft(was: bytes, f: bytes, seen: seq<bool>, read: bool)
    requires SlotsSoFar(was, f, seen) && |seen| < NUM_SLOTS && Carried(was, |seen|, read) == Zeros(SLOT_SIZE)
    ensures SlotsSoFar(was, f, seen + [read])
  {
    hide SlotBytes, Carried;
  }

  lemma SlotCopied(was: bytes, f: bytes, seen: seq<bool>, content: bytes)
    requires SlotsSoFar(was, f, seen) && |seen| < NUM_SLOTS && content == Carried(was, |seen|, true)
             && |content| == SLOT_SIZE
    ensures var f' := Splice(f, SlotOff(|seen|), content);
            SlotsSoFar(was, f', seen + [true]) && f'[..HEADER_SIZE] == f[..HEADER_SIZE]
  {
    hide Splice, Carried;
    var n, f' := |seen|, Splice(f, SlotOff(|seen|), content);
    SpliceReads(f, SlotOff(n), content);
    SpliceKeeps(f, SlotOff(n), content, 0, HEADER_SIZE);
    forall j: nat | j < NUM_SLOTS && j != n
      ensures SlotBytes(f', j) == SlotBytes(f, j)
    {
      SpliceKeeps(f, SlotOff(n), content, SlotOff(j), SlotOff(j) + SLOT_SIZE);
    }
  }

  lemma ReadCarried(was: bytes, j: nat, s: KeySlot, read: bool)
    requires |was| >= SB_A_OFF && j < NUM_SLOTS && s.Sized()
    requires if read then s.Content() == SlotBytes(was, j) else s.Empty()
    ensures Carried(was, j, read) == if s.Empty() then Zeros(SLOT_SIZE) else s.Content()
  {
    if read {
      SameContent(s, SlotOf(SlotBytes(was, j)));
    }
  }

  /** A file keeps its contents while another one is being written. */
  lemma PackFrame(tmp: Name, name: Name, f0: map<Name, Disk>, t0: seq<map<Name, Disk>>, f1: map<Name, Disk>,
                  t1: seq<map<Name, Disk>>)
    requires Touched(tmp, f0, t0, f1, t1) && name != tmp && name in f0
    ensures name in f1 && f1[name] == f0[name]
  {
  }

  /** Every slot could be read. */
  ghost predicate AllSeen(seen: seq<bool>) {
    forall j: nat | j < |seen| :: seen[j]
  }

  lemma MoreSeen(seen: seq<bool>, read: bool)
    requires AllSeen(seen) && read
    ensures AllSeen(seen + [read])
  {
  }

  /** Carries over every key slot that can be read and is not empty. */
  method CopySlots(im: Pack, ns: Store, ghost front: bytes)
    returns (ok: bool, ghost seen: seq<bool>, ghost front': bytes)
    requires im.Valid() && ns.os == im.os && ns != im.store && ns.name != im.name && ns.Attached()
    requires Blank(im.cs, im.key, ns.Now(), front) && Data(ns.Now()) == []
    requires SlotsSoFar(Cache(im.os.files[im.name]), front, [])
    modifies ns`prev, ns`base, ns`later, im.os
    ensures im.Valid() && im.Now() == old(im.Now()) && ns.Attached()
    ensures Touched(ns.name, old(im.os.files), old(im.os.trace), im.os.files, im.os.trace)
    ensures im.os.Onward() && (!ok ==> im.os.faults > old(im.os.faults))
    ensures im.os.faults == old(im.os.faults) ==> AllSeen(seen)
    ensures ok ==> Blank(im.cs, im.key, ns.Now(), front') && Data(ns.Now()) == []
    ensures ok ==> |seen| == NUM_SLOTS && SlotsSoFar(Cache(im.os.files[im.name]), front', seen)
    ensures ok ==> front'[..HEADER_SIZE] == front[..HEADER_SIZE]
  {
    hide PackInv, Blank, Cache, ReadHeader, Data, SlotsSoFar, Touched, WriteSlotStep, Carried;
    ghost var f0, t0, was := im.os.files, im.os.trace, Cache(im.os.files[im.name]);
    TouchedRefl(ns.name, f0, t0);
    seen, front' := [], front;
    WideEnough(was, front, seen);
    var i := 0;
    while i < NUM_SLOTS
      invariant 0 <= i == |seen| <= NUM_SLOTS
      invariant im.Valid() && im.Now() == old(im.Now()) && ns.Attached()
      invariant Touched(ns.name, f0, t0, im.os.files, im.os.trace)
      invariant im.os.Onward() && (im.os.faults == old(im.os.faults) ==> AllSeen(seen))
      invariant Blank(im.cs, im.key, ns.Now(), front') && Data(ns.Now()) == []
      invariant |was| >= SB_A_OFF && |front'| >= SB_A_OFF
      invariant SlotsSoFar(was, front', seen) && front'[..HEADER_SIZE] == front[..HEADER_SIZE]
    {
      ghost var f1, t1, st := im.os.files, im.os.trace, ns.Now();
      var s, read := im.store.Slot(i);
      ReadCarried(was, i, s, read);
      if s.Empty() {
        SlotLeft(was, front', seen, read);
      } else {
        ok := ns.WriteSlot(i, s);
        PackFrame(ns.name, im.name, f1, t1, im.os.files, im.os.trace);
        TouchedTrans(ns.name, f0, t0, f1, t1, im.os.files, im.os.trace);
        if !ok {
          return;
        }
        BlankSlot(im.cs, im.key, st, ns.Now(), front', i, s.Content());
        SlotCopied(was, front', seen, s.Content());
        front' := Splice(front', SlotOff(i), s.Content());
      }
      if im.os.faults == old(im.os.faults) {
        MoreSeen(seen, read);
      }
      seen := seen + [read];
      i := i + 1;
    }
    ok := true;
  }

  lemma WideEnough(was: bytes, f: bytes, seen: seq<bool>)
    requires SlotsSoFar(was, f, seen)
    ensures |was| >= SB_A_OFF && |f| >= SB_A_OFF
  {
  }

  // ---- records ----

  lemma LiveStep(data: bytes, blobs: map<bytes, BlobRef>, keys: seq<bytes>, i: nat)
    requires i < |keys| && forall k | k in keys :: k in blobs
    ensures var k := keys[i];
            && k in blobs
            && LiveRecords(data, blobs, keys[..i + 1])
               == LiveRecords(data, blobs, keys[..i]) + (if blobs[k].refcount == 0 then [] else Record(data, blobs[k]))
            && (DATA_START + |LiveRecords(data, blobs, keys[..i + 1])| <= MAX_OFFSET ==>
                  LiveBlobs(data, blobs, keys[..i + 1])
                  == if blobs[k].refcount == 0 then LiveBlobs(data, blobs, keys[..i])
                     else
                       var off := DATA_START + |LiveRecords(data, blobs, keys[..i])|;
                       LiveBlobs(data, blobs, keys[..i])[k := blobs[k].(offset := off)])
  {
    hide Record;
    assert keys[..i + 1][..i] == keys[..i];
  }

  /** A record, read through the file. */
  lemma RecordRead(cs: Suite, key: bytes, s: PackState, h: bytes)
    requires PackInv(cs, key, s) && MemBounds(s.store) && h in s.index.blobs
    ensures var ref := s.index.blobs[h];
            && ref.encSize >= OVERHEAD && ref.offset + ref.encSize <= |Cache(s.store.disk)|
            && Record(Data(s.store), ref) == Cache(s.store.disk)[ref.offset..ref.offset + ref.encSize]
  {
    hide Inv, SnapsOk, Unseal, Cache;
    var ref := s.index.blobs[h];
    assert Sound(cs, key, Data(s.store), h, ref);
    InBounds(cs, key, Data(s.store), ref);
    SubSlice(Cache(s.store.disk), DATA_START, s.store.mem.value.fileSize, ref.offset, ref.offset + ref.encSize);
  }

  /** Copies one live record to the end of the new file. */
  method CopyRecord(im: Pack, ns: Store, ghost front: bytes, h: bytes) returns (off: u64)
    requires im.Valid() && ns.os == im.os && ns != im.store && ns.name != im.name && ns.Attached()
    requires Blank(im.cs, im.key, ns.Now(), front) && h in im.index.blobs
    modifies ns`fileSize, im.os
    ensures im.Valid() && im.Now() == old(im.Now()) && ns.Attached()
    ensures Touched(ns.name, old(im.os.files), old(im.os.trace), im.os.files, im.os.trace)
    ensures im.os.Onward() && (off == 0 ==> im.os.faults > old(im.os.faults))
    ensures off != 0 ==>
              && Blank(im.cs, im.key, ns.Now(), front)
              && Data(ns.Now()) == old(Data(ns.Now())) + Record(Data(im.store.Now()), im.index.blobs[h])
              && off == DATA_START + |old(Data(ns.Now()))| && DATA_START + |Data(ns.Now())| <= MAX_OFFSET
  {
    hide PackInv, Blank, Cache, ReadHeader, Data, Touched, Record, AppendStep;
    ghost var f0, t0, st := im.os.files, im.os.trace, ns.Now();
    TouchedRefl(ns.name, f0, t0);
    var ref := im.index.blobs[h];
    RecordRead(im.cs, im.key, im.Now(), h);
    var rec := im.store.ReadAt(ref.offset, ref.encSize);
    if rec.None? {
      return 0;
    }
    off := ns.Append(rec.value);
    PackFrame(ns.name, im.name, f0, t0, im.os.files, im.os.trace);
    if off != 0 {
      BlankAppend(im.cs, im.key, st, ns.Now(), front, rec.value, off);
      AppendEnd(st, ns.Now(), rec.value, off);
    }
  }

  lemma AppendEnd(st: State, st': State, rec: bytes, off: nat)
    requires st.mem.Some? && rec != [] && off != 0 && AppendStep(st, st', rec, off)
    ensures off + |rec| <= MAX_OFFSET
  {
  }

  /** Copies every live record; unused blobs are dropped. */
  method CopyBlobs(im: Pack, ns: Store, ghost front: bytes) returns (ok: bool, blobs: map<bytes, BlobRef>)
    requires im.Valid() && ns.os == im.os && ns != im.store && ns.name != im.name && ns.Attached()
    requires Blank(im.cs, im.key, ns.Now(), front) && Data(ns.Now()) == []
    modifies ns`fileSize, im.os
    ensures im.Valid() && im.Now() == old(im.Now()) && ns.Attached()
    ensures Touched(ns.name, old(im.os.files), old(im.os.trace), im.os.files, im.os.trace)
    ensures im.os.Onward() && (!ok ==> im.os.faults > old(im.os.faults))
    ensures ok ==>
              var data, keys := Data(im.store.Now()), SortedKeys(im.index.blobs.Keys);
              && Blank(im.cs, im.key, ns.Now(), front)
              && DATA_START + |LiveRecords(data, im.index.blobs, keys)| <= MAX_OFFSET
              && Data(ns.Now()) == LiveRecords(data, im.index.blobs, keys)
              && blobs == LiveBlobs(data, im.index.blobs, keys)
  {
    hide PackInv, Blank, Cache, ReadHeader, Data, Touched, Record, LiveRecords, LiveBlobs, SortedKeys, LexLe;
    ghost var f0, t0, data := im.os.files, im.os.trace, Data(im.store.Now());
    TouchedRefl(ns.name, f0, t0);
    var was, keys := im.index.blobs, SortedKeys(im.index.blobs.Keys);
    blobs := map[];
    var i := 0;
    NothingLive(data, was, keys[..0]);
    while i < |keys|
      invariant 0 <= i <= |keys|
      invariant im.Valid() && im.Now() == old(im.Now()) && ns.Attached()
      invariant Touched(ns.name, f0, t0, im.os.files, im.os.trace)
      invariant im.os.Onward()
      invariant Blank(im.cs, im.key, ns.Now(), front) && Data(ns.Now()) == LiveRecords(data, was, keys[..i])
      invariant DATA_START + |LiveRecords(data, was, keys[..i])| <= MAX_OFFSET
                && blobs == LiveBlobs(data, was, keys[..i])
    {
      ghost var f1, t1 := im.os.files, im.os.trace;
      LiveStep(data, was, keys, i);
      var ref := was[keys[i]];
      if ref.refcount != 0 {
        var off := CopyRecord(im, ns, front, keys[i]);
        TouchedTrans(ns.name, f0, t0, f1, t1, im.os.files, im.os.trace);
        if off == 0 {
          return false, blobs;
        }
        blobs := blobs[keys[i] := ref.(offset := off)];
      }
      i := i + 1;
    }
    assert keys[..i] == keys;
    ok := true;
  }

  lemma NothingLive(data: bytes, blobs: map<bytes, BlobRef>, keys: seq<bytes>)
    requires keys == []
    ensures LiveRecords(data, blobs, keys) == [] && LiveBlobs(data, blobs, keys) == map[]
  {
  }

  /** Of the given keys, exactly those whose blobs are there. */
  ghost predicate PathsSoFar(paths: map<bytes, PathEntry>, blobs: map<bytes, BlobRef>, keys: seq<bytes>,
                             r: map<bytes, PathEntry>) {
    && (forall p :: p in r <==> p in keys && p in paths && paths[p].hash in blobs)
    && forall p | p in r :: r[p] == paths[p]
  }

  lemma NoPathsYet(paths: map<bytes, PathEntry>, blobs: map<bytes, BlobRef>, keys: seq<bytes>)
    requires keys == []
    ensures PathsSoFar(paths, blobs, keys, map[])
  {
  }

  lemma PathsStep(paths: map<bytes, PathEntry>, blobs: map<bytes, BlobRef>, keys: seq<bytes>, i: nat,
                  r: map<bytes, PathEntry>)
    requires i < |keys| && keys[i] in paths && PathsSoFar(paths, blobs, keys[..i], r)
    ensures var k := keys[i];
            PathsSoFar(paths, blobs, keys[..i + 1], if paths[k].hash in blobs then r[k := paths[k]] else r)
  {
    assert keys[..i + 1] == keys[..i] + [keys[i]];
  }

  lemma AllPaths(paths: map<bytes, PathEntry>, blobs: map<bytes, BlobRef>, keys: seq<bytes>, r: map<bytes, PathEntry>)
    requires PathsSoFar(paths, blobs, keys, r) && forall p | p in paths :: p in keys
    ensures r == CompactPaths(paths, blobs)
  {
  }

  /** Copies the paths whose blobs were copied. */
  method CopyPaths(paths: map<bytes, PathEntry>, blobs: map<bytes, BlobRef>) returns (r: map<bytes, PathEntry>)
    ensures r == CompactPaths(paths, blobs)
  {
    hide SortedKeys, LexLe, PathsSoFar, CompactPaths;
    r := map[];
    var keys := SortedKeys(paths.Keys);
    var i := 0;
    assert PathsSoFar(paths, blobs, keys[..0], r) by { NoPathsYet(paths, blobs, keys[..0]); }
    while i < |keys|
      invariant 0 <= i <= |keys| && PathsSoFar(paths, blobs, keys[..i], r)
    {
      var k := keys[i];
      PathsStep(paths, blobs, keys, i, r);
      if paths[k].hash in blobs {
        r := r[k := paths[k]];
      }
      i := i + 1;
    }
    assert keys[..i] == keys;
    AllPaths(paths, blobs, keys, r);
  }

  // ---- the finished file ----

  /** At most the first n bytes. */
  function Take(b: bytes, n: nat): bytes { if n <= |b| then b[..n] else b }

  /** The new file: durable, with the live records of `s` and nothing else in front of the
      manifest, and meaning what is buffered in `s`. */
  ghost predicate Replaces(cs: Suite, key: bytes, kdf: Kdf, s: PackState, n: PackState, seen: seq<bool>)
    requires MemBounds(s.store)
  {
    var keys, size := SortedKeys(s.index.blobs.Keys), LiveSize(s.index.blobs, SortedKeys(s.index.blobs.Keys));
    && PackInv(cs, key, n) && MemBounds(n.store) && n.store.disk.pending == [] && n.store.later == []
    && SnapView(cs, key, n.store.prev) == map[]
    && SnapView(cs, key, n.store.base) == Buffered(cs, key, n) == Buffered(cs, key, s)
    && n.index.paths == s.index.paths
    && |n.store.disk.durable| == n.store.mem.value.fileSize == DATA_START + size + OVERHEAD + |Serialize(n.index)|
    && Copied(Data(s.store), s.index.blobs, keys, Take(Data(n.store), size), n.index.blobs)
    && ReadHeader(n.store.disk.durable) == Some(kdf)
    && |seen| == NUM_SLOTS && SlotsSoFar(Cache(s.store.disk), n.store.disk.durable, seen)
  }

  lemma PrefixSlice(f: bytes, n: nat, lo: nat, hi: nat)
    requires lo <= hi <= n <= |f|
    ensures f[..n][lo..hi] == f[lo..hi]
  {
  }

  lemma SameSlots(was: bytes, front: bytes, f: bytes, seen: seq<bool>)
    requires SlotsSoFar(was, front, seen) && |f| >= SB_A_OFF && f[..SB_A_OFF] == front
    ensures SlotsSoFar(was, f, seen)
  {
    forall j: nat | j < NUM_SLOTS
      ensures SlotBytes(f, j) == SlotBytes(front, j)
    {
      PrefixSlice(f, SB_A_OFF, SlotOff(j), SlotOff(j) + SLOT_SIZE);
    }
  }

  /** The bytes of the file that committing the manifest produces. */
  lemma {:induction false} FlushedFile(cs: Suite, key: bytes, st: State, front: bytes, idx: Index, st': State,
                                       nonceM: bytes, nonceS: bytes)
    requires Blank(cs, key, st, front) && |nonceM| == |nonceS| == NONCE
    requires MemBounds(st) && st.mem.value.seqno == 1
    requires CommitOp(cs, key, PackState(st, idx), PackState(st', idx), nonceM, nonceS, Reached(Done))
    ensures st'.disk.pending == [] && MemBounds(st')
    ensures Data(st') == Data(st) + Seal(cs, key, nonceM, Serialize(idx))
    ensures st'.disk.durable[..SB_A_OFF] == front && |st'.disk.durable| == st'.mem.value.fileSize
  {
    hide Seal, Serialize, Splice, AppendStep, SbBlock, Cache, Data, Inv;
    var rec := Seal(cs, key, nonceM, Serialize(idx));
    var mid: State :| Flushed(cs, key, st, mid, st', rec, nonceS, Done);
    var off := st.mem.value.fileSize;
    BlankAppend(cs, key, st, mid, front, rec, off);
    AppendSeq(st, mid, rec, off);
    CommitData(cs, key, mid, st', Root(off, |rec|), nonceS, Done);
    BlankDone(cs, key, mid, front, st', Root(off, |rec|), nonceS);
  }

  lemma BlankDone(cs: Suite, key: bytes, mid: State, front: bytes, st': State, root: Root, nonce: bytes)
    requires Blank(cs, key, mid, front) && mid.mem.value.seqno == 1 && |nonce| == NONCE
    requires CommitStep(cs, key, mid, st', root, nonce, Done)
    ensures st'.disk.pending == [] && |st'.disk.durable| == st'.mem.value.fileSize
            && st'.disk.durable[..SB_A_OFF] == front
  {
    hide Inv, SbBlock, Splice;
    var f, pos, block := Cache(mid.disk), mid.mem.value.active.Other().Off(), SbBlock(cs, key, nonce, 2, root);
    SbRoundTrip(cs, key, nonce, 2, root);
    assert f[0..SB_A_OFF] == front;
    SpliceKeeps(f, pos, block, 0, SB_A_OFF);
    assert st'.disk.durable[..SB_A_OFF] == st'.disk.durable[0..SB_A_OFF];
  }

  lemma FewerFit(s: Index, n: Index)
    requires Fits(s) && n.blobs.Keys <= s.blobs.Keys && n.paths == s.paths
    ensures Fits(n)
  {
    SubsetSize(n.blobs.Keys, s.blobs.Keys);
    assert |n.blobs.Keys| == |n.blobs| && |s.blobs.Keys| == |s.blobs|;
  }

  lemma BlankInv(cs: Suite, key: bytes, st: State, front: bytes, idx: Index)
    requires Blank(cs, key, st, front) && MemBounds(st) && IndexInv(cs, key, Data(st), idx)
    ensures PackInv(cs, key, PackState(st, idx))
  {
    hide Inv, Cache, Data;
  }

  /** Committing the new index over the copied records commits what it means. */
  lemma {:induction false} FinishedMeaning(cs: Suite, key: bytes, st: State, front: bytes, idx: Index, st': State,
                                           nonceM: bytes, nonceS: bytes)
    requires Blank(cs, key, st, front) && MemBounds(st) && IndexInv(cs, key, Data(st), idx) && Fits(idx)
    requires |nonceM| == |nonceS| == NONCE && st.mem.value.seqno == 1
    requires CommitOp(cs, key, PackState(st, idx), PackState(st', idx), nonceM, nonceS, Reached(Done))
    ensures var n := PackState(st', idx);
            && PackInv(cs, key, n) && MemBounds(st') && st'.disk.pending == [] && st'.later == []
            && SnapView(cs, key, st'.prev) == map[]
            && SnapView(cs, key, st'.base) == Buffered(cs, key, n) == Contents(cs, key, Data(st), idx)
  {
    hide Inv, Blank, CommitOp, IndexInv, Contents, Cache, Data, SnapView, Fits, SnapsOk, PackInv, Unforged;
    BlankLive(cs, key, st, front);
    var s, n := PackState(st, idx), PackState(st', idx);
    BlankInv(cs, key, st, front, idx);
    DoneIsSynced(cs, key, s, n, nonceM, nonceS);
    SyncedUnforged(cs, key, st');
    CommitMeaning(cs, key, s, n, nonceM, nonceS, Reached(Done));
  }

  /** What a created store stands on means nothing yet. */
  lemma BlankLive(cs: Suite, key: bytes, st: State, front: bytes)
    requires Blank(cs, key, st, front)
    ensures SnapView(cs, key, st.live) == map[]
  {
    hide Inv, Cache;
  }

  lemma {:induction false} Finished(cs: Suite, key: bytes, kdf: Kdf, s: PackState, st: State, front: bytes, idx: Index,
                                    st': State, nonceM: bytes, nonceS: bytes, seen: seq<bool>)
    requires PackInv(cs, key, s) && MemBounds(s.store) && Fits(s.index)
    requires Blank(cs, key, st, front) && MemBounds(st) && st.mem.value.seqno == 1 && |front| == SB_A_OFF
    requires var data, keys := Data(s.store), SortedKeys(s.index.blobs.Keys);
             && DATA_START + |LiveRecords(data, s.index.blobs, keys)| <= MAX_OFFSET
             && Data(st) == LiveRecords(data, s.index.blobs, keys)
             && idx.blobs == LiveBlobs(data, s.index.blobs, keys) && idx.paths == CompactPaths(s.index.paths, idx.blobs)
    requires |nonceM| == |nonceS| == NONCE
    requires CommitOp(cs, key, PackState(st, idx), PackState(st', idx), nonceM, nonceS, Reached(Done))
    requires ValidKdf(kdf) && front[..HEADER_SIZE] == Header(kdf)
    requires |seen| == NUM_SLOTS && SlotsSoFar(Cache(s.store.disk), front, seen)
    ensures Replaces(cs, key, kdf, s, PackState(st', idx), seen)
  {
    hide Inv, Blank, CommitOp, IndexInv, Contents, Cache, Data, SnapView, Fits, SnapsOk, Seal, Serialize, LiveRecords,
         LiveBlobs, SortedKeys, LexLe, Copied, CompactPaths, SlotsSoFar, Header, ReadHeader, LiveSize;
    var data, keys := Data(s.store), SortedKeys(s.index.blobs.Keys);
    CompactSound(cs, key, data, s.index);
    CopiedKeys(data, s.index.blobs, keys, Data(st), idx.blobs);
    FewerFit(s.index, idx);
    FinishedMeaning(cs, key, st, front, idx, st', nonceM, nonceS);
    FlushedFile(cs, key, st, front, idx, st', nonceM, nonceS);
    SealThenUnseal(cs, key, nonceM, Serialize(idx));
    assert Data(st')[..|Data(st)|] == Data(st);
    assert st'.disk.durable[..HEADER_SIZE] == front[..HEADER_SIZE];
    HeaderRoundTrip(kdf, st'.disk.durable);
    SameSlots(Cache(s.store.disk), front, st'.disk.durable, seen);
    DataSize(st');
  }

  lemma DataSize(st: State)
    requires MemBounds(st)
    ensures |Data(st)| == st.mem.value.fileSize - DATA_START
  {
  }

  lemma CopiedKeys(data: bytes, blobs: map<bytes, BlobRef>, keys: seq<bytes>, data': bytes, blobs': map<bytes, BlobRef>)
    requires (forall k :: k in keys <==> k in blobs) && Copied(data, blobs, keys, data', blobs')
    ensures blobs'.Keys <= blobs.Keys
  {
    hide Record, Disjoint, LiveSize;
  }

  /** Fills a created file with the pack's slots, live records and manifest, and commits it. */
  method FillReplacement(im: Pack, ns: Store, ghost front: bytes) returns (ok: bool, idx: Index, ghost seen: seq<bool>)
    requires im.Valid() && Fits(im.index)
    requires ns.os == im.os && ns != im.store && ns.name != im.name && ns.cs == im.cs && ns.Attached()
    requires Blank(im.cs, im.key, ns.Now(), front) && Data(ns.Now()) == [] && |front| == SB_A_OFF
    requires front[..HEADER_SIZE] == Header(im.store.kdf) && SlotsSoFar(Cache(im.os.files[im.name]), front, [])
    modifies ns, im.os
    ensures im.Valid() && im.Now() == old(im.Now()) && ns.Attached()
    ensures Touched(ns.name, old(im.os.files), old(im.os.trace), im.os.files, im.os.trace)
    ensures im.os.Onward() && (!ok ==> im.os.faults > old(im.os.faults))
    ensures im.os.faults == old(im.os.faults) ==> AllSeen(seen)
    ensures ok ==> Replaces(im.cs, im.key, im.store.kdf, im.Now(), PackState(ns.Now(), idx), seen)
  {
    hide PackInv, Blank, Cache, ReadHeader, Data, SlotsSoFar, Touched, LiveRecords, LiveBlobs, SortedKeys, LexLe,
         Replaces, Header, CommitOp, Fits, CompactPaths, Serialize;
    ghost var f0, t0, s := im.os.files, im.os.trace, im.Now();
    idx := EMPTY;
    ghost var front': bytes;
    ok, seen, front' := CopySlots(im, ns, front);
    if !ok {
      return;
    }
    ghost var f1, t1 := im.os.files, im.os.trace;
    var blobs: map<bytes, BlobRef>;
    ok, blobs := CopyBlobs(im, ns, front');
    TouchedTrans(ns.name, f0, t0, f1, t1, im.os.files, im.os.trace);
    if !ok {
      return;
    }
    ghost var st := ns.Now();
    BlankBounds(im.cs, im.key, st, front');
    var paths := CopyPaths(im.index.paths, blobs);
    idx := Index(blobs, paths);
    ghost var f2, t2 := im.os.files, im.os.trace;
    ghost var nonceM: bytes, nonceS: bytes, outcome: Outcome;
    ok, nonceM, nonceS, outcome := FlushManifest(ns, im.key, idx);
    PackFrame(ns.name, im.name, f2, t2, im.os.files, im.os.trace);
    TouchedTrans(ns.name, f0, t0, f2, t2, im.os.files, im.os.trace);
    if ok {
      Finished(im.cs, im.key, im.store.kdf, s, st, front', idx, ns.Now(), nonceM, nonceS, seen);
    }
  }

  /** Everything up to the replacing: a finished, durable file under the temporary name, or null. */
  method BuildReplacement(im: Pack, tmp: Name) returns (ns: Store?, idx: Index, ghost seen: seq<bool>)
    requires im.Valid() && Fits(im.index) && tmp != im.name
    modifies im.os
    ensures im.Valid() && im.Now() == old(im.Now())
    ensures Aside(tmp, old(im.os.files), old(im.os.trace), im.os.files, im.os.trace)
    ensures im.os.Onward() && (ns == null ==> im.os.faults > old(im.os.faults))
    ensures im.os.faults == old(im.os.faults) ==> AllSeen(seen)
    ensures ns != null ==>
              && fresh(ns) && ns.os == im.os && ns.name == tmp && ns.cs == im.cs && ns.Attached()
              && Replaces(im.cs, im.key, im.store.kdf, im.Now(), PackState(ns.Now(), idx), seen)
  {
    hide PackInv, Blank, Cache, ReadHeader, Data, SlotsSoFar, Touched, Only, Aside, Replaces, Header, CreatedFile, Fits;
    idx, seen := EMPTY, [];
    ghost var f0, t0 := im.os.files, im.os.trace;
    var removed := im.os.Remove(tmp);
    AsideRemoved(tmp, f0, t0, im.os.files, im.os.trace);
    AsideKeeps(tmp, im.name, f0, t0, im.os.files, im.os.trace);
    ghost var f1, t1 := im.os.files, im.os.trace;
    ghost var nonceA: bytes, nonceB: bytes;
    ns, nonceA, nonceB := Store.Create(im.os, tmp, im.cs, im.key, im.store.kdf);
    if ns == null {
      AsideTrans(tmp, f0, t0, f1, t1, im.os.files, im.os.trace);
      AsideKeeps(tmp, im.name, f0, t0, im.os.files, im.os.trace);
      return;
    }
    ghost var f2, t2 := im.os.files, im.os.trace;
    AsideTouched(tmp, f0, t0, f1, t1, f2, t2);
    AsideKeeps(tmp, im.name, f0, t0, f2, t2);
    TouchedHas(tmp, f1, t1, f2, t2);
    ghost var front := Header(im.store.kdf) + Zeros(NUM_SLOTS * SLOT_SIZE);
    BlankCreated(im.cs, im.key, im.store.kdf, nonceA, nonceB);
    BlankBounds(im.cs, im.key, ns.Now(), front);
    assert front[..HEADER_SIZE] == Header(im.store.kdf);
    assert |Cache(im.os.files[im.name])| >= SB_A_OFF;
    NoSlotsYet(Cache(im.os.files[im.name]), Header(im.store.kdf));
    var ok: bool;
    ok, idx, seen := FillReplacement(im, ns, front);
    AsideTouched(tmp, f0, t0, f2, t2, im.os.files, im.os.trace);
    if !ok {
      ns := null;
    }
  }

  // ---- replacing the old file ----

  /** Opens the file again, to go with an index that is in memory already. */
  method Reopen(im: Pack, ghost s: PackState) returns (st: Store?, ghost readA: bool, ghost readB: bool)
    requires im.name in im.os.files && s.store.disk == im.os.files[im.name]
    requires PackInv(im.cs, im.key, s) && MemBounds(s.store) && Unforged(im.cs, im.key, s.store)
    modifies im.os`interrupts, im.os`faults
    ensures st != null ==>
              && fresh(st) && st.os == im.os && st.name == im.name && st.cs == im.cs && ValidKdf(st.kdf)
              && st.Attached()
              && OpenAnyStep(im.cs, im.key, CloseState(s.store), st.Now(), readA, readB)
              && Buffered(im.cs, im.key, PackState(st.Now(), s.index)) == Buffered(im.cs, im.key, s)
              && PackInv(im.cs, im.key, PackState(st.Now(), s.index))
              && ReadHeader(Cache(im.os.files[im.name])) == Some(st.kdf)
    ensures old(im.os.faults) <= im.os.faults
    ensures im.os.faults == old(im.os.faults) ==> st != null && !Behind(st.Now())
  {
    hide PackInv, Unforged, OpenAnyStep, Buffered, ReadHeader, Cache, OpenImage, Behind;
    ghost var faults := im.os.faults;
    StoreOf(im.cs, im.key, true, s);
    CloseInv(im.cs, im.key, s.store);
    SameForgery(im.cs, im.key, s.store, CloseState(s.store));
    st, readA, readB := Store.Open(im.os, im.name, im.cs, im.key, CloseState(s.store));
    HeaderIsValid(Cache(im.os.files[im.name]));
    if st != null {
      ReopenRefines(im.cs, im.key, s, PackState(st.Now(), s.index), readA, readB);
      if im.os.faults == faults {
        NewestNotBehind(im.cs, im.key, CloseState(s.store), st.Now(), readA, readB);
      }
    }
  }

  lemma Compacted(cs: Suite, key: bytes, kdf: Kdf, s: PackState, n: PackState, seen: seq<bool>, s': PackState,
                  synced: bool, readA: bool, readB: bool)
    requires MemBounds(s.store) && Replaces(cs, key, kdf, s, n, seen)
    requires Reopened(cs, key, n.store, s'.store, readA, readB)
    requires s'.index == if s'.store.mem.Some? then n.index else s.index
    ensures Step(cs, key, s, Op.Compact(s'.store.mem.Some?, true, synced, readA, readB), s')
  {
    hide PackInv, Buffered, Reopened, Copied, Cache, Data, SlotsSoFar, ReadHeader, Serialize, SnapView, SortedKeys,
         LiveSize;
    assert Replacement(cs, key, s, n);
  }

  lemma NotReplaced(cs: Suite, key: bytes, s: PackState, s': PackState, readA: bool, readB: bool)
    requires MemBounds(s.store)
    requires s'.index == s.index && (s'.store == s.store || Reopened(cs, key, s.store, s'.store, readA, readB))
    ensures Step(cs, key, s, Op.Compact(false, false, false, readA, readB), s')
  {
    hide PackInv, Reopened, Buffered, SnapView, Cache;
  }

  lemma ReplacesFacts(cs: Suite, key: bytes, kdf: Kdf, s: PackState, n: PackState, seen: seq<bool>)
    requires MemBounds(s.store) && Replaces(cs, key, kdf, s, n, seen)
    ensures PackInv(cs, key, n) && MemBounds(n.store) && Unforged(cs, key, n.store)
    ensures n.store.disk.pending == [] && n.store.later == []
    ensures Buffered(cs, key, n) == Buffered(cs, key, s) == SnapView(cs, key, n.store.base)
    ensures SnapView(cs, key, n.store.prev) == map[]
  {
    hide PackInv, Buffered, Copied, Cache, Data, SlotsSoFar, ReadHeader, Serialize, SnapView, SortedKeys, LiveSize,
         Unforged;
    SyncedUnforged(cs, key, n.store);
  }

  /** Under `name` there is the old file, as it was, or the finished new one, and no other
      file but the temporary one is touched. */
  ghost predicate OldOrNew(name: Name, tmp: Name, was: map<Name, Disk>, made: Option<Disk>, files: map<Name, Disk>)
    requires name in was
  {
    && name in files && (files[name] == was[name] || Some(files[name]) == made)
    && files - {name, tmp} == was - {name, tmp}
  }

  lemma Renamed(name: Name, tmp: Name, f0: map<Name, Disk>, f1: map<Name, Disk>, f2: map<Name, Disk>)
    requires name != tmp && name in f0 && tmp in f1 && f1 - {tmp} == f0 - {tmp} && f2 == f1[name := f1[tmp]] - {tmp}
    ensures name in f2 && f2[name] == f1[tmp] && f2 - {name, tmp} == f0 - {name, tmp}
  {
    assert f2 - {name, tmp} == f1 - {tmp} - {name};
    assert f0 - {name, tmp} == f0 - {tmp} - {name};
  }

  lemma SideFile(name: Name, tmp: Name, f0: map<Name, Disk>, f: map<Name, Disk>)
    requires f - {tmp} == f0 - {tmp} && name != tmp && name in f0
    ensures OldOrNew(name, tmp, f0, None, f)
  {
    KeepFile(tmp, name, f0, f);
    assert f - {name, tmp} == f - {tmp} - {name};
    assert f0 - {name, tmp} == f0 - {tmp} - {name};
  }

  function TmpName(name: Name): (tmp: Name)
    ensures tmp != name
  {
    name + TMP_SUFFIX
  }

  /** The replacing failed: the temporary file goes, and the pack's own is opened again. */
  method GiveUp(im: Pack, tmp: Name, ghost s: PackState, ghost f0: map<Name, Disk>, ghost t0: seq<map<Name, Disk>>)
    returns (ghost readA: bool, ghost readB: bool, ghost after: PackState)
    requires tmp != im.name && im.name in f0 && f0[im.name] == s.store.disk && s.index == im.index
    requires |im.key| == KEY && im.openedSlot < NUM_SLOTS
    requires PackInv(im.cs, im.key, s) && MemBounds(s.store) && Unforged(im.cs, im.key, s.store)
    requires Aside(tmp, f0, t0, im.os.files, im.os.trace)
    modifies im`store, im`lastErr, im.os
    ensures t0 <= im.os.trace && OldOrNew(im.name, tmp, f0, None, im.os.files)
    ensures forall i | |t0| <= i < |im.os.trace| :: OldOrNew(im.name, tmp, f0, None, im.os.trace[i])
    ensures im.lastErr == ErrIo
    ensures im.os.Onward() && (tmp in im.os.files ==> im.os.faults > old(im.os.faults))
    ensures if im.store != null then Carries(im, s, after) else after == PackState(CloseState(s.store), s.index)
    ensures Step(im.cs, im.key, s, Op.Compact(false, false, false, readA, readB), after)
  {
    hide PackInv, Buffered, Cache, ReadHeader, Unforged, Aside, Step, OpenAnyStep;
    ghost var f1, t1 := im.os.files, im.os.trace;
    var removed := im.os.Remove(tmp);
    AsideRest(tmp, im.name, f0, t0, f1, t1, im.os.files, im.os.trace);
    im.lastErr := ErrIo;
    var st: Store?;
    st, readA, readB := Reopen(im, s);
    im.store := st;
    after := if st == null then PackState(CloseState(s.store), s.index) else PackState(st.Now(), s.index);
    NotReplaced(im.cs, im.key, s, after, readA, readB);
  }

  /** The pack is open and valid in state `after`, and holds what `s` held. */
  ghost predicate Carries(im: Pack, s: PackState, after: PackState)
    reads im, im.store, im.os
    requires MemBounds(s.store)
  {
    im.Valid() && im.Now() == after && im.View() == Buffered(im.cs, im.key, s)
  }

  /** The replacing succeeded: the new file is opened to go with its index. */
  method TakeOver(im: Pack, idx: Index, ghost kdf: Kdf, ghost s: PackState, ghost n: PackState, ghost seen: seq<bool>,
                  ghost synced: bool)
    returns (ok: bool, ghost readA: bool, ghost readB: bool, ghost after: PackState)
    requires im.name in im.os.files && im.os.files[im.name] == n.store.disk && s.index == im.index && n.index == idx
    requires |im.key| == KEY && im.openedSlot < NUM_SLOTS
    requires MemBounds(s.store) && Replaces(im.cs, im.key, kdf, s, n, seen)
    modifies im`store, im`index, im`lastErr, im.os`interrupts, im.os`faults
    ensures (ok <==> im.store != null) && im.lastErr == if ok then Ok else ErrIo
    ensures im.index == if ok then n.index else old(im.index)
    ensures if ok then Carries(im, s, after) else after == PackState(CloseState(n.store), s.index)
    ensures Step(im.cs, im.key, s, Op.Compact(ok, true, synced, readA, readB), after)
    ensures old(im.os.faults) <= im.os.faults && (im.os.faults == old(im.os.faults) ==> ok && !Behind(after.store))
  {
    hide PackInv, Buffered, Cache, ReadHeader, Replaces, Unforged, Behind, Step, OpenAnyStep, SnapView;
    ReplacesFacts(im.cs, im.key, kdf, s, n, seen);
    var st: Store?;
    st, readA, readB := Reopen(im, n);
    im.store := st;
    ok := st != null;
    if ok {
      im.index := idx;
    }
    im.lastErr := if ok then Ok else ErrIo;
    after := if st == null then PackState(CloseState(n.store), s.index) else PackState(st.Now(), idx);
    Compacted(im.cs, im.key, kdf, s, n, seen, after, synced, readA, readB);
  }

  /** `Pack::compact`. `n` is the finished new file with its index, `seen` the key slots that
      could be read, `replaced` whether the new file took the pack's name, `synced` whether a
      power loss can no longer undo that, and `after` the state this leaves the pack in. */
  method Compact(im: Pack)
    returns (ok: bool, ghost n: PackState, ghost seen: seq<bool>, ghost replaced: bool, ghost synced: bool,
             ghost readA: bool, ghost readB: bool, ghost after: PackState)
    requires im.Valid() && Fits(im.index) && Unforged(im.cs, im.key, im.store.Now())
    modifies im`store, im`index, im`lastErr, im.os
    ensures (ok ==> replaced) && im.lastErr == if ok then Ok else ErrIo
    // the new file, and what is under the pack's name at every moment
    ensures replaced ==> Replaces(im.cs, im.key, old(im.store.kdf), old(im.Now()), n, seen)
    ensures old(im.os.trace) <= im.os.trace
    ensures forall i | |old(im.os.trace)| <= i < |im.os.trace| ::
              var made := if replaced then Some(n.store.disk) else None;
              OldOrNew(im.name, TmpName(im.name), old(im.os.files), made, im.os.trace[i])
    ensures !replaced ==> OldOrNew(im.name, TmpName(im.name), old(im.os.files), None, im.os.files)
    ensures replaced ==> im.name in im.os.files && im.os.files[im.name] == n.store.disk
    ensures im.os.windows && replaced ==> synced
    // the pack object
    ensures im.index == if ok then n.index else old(im.index)
    ensures ok ==> im.store != null
    ensures if im.store != null then Carries(im, old(im.Now()), after)
            else after == PackState(CloseState(if replaced then n.store else old(im.store.Now())), old(im.index))
    ensures Step(im.cs, im.key, old(im.Now()), Op.Compact(ok, replaced, synced, readA, readB), after)
    // unless a call fails: it succeeds for good, and every password opens what it did before
    ensures im.os.Onward()
    ensures im.os.faults == old(im.os.faults) ==>
              && ok && synced && AllSeen(seen) && !Behind(after.store)
              && SameLocks(im.cs, old(im.store.kdf), old(Cache(im.os.files[im.name])), Cache(im.os.files[im.name]))
  {
    hide PackInv, Buffered, Cache, ReadHeader, Replaces, Unforged, Fits, AllSeen, SameLocks, Behind, Aside, Step,
         OpenAnyStep, SnapView, SlotsSoFar;
    ghost var s, kdf := im.Now(), im.store.kdf;
    ghost var f0, t0 := im.os.files, im.os.trace;
    n, after, replaced, synced, readA, readB := s, s, false, false, true, true;
    var tmp := TmpName(im.name);
    var ns: Store?, idx: Index;
    ns, idx, seen := BuildReplacement(im, tmp);
    ghost var f1, t1 := im.os.files, im.os.trace;
    AsideStates(tmp, im.name, f0, t0, f1, t1);
    if ns == null {
      im.lastErr := ErrIo;
      NotReplaced(im.cs, im.key, s, s, readA, readB);
      return false, n, seen, replaced, synced, readA, readB, after;
    }
    n := PackState(ns.Now(), idx);
    ReplacesFacts(im.cs, im.key, kdf, s, n, seen);
    im.store := null;
    var renamed: bool;
    renamed, synced := im.os.RenameReplace(tmp, im.name);
    if !renamed {
      readA, readB, after := GiveUp(im, tmp, s, f0, t0);
      return false, n, seen, replaced, synced, readA, readB, after;
    }
    replaced := true;
    Renamed(im.name, tmp, f0, f1, im.os.files);
    ok, readA, readB, after := TakeOver(im, idx, kdf, s, n, seen, synced);
    if AllSeen(seen) {
      CompactLocks(im.cs, im.key, kdf, s, n, seen);
    }
  }

  /** Every password opens the same slot to the same key in both files, or neither. */
  ghost predicate SameLocks(cs: Suite, kdf: Kdf, f: bytes, f': bytes) {
    && |f| >= DATA_START && |f'| >= DATA_START
    && forall password :: Unlock(cs, kdf, f', password, 0) == Unlock(cs, kdf, f, password, 0)
  }

  lemma CompactLocks(cs: Suite, key: bytes, kdf: Kdf, s: PackState, n: PackState, seen: seq<bool>)
    requires MemBounds(s.store) && Replaces(cs, key, kdf, s, n, seen) && AllSeen(seen)
    ensures SameLocks(cs, kdf, Cache(s.store.disk), Cache(n.store.disk))
  {
    hide PackInv, Buffered, Copied, Data, SlotsSoFar, ReadHeader, Serialize, SnapView, SortedKeys, LexLe, LiveSize,
         Unlock;
    CacheSynced(n.store.disk);
    var f, f' := Cache(s.store.disk), Cache(n.store.disk);
    forall password
      ensures Unlock(cs, kdf, f', password, 0) == Unlock(cs, kdf, f, password, 0)
    {
      CompactUnlock(cs, kdf, f, f', seen, password, 0);
    }
  }

  lemma AsideStates(tmp: Name, name: Name, f0: map<Name, Disk>, t0: seq<map<Name, Disk>>, f1: map<Name, Disk>,
                    t1: seq<map<Name, Disk>>)
    requires Aside(tmp, f0, t0, f1, t1) && name != tmp && name in f0
    ensures t0 <= t1 && f1 - {tmp} == f0 - {tmp} && OldOrNew(name, tmp, f0, None, f1)
    ensures forall i | |t0| <= i < |t1| :: OldOrNew(name, tmp, f0, None, t1[i])
  {
    SideFile(name, tmp, f0, f1);
    forall i | |t0| <= i < |t1|
      ensures OldOrNew(name, tmp, f0, None, t1[i])
    {
      SideFile(name, tmp, f0, t1[i]);
    }
  }

  lemma AsideRest(tmp: Name, name: Name, f0: map<Name, Disk>, t0: seq<map<Name, Disk>>, f1: map<Name, Disk>,
                  t1: seq<map<Name, Disk>>, f2: map<Name, Disk>, t2: seq<map<Name, Disk>>)
    requires Aside(tmp, f0, t0, f1, t1) && name != tmp && name in f0
    requires (f2 == f1 || f2 == f1 - {tmp}) && Only(t1, t2, f1, tmp)
    ensures t0 <= t2 && OldOrNew(name, tmp, f0, None, f2)
    ensures forall i | |t0| <= i < |t2| :: OldOrNew(name, tmp, f0, None, t2[i])
  {
    hide Only;
    AsideRemoved(tmp, f1, t1, f2, t2);
    AsideTrans(tmp, f0, t0, f1, t1, f2, t2);
    AsideStates(tmp, name, f0, t0, f2, t2);
  }

  // ---- what a power loss during compaction leaves ----

  /** Whatever is under the pack's name when the power goes during a compaction opens, in
      full, as the old contents (committed, or of a commit begun since) or as the ones
      that were being compacted. */
  lemma {:induction false} CompactCrash(cs: Suite, key: bytes, kdf: Kdf, s: PackState, n: PackState, seen: seq<bool>,
                                        replaced: bool, name: Name, tmp: Name, was: map<Name, Disk>,
                                        files: map<Name, Disk>, img: bytes)
    requires PackInv(cs, key, s) && MemBounds(s.store) && Unforged(cs, key, s.store)
    requires name in was && was[name] == s.store.disk && (replaced ==> Replaces(cs, key, kdf, s, n, seen))
    requires OldOrNew(name, tmp, was, if replaced then Some(n.store.disk) else None, files)
    requires CrashImage(files[name], img)
    ensures var a := Abstract(cs, key, s);
            || OpensAs(cs, key, img, a.committed)
            || (exists v :: v in a.later && OpensAs(cs, key, img, v))
            || (replaced && OpensAs(cs, key, img, Buffered(cs, key, s)))
  {
    hide PackInv, Buffered, Cache, Replaces, Unforged, OpensAs, SnapView, CrashImage;
    if files[name] == s.store.disk {
      StateRecovers(cs, key, s, img);
    } else {
      ReplacesFacts(cs, key, kdf, s, n, seen);
      StateRecovers(cs, key, n, img);
    }
  }

  /** In a run: when the power goes during a compaction, whatever is under the pack's name gives
      back, in full, what commit i acknowledged or a commit begun after it was made of, or what
      was being compacted. */
  lemma {:induction false} CompactCut(cs: Suite, key: bytes, kdf: Kdf, run: seq<PackState>, ops: seq<Op>, i: nat,
                                      s: PackState, n: PackState, seen: seq<bool>, replaced: bool, name: Name,
                                      tmp: Name, was: map<Name, Disk>, files: map<Name, Disk>, img: bytes)
    requires Follows(cs, key, run, ops, i, s) && MemBounds(s.store)
    requires name in was && was[name] == s.store.disk && (replaced ==> Replaces(cs, key, kdf, s, n, seen))
    requires OldOrNew(name, tmp, was, if replaced then Some(n.store.disk) else None, files)
    requires CrashImage(files[name], img)
    ensures GivesBack(cs, key, run, ops, i, img) || (replaced && OpensAs(cs, key, img, Buffered(cs, key, s)))
  {
    hide PackInv, Buffered, Cache, Replaces, Unforged, OpensAs, SnapView, CrashImage, Next, Allowed, Abstract, Held,
         OldOrNew, Acknowledges, Endangers, Lingers, MemBounds;
    RunRefines(cs, key, run, ops, |ops|);
    CompactCrash(cs, key, kdf, s, n, seen, replaced, name, tmp, was, files, img);
    if !(replaced && OpensAs(cs, key, img, Buffered(cs, key, s))) {
      var a := Abstract(cs, key, s);
      var v :| (v == a.committed || v in a.later) && OpensAs(cs, key, img, v);
      Origins(cs, key, run, ops, i, |ops|);
      HeldOpens(cs, key, run, ops, i, |ops|, img, v);
    }
  }

  /** After a compaction a password opens the pack exactly if a slot that was read accepted
      it before; if every slot was read, it opens the same slot to the same key. */
  lemma {:induction false} CompactUnlock(cs: Suite, kdf: Kdf, was: bytes, f: bytes, seen: seq<bool>, password: bytes,
                                         i: nat)
    requires SlotsSoFar(was, f, seen) && |seen| == NUM_SLOTS && |was| >= DATA_START && |f| >= DATA_START
             && i <= NUM_SLOTS
    ensures Unlock(cs, kdf, f, password, i).Some?
       <==> exists j: nat :: i <= j < NUM_SLOTS && seen[j] && Accepts(cs, kdf, was, password, j)
    ensures (forall j: nat | j < NUM_SLOTS :: seen[j]) ==>
              Unlock(cs, kdf, f, password, i) == Unlock(cs, kdf, was, password, i)
    decreases NUM_SLOTS - i
  {
    hide Unwrap, SlotsSoFar;
    if i < NUM_SLOTS {
      CompactUnlock(cs, kdf, was, f, seen, password, i + 1);
      SlotAgrees(cs, kdf, was, f, seen, password, i);
    }
  }

  lemma SlotAgrees(cs: Suite, kdf: Kdf, was: bytes, f: bytes, seen: seq<bool>, password: bytes, j: nat)
    requires SlotsSoFar(was, f, seen) && |seen| == NUM_SLOTS && |was| >= DATA_START && |f| >= DATA_START
             && j < NUM_SLOTS
    ensures Unwrap(cs, SlotAt(f, j), password, kdf)
         == if seen[j] then Unwrap(cs, SlotAt(was, j), password, kdf) else None
  {
    assert SlotAt(f, j) == SlotOf(SlotBytes(f, j)) && SlotAt(was, j) == SlotOf(SlotBytes(was, j));
    assert Zeros(SLOT_SIZE)[..SALT] == Zeros(SALT);
  }
}
