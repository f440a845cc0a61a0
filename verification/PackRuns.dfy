/** Whole runs of a pack: put, delete, move, copy, commit, key-slot writes, compaction,
    failing I/O, crashes, closing and opening, in any order; and the two-layer map of
    committed and buffered contents that every run refines. */
module PackRuns {
  import opened Bytes
  import opened Crypto
  import opened Disk
  import opened StoreModel
  import opened Index
  import opened Paths
  import opened Delta
  import opened PackModel

  /** A pack: the store's state and the index of the open pack. */
  datatype PackState = PackState(store: State, index: Index)

  // ---- invariant ----

  /** The manifest the commit points at can be read, and so can everything it refers to. */
  ghost predicate SnapOk(cs: Suite, key: bytes, snap: Snapshot) {
    var idx := LoadIndex(cs, key, snap.data, snap.root);
    idx.Some? && IndexInv(cs, key, snap.data, idx.value)
  }

  function SnapView(cs: Suite, key: bytes, snap: Snapshot): View {
    match LoadIndex(cs, key, snap.data, snap.root)
    case None => map[]
    case Some(idx) => Contents(cs, key, snap.data, idx)
  }

  ghost predicate SnapsOk(cs: Suite, key: bytes, st: State) {
    && SnapOk(cs, key, st.prev)
    && SnapOk(cs, key, st.base)
    && forall j: nat | j < |st.later| :: SnapOk(cs, key, st.later[j].snap)
  }

  predicate MemBounds(st: State) {
    st.mem.Some? && DATA_START <= st.mem.value.fileSize <= |Cache(st.disk)|
  }

  ghost predicate PackInv(cs: Suite, key: bytes, s: PackState) {
    && Inv(cs, key, s.store)
    && SnapsOk(cs, key, s.store)
    && (s.store.mem.Some? ==> MemBounds(s.store) && IndexInv(cs, key, Data(s.store), s.index))
  }

  // ---- the two-layer map ----

  /** What is committed, what was before, what commits begun since may have made it, and what
      is buffered, perhaps by a session that stands on what was before. */
  datatype Layers =
    Layers(committed: View, previous: View, later: seq<View>, buffered: Option<View>, behind: bool)

  function LaterViews(cs: Suite, key: bytes, later: seq<Attempt>): (r: seq<View>)
    ensures |r| == |later|
    ensures forall j | 0 <= j < |r| :: r[j] == SnapView(cs, key, later[j].snap)
  {
    seq(|later|, j requires 0 <= j < |later| => SnapView(cs, key, later[j].snap))
  }

  function Buffered(cs: Suite, key: bytes, s: PackState): View
    requires MemBounds(s.store)
  {
    Contents(cs, key, Data(s.store), s.index)
  }

  /** What the commits of a store mean. */
  function StoreLayers(cs: Suite, key: bytes, st: State): Layers {
    Layers(SnapView(cs, key, st.base), SnapView(cs, key, st.prev), LaterViews(cs, key, st.later), None, Behind(st))
  }

  function Abstract(cs: Suite, key: bytes, s: PackState): Layers {
    StoreLayers(cs, key, s.store).(buffered := if MemBounds(s.store) then Some(Buffered(cs, key, s)) else None)
  }

  // ---- steps ----

  datatype Outcome =
    | NoRecord              // no entropy, or the manifest could not be appended
    | Reached(fate: Fate)   // the store's commit was entered

  datatype Op =
    | Put(path: bytes, data: bytes, now: u64, nonce: bytes, ok: bool)
    | Del(path: bytes)
    | Move(from: bytes, to: bytes)
    | Copy(from: bytes, to: bytes, now: u64)
    | Commit(nonceM: bytes, nonceS: bytes, outcome: Outcome)
    | WriteSlot(idx: nat, content: bytes, ok: bool)
    | Compact(ok: bool, replaced: bool, synced: bool, readA: bool, readB: bool)
    | Crash
    | Close
    | Open(readA: bool, readB: bool)

  /** The random bytes that a commit has used. */
  function Drawn(nonceM: bytes, nonceS: bytes, outcome: Outcome): seq<bytes> {
    match outcome
    case NoRecord => [nonceM]
    case Reached(fate) => if fate == SyncFailed || fate == NoEntropy then [nonceM] else [nonceM, nonceS]
  }

  /** Stored content with the hash of `data` is `data`. */
  ghost predicate NoCollision(cs: Suite, key: bytes, s: PackState, data: bytes)
    requires MemBounds(s.store)
  {
    cs.hash(data) in s.index.blobs ==> Content(cs, key, Data(s.store), s.index, cs.hash(data)) == data
  }

  ghost predicate PutStep(cs: Suite, key: bytes, s: PackState, s': PackState,
                          path: bytes, data: bytes, now: u64, nonce: bytes, ok: bool)
    requires s.store.mem.Some?
  {
    var p, h := Normalize(path), cs.hash(data);
    if p == [] then !ok && s' == s
    else if h in s.index.blobs then ok && s' == s.(index := Repoint(s.index, p, h, now))
    else
      var rec := Seal(cs, key, nonce, data);
      if ok then
        var off := s.store.mem.value.fileSize;
        && off > 0
        && AppendStep(s.store, s'.store, rec, off)
        && off + |rec| <= MAX_OFFSET && |rec| == OVERHEAD + |data|
        && s'.index == Repoint(s.index.(blobs := s.index.blobs[h := BlobRef(off, |rec|, |data|, 0)]), p, h, now)
      else
        s'.index == s.index && (s'.store == s.store || AppendStep(s.store, s'.store, rec, 0))
  }

  ghost predicate CommitOp(cs: Suite, key: bytes, s: PackState, s': PackState,
                           nonceM: bytes, nonceS: bytes, outcome: Outcome)
    requires s.store.mem.Some?
  {
    var rec := Seal(cs, key, nonceM, Serialize(s.index));
    && s'.index == s.index
    && match outcome
       case NoRecord => s'.store == s.store || AppendStep(s.store, s'.store, rec, 0)
       case Reached(fate) => exists mid: State :: Flushed(cs, key, s.store, mid, s'.store, rec, nonceS, fate)
  }

  /** The manifest record is appended, then committed as the root. */
  ghost predicate Flushed(cs: Suite, key: bytes, st: State, mid: State, st': State, rec: bytes, nonceS: bytes,
                          fate: Fate)
    requires st.mem.Some?
  {
    var off := st.mem.value.fileSize;
    && off > 0 && rec != []
    && AppendStep(st, mid, rec, off) && off + |rec| <= MAX_OFFSET
    && MemBounds(mid)
    && CommitStep(cs, key, mid, st', Root(off, |rec|), nonceS, fate)
  }

  /** The file that compacting `s` makes: nothing unsynced, committed to what is buffered in
      `s`, and before that to nothing. */
  ghost predicate Replacement(cs: Suite, key: bytes, s: PackState, n: PackState)
    requires MemBounds(s.store)
  {
    && PackInv(cs, key, n) && MemBounds(n.store)
    && n.store.disk.pending == [] && n.store.later == [] && SnapView(cs, key, n.store.prev) == map[]
    && SnapView(cs, key, n.store.base) == Buffered(cs, key, n) == Buffered(cs, key, s)
  }

  /** The file was closed and perhaps opened again. */
  ghost predicate Reopened(cs: Suite, key: bytes, st: State, st': State, readA: bool, readB: bool) {
    st' == CloseState(st) || OpenAnyStep(cs, key, CloseState(st), st', readA, readB)
  }

  /** What compaction promises: a replacement takes over the pack's name, or everything is as
      it was; either file may fail to be opened again. */
  ghost predicate CompactOp(cs: Suite, key: bytes, s: PackState, s': PackState, ok: bool, replaced: bool, readA: bool,
                            readB: bool)
    requires s.store.mem.Some? && MemBounds(s.store)
  {
    if replaced then
      exists n: PackState ::
        && Replacement(cs, key, s, n)
        && Reopened(cs, key, n.store, s'.store, readA, readB)
        && (ok <==> s'.store.mem.Some?) && s'.index == if ok then n.index else s.index
    else
      !ok && s'.index == s.index && (s'.store == s.store || Reopened(cs, key, s.store, s'.store, readA, readB))
  }

  ghost predicate Step(cs: Suite, key: bytes, s: PackState, op: Op, s': PackState) {
    match op
    case Put(path, data, now, nonce, ok) =>
      MemBounds(s.store) && PutStep(cs, key, s, s', path, data, now, nonce, ok)
    case Del(path) => MemBounds(s.store) && s' == s.(index := DelIndex(s.index, path).1)
    case Move(from, to) => MemBounds(s.store) && s' == s.(index := MoveIndex(s.index, from, to).1)
    case Copy(from, to, now) => MemBounds(s.store) && s' == s.(index := CopyIndex(s.index, from, to, now).1)
    case Commit(nonceM, nonceS, outcome) => MemBounds(s.store) && CommitOp(cs, key, s, s', nonceM, nonceS, outcome)
    case WriteSlot(idx, content, ok) =>
      MemBounds(s.store) && s'.index == s.index && idx < NUM_SLOTS && |content| == SLOT_SIZE
      && WriteSlotStep(s.store, s'.store, idx, content, ok)
    case Compact(ok, replaced, _, readA, readB) =>
      MemBounds(s.store) && CompactOp(cs, key, s, s', ok, replaced, readA, readB)
    case Crash => CrashStep(s.store, s'.store)
    case Close => s' == s.(store := CloseState(s.store))
    case Open(readA, readB) =>
      OpenAnyStep(cs, key, s.store, s'.store, readA, readB) && MemBounds(s'.store)
      && FileIndex(cs, key, Cache(s'.store.disk), s'.store.mem.value.root) == Some(s'.index)
  }

  /** Counters of 32 and 64 bits do not run out. */
  predicate Room(s: PackState) {
    && Fits(s.index) && |s.index.paths| + 1 < U32_LIMIT
    && (s.store.mem.Some? ==> s.store.mem.value.seqno + 1 < U64_LIMIT)
  }

  /** Fresh nonces have their size, and a put meets no other content with the same hash. */
  ghost predicate Sane(cs: Suite, key: bytes, s: PackState, op: Op) {
    match op
    case Put(path, data, now, nonce, ok) => |nonce| == NONCE && (MemBounds(s.store) ==> NoCollision(cs, key, s, data))
    case Commit(nonceM, nonceS, outcome) => |nonceM| == |nonceS| == NONCE
    case _ => true
  }

  /** What is taken for granted of a step. */
  ghost predicate Allowed(cs: Suite, key: bytes, s: PackState, op: Op) {
    Room(s) && Sane(cs, key, s, op)
  }

  // ---- what each step does to the two layers ----

  function MoveView(v: View, from: bytes, to: bytes): View {
    var f, t := Normalize(from), Normalize(to);
    if f != [] && t != [] && f in v && t !in v then (v - {f})[t := v[f]] else v
  }

  function CopyView(v: View, from: bytes, to: bytes): View {
    var f, t := Normalize(from), Normalize(to);
    if f != [] && t != [] && f in v && t !in v then v[t := v[f]] else v
  }

  /** What is committed may be confirmed to be one of the commits begun since. */
  ghost predicate Settles(a: Layers, a': Layers) {
    || Retains(a, a')
    || (a'.committed == a.committed && a'.previous == a.previous && a'.later == [])
    || (a'.committed in a.later && a'.previous == a.committed && a'.later == [])
  }

  ghost predicate Retains(a: Layers, a': Layers) {
    a'.committed == a.committed && a'.previous == a.previous && a'.later == a.later
  }

  /** A commit: done, or failed once its superblock was begun, which from behind takes back
      what was committed, or failed before. */
  ghost predicate CommitLayers(a: Layers, outcome: Outcome, a': Layers) {
    && a.buffered.Some? && a'.buffered == a.buffered
    && match outcome
       case Reached(Done) =>
         && !a'.behind && a'.committed == a.buffered.value && a'.later == []
         && (if a.behind then a'.previous == a.previous else a'.previous == a.committed || a'.previous in a.later)
       case Reached(WriteFailed) => FailedLayers(a, a')
       case Reached(FlushFailed) => FailedLayers(a, a')
       case _ => Settles(a, a') && a'.behind == a.behind
  }

  ghost predicate FailedLayers(a: Layers, a': Layers)
    requires a.buffered.Some?
  {
    && !a'.behind
    && if a.behind then
         a'.committed == a'.previous == a.previous && a'.later == [a.committed, a.buffered.value]
       else
         exists m: Layers :: Settles(a, m) && a'.committed == m.committed && a'.previous == m.previous
                             && a'.later == m.later + [a.buffered.value]
  }

  ghost predicate LayerStep(a: Layers, op: Op, a': Layers) {
    match op
    case Put(path, data, _, _, ok) =>
      && Retains(a, a') && a'.behind == a.behind && a.buffered.Some?
      && (ok ==> Normalize(path) != [] && a'.buffered == Some(a.buffered.value[Normalize(path) := data]))
      && (!ok ==> a' == a)
    case Del(path) =>
      a.buffered.Some? && a' == a.(buffered := Some(a.buffered.value - {Normalize(path)}))
    case Move(from, to) =>
      a.buffered.Some? && a' == a.(buffered := Some(MoveView(a.buffered.value, from, to)))
    case Copy(from, to, _) =>
      a.buffered.Some? && a' == a.(buffered := Some(CopyView(a.buffered.value, from, to)))
    case Commit(_, _, outcome) => CommitLayers(a, outcome, a')
    case WriteSlot(_, _, _) => Settles(a, a') && a'.buffered == a.buffered && a'.behind == a.behind
    case Compact(ok, replaced, _, _, _) =>
      && a.buffered.Some?
      && (if replaced then a'.committed == a.buffered.value && a'.previous == map[] && a'.later == []
          else Settles(a, a') && !ok)
      && (a'.buffered == a.buffered || (!ok && a'.buffered == None && !a'.behind))
    case Crash => a' == a.(buffered := None, behind := false)
    case Close => a' == a.(buffered := None, behind := false)
    case Open(_, _) =>
      && a'.buffered.Some?
      && if a'.behind then Retains(a, a') && a'.buffered.value == a.previous
         else Settles(a, a') && (a'.buffered.value == a.committed || a'.buffered.value in a.later)
              && (Retains(a, a') || a'.committed == a'.buffered.value)
  }

  // ---- every step keeps the invariant and refines the two-layer map ----

  lemma SameSnaps(cs: Suite, key: bytes, st: State, st': State)
    requires st'.base == st.base && st'.prev == st.prev && st'.later == st.later && SnapsOk(cs, key, st)
    ensures SnapsOk(cs, key, st')
    ensures StoreLayers(cs, key, st') == StoreLayers(cs, key, st).(behind := Behind(st'))
  {
  }

  /** A record appended at the end of the data region reads back as what was sealed. */
  lemma FreshRecord(cs: Suite, key: bytes, data: bytes, nonce: bytes, plain: bytes)
    requires |nonce| == NONCE
    ensures var rec := Seal(cs, key, nonce, plain);
            |rec| == OVERHEAD + |plain|
            && ReadRecord(cs, key, data + rec, DATA_START + |data|, |rec|) == Some(plain)
  {
    hide Seal, Unseal;
    var rec := Seal(cs, key, nonce, plain);
    SealThenUnseal(cs, key, nonce, plain);
    assert (data + rec)[|data|..|data| + |rec|] == rec;
  }

  lemma AddBlob(cs: Suite, key: bytes, data: bytes, nonce: bytes, content: bytes, idx: Index, ref: BlobRef)
    requires IndexInv(cs, key, data, idx) && |nonce| == NONCE
    requires cs.hash(content) !in idx.blobs
    requires DATA_START + |data| <= MAX_OFFSET && OVERHEAD + |content| <= MAX_OFFSET
    requires ref == BlobRef(DATA_START + |data|, OVERHEAD + |content|, |content|, 0)
    ensures var data', idx' := data + Seal(cs, key, nonce, content), idx.(blobs := idx.blobs[cs.hash(content) := ref]);
            && IndexInv(cs, key, data', idx')
            && Contents(cs, key, data', idx') == Contents(cs, key, data, idx)
            && Content(cs, key, data', idx', cs.hash(content)) == content
  {
    hide Seal, IsNormal, ReadBlob, BlobsOk, CountsOk, Users;
    var data', h := data + Seal(cs, key, nonce, content), cs.hash(content);
    var idx' := idx.(blobs := idx.blobs[h := ref]);
    IndexStays(cs, key, data, data', idx);
    NewBlob(cs, key, data, nonce, content, ref);
    AddedBlobs(cs, key, data, data', idx.blobs, h, ref);
    AddedCounts(idx, h, ref);
    forall p | p in idx.paths
      ensures Content(cs, key, data', idx', idx.paths[p].hash) == Content(cs, key, data', idx, idx.paths[p].hash)
    {
      assert idx.paths[p].hash in idx.blobs;
    }
  }

  lemma NewBlob(cs: Suite, key: bytes, data: bytes, nonce: bytes, content: bytes, ref: BlobRef)
    requires |nonce| == NONCE && DATA_START + |data| <= MAX_OFFSET && OVERHEAD + |content| <= MAX_OFFSET
    requires ref == BlobRef(DATA_START + |data|, OVERHEAD + |content|, |content|, 0)
    ensures ReadBlob(cs, key, data + Seal(cs, key, nonce, content), ref) == Some(content)
  {
    hide Seal, ReadRecord;
    FreshRecord(cs, key, data, nonce, content);
  }

  lemma AddedBlobs(cs: Suite, key: bytes, data: bytes, data': bytes, blobs: map<bytes, BlobRef>, h: bytes, ref: BlobRef)
    requires BlobsOk(cs, key, data, blobs) && BlobsOk(cs, key, data', blobs) && h !in blobs
    requires ref.offset == DATA_START + |data| && Sound(cs, key, data', h, ref)
    ensures BlobsOk(cs, key, data', blobs[h := ref])
  {
    hide ReadBlob;
    forall k | k in blobs
      ensures Disjoint(blobs[k], ref)
    {
      assert Sound(cs, key, data, k, blobs[k]);
      InBounds(cs, key, data, blobs[k]);
    }
  }

  lemma AddedCounts(idx: Index, h: bytes, ref: BlobRef)
    requires PathsOk(idx) && CountsOk(idx) && h !in idx.blobs && ref.refcount == 0
    ensures CountsOk(idx.(blobs := idx.blobs[h := ref]))
  {
    hide IsNormal, Users;
    NoUsers(idx, h);
  }

  lemma InBounds(cs: Suite, key: bytes, data: bytes, ref: BlobRef)
    requires ReadBlob(cs, key, data, ref).Some?
    ensures DATA_START <= ref.offset && ref.offset + ref.encSize <= DATA_START + |data|
  {
  }

  lemma NoUsers(idx: Index, h: bytes)
    requires PathsOk(idx) && h !in idx.blobs
    ensures Users(idx.paths, h) == {}
  {
    hide IsNormal;
  }

  lemma {:induction false} PutRefines(cs: Suite, key: bytes, s: PackState, s': PackState,
                                      path: bytes, data: bytes, now: u64, nonce: bytes, ok: bool)
    requires PackInv(cs, key, s) && s.store.mem.Some? && NoCollision(cs, key, s, data)
    requires |nonce| == NONCE && |s.index.paths| + 1 < U32_LIMIT
    requires PutStep(cs, key, s, s', path, data, now, nonce, ok)
    ensures PackInv(cs, key, s') && s'.store.base == s.store.base && s'.store.later == s.store.later
    ensures s'.store.prev == s.store.prev && (Behind(s'.store) <==> Behind(s.store))
    ensures s'.store.mem.Some?
    ensures Buffered(cs, key, s') == if ok then Buffered(cs, key, s)[Normalize(path) := data] else Buffered(cs, key, s)
  {
    hide Inv, Seal, IsNormal, Normalize, IndexInv, Content, Repoint, Contents, SnapsOk, Cache, Data;
    var p, h, rec := Normalize(path), cs.hash(data), Seal(cs, key, nonce, data);
    if p != [] {
      assert IsNormal(p) by { NormalizeIdempotent(path); }
      if h in s.index.blobs {
        RepointInv(cs, key, Data(s.store), s.index, p, h, now);
      } else if s'.store == s.store {
      } else {
        var off := if ok then s.store.mem.value.fileSize else 0;
        AppendInv(cs, key, s.store, s'.store, rec, off);
        AppendData(s.store, s'.store, rec, off);
        SameSnaps(cs, key, s.store, s'.store);
        if ok {
          var idx1 := s.index.(blobs := s.index.blobs[h := BlobRef(off, |rec|, |data|, 0)]);
          AddBlob(cs, key, Data(s.store), nonce, data, s.index, BlobRef(off, |rec|, |data|, 0));
          RepointInv(cs, key, Data(s'.store), idx1, p, h, now);
        }
      }
    }
  }

  /** The manifest record makes the new commit's snapshot readable. */
  lemma FlushedSnap(cs: Suite, key: bytes, data: bytes, idx: Index, nonce: bytes, seqno: nat, len: u64, off: u64)
    requires IndexInv(cs, key, data, idx) && Fits(idx) && |nonce| == NONCE
    requires off == DATA_START + |data| && len == |Seal(cs, key, nonce, Serialize(idx))|
    ensures var snap := Snapshot(seqno, Root(off, len), data + Seal(cs, key, nonce, Serialize(idx)));
            SnapOk(cs, key, snap) && SnapView(cs, key, snap) == Contents(cs, key, data, idx)
  {
    hide Seal, Unseal, IndexInv, Contents, Serialize, Parse, ReadRecord, WellFormed;
    var rec := Seal(cs, key, nonce, Serialize(idx));
    InvWellFormed(cs, key, data, idx);
    FreshRecord(cs, key, data, nonce, Serialize(idx));
    ParseOfSerialize(idx, []);
    assert Serialize(idx) + [] == Serialize(idx);
    IndexStays(cs, key, data, data + rec, idx);
  }

  ghost predicate Confirms(cs: Suite, key: bytes, st: State, st': State) {
    Settles(StoreLayers(cs, key, st), StoreLayers(cs, key, st'))
  }

  /** Confirming the commit the session stands on only moves it from `later` to `base`. */
  lemma SyncSnaps(cs: Suite, key: bytes, st: State)
    requires Inv(cs, key, st) && st.mem.Some? && SnapsOk(cs, key, st)
    ensures SnapsOk(cs, key, SyncState(st))
    ensures Confirms(cs, key, st, SyncState(st)) && (Behind(SyncState(st)) <==> Behind(st))
    ensures Behind(st) ==> StoreLayers(cs, key, SyncState(st)) == StoreLayers(cs, key, st)
  {
    hide SnapOk, SnapView, Anchored, AttemptsOk, Placed, Kept;
    if st.live != st.base && !Behind(st) {
      var j: nat :| j < |st.later| && st.later[j].snap == st.live;
      assert LaterViews(cs, key, st.later)[j] == SnapView(cs, key, st.live);
    }
  }

  /** What an open store stands on means, and can be read. */
  lemma LiveView(cs: Suite, key: bytes, st: State)
    requires Inv(cs, key, st) && st.mem.Some? && SnapsOk(cs, key, st)
    ensures SnapOk(cs, key, st.live)
    ensures var v, a := SnapView(cs, key, st.live), StoreLayers(cs, key, st);
            if Behind(st) then v == a.previous else v == a.committed || v in a.later
  {
    hide SnapOk, SnapView, Anchored, Placed, Kept, Decodes;
    MemFacts(cs, key, st);
    if st.live != st.base && !Behind(st) {
      var j: nat :| j < |st.later| && st.later[j].snap == st.live;
      assert LaterViews(cs, key, st.later)[j] == SnapView(cs, key, st.live);
    }
  }

  lemma MoreViews(cs: Suite, key: bytes, later: seq<Attempt>, att: Attempt)
    ensures LaterViews(cs, key, later + [att]) == LaterViews(cs, key, later) + [SnapView(cs, key, att.snap)]
  {
    hide SnapView;
  }

  lemma DemotedSnaps(cs: Suite, key: bytes, st: State)
    requires |st.disk.durable| >= DATA_START && SnapsOk(cs, key, st)
    ensures var s2, a := Demoted(st), StoreLayers(cs, key, st);
            && SnapsOk(cs, key, s2)
            && StoreLayers(cs, key, s2) ==
               if a.behind then Layers(a.previous, a.previous, [a.committed], None, Behind(s2)) else a
  {
    hide SnapOk, SnapView, Block;
  }

  lemma DoneSnaps(cs: Suite, key: bytes, mid: State, st': State, v: View)
    requires Inv(cs, key, mid) && mid.mem.Some? && SnapsOk(cs, key, mid)
    requires SnapOk(cs, key, st'.base) && SnapView(cs, key, st'.base) == v
    requires st'.prev == mid.live && st'.later == [] && !Behind(st')
    ensures SnapsOk(cs, key, st')
    ensures CommitLayers(StoreLayers(cs, key, mid).(buffered := Some(v)), Reached(Done),
                         StoreLayers(cs, key, st').(buffered := Some(v)))
  {
    hide SnapOk, SnapView, Inv;
    LiveView(cs, key, mid);
  }

  lemma FailedSnaps(cs: Suite, key: bytes, mid: State, st': State, att: Attempt, v: View)
    requires Inv(cs, key, mid) && mid.mem.Some? && SnapsOk(cs, key, mid) && !Behind(st')
    requires SnapOk(cs, key, att.snap) && SnapView(cs, key, att.snap) == v
    requires |SyncState(mid).disk.durable| >= DATA_START
    requires var s2 := Demoted(SyncState(mid));
             st'.base == s2.base && st'.prev == s2.prev && st'.later == s2.later + [att]
    ensures SnapsOk(cs, key, st')
    ensures FailedLayers(StoreLayers(cs, key, mid).(buffered := Some(v)),
                         StoreLayers(cs, key, st').(buffered := Some(v)))
  {
    hide SnapOk, SnapView, Inv, SyncState, Demoted, LaterViews;
    var s1 := SyncState(mid);
    var s2 := Demoted(s1);
    SyncSnaps(cs, key, mid);
    DemotedSnaps(cs, key, s1);
    MoreViews(cs, key, s2.later, att);
    if !Behind(mid) {
      assert Settles(StoreLayers(cs, key, mid).(buffered := Some(v)), StoreLayers(cs, key, s1));
    }
  }

  /** What a commit does to the two layers, from the append of its manifest on. */
  lemma {:induction false} CommitSnaps(cs: Suite, key: bytes, mid: State, st': State, root: Root, nonce: bytes,
                                       fate: Fate, v: View)
    requires Inv(cs, key, mid) && MemBounds(mid) && SnapsOk(cs, key, mid)
    requires CommitStep(cs, key, mid, st', root, nonce, fate)
    requires SnapOk(cs, key, NewSnapshot(mid, root)) && SnapView(cs, key, NewSnapshot(mid, root)) == v
    ensures SnapsOk(cs, key, st')
    ensures CommitLayers(StoreLayers(cs, key, mid).(buffered := Some(v)), Reached(fate),
                         StoreLayers(cs, key, st').(buffered := Some(v)))
  {
    hide SnapOk, SnapView, Inv, SbBlock, Issued, Splice, Data, Cache, SyncState, Demoted, LaterViews, FailedLayers;
    MemFacts(cs, key, mid);
    SyncSnaps(cs, key, mid);
    var r := Ready(cs, key, mid);
    var snap := NewSnapshot(mid, root);
    if fate == Done {
      DoneSnaps(cs, key, mid, st', v);
    } else if fate == WriteFailed || fate == FlushFailed {
      FailedSnaps(cs, key, mid, st', Attempt(SbBlock(cs, key, nonce, snap.seqno, root), snap), v);
    }
  }

  lemma {:induction false} CommitRefines(cs: Suite, key: bytes, s: PackState, s': PackState,
                                         nonceM: bytes, nonceS: bytes, outcome: Outcome)
    requires PackInv(cs, key, s) && MemBounds(s.store) && CommitOp(cs, key, s, s', nonceM, nonceS, outcome)
    requires |nonceM| == |nonceS| == NONCE && Fits(s.index) && s.store.mem.value.seqno + 1 < U64_LIMIT
    requires Unforged(cs, key, s'.store)
    ensures PackInv(cs, key, s')
    ensures LayerStep(Abstract(cs, key, s), Commit(nonceM, nonceS, outcome), Abstract(cs, key, s'))
  {
    hide Inv, Seal, IndexInv, Contents, SnapsOk, Cache, Data, SnapView, LaterViews, Serialize, Fits, Unforged,
         LayerStep;
    var rec := Seal(cs, key, nonceM, Serialize(s.index));
    match outcome
    case NoRecord =>
      if s'.store != s.store {
        AppendInv(cs, key, s.store, s'.store, rec, 0);
        AppendData(s.store, s'.store, rec, 0);
        SameSnaps(cs, key, s.store, s'.store);
      }
      NoRecordLayers(cs, key, s, s', nonceM, nonceS);
    case Reached(fate) =>
      var mid: State :| Flushed(cs, key, s.store, mid, s'.store, rec, nonceS, fate);
      FlushRefines(cs, key, s, mid, s', nonceM, nonceS, fate);
  }

  lemma DoneIsSynced(cs: Suite, key: bytes, s: PackState, s': PackState, nonceM: bytes, nonceS: bytes)
    requires s.store.mem.Some? && CommitOp(cs, key, s, s', nonceM, nonceS, Reached(Done))
    ensures s'.store.disk.pending == [] && s'.store.later == [] && s'.store.prev == s.store.live
  {
    hide Seal, Serialize, Splice, AppendStep, SbBlock, NewSnapshot;
    var rec, off := Seal(cs, key, nonceM, Serialize(s.index)), s.store.mem.value.fileSize;
    var mid: State :| Flushed(cs, key, s.store, mid, s'.store, rec, nonceS, Done);
    AppendedHistory(s.store, mid, rec, off);
  }

  lemma NoRecordLayers(cs: Suite, key: bytes, s: PackState, s': PackState, nonceM: bytes, nonceS: bytes)
    requires Abstract(cs, key, s) == Abstract(cs, key, s') && MemBounds(s.store)
    ensures LayerStep(Abstract(cs, key, s), Commit(nonceM, nonceS, NoRecord), Abstract(cs, key, s'))
  {
  }

  lemma {:induction false} FlushRefines(cs: Suite, key: bytes, s: PackState, mid: State, s': PackState,
                                        nonceM: bytes, nonceS: bytes, fate: Fate)
    requires PackInv(cs, key, s) && MemBounds(s.store) && s'.index == s.index
    requires Flushed(cs, key, s.store, mid, s'.store, Seal(cs, key, nonceM, Serialize(s.index)), nonceS, fate)
    requires |nonceM| == |nonceS| == NONCE && Fits(s.index) && s.store.mem.value.seqno + 1 < U64_LIMIT
    requires Unforged(cs, key, s'.store)
    ensures PackInv(cs, key, s')
    ensures LayerStep(Abstract(cs, key, s), Commit(nonceM, nonceS, Reached(fate)), Abstract(cs, key, s'))
  {
    hide Inv, Seal, IndexInv, Contents, SnapsOk, Cache, Data, LaterViews, SnapView, SnapOk, Serialize, Fits, Unforged,
         CommitLayers, CommitStep;
    var rec := Seal(cs, key, nonceM, Serialize(s.index));
    var off := s.store.mem.value.fileSize;
    var root := Root(off, |rec|);
    AppendInv(cs, key, s.store, mid, rec, off);
    AppendData(s.store, mid, rec, off);
    AppendedHistory(s.store, mid, rec, off);
    SameSnaps(cs, key, s.store, mid);
    assert MemBounds(mid);
    FlushedSnap(cs, key, Data(s.store), s.index, nonceM, mid.mem.value.seqno + 1, |rec|, off);
    IndexStays(cs, key, Data(s.store), Data(mid), s.index);
    assert SnapView(cs, key, NewSnapshot(mid, root)) == Buffered(cs, key, s);
    CommitInv(cs, key, mid, s'.store, root, nonceS, fate);
    CommitData(cs, key, mid, s'.store, root, nonceS, fate);
    CommitSnaps(cs, key, mid, s'.store, root, nonceS, fate, Buffered(cs, key, s));
    assert Abstract(cs, key, s) == StoreLayers(cs, key, mid).(buffered := Some(Buffered(cs, key, s)));
    assert Abstract(cs, key, s') == StoreLayers(cs, key, s'.store).(buffered := Some(Buffered(cs, key, s)));
  }

  lemma {:induction false} WriteSlotRefines(cs: Suite, key: bytes, s: PackState, s': PackState, idx: nat,
                                            content: bytes, ok: bool)
    requires PackInv(cs, key, s) && Step(cs, key, s, WriteSlot(idx, content, ok), s')
    ensures PackInv(cs, key, s')
    ensures LayerStep(Abstract(cs, key, s), WriteSlot(idx, content, ok), Abstract(cs, key, s'))
  {
    hide Inv, IndexInv, Contents, SnapsOk, Cache, Data, SnapView, LaterViews, Splice, SyncState;
    MemFacts(cs, key, s.store);
    SyncFacts(cs, key, s.store);
    WriteSlotInv(cs, key, s.store, s'.store, idx, content, ok);
    MemFacts(cs, key, s'.store);
    if ok {
      SyncSnaps(cs, key, s.store);
      SameSnaps(cs, key, SyncState(s.store), s'.store);
    } else {
      SameSnaps(cs, key, s.store, s'.store);
    }
  }

  /** The snapshot an open store stands on, and its index, from however much data follows it. */
  lemma StandsOn(cs: Suite, key: bytes, st: State)
    requires Inv(cs, key, st) && st.mem.Some? && SnapsOk(cs, key, st) && MemBounds(st)
    requires st.mem.value.fileSize == |Cache(st.disk)|
    ensures FileIndex(cs, key, Cache(st.disk), st.live.root) == LoadIndex(cs, key, st.live.data, st.live.root)
    ensures SnapOk(cs, key, st.live) && st.mem.value.root == st.live.root
    ensures var idx := LoadIndex(cs, key, st.live.data, st.live.root).value;
            IndexInv(cs, key, Data(st), idx) && Contents(cs, key, Data(st), idx) == SnapView(cs, key, st.live)
  {
    hide IndexInv, Contents, Cache, LoadIndex, FileIndex, Anchored, Placed;
    LiveSnap(cs, key, st);
    LiveData(cs, key, st);
    RootInside(cs, key, st.live);
    var live, f := st.live, Cache(st.disk);
    assert f[DATA_START..st.mem.value.fileSize] == f[DATA_START..];
    FileIndexData(cs, key, f, live.root);
    LoadStays(cs, key, live.data, Data(st), live.root);
    IndexStays(cs, key, live.data, Data(st), LoadIndex(cs, key, live.data, live.root).value);
  }

  /** Opening keeps the pack sound and reads, in full, the contents of the commit it lands on:
      the newest durable one, one begun since, or, from behind, the one before. */
  lemma {:induction false} OpenRefines(cs: Suite, key: bytes, s: PackState, s': PackState, readA: bool, readB: bool)
    requires PackInv(cs, key, s) && Unforged(cs, key, s.store) && Step(cs, key, s, Open(readA, readB), s')
    ensures PackInv(cs, key, s')
    ensures LayerStep(Abstract(cs, key, s), Open(readA, readB), Abstract(cs, key, s'))
  {
    hide Inv, IndexInv, Contents, Cache, Data, LoadIndex, FileIndex, OpenAnyStep, Unforged, SnapsOk, SnapOk, SnapView;
    OpenedSnaps(cs, key, s.store, s'.store, readA, readB);
    OpenedDisk(cs, key, s.store, s'.store, readA, readB);
    StandsOn(cs, key, s'.store);
    LiveView(cs, key, s'.store);
    assert Buffered(cs, key, s') == SnapView(cs, key, s'.store.live);
  }

  /** Opening only confirms commits. */
  lemma OpenedSnaps(cs: Suite, key: bytes, st: State, st': State, readA: bool, readB: bool)
    requires Inv(cs, key, st) && Unforged(cs, key, st) && SnapsOk(cs, key, st)
    requires OpenAnyStep(cs, key, st, st', readA, readB)
    ensures Inv(cs, key, st') && SnapsOk(cs, key, st') && MemBounds(st') && st'.mem.value.fileSize == |Cache(st.disk)|
    ensures Confirms(cs, key, st, st') && (st.later == [] ==> st'.later == [])
    ensures var a, a', v := StoreLayers(cs, key, st), StoreLayers(cs, key, st'), SnapView(cs, key, st'.live);
            if Behind(st') then Retains(a, a')
            else (v == a.committed || v in a.later) && (Retains(a, a') || a'.committed == v)
  {
    hide Inv, Unforged, OpenReads, Cache, SnapOk, SnapView;
    OpenAnyInv(cs, key, st, st', readA, readB);
    MemFacts(cs, key, st');
    if st'.live != st.base && !Behind(st') {
      var j: nat :| j < |st.later| && st.later[j].snap == st'.live;
      assert LaterViews(cs, key, st.later)[j] == SnapView(cs, key, st'.live);
    }
  }

  lemma {:induction false} CrashRefines(cs: Suite, key: bytes, s: PackState, s': PackState)
    requires PackInv(cs, key, s) && Unforged(cs, key, s.store) && CrashStep(s.store, s'.store)
    ensures PackInv(cs, key, s')
    ensures LayerStep(Abstract(cs, key, s), Crash, Abstract(cs, key, s'))
  {
    hide Inv, IndexInv, Contents, Cache, Data, SnapView, LaterViews, Unforged, SnapsOk, CrashImage;
    CrashInv(cs, key, s.store, s'.store);
    SameSnaps(cs, key, s.store, s'.store);
  }

  lemma {:induction false} CloseRefines(cs: Suite, key: bytes, s: PackState, s': PackState)
    requires PackInv(cs, key, s) && s' == s.(store := CloseState(s.store))
    ensures PackInv(cs, key, s')
    ensures LayerStep(Abstract(cs, key, s), Close, Abstract(cs, key, s'))
  {
    hide Inv, IndexInv, Contents, Cache, Data, SnapView, LaterViews, SnapsOk;
    CloseInv(cs, key, s.store);
    SameSnaps(cs, key, s.store, s'.store);
  }

  /** Opening a file again to go with an index in memory, which still fits. */
  lemma {:induction false} ReopenRefines(cs: Suite, key: bytes, s: PackState, s': PackState, readA: bool, readB: bool)
    requires PackInv(cs, key, s) && MemBounds(s.store) && Unforged(cs, key, s.store)
    requires s'.index == s.index && OpenAnyStep(cs, key, CloseState(s.store), s'.store, readA, readB)
    ensures PackInv(cs, key, s') && MemBounds(s'.store) && Buffered(cs, key, s') == Buffered(cs, key, s)
    ensures Confirms(cs, key, s.store, s'.store)
    ensures s.store.later == [] ==> s'.store.later == []
  {
    hide Inv, IndexInv, Contents, OpenAnyStep, SnapsOk, LaterViews, SnapView, SnapOk, Cache, Unforged;
    var c := CloseState(s.store);
    CloseInv(cs, key, s.store);
    SameForgery(cs, key, s.store, c);
    SameSnaps(cs, key, s.store, c);
    OpenedSnaps(cs, key, c, s'.store, readA, readB);
    OpenedDisk(cs, key, c, s'.store, readA, readB);
    MemFacts(cs, key, s.store);
    PrefixOfRegion(Cache(s.store.disk), Data(s.store), |Cache(s.store.disk)|);
    IndexStays(cs, key, Data(s.store), Data(s'.store), s.index);
  }

  lemma OpenedDisk(cs: Suite, key: bytes, st: State, st': State, readA: bool, readB: bool)
    requires OpenAnyStep(cs, key, st, st', readA, readB)
    ensures st'.disk == st.disk && st'.mem.Some?
  {
    hide OpenReads, Cache;
  }

  lemma {:induction false} CompactRefines(cs: Suite, key: bytes, s: PackState, s': PackState,
                                          ok: bool, replaced: bool, synced: bool, readA: bool, readB: bool)
    requires PackInv(cs, key, s) && MemBounds(s.store) && Unforged(cs, key, s.store)
    requires CompactOp(cs, key, s, s', ok, replaced, readA, readB)
    ensures PackInv(cs, key, s')
    ensures LayerStep(Abstract(cs, key, s), Compact(ok, replaced, synced, readA, readB), Abstract(cs, key, s'))
  {
    hide PackInv, Cache, Data, SnapView, Unforged, OpenAnyStep, Buffered, Replacement, StoreLayers;
    if replaced {
      var n: PackState :| && Replacement(cs, key, s, n)
                          && Reopened(cs, key, n.store, s'.store, readA, readB)
                          && (ok <==> s'.store.mem.Some?) && s'.index == if ok then n.index else s.index;
      ReplacedRefines(cs, key, s, n, s', ok, synced, readA, readB);
    } else if s'.store == s.store {
      assert s' == s;
    } else if s'.store == CloseState(s.store) {
      ClosedStays(cs, key, s, s');
    } else {
      ReopenRefines(cs, key, s, s', readA, readB);
    }
  }

  lemma {:induction false} ReplacedRefines(cs: Suite, key: bytes, s: PackState, n: PackState, s': PackState,
                                           ok: bool, synced: bool, readA: bool, readB: bool)
    requires MemBounds(s.store) && Replacement(cs, key, s, n) && Reopened(cs, key, n.store, s'.store, readA, readB)
    requires (ok <==> s'.store.mem.Some?) && s'.index == if ok then n.index else s.index
    ensures PackInv(cs, key, s')
    ensures LayerStep(Abstract(cs, key, s), Compact(ok, true, synced, readA, readB), Abstract(cs, key, s'))
  {
    hide PackInv, Cache, Data, SnapView, Unforged, OpenAnyStep, Buffered;
    SyncedUnforged(cs, key, n.store);
    if s'.store == CloseState(n.store) {
      ClosedStays(cs, key, n, s');
    } else {
      OpenedDisk(cs, key, CloseState(n.store), s'.store, readA, readB);
      ReopenRefines(cs, key, n, s', readA, readB);
    }
  }

  lemma ClosedStays(cs: Suite, key: bytes, s: PackState, s': PackState)
    requires PackInv(cs, key, s) && s'.store == CloseState(s.store)
    ensures PackInv(cs, key, s') && StoreLayers(cs, key, s'.store) == StoreLayers(cs, key, s.store).(behind := false)
  {
    hide Inv, IndexInv, Contents, Cache, Data, SnapView, SnapsOk;
    CloseInv(cs, key, s.store);
    SameSnaps(cs, key, s.store, s'.store);
  }

  /** Every step of a pack keeps it sound and is a step of the two-layer map. */
  lemma {:induction false} StepRefines(cs: Suite, key: bytes, s: PackState, op: Op, s': PackState)
    requires PackInv(cs, key, s) && Step(cs, key, s, op, s') && Allowed(cs, key, s, op)
    requires Unforged(cs, key, s.store) && Unforged(cs, key, s'.store)
    ensures PackInv(cs, key, s')
    ensures LayerStep(Abstract(cs, key, s), op, Abstract(cs, key, s'))
  {
    hide Inv, IndexInv, Contents, Cache, Data, SnapView, SnapsOk, LaterViews, Unforged, OpenAnyStep, CommitOp,
         CompactOp, CrashStep, PutStep, Normalize, DelIndex, MoveIndex, CopyIndex, WriteSlotStep, Fits, NoCollision;
    match op
    case Put(path, data, now, nonce, ok) =>
      PutRefines(cs, key, s, s', path, data, now, nonce, ok);
      PutNeedsPath(cs, key, s, s', path, data, now, nonce, ok);
    case Del(path) => DelInv(cs, key, Data(s.store), s.index, path);
    case Move(from, to) => MoveInv(cs, key, Data(s.store), s.index, from, to);
    case Copy(from, to, now) => CopyInv(cs, key, Data(s.store), s.index, from, to, now);
    case Commit(nonceM, nonceS, outcome) => CommitRefines(cs, key, s, s', nonceM, nonceS, outcome);
    case WriteSlot(idx, content, ok) => WriteSlotRefines(cs, key, s, s', idx, content, ok);
    case Compact(ok, replaced, synced, readA, readB) =>
      CompactRefines(cs, key, s, s', ok, replaced, synced, readA, readB);
    case Crash => CrashRefines(cs, key, s, s');
    case Close => CloseRefines(cs, key, s, s');
    case Open(readA, readB) => OpenRefines(cs, key, s, s', readA, readB);
  }

  lemma PutNeedsPath(cs: Suite, key: bytes, s: PackState, s': PackState,
                     path: bytes, data: bytes, now: u64, nonce: bytes, ok: bool)
    requires s.store.mem.Some? && PutStep(cs, key, s, s', path, data, now, nonce, ok)
    ensures ok ==> Normalize(path) != []
  {
  }

  // ---- runs ----

  /** The states of the run whose file may come back under the pack's name when the power
      goes: each was replaced by a compaction, and the directory entry has not been synced. */
  function Lingers(ops: seq<Op>, n: nat): (l: set<nat>)
    requires n <= |ops|
    ensures forall k | k in l :: k < n
  {
    if n == 0 then {}
    else
      var l := Lingers(ops, n - 1);
      match ops[n - 1]
      case Crash => {}
      case Compact(_, replaced, synced, _, _) => if !replaced then l else if synced then {} else l + {n - 1}
      case _ => l
  }

  /** A step, or a power loss that brings an older file back. */
  ghost predicate Next(cs: Suite, key: bytes, run: seq<PackState>, ops: seq<Op>, i: nat)
    requires |run| == |ops| + 1 && i < |ops|
  {
    || Step(cs, key, run[i], ops[i], run[i + 1])
    || (ops[i].Crash? && exists k :: k in Lingers(ops, i) && CrashStep(run[k].store, run[i + 1].store))
  }

  /** A run from a sound pack with no commit undecided, such as a created one, with nothing
      forged in any of its states. */
  ghost predicate IsRun(cs: Suite, key: bytes, run: seq<PackState>, ops: seq<Op>) {
    && |run| == |ops| + 1
    && PackInv(cs, key, run[0]) && run[0].store.later == []
    && (forall i: nat | i < |ops| :: Next(cs, key, run, ops, i) && Allowed(cs, key, run[i], ops[i]))
    && (forall i: nat | i < |run| :: Unforged(cs, key, run[i].store))
  }

  /** A step of the two-layer map; a power loss may also lead back to the layers of a file
      that was replaced. */
  ghost predicate LayerNext(cs: Suite, key: bytes, run: seq<PackState>, ops: seq<Op>, i: nat)
    requires |run| == |ops| + 1 && i < |ops|
  {
    var a' := Abstract(cs, key, run[i + 1]);
    || LayerStep(Abstract(cs, key, run[i]), ops[i], a')
    || (ops[i].Crash? && exists k :: k in Lingers(ops, i) && LayerStep(Abstract(cs, key, run[k]), Crash, a'))
  }

  /** Every state of every run is sound, and every step is one of the two-layer map. */
  lemma {:induction false} RunRefines(cs: Suite, key: bytes, run: seq<PackState>, ops: seq<Op>, n: nat)
    requires IsRun(cs, key, run, ops) && n < |run|
    ensures forall i: nat | i <= n :: PackInv(cs, key, run[i])
    ensures forall i: nat | i < n :: LayerNext(cs, key, run, ops, i)
  {
    hide PackInv, Step, Allowed, Unforged, LayerStep, Abstract, Lingers, CrashStep;
    if n > 0 {
      RunRefines(cs, key, run, ops, n - 1);
      assert Next(cs, key, run, ops, n - 1);
      if Step(cs, key, run[n - 1], ops[n - 1], run[n]) {
        StepRefines(cs, key, run[n - 1], ops[n - 1], run[n]);
      } else {
        var k :| k in Lingers(ops, n - 1) && CrashStep(run[k].store, run[n].store);
        CrashRefines(cs, key, run[k], run[n]);
      }
    }
  }

  // ---- what a crash leaves ----

  /** What `Pack::open` makes of an image, given the master key: the index, if it opens. */
  function OpenedIndex(cs: Suite, key: bytes, img: bytes): Option<Index> {
    match OpenImage(cs, key, img)
    case None => None
    case Some(m) => if |img| < DATA_START then None else LoadIndex(cs, key, img[DATA_START..], m.root)
  }

  /** The image opens, every path can be read in full, and together they are `v`. */
  ghost predicate OpensAs(cs: Suite, key: bytes, img: bytes, v: View) {
    var idx := OpenedIndex(cs, key, img);
    && |img| >= DATA_START && idx.Some?
    && IndexInv(cs, key, img[DATA_START..], idx.value)
    && Contents(cs, key, img[DATA_START..], idx.value) == v
  }

  lemma SnapOpens(cs: Suite, key: bytes, img: bytes, snap: Snapshot)
    requires |img| >= DATA_START && Recovers(cs, key, img, snap) && SnapOk(cs, key, snap)
    ensures OpensAs(cs, key, img, SnapView(cs, key, snap))
  {
    hide LoadIndex, IndexInv, Contents, OpenImage;
    var data := img[DATA_START..];
    PrefixOfRegion(img, snap.data, |img|);
    assert img[DATA_START..|img|] == data;
    LoadStays(cs, key, snap.data, data, snap.root);
    IndexStays(cs, key, snap.data, data, LoadIndex(cs, key, snap.data, snap.root).value);
  }

  /** Whatever a crash leaves opens as the committed contents or those of a commit begun since. */
  lemma {:induction false} StateRecovers(cs: Suite, key: bytes, s: PackState, img: bytes)
    requires PackInv(cs, key, s) && Unforged(cs, key, s.store) && CrashImage(s.store.disk, img)
    ensures var a := Abstract(cs, key, s);
            OpensAs(cs, key, img, a.committed) || exists v :: v in a.later && OpensAs(cs, key, img, v)
  {
    hide Inv, OpensAs, Recovers, SnapOk, SnapView, IndexInv, CrashImage, Unforged;
    assert |img| >= DATA_START by { ImageSize(cs, key, s.store, img); }
    Recovery(cs, key, s.store, img);
    if Recovers(cs, key, img, s.store.base) {
      SnapOpens(cs, key, img, s.store.base);
    } else {
      var o := SideOf(s.store.base.seqno).Other();
      var j: nat :| j < |s.store.later| && s.store.later[j].block == Block(img, o);
      SnapOpens(cs, key, img, s.store.later[j].snap);
      assert LaterViews(cs, key, s.store.later)[j] == SnapView(cs, key, s.store.later[j].snap);
    }
  }

  /** Operations that begin a commit, and those that acknowledge one. */
  predicate Begins(op: Op) { op.Commit? || op.Compact? }

  predicate Acknowledges(op: Op) { (op.Commit? && op.outcome == Reached(Done)) || (op.Compact? && op.ok) }

  /** Operation i acknowledged a commit to a file that no power loss takes from its name. */
  predicate Lasting(ops: seq<Op>, i: nat)
    requires i < |ops|
  {
    Acknowledges(ops[i]) && Lingers(ops, i + 1) == {}
  }

  /** What a power loss in state n may leave under the pack's name. */
  ghost predicate Leaves(run: seq<PackState>, ops: seq<Op>, n: nat, img: bytes)
    requires |run| == |ops| + 1 && n < |run|
  {
    CrashImage(run[n].store.disk, img) || exists k :: k in Lingers(ops, n) && CrashImage(run[k].store.disk, img)
  }

  /** `v` is what was buffered when operation k, a commit at or after operation i, began. */
  ghost predicate BegunSince(cs: Suite, key: bytes, run: seq<PackState>, ops: seq<Op>, i: nat, n: nat, v: View)
    requires |run| == |ops| + 1 && n < |run|
  {
    exists k: nat | i <= k < n :: Begins(ops[k]) && MemBounds(run[k].store) && Buffered(cs, key, run[k]) == v
  }

  /** A commit by a session that is behind fails once it has begun to write over the newest
      superblock. */
  predicate Endangers(s: PackState, op: Op) {
    && Behind(s.store)
    && op.Commit? && (op.outcome == Reached(WriteFailed) || op.outcome == Reached(FlushFailed))
  }

  /** No such commit between operations i and n. */
  predicate Steady(run: seq<PackState>, ops: seq<Op>, i: nat, n: nat)
    requires |run| == |ops| + 1 && n < |run|
  {
    forall j: nat | i < j < n :: !Endangers(run[j], ops[j])
  }

  /** `v` was begun since operation i, or is what a commit that endangered it falls back to. */
  ghost predicate Held(cs: Suite, key: bytes, run: seq<PackState>, ops: seq<Op>, i: nat, n: nat, v: View)
    requires |run| == |ops| + 1 && n < |run|
  {
    || BegunSince(cs, key, run, ops, i, n, v)
    || exists j: nat | i < j < n :: Endangers(run[j], ops[j]) && SnapView(cs, key, run[j].store.prev) == v
  }

  ghost predicate AllHeld(cs: Suite, key: bytes, run: seq<PackState>, ops: seq<Op>, i: nat, n: nat, m: nat)
    requires |run| == |ops| + 1 && n < |run| && m < |run|
  {
    var a := Abstract(cs, key, run[m]);
    Held(cs, key, run, ops, i, n, a.committed) && forall v | v in a.later :: Held(cs, key, run, ops, i, n, v)
  }

  lemma {:induction false} LingersAfter(ops: seq<Op>, i: nat, n: nat)
    requires i <= n <= |ops| && Lingers(ops, i) == {}
    ensures forall k | k in Lingers(ops, n) :: i <= k < n
    decreases n
  {
    if i < n {
      LingersAfter(ops, i, n - 1);
    }
  }

  lemma {:induction false} Origins(cs: Suite, key: bytes, run: seq<PackState>, ops: seq<Op>, i: nat, n: nat)
    requires IsRun(cs, key, run, ops) && i < n < |run| && Lasting(ops, i)
    ensures AllHeld(cs, key, run, ops, i, n, n)
    decreases n
  {
    hide PackInv, Step, Allowed, Unforged, Abstract, Held, Lingers, CrashStep;
    RunRefines(cs, key, run, ops, n);
    assert LayerNext(cs, key, run, ops, n - 1);
    if LayerStep(Abstract(cs, key, run[n - 1]), ops[n - 1], Abstract(cs, key, run[n])) {
      OriginsStep(cs, key, run, ops, i, n);
    } else {
      assert n > i + 1;
      LingersAfter(ops, i + 1, n - 1);
      var k :| k in Lingers(ops, n - 1) && LayerStep(Abstract(cs, key, run[k]), Crash, Abstract(cs, key, run[n]));
      Origins(cs, key, run, ops, i, k);
      OlderOrigins(cs, key, run, ops, i, k, n);
    }
  }

  lemma {:induction false} OriginsStep(cs: Suite, key: bytes, run: seq<PackState>, ops: seq<Op>, i: nat, n: nat)
    requires |run| == |ops| + 1 && IsRun(cs, key, run, ops) && i < n < |run| && Lasting(ops, i)
    requires LayerStep(Abstract(cs, key, run[n - 1]), ops[n - 1], Abstract(cs, key, run[n]))
    ensures AllHeld(cs, key, run, ops, i, n, n)
    decreases n, 0
  {
    hide IsRun, Abstract, Buffered, MemBounds, Held, Lingers, SnapView, LayerStep;
    AbstractLayers(cs, key, run[n - 1]);
    if Begins(ops[n - 1]) {
      NewOrigin(cs, key, run, ops, i, n);
    }
    if n > i + 1 {
      Origins(cs, key, run, ops, i, n - 1);
      OlderOrigins(cs, key, run, ops, i, n - 1, n);
      if Endangers(run[n - 1], ops[n - 1]) {
        FallenBack(cs, key, run, ops, i, n, n - 1);
      }
    }
    LayersFrom(Abstract(cs, key, run[n - 1]), ops[n - 1], Abstract(cs, key, run[n]));
  }

  /** Where the committed contents, and those of the commits begun since, come from in one step. */
  lemma LayersFrom(a: Layers, op: Op, a': Layers)
    requires LayerStep(a, op, a')
    ensures Source(a, op, a'.committed) && forall v | v in a'.later :: Source(a, op, v)
  {
    hide Normalize, MoveView, CopyView;
    forall v | v in a'.later
      ensures Source(a, op, v)
    {
    }
  }

  ghost predicate Source(a: Layers, op: Op, v: View) {
    || (Begins(op) && a.buffered == Some(v))
    || (!Acknowledges(op) && (v == a.committed || v in a.later))
    || (v == a.previous && a.behind && op.Commit?
        && (op.outcome == Reached(WriteFailed) || op.outcome == Reached(FlushFailed)))
  }

  lemma AbstractLayers(cs: Suite, key: bytes, s: PackState)
    ensures var a := Abstract(cs, key, s);
            && (a.buffered.Some? ==> MemBounds(s.store) && a.buffered.value == Buffered(cs, key, s))
            && a.behind == Behind(s.store) && a.previous == SnapView(cs, key, s.store.prev)
            && a.committed == SnapView(cs, key, s.store.base)
  {
  }

  lemma NewOrigin(cs: Suite, key: bytes, run: seq<PackState>, ops: seq<Op>, i: nat, n: nat)
    requires |run| == |ops| + 1 && i < n < |run| && Begins(ops[n - 1])
    ensures MemBounds(run[n - 1].store) ==> Held(cs, key, run, ops, i, n, Buffered(cs, key, run[n - 1]))
  {
    hide SnapView;
    if MemBounds(run[n - 1].store) {
      assert BegunSince(cs, key, run, ops, i, n, Buffered(cs, key, run[n - 1]));
    }
  }

  lemma FallenBack(cs: Suite, key: bytes, run: seq<PackState>, ops: seq<Op>, i: nat, n: nat, j: nat)
    requires |run| == |ops| + 1 && i < j < n < |run| && Endangers(run[j], ops[j])
    ensures Held(cs, key, run, ops, i, n, SnapView(cs, key, run[j].store.prev))
  {
    hide SnapView, Endangers;
  }

  lemma OlderOrigins(cs: Suite, key: bytes, run: seq<PackState>, ops: seq<Op>, i: nat, m: nat, n: nat)
    requires |run| == |ops| + 1 && i <= m <= n < |run|
    ensures forall v | Held(cs, key, run, ops, i, m, v) :: Held(cs, key, run, ops, i, n, v)
  {
    hide Buffered, MemBounds, SnapView, Endangers;
    forall v | Held(cs, key, run, ops, i, m, v)
      ensures Held(cs, key, run, ops, i, n, v)
    {
      if BegunSince(cs, key, run, ops, i, m, v) {
        var k: nat :| i <= k < m && Begins(ops[k]) && MemBounds(run[k].store) && Buffered(cs, key, run[k]) == v;
        assert BegunSince(cs, key, run, ops, i, n, v);
      }
    }
  }

  /** What a power loss can leave, in every run. Take any commit i acknowledged in it; cut the
      power at any later state n, keeping any bytes of any unsynced writes and perhaps taking
      back replacements of the file. What is left opens, every path in it can be read in full,
      and the contents are exactly those buffered when commit i, or a commit begun after it,
      was made; or else those of the commit before the newest durable one at a moment when a
      session that was behind it failed to write over its superblock. */
  lemma {:induction false} CrashOutcome(cs: Suite, key: bytes, run: seq<PackState>, ops: seq<Op>, i: nat, n: nat,
                                        img: bytes)
    requires IsRun(cs, key, run, ops) && i < n < |run| && Lasting(ops, i)
    requires Leaves(run, ops, n, img)
    ensures || (exists k: nat | i <= k < n ::
                  Begins(ops[k]) && MemBounds(run[k].store) && OpensAs(cs, key, img, Buffered(cs, key, run[k])))
            || (exists j: nat | i < j < n ::
                  Endangers(run[j], ops[j]) && OpensAs(cs, key, img, SnapView(cs, key, run[j].store.prev)))
  {
    hide PackInv, Next, Allowed, CrashImage, Abstract, Held, OpensAs, Lingers, Unforged;
    RunRefines(cs, key, run, ops, n);
    LingersAfter(ops, i + 1, n);
    var m := n;
    if !CrashImage(run[n].store.disk, img) {
      m :| m in Lingers(ops, n) && CrashImage(run[m].store.disk, img);
    }
    StateRecovers(cs, key, run[m], img);
    Origins(cs, key, run, ops, i, m);
    OlderOrigins(cs, key, run, ops, i, m, n);
    var a := Abstract(cs, key, run[m]);
    var v :| (v == a.committed || v in a.later) && OpensAs(cs, key, img, v);
    HeldOpens(cs, key, run, ops, i, n, img, v);
  }

  lemma HeldOpens(cs: Suite, key: bytes, run: seq<PackState>, ops: seq<Op>, i: nat, n: nat, img: bytes, v: View)
    requires |run| == |ops| + 1 && n < |run| && Held(cs, key, run, ops, i, n, v) && OpensAs(cs, key, img, v)
    ensures || (exists k: nat | i <= k < n ::
                  Begins(ops[k]) && MemBounds(run[k].store) && OpensAs(cs, key, img, Buffered(cs, key, run[k])))
            || (exists j: nat | i < j < n ::
                  Endangers(run[j], ops[j]) && OpensAs(cs, key, img, SnapView(cs, key, run[j].store.prev)))
  {
    hide OpensAs, Buffered, MemBounds, SnapView, Endangers;
  }

  /** Crash atomicity over whole runs: unless a session that is behind the newest durable
      commit fails to write over its superblock, a power loss gives back exactly what an
      acknowledged commit, or one begun after it, was made of, and never a mixture. */
  lemma {:induction false} CrashAtomicity(cs: Suite, key: bytes, run: seq<PackState>, ops: seq<Op>, i: nat, n: nat,
                                          img: bytes)
    requires IsRun(cs, key, run, ops) && i < n < |run| && Lasting(ops, i) && Steady(run, ops, i, n)
    requires Leaves(run, ops, n, img)
    ensures exists k: nat | i <= k < n ::
              Begins(ops[k]) && MemBounds(run[k].store) && OpensAs(cs, key, img, Buffered(cs, key, run[k]))
  {
    hide PackInv, Next, Allowed, Unforged, Leaves, Lasting, Buffered, MemBounds, OpensAs, SnapView, Endangers;
    CrashOutcome(cs, key, run, ops, i, n, img);
  }

  /** If no commit was begun after the acknowledged one, a crash or a close gives back
      exactly what it committed. */
  lemma {:induction false} AcknowledgedSurvives(cs: Suite, key: bytes, run: seq<PackState>, ops: seq<Op>, i: nat,
                                                n: nat, img: bytes)
    requires IsRun(cs, key, run, ops) && i < n < |run| && Lasting(ops, i)
    requires forall k: nat | i < k < n :: !Begins(ops[k])
    requires Leaves(run, ops, n, img)
    ensures MemBounds(run[i].store) && OpensAs(cs, key, img, Buffered(cs, key, run[i]))
  {
    hide PackInv, Next, Allowed, Unforged, Leaves, Lasting, Buffered, MemBounds, OpensAs;
    CrashAtomicity(cs, key, run, ops, i, n, img);
    var k: nat :| i <= k < n && Begins(ops[k]) && MemBounds(run[k].store)
        && OpensAs(cs, key, img, Buffered(cs, key, run[k]));
    assert k == i;
  }

  // ---- the exact cost of committing from behind ----

  /** A session that is behind fails to commit, and the power goes: the newest durable commit
      is lost if and only if its superblock is no longer valid; then the commit before, which
      is what that session had opened, is back in full. Otherwise the newest durable commit
      or the new one is there, in full. */
  lemma {:induction false} LostExactly(cs: Suite, key: bytes, s: PackState, op: Op, s': PackState, img: bytes)
    requires PackInv(cs, key, s) && Step(cs, key, s, op, s') && Allowed(cs, key, s, op) && Endangers(s, op)
    requires Unforged(cs, key, s'.store) && CrashImage(s'.store.disk, img)
    ensures |img| >= DATA_START && OpenImage(cs, key, img).Some?
    ensures var newest, st := DecodeSb(cs, key, Block(img, SideOf(s.store.base.seqno))), s.store;
            && (newest.None? <==> OpenImage(cs, key, img).value.seqno < st.base.seqno)
            && (newest.None? ==> OpensAs(cs, key, img, SnapView(cs, key, st.prev)))
            && (newest.Some? ==>
                  OpensAs(cs, key, img, SnapView(cs, key, st.base)) || OpensAs(cs, key, img, Buffered(cs, key, s)))
  {
    hide PackInv, CommitOp, CrashImage, Unforged, OpenImage, DecodeSb, Block, OpensAs, SnapView, Fits, Abstract,
         LayerStep, Behind;
    CommitRefines(cs, key, s, s', op.nonceM, op.nonceS, op.outcome);
    FailedParts(cs, key, s, s', op);
    EndangeredImage(cs, key, s, s', op.nonceM, op.nonceS, op.outcome.fate, img);
    if DecodeSb(cs, key, Block(img, SideOf(s.store.base.seqno))).None? {
      PrevOpens(cs, key, s, img);
    } else {
      LaterOpens(cs, key, s', img, SnapView(cs, key, s.store.base), Buffered(cs, key, s));
    }
  }

  lemma FailedParts(cs: Suite, key: bytes, s: PackState, s': PackState, op: Op)
    requires Endangers(s, op) && LayerStep(Abstract(cs, key, s), op, Abstract(cs, key, s'))
    ensures MemBounds(s.store)
    ensures LaterViews(cs, key, s'.store.later) == [SnapView(cs, key, s.store.base), Buffered(cs, key, s)]
  {
    hide SnapView, Buffered, LaterViews, MemBounds;
  }

  lemma PrevOpens(cs: Suite, key: bytes, s: PackState, img: bytes)
    requires PackInv(cs, key, s) && |img| >= DATA_START && Recovers(cs, key, img, s.store.prev)
    ensures OpensAs(cs, key, img, SnapView(cs, key, s.store.prev))
  {
    hide Inv, Recovers, SnapOk, OpensAs, SnapView;
    SnapOpens(cs, key, img, s.store.prev);
  }

  /** An image on which the store does not open at the newest durable commit holds one begun since. */
  lemma {:induction false} LaterOpens(cs: Suite, key: bytes, s: PackState, img: bytes, v: View, w: View)
    requires PackInv(cs, key, s) && Unforged(cs, key, s.store) && CrashImage(s.store.disk, img) && |img| >= DATA_START
    requires LaterViews(cs, key, s.store.later) == [v, w] && OpenImage(cs, key, img).Some?
    requires OpenImage(cs, key, img).value.seqno != s.store.base.seqno
    ensures OpensAs(cs, key, img, v) || OpensAs(cs, key, img, w)
  {
    hide Inv, OpenImage, OpensAs, SnapOk, SnapView, IndexInv, CrashImage, Unforged;
    Recovery(cs, key, s.store, img);
    var o := SideOf(s.store.base.seqno).Other();
    var j: nat :| j < |s.store.later| && s.store.later[j].block == Block(img, o);
    SnapOpens(cs, key, img, s.store.later[j].snap);
    assert LaterViews(cs, key, s.store.later)[j] == SnapView(cs, key, s.store.later[j].snap);
  }

  lemma {:induction false} EndangeredImage(cs: Suite, key: bytes, s: PackState, s': PackState,
                                           nonceM: bytes, nonceS: bytes, fate: Fate, img: bytes)
    requires PackInv(cs, key, s) && MemBounds(s.store) && Behind(s.store) && s.store.mem.value.seqno + 1 < U64_LIMIT
    requires CommitOp(cs, key, s, s', nonceM, nonceS, Reached(fate)) && (fate == WriteFailed || fate == FlushFailed)
    requires |nonceM| == |nonceS| == NONCE && Unforged(cs, key, s'.store) && CrashImage(s'.store.disk, img)
    ensures |img| >= DATA_START && OpenImage(cs, key, img).Some?
    ensures var st, newest := s.store, DecodeSb(cs, key, Block(img, SideOf(s.store.base.seqno)));
            && (newest.None? <==> OpenImage(cs, key, img).value.seqno < st.base.seqno)
            && (newest.None? ==> Recovers(cs, key, img, st.prev))
            && s'.store.base == st.prev && st.prev.seqno < st.base.seqno
  {
    hide Inv, Seal, IndexInv, Contents, SnapsOk, Cache, Data, Serialize, Unforged, CommitStep, CrashImage, OpenImage,
         DecodeSb, Block, Recovers;
    var rec := Seal(cs, key, nonceM, Serialize(s.index));
    var mid: State :| Flushed(cs, key, s.store, mid, s'.store, rec, nonceS, fate);
    var off := s.store.mem.value.fileSize;
    AppendInv(cs, key, s.store, mid, rec, off);
    AppendedHistory(s.store, mid, rec, off);
    MemFacts(cs, key, s.store);
    SurvivesExactly(cs, key, mid, s'.store, Root(off, |rec|), nonceS, fate, img);
    DemotedBase(cs, key, mid, s'.store, Root(off, |rec|), nonceS, fate);
  }

  /** And it can be lost: there is such an image as soon as what was written over the newest
      superblock differs from it in two bytes. */
  lemma {:induction false} CanLose(cs: Suite, key: bytes, s: PackState, op: Op, s': PackState, i: nat, j: nat)
    requires PackInv(cs, key, s) && Step(cs, key, s, op, s') && Allowed(cs, key, s, op) && Endangers(s, op)
    requires Unforged(cs, key, s'.store) && |Cache(s.store.disk)| >= DATA_START && |Cache(s'.store.disk)| >= DATA_START
    requires i < j < SB_SIZE
    requires var side := SideOf(s.store.base.seqno);
             var was, now := Block(Cache(s.store.disk), side), Block(Cache(s'.store.disk), side);
             was[i] != now[i] && was[j] != now[j]
    ensures exists img :: CrashImage(s'.store.disk, img) && OpensAs(cs, key, img, SnapView(cs, key, s.store.prev))
  {
    hide Inv, Seal, IndexInv, Contents, SnapsOk, Cache, Data, Serialize, Unforged, CommitStep, CrashImage, Recovers,
         OpensAs, SnapView, Fits, Block;
    var rec, off := Seal(cs, key, op.nonceM, Serialize(s.index)), s.store.mem.value.fileSize;
    var mid: State :| Flushed(cs, key, s.store, mid, s'.store, rec, op.nonceS, op.outcome.fate);
    AppendInv(cs, key, s.store, mid, rec, off);
    AppendedHistory(s.store, mid, rec, off);
    AppendedBlocks(cs, key, s.store, mid, rec, off);
    LossPossible(cs, key, mid, s'.store, Root(off, |rec|), op.nonceS, op.outcome.fate, i, j);
    var img :| CrashImage(s'.store.disk, img) && Recovers(cs, key, img, s.store.prev);
    EndangeredImage(cs, key, s, s', op.nonceM, op.nonceS, op.outcome.fate, img);
    PrevOpens(cs, key, s, img);
  }

  lemma AppendedBlocks(cs: Suite, key: bytes, st: State, st': State, data: bytes, off: nat)
    requires Inv(cs, key, st) && MemBounds(st) && AppendStep(st, st', data, off)
    ensures |Cache(st.disk)| >= DATA_START && |Cache(st'.disk)| >= DATA_START
    ensures forall side: Side :: Block(Cache(st'.disk), side) == Block(Cache(st.disk), side)
  {
    hide Inv, Replay;
    MemFacts(cs, key, st);
    if data != [] {
      var k: nat :| Issued(st.disk, st'.disk, st.mem.value.fileSize, data, k);
      IssuedBeyond(st, st'.disk, st.mem.value.fileSize, data, k);
    }
  }

  lemma AppendedHistory(st: State, st': State, data: bytes, off: nat)
    requires st.mem.Some? && AppendStep(st, st', data, off)
    ensures st'.mem.Some? && st'.mem.value.seqno == st.mem.value.seqno && (Behind(st') <==> Behind(st))
    ensures st'.base == st.base && st'.prev == st.prev && st'.later == st.later && st'.live == st.live
  {
  }

  lemma DemotedBase(cs: Suite, key: bytes, st: State, st': State, root: Root, nonce: bytes, fate: Fate)
    requires MemBounds(st) && Behind(st) && CommitStep(cs, key, st, st', root, nonce, fate)
    requires fate == WriteFailed || fate == FlushFailed
    ensures st'.base == st.prev
  {
    hide SbBlock, Issued, Cache, NewSnapshot;
  }

  /** The same in whole runs. Up to the first such failure crash atomicity holds; of what that
      failure leaves, it holds of exactly those images in which the newest superblock is valid,
      in the sense of the sequence numbers, and the others hold the commit before in full. */
  lemma {:induction false} AtomicExactly(cs: Suite, key: bytes, run: seq<PackState>, ops: seq<Op>, i: nat, j: nat,
                                         img: bytes)
    requires IsRun(cs, key, run, ops) && i < j < |ops| && Lasting(ops, i) && Steady(run, ops, i, j)
    requires Endangers(run[j], ops[j]) && CrashImage(run[j + 1].store.disk, img)
    ensures |img| >= DATA_START && OpenImage(cs, key, img).Some?
    ensures var newest, st := DecodeSb(cs, key, Block(img, SideOf(run[j].store.base.seqno))), run[j].store;
            && (newest.None? <==> OpenImage(cs, key, img).value.seqno < st.base.seqno)
            && (newest.None? ==> OpensAs(cs, key, img, SnapView(cs, key, st.prev)))
            && (newest.Some? ==> exists k: nat | i <= k <= j ::
                  Begins(ops[k]) && MemBounds(run[k].store) && OpensAs(cs, key, img, Buffered(cs, key, run[k])))
  {
    hide PackInv, Step, Allowed, CrashImage, Held, OpensAs, Lingers, Unforged, OpenImage, DecodeSb, Block, SnapView,
         Buffered, MemBounds, Acknowledges, Endangers, Abstract;
    RunRefines(cs, key, run, ops, j);
    assert Next(cs, key, run, ops, j);
    assert !ops[j].Crash? && ops[j].Commit? by { EndangersCommit(run[j], ops[j]); }
    LostExactly(cs, key, run[j], ops[j], run[j + 1], img);
    Origins(cs, key, run, ops, i, j);
    AbstractLayers(cs, key, run[j]);
    StepBounds(cs, key, run[j], ops[j], run[j + 1]);
    if OpensAs(cs, key, img, SnapView(cs, key, run[j].store.base)) {
      HeldOpens(cs, key, run, ops, i, j, img, SnapView(cs, key, run[j].store.base));
    }
  }

  lemma EndangersCommit(s: PackState, op: Op)
    requires Endangers(s, op)
    ensures op.Commit? && Begins(op)
  {
  }

  lemma StepBounds(cs: Suite, key: bytes, s: PackState, op: Op, s': PackState)
    requires Step(cs, key, s, op, s') && op.Commit?
    ensures MemBounds(s.store)
  {
    hide CommitOp;
  }

  // ---- replacements that are not durable ----

  /** As long as a replaced file lingers, a power loss can bring it back: the pack then opens
      as what was committed in it, and commits acknowledged since are gone. */
  lemma {:induction false} LingerLoses(cs: Suite, key: bytes, run: seq<PackState>, ops: seq<Op>, n: nat, k: nat)
    requires IsRun(cs, key, run, ops) && n < |run| && k in Lingers(ops, n)
    ensures var a := Abstract(cs, key, run[k]);
            exists img ::
              && Leaves(run, ops, n, img)
              && (OpensAs(cs, key, img, a.committed) || exists v :: v in a.later && OpensAs(cs, key, img, v))
  {
    hide PackInv, Next, Allowed, CrashImage, Abstract, OpensAs, Lingers, Unforged;
    RunRefines(cs, key, run, ops, n);
    var img := Cache(run[k].store.disk);
    CacheIsImage(run[k].store.disk);
    StateRecovers(cs, key, run[k], img);
    assert Leaves(run, ops, n, img);
  }

  // ---- power cuts in the middle of an operation ----

  /** The calls that write to the file. */
  datatype Call = Putting | Committing | Rekeying

  predicate Under(call: Call, op: Op) {
    match call
    case Putting => op.Put?
    case Committing => op.Commit?
    case Rekeying => op.WriteSlot?
  }

  /** Such a call on `s` could have ended with the file in state d. */
  ghost predicate During(cs: Suite, key: bytes, s: PackState, call: Call, d: Disk) {
    exists op: Op, s': PackState ::
      Under(call, op) && Sane(cs, key, s, op) && Step(cs, key, s, op, s') && s'.store.disk == d
  }

  lemma DuringBy(cs: Suite, key: bytes, s: PackState, call: Call, op: Op, s': PackState, d: Disk)
    requires Under(call, op) && Sane(cs, key, s, op) && Step(cs, key, s, op, s') && s'.store.disk == d
    ensures During(cs, key, s, call, d)
  {
    hide Sane, Step;
  }

  /** Cutting the power while an operation is under way: the file is in a state that an
      operation could have ended in, and what is left of it opens, in full, as the contents
      buffered when commit i, or a commit begun after it, was made. */
  lemma {:induction false} PowerCut(cs: Suite, key: bytes, run: seq<PackState>, ops: seq<Op>, i: nat,
                                    op: Op, mid: PackState, img: bytes)
    requires IsRun(cs, key, run, ops) && i < |ops| && Lasting(ops, i)
    requires Steady(run, ops, i, |ops|) && !Endangers(run[|ops|], op)
    requires !op.Open? && !op.Compact? && Step(cs, key, run[|ops|], op, mid) && Allowed(cs, key, run[|ops|], op)
    requires Unforged(cs, key, mid.store) && CrashImage(mid.store.disk, img)
    ensures exists k: nat | i <= k <= |ops| ::
              && (if k < |ops| then Begins(ops[k]) else Begins(op))
              && MemBounds(run[k].store) && OpensAs(cs, key, img, Buffered(cs, key, run[k]))
  {
    hide PackInv, Next, Step, Allowed, CrashImage, Buffered, MemBounds, OpensAs, Unforged, Lingers, Acknowledges,
         Endangers;
    var run', ops' := run + [mid], ops + [op];
    LongerRun(cs, key, run, ops, op, mid);
    SameLingers(ops, op, i + 1);
    CrashAtomicity(cs, key, run', ops', i, |ops| + 1, img);
    var k: nat :| i <= k < |ops| + 1 && Begins(ops'[k]) && MemBounds(run'[k].store)
        && OpensAs(cs, key, img, Buffered(cs, key, run'[k]));
    assert run'[k] == run[k];
  }

  lemma {:induction false} SameLingers(ops: seq<Op>, op: Op, n: nat)
    requires n <= |ops|
    ensures Lingers(ops + [op], n) == Lingers(ops, n)
  {
    if n > 0 {
      SameLingers(ops, op, n - 1);
    }
  }

  lemma {:induction false} LongerRun(cs: Suite, key: bytes, run: seq<PackState>, ops: seq<Op>, op: Op, s: PackState)
    requires IsRun(cs, key, run, ops) && Unforged(cs, key, s.store)
    requires Step(cs, key, run[|ops|], op, s) && Allowed(cs, key, run[|ops|], op)
    ensures IsRun(cs, key, run + [s], ops + [op])
  {
    hide PackInv, Step, Allowed, Unforged, CrashStep, Lingers;
    var run', ops' := run + [s], ops + [op];
    forall i: nat | i < |ops'|
      ensures Next(cs, key, run', ops', i) && Allowed(cs, key, run'[i], ops'[i])
    {
      if i < |ops| {
        assert run'[i] == run[i] && run'[i + 1] == run[i + 1] && ops'[i] == ops[i];
        assert Next(cs, key, run, ops, i);
        SameLingers(ops, op, i);
      }
    }
    assert forall i: nat | i < |run'| :: run'[i] == if i < |run| then run[i] else s;
  }

  // ---- append-only over runs ----

  /** Every operation but compaction leaves the data regions of the commits it keeps where they
      are on stable storage. */
  lemma {:induction false} StepKept(cs: Suite, key: bytes, s: PackState, op: Op, s': PackState, snap: Snapshot)
    requires PackInv(cs, key, s) && Unforged(cs, key, s.store) && Allowed(cs, key, s, op)
    requires Step(cs, key, s, op, s') && !op.Compact? && Kept(s.store, snap)
    ensures Kept(s'.store, snap)
  {
    hide Inv, IndexInv, Contents, Cache, Data, SnapsOk, CommitOp, Normalize, OpenAnyStep, FileIndex, Unforged, Kept,
         CrashStep, WriteSlotStep, AppendStep, DelIndex, MoveIndex, CopyIndex, Repoint, NoCollision, Fits;
    match op
    case Put(path, data, now, nonce, ok) =>
      if s'.store != s.store {
        AppendKept(s.store, s'.store, Seal(cs, key, nonce, data), if ok then s.store.mem.value.fileSize else 0, snap);
      }
    case Commit(nonceM, nonceS, outcome) => CommitOpKept(cs, key, s, s', nonceM, nonceS, outcome, snap);
    case WriteSlot(idx, content, ok) => WriteSlotKept(s.store, s'.store, idx, content, ok, snap);
    case Crash => CrashKept(s.store, s'.store, snap);
    case Close => ClosedKept(s.store, snap);
    case Open(readA, readB) =>
      OpenAnyInv(cs, key, s.store, s'.store, readA, readB);
      OpenedKept(s.store, s'.store, snap);
    case _ =>
  }

  lemma ClosedKept(st: State, snap: Snapshot)
    requires Kept(st, snap)
    ensures Kept(CloseState(st), snap)
  {
  }

  lemma OpenedKept(st: State, st': State, snap: Snapshot)
    requires Kept(st, snap) && st'.disk == st.disk && st'.mem.Some? && st'.mem.value.fileSize == |Cache(st.disk)|
    ensures Kept(st', snap)
  {
  }

  lemma {:induction false} CommitOpKept(cs: Suite, key: bytes, s: PackState, s': PackState,
                                        nonceM: bytes, nonceS: bytes, outcome: Outcome, snap: Snapshot)
    requires MemBounds(s.store) && CommitOp(cs, key, s, s', nonceM, nonceS, outcome) && |nonceS| == NONCE
    requires s.store.mem.value.seqno + 1 < U64_LIMIT && Kept(s.store, snap)
    ensures Kept(s'.store, snap)
  {
    hide Cache, Data, CommitStep, Seal, Serialize, Kept, AppendStep;
    var rec := Seal(cs, key, nonceM, Serialize(s.index));
    var off := s.store.mem.value.fileSize;
    if outcome != NoRecord {
      var mid: State :| Flushed(cs, key, s.store, mid, s'.store, rec, nonceS, outcome.fate);
      AppendKept(s.store, mid, rec, off, snap);
      AppendedHistory(s.store, mid, rec, off);
      CommitKept(cs, key, mid, s'.store, Root(off, |rec|), nonceS, outcome.fate, snap);
    } else if s'.store != s.store {
      AppendKept(s.store, s'.store, rec, 0, snap);
    }
  }

  /** Append-only safety: as long as no compaction replaces the file, every byte of the data
      region of a durable commit, and so its manifest and every blob it refers to, stays
      at its place on stable storage, through commits that fail, crashes, and reopenings on
      whichever superblock; and so does that of the commit before, and of every one begun. */
  lemma {:induction false} NeverOverwritten(cs: Suite, key: bytes, run: seq<PackState>, ops: seq<Op>, i: nat, n: nat)
    requires IsRun(cs, key, run, ops) && i <= n < |run| && Lingers(ops, i) == {}
    requires forall k: nat | i <= k < n :: !ops[k].Compact?
    ensures forall snap | Kept(run[i].store, snap) :: Kept(run[n].store, snap)
    ensures Lingers(ops, n) == {}
    ensures Holds(run[n].store.disk.durable, run[i].store.base.data)
    decreases n
  {
    hide Step, Allowed, Unforged, Inv, SnapsOk, IndexInv, CrashStep, Kept;
    RunRefines(cs, key, run, ops, n);
    if i < n {
      NeverOverwritten(cs, key, run, ops, i, n - 1);
      assert Next(cs, key, run, ops, n - 1);
      forall snap | Kept(run[i].store, snap)
        ensures Kept(run[n].store, snap)
      {
        StepKept(cs, key, run[n - 1], ops[n - 1], run[n], snap);
      }
    }
    BaseKept(cs, key, run[i].store);
    KeptHolds(run[n].store, run[i].store.base);
  }

  lemma BaseKept(cs: Suite, key: bytes, st: State)
    requires Inv(cs, key, st)
    ensures Kept(st, st.base)
  {
  }

  lemma KeptHolds(st: State, snap: Snapshot)
    requires Kept(st, snap)
    ensures Holds(st.disk.durable, snap.data)
  {
  }

  /** A commit that writes its superblock over the newest one. */
  predicate WritesOver(s: PackState, op: Op) {
    Behind(s.store) && op.Commit? && op.outcome != NoRecord && op.outcome.fate in {WriteFailed, FlushFailed, Done}
  }

  lemma {:induction false} StepGrows(cs: Suite, key: bytes, s: PackState, op: Op, s': PackState)
    requires PackInv(cs, key, s) && Step(cs, key, s, op, s') && !op.Compact? && !WritesOver(s, op)
    ensures Grows(s.store, s'.store)
  {
    hide Inv, IndexInv, Contents, Cache, Data, SnapsOk, Issued, CommitStep, Normalize, OpenReads, Splice, LoadIndex,
         FileIndex, CommitOp, DelIndex, MoveIndex, CopyIndex, Repoint;
    match op
    case Commit(nonceM, nonceS, outcome) => CommitOpGrows(cs, key, s, s', nonceM, nonceS, outcome);
    case WriteSlot(idx, content, ok) => SyncGrows(cs, key, s.store);
    case Open(readA, readB) => OpenAnyGrows(cs, key, s.store, s'.store, readA, readB);
    case _ =>
  }

  lemma {:induction false} OpenAnyGrows(cs: Suite, key: bytes, st: State, st': State, readA: bool, readB: bool)
    requires Inv(cs, key, st) && OpenAnyStep(cs, key, st, st', readA, readB)
    ensures Grows(st, st')
  {
    hide Inv, OpenReads, OpenStep, Cache;
    if st'.mem == OpenImage(cs, key, Cache(st.disk)) {
      OpenGrows(cs, key, st, st');
    }
  }

  lemma {:induction false} CommitOpGrows(cs: Suite, key: bytes, s: PackState, s': PackState,
                                         nonceM: bytes, nonceS: bytes, outcome: Outcome)
    requires PackInv(cs, key, s) && MemBounds(s.store) && CommitOp(cs, key, s, s', nonceM, nonceS, outcome)
    requires !WritesOver(s, Commit(nonceM, nonceS, outcome))
    ensures Grows(s.store, s'.store)
  {
    hide Inv, IndexInv, Cache, Data, SnapsOk, Issued, CommitStep, Seal, Serialize, AppendStep;
    var rec := Seal(cs, key, nonceM, Serialize(s.index));
    if outcome != NoRecord {
      var mid: State :| Flushed(cs, key, s.store, mid, s'.store, rec, nonceS, outcome.fate);
      AppendInv(cs, key, s.store, mid, rec, s.store.mem.value.fileSize);
      AppendedHistory(s.store, mid, rec, s.store.mem.value.fileSize);
      CommitGrows(cs, key, mid, s'.store, Root(s.store.mem.value.fileSize, |rec|), nonceS, outcome.fate);
    } else if s'.store != s.store {
      AppendedHistory(s.store, s'.store, rec, 0);
    }
  }

  /** Nor does the newest durable commit ever go back, unless a session that is behind it
      writes over its superblock. */
  lemma {:induction false} NeverBack(cs: Suite, key: bytes, run: seq<PackState>, ops: seq<Op>, i: nat, n: nat)
    requires IsRun(cs, key, run, ops) && i <= n < |run| && Lingers(ops, i) == {}
    requires forall k: nat | i <= k < n :: !ops[k].Compact? && !WritesOver(run[k], ops[k])
    ensures Grows(run[i].store, run[n].store) && Lingers(ops, n) == {}
    decreases n
  {
    hide Step, Allowed, Unforged, PackInv, CrashStep, Grows, WritesOver;
    RunRefines(cs, key, run, ops, n);
    if i < n {
      NeverBack(cs, key, run, ops, i, n - 1);
      assert Next(cs, key, run, ops, n - 1);
      StepGrows(cs, key, run[n - 1], ops[n - 1], run[n]);
      GrowsTrans(run[i].store, run[n - 1].store, run[n].store);
    } else {
      GrowsRefl(run[n].store);
    }
  }

  lemma GrowsRefl(a: State)
    ensures Grows(a, a)
  {
  }

  lemma GrowsTrans(a: State, b: State, c: State)
    requires Grows(a, b) && Grows(b, c)
    ensures Grows(a, c) && a.base.data <= c.base.data
  {
  }

  /** Everything a readable commit refers to lies in its data region. */
  lemma ExtentsInside(cs: Suite, key: bytes, snap: Snapshot, h: bytes)
    requires SnapOk(cs, key, snap)
    requires h in LoadIndex(cs, key, snap.data, snap.root).value.blobs
    ensures var ref := LoadIndex(cs, key, snap.data, snap.root).value.blobs[h];
            DATA_START <= ref.offset && ref.offset + ref.encSize <= DATA_START + |snap.data|
    ensures DATA_START <= snap.root.offset && snap.root.offset + snap.root.len <= DATA_START + |snap.data|
  {
    hide Unseal, Deserialized;
    var idx := LoadIndex(cs, key, snap.data, snap.root).value;
    assert Sound(cs, key, snap.data, h, idx.blobs[h]);
    InBounds(cs, key, snap.data, idx.blobs[h]);
  }

  lemma RootInside(cs: Suite, key: bytes, snap: Snapshot)
    requires SnapOk(cs, key, snap)
    ensures snap.root.len == 0
            || (DATA_START <= snap.root.offset && snap.root.offset + snap.root.len <= DATA_START + |snap.data|)
  {
    hide Unseal, Deserialized, IndexInv;
  }

  lemma LiveSnap(cs: Suite, key: bytes, st: State)
    requires Inv(cs, key, st) && st.mem.Some? && SnapsOk(cs, key, st)
    ensures SnapOk(cs, key, st.live) && st.mem.value.root == st.live.root
    ensures DATA_START + |st.live.data| <= st.mem.value.fileSize
  {
    hide SnapOk, Anchored, Placed;
    MemFacts(cs, key, st);
  }

  /** In every state of every run with the pack open, the manifest it stands on and every
      blob of its index, committed or not, lie between the superblocks and the position
      of the next append. */
  lemma {:induction false} OpenExtents(cs: Suite, key: bytes, run: seq<PackState>, ops: seq<Op>, n: nat)
    requires IsRun(cs, key, run, ops) && n < |run| && run[n].store.mem.Some?
    ensures var m, blobs := run[n].store.mem.value, run[n].index.blobs;
            && (m.root.len == 0 || (DATA_START <= m.root.offset && m.root.offset + m.root.len <= m.fileSize))
            && forall h | h in blobs ::
               DATA_START <= blobs[h].offset && blobs[h].offset + blobs[h].encSize <= m.fileSize
  {
    hide Next, Allowed, Unforged, Inv, SnapsOk, SnapOk, ReadBlob, Cache;
    RunRefines(cs, key, run, ops, n);
    var s := run[n];
    LiveSnap(cs, key, s.store);
    RootInside(cs, key, s.store.live);
    forall h | h in s.index.blobs
      ensures DATA_START <= s.index.blobs[h].offset
              && s.index.blobs[h].offset + s.index.blobs[h].encSize <= s.store.mem.value.fileSize
    {
      assert Sound(cs, key, Data(s.store), h, s.index.blobs[h]);
      InBounds(cs, key, Data(s.store), s.index.blobs[h]);
    }
  }

  // ---- runs start, and can always resume ----

  lemma CreatedPack(cs: Suite, key: bytes, kdf: Kdf, nonceA: bytes, nonceB: bytes)
    requires |nonceA| == |nonceB| == NONCE && ValidKdf(kdf)
    ensures var s := PackState(CreatedState(CreatedFile(cs, key, kdf, nonceA, nonceB)), EMPTY);
            PackInv(cs, key, s) && Abstract(cs, key, s) == Layers(map[], map[], [], Some(map[]), false)
  {
    hide Inv, CreatedFile;
    CreatedInv(cs, key, kdf, nonceA, nonceB);
  }

  /** The state after a record is appended with one write. */
  function Appended(st: State, rec: bytes): State
    requires st.mem.Some?
  {
    var m := st.mem.value;
    st.(disk := st.disk.(pending := st.disk.pending + [Write(m.fileSize, rec[0..|rec|])]),
        mem := Some(m.(fileSize := m.fileSize + |rec|)))
  }

  /** The state after a commit. */
  function Committed(cs: Suite, key: bytes, st: State, root: Root, nonce: bytes): State
    requires MemBounds(st)
  {
    var m, snap := st.mem.value, NewSnapshot(st, root);
    State(Disk(Splice(Cache(st.disk), m.active.Other().Off(), SbBlock(cs, key, nonce, m.seqno + 1, root)), []),
          Some(m.(seqno := m.seqno + 1, active := m.active.Other(), root := root)), st.live, snap, [], snap)
  }

  /** The state after a commit that wrote its superblock at once and could not sync it. */
  function Unsynced(cs: Suite, key: bytes, st: State, root: Root, nonce: bytes): State
    requires MemBounds(st)
  {
    var m, s2 := st.mem.value, Demoted(SyncState(st));
    var block := SbBlock(cs, key, nonce, m.seqno + 1, root);
    s2.(disk := s2.disk.(pending := s2.disk.pending + [Write(m.active.Other().Off() + 0, block[0..|block|])]),
        later := s2.later + [Attempt(block, NewSnapshot(st, root))])
  }

  lemma AppendedStep(st: State, rec: bytes)
    requires MemBounds(st) && rec != [] && st.mem.value.fileSize + |rec| <= MAX_OFFSET
    ensures AppendStep(st, Appended(st, rec), rec, st.mem.value.fileSize) && MemBounds(Appended(st, rec))
  {
    hide Cache, Issued;
    IssuedNothing(st.disk, st.mem.value.fileSize, rec);
    IssueMore(st.disk, st.disk, st.mem.value.fileSize, rec, 0, |rec|);
    AppendData(st, Appended(st, rec), rec, st.mem.value.fileSize);
  }

  lemma UnsyncedStep(cs: Suite, key: bytes, st: State, root: Root, nonce: bytes)
    requires MemBounds(st)
    ensures CommitStep(cs, key, st, Unsynced(cs, key, st, root, nonce), root, nonce, FlushFailed)
  {
    hide Cache, Issued, SbBlock;
    var s1, block := SyncState(st), SbBlock(cs, key, nonce, st.mem.value.seqno + 1, root);
    var off := st.mem.value.active.Other().Off();
    IssuedNothing(s1.disk, off, block);
    IssueMore(s1.disk, s1.disk, off, block, 0, |block|);
  }

  /** Where the manifest of an index goes, and the two ends a commit of it can come to. */
  function ManifestRoot(cs: Suite, key: bytes, s: PackState, nonceM: bytes): Root
    requires MemBounds(s.store)
    requires s.store.mem.value.fileSize + |Seal(cs, key, nonceM, Serialize(s.index))| <= MAX_OFFSET
  {
    Root(s.store.mem.value.fileSize, |Seal(cs, key, nonceM, Serialize(s.index))|)
  }

  /** Committing can succeed, and can fail at its second sync, in every open state that has
      room for the manifest. */
  lemma {:induction false} CommitEnabled(cs: Suite, key: bytes, s: PackState, nonceM: bytes, nonceS: bytes)
    requires MemBounds(s.store) && |nonceM| == |nonceS| == NONCE && s.store.mem.value.seqno + 1 < U64_LIMIT
    requires s.store.mem.value.fileSize + |Seal(cs, key, nonceM, Serialize(s.index))| <= MAX_OFFSET
    ensures var mid, root := Appended(s.store, Seal(cs, key, nonceM, Serialize(s.index))),
            ManifestRoot(cs, key, s, nonceM);
            && MemBounds(mid)
            && Step(cs, key, s, Commit(nonceM, nonceS, Reached(Done)),
                    s.(store := Committed(cs, key, mid, root, nonceS)))
            && Step(cs, key, s, Commit(nonceM, nonceS, Reached(FlushFailed)),
                    s.(store := Unsynced(cs, key, mid, root, nonceS)))
  {
    hide Seal, Serialize, Cache, SbBlock, Splice, Issued, NewSnapshot, AppendStep, Appended, Unsynced;
    var rec, root := Seal(cs, key, nonceM, Serialize(s.index)), ManifestRoot(cs, key, s, nonceM);
    SealThenUnseal(cs, key, nonceM, Serialize(s.index));
    AppendedStep(s.store, rec);
    var mid := Appended(s.store, rec);
    UnsyncedStep(cs, key, mid, root, nonceS);
    assert Flushed(cs, key, s.store, mid, Committed(cs, key, mid, root, nonceS), rec, nonceS, Done);
    assert Flushed(cs, key, s.store, mid, Unsynced(cs, key, mid, root, nonceS), rec, nonceS, FlushFailed);
  }

  /** Opening is possible in every closed state: nothing a run does, crashes included, can
      leave a file that the master key does not open. */
  lemma {:induction false} OpenEnabled(cs: Suite, key: bytes, s: PackState)
    requires PackInv(cs, key, s) && Unforged(cs, key, s.store) && s.store.mem.None?
    ensures exists s' :: Step(cs, key, s, Open(true, true), s') && PackInv(cs, key, s')
  {
    hide Inv, IndexInv, Contents, Unforged, LoadIndex, FileIndex, OpenReads, Cache, Data;
    var st' := Landed(cs, key, s.store);
    OpenInv(cs, key, s.store, st');
    MemFacts(cs, key, st');
    OpenedSnaps(cs, key, s.store, st', true, true);
    StandsOn(cs, key, st');
    var s' := PackState(st', FileIndex(cs, key, Cache(st'.disk), st'.mem.value.root).value);
    assert Step(cs, key, s, Open(true, true), s');
  }

  // ---- the active superblock over runs ----

  /** A new manifest starts after every manifest that the commits begun since refer to. */
  lemma NewRoot(cs: Suite, key: bytes, st: State, root: Root, st': State, att: Attempt)
    requires Inv(cs, key, st) && st.mem.Some? && SnapsOk(cs, key, st) && RootsApart(st)
    requires root.len > 0 && root.offset >= st.mem.value.fileSize && att.snap.root == root && st'.later != []
    requires var n := |st'.later| - 1;
             st'.later[n] == att && (st'.later[..n] == st.later || n == 0 || (n == 1 && st'.later[0].snap == st.base))
    ensures RootsApart(st')
  {
    hide SnapOk, Anchored, Placed, MemOk;
    RootInside(cs, key, st.base);
    forall j: nat | j < |st.later|
      ensures st.later[j].snap.root != root
    {
      RootInside(cs, key, st.later[j].snap);
      assert Kept(st, st.later[j].snap);
    }
    var n := |st'.later| - 1;
    assert forall j | 0 <= j < n :: st'.later[j] == st'.later[..n][j];
  }

  lemma {:induction false} CommitApart(cs: Suite, key: bytes, s: PackState, s': PackState,
                                       nonceM: bytes, nonceS: bytes, outcome: Outcome)
    requires PackInv(cs, key, s) && MemBounds(s.store) && RootsApart(s.store)
    requires CommitOp(cs, key, s, s', nonceM, nonceS, outcome)
    ensures RootsApart(s'.store)
  {
    hide Inv, IndexInv, Cache, Data, SnapsOk, Issued, Seal, Serialize, SbBlock, NewSnapshot, RootsApart, Splice;
    if outcome != NoRecord {
      var rec := Seal(cs, key, nonceM, Serialize(s.index));
      var mid: State :| Flushed(cs, key, s.store, mid, s'.store, rec, nonceS, outcome.fate);
      FlushApart(cs, key, s.store, mid, s'.store, rec, nonceS, outcome.fate);
    } else {
      SameApart(s.store, s'.store);
    }
  }

  lemma SameApart(st: State, st': State)
    requires RootsApart(st) && (st'.later == st.later || st'.later == [])
    ensures RootsApart(st')
  {
  }

  lemma {:induction false} FlushApart(cs: Suite, key: bytes, st: State, mid: State, st': State, rec: bytes,
                                      nonceS: bytes, fate: Fate)
    requires Inv(cs, key, st) && MemBounds(st) && SnapsOk(cs, key, st) && RootsApart(st)
    requires Flushed(cs, key, st, mid, st', rec, nonceS, fate)
    ensures RootsApart(st')
  {
    hide Inv, Cache, Data, SnapsOk, Issued, SbBlock, NewSnapshot, RootsApart, Splice;
    var root := Root(st.mem.value.fileSize, |rec|);
    if fate == WriteFailed || fate == FlushFailed {
      var att := st'.later[|st'.later| - 1];
      assert att.snap == NewSnapshot(mid, root);
      assert att.snap.root == root by { NewSnapshotRoot(mid, root); }
      AppendInv(cs, key, st, mid, rec, st.mem.value.fileSize);
      EnteredHistory(cs, key, mid, st', root, nonceS, fate);
      NewRoot(cs, key, st, root, st', att);
    } else {
      SameApart(st, st');
    }
  }

  /** What is left of the history when a superblock write is begun. */
  lemma EnteredHistory(cs: Suite, key: bytes, st: State, st': State, root: Root, nonce: bytes, fate: Fate)
    requires Inv(cs, key, st) && MemBounds(st) && CommitStep(cs, key, st, st', root, nonce, fate)
    requires fate == WriteFailed || fate == FlushFailed
    ensures st'.later != []
    ensures var n := |st'.later| - 1;
            st'.later[..n] == st.later || n == 0 || (n == 1 && st'.later[0].snap == st.base)
  {
    hide SbBlock, Issued, Cache, NewSnapshot, Inv;
    SyncFacts(cs, key, st);
    assert st'.later[..|st'.later| - 1] == Demoted(SyncState(st)).later;
  }

  lemma NewSnapshotRoot(st: State, root: Root)
    requires MemBounds(st)
    ensures NewSnapshot(st, root).root == root
  {
  }

  lemma {:induction false} StepApart(cs: Suite, key: bytes, s: PackState, op: Op, s': PackState)
    requires PackInv(cs, key, s) && RootsApart(s.store) && Step(cs, key, s, op, s')
    ensures RootsApart(s'.store)
  {
    hide PackInv, RootsApart, Cache, Issued, CommitOp, OpenReads, FileIndex, Splice, Seal, Normalize, DelIndex,
         MoveIndex, CopyIndex, Repoint, Buffered, SnapView;
    match op
    case Commit(nonceM, nonceS, outcome) => CommitApart(cs, key, s, s', nonceM, nonceS, outcome);
    case Compact(ok, replaced, _, readA, readB) =>
      if replaced {
        var n: PackState :| && Replacement(cs, key, s, n)
                            && Reopened(cs, key, n.store, s'.store, readA, readB)
                            && (ok <==> s'.store.mem.Some?) && s'.index == if ok then n.index else s.index;
        NoneApart(n.store);
        SameApart(n.store, s'.store);
      } else {
        SameApart(s.store, s'.store);
      }
    case _ => SameApart(s.store, s'.store);
  }

  lemma NoneApart(st: State)
    requires st.later == []
    ensures RootsApart(st)
  {
  }

  lemma {:induction false} RunApart(cs: Suite, key: bytes, run: seq<PackState>, ops: seq<Op>, n: nat)
    requires IsRun(cs, key, run, ops) && n < |run|
    ensures RootsApart(run[n].store)
    decreases n
  {
    hide PackInv, Step, Allowed, Unforged, RootsApart, Lingers;
    RunRefines(cs, key, run, ops, n);
    if n == 0 {
      NoneApart(run[0].store);
    } else {
      assert Next(cs, key, run, ops, n - 1);
      if Step(cs, key, run[n - 1], ops[n - 1], run[n]) {
        RunApart(cs, key, run, ops, n - 1);
        StepApart(cs, key, run[n - 1], ops[n - 1], run[n]);
      } else {
        var k :| k in Lingers(ops, n - 1) && CrashStep(run[k].store, run[n].store);
        RunApart(cs, key, run, ops, k);
        SameApart(run[k].store, run[n].store);
      }
    }
  }

  /** In every run: the superblock an open pack stands on is durable if and only if no
      unsynced write has changed it. */
  lemma {:induction false} ActiveInRuns(cs: Suite, key: bytes, run: seq<PackState>, ops: seq<Op>, n: nat)
    requires IsRun(cs, key, run, ops) && n < |run| && run[n].store.mem.Some?
    ensures |run[n].store.disk.durable| >= DATA_START
    ensures var d, m := run[n].store.disk, run[n].store.mem.value;
            (DecodeSb(cs, key, Block(d.durable, m.active)) == Some((m.seqno, m.root))
             <==> Block(d.durable, m.active) == Block(Cache(d), m.active))
  {
    hide Next, Allowed, Unforged, RootsApart, Lingers, Inv, SnapsOk, IndexInv, DecodeSb, Cache;
    RunRefines(cs, key, run, ops, n);
    RunApart(cs, key, run, ops, n);
    ActiveDurable(cs, key, run[n].store);
  }

  // ---- header and key slots ----

  /** Only slot writes and compactions change the header or a key slot. */
  lemma {:induction false} FrontStays(cs: Suite, key: bytes, s: PackState, op: Op, s': PackState)
    requires MemBounds(s.store) && Step(cs, key, s, op, s')
    requires op.Put? || op.Del? || op.Move? || op.Copy? || op.Commit?
    ensures |Cache(s'.store.disk)| >= DATA_START && Cache(s'.store.disk)[..SB_A_OFF] == Cache(s.store.disk)[..SB_A_OFF]
  {
    hide Cache, Seal, Serialize, Normalize, AppendStep, CommitStep, DelIndex, MoveIndex, CopyIndex, Repoint,
         NoCollision;
    match op
    case Put(path, data, now, nonce, ok) =>
      if s'.store != s.store {
        AppendFront(s.store, s'.store, Seal(cs, key, nonce, data), if ok then s.store.mem.value.fileSize else 0);
      }
    case Commit(nonceM, nonceS, outcome) =>
      var rec := Seal(cs, key, nonceM, Serialize(s.index));
      if outcome != NoRecord {
        var mid: State :| Flushed(cs, key, s.store, mid, s'.store, rec, nonceS, outcome.fate);
        AppendFront(s.store, mid, rec, s.store.mem.value.fileSize);
        AppendMem(s.store, mid, rec, s.store.mem.value.fileSize);
        CommitFront(cs, key, mid, s'.store, Root(s.store.mem.value.fileSize, |rec|), nonceS, outcome.fate);
      } else if s'.store != s.store {
        AppendFront(s.store, s'.store, rec, 0);
      }
    case _ =>
  }

  lemma AppendMem(st: State, st': State, data: bytes, off: nat)
    requires st.mem.Some? && AppendStep(st, st', data, off)
    ensures st'.mem.Some? && st'.mem.value.seqno == st.mem.value.seqno
  {
  }

  lemma AppendFront(st: State, st': State, data: bytes, off: nat)
    requires MemBounds(st) && AppendStep(st, st', data, off)
    ensures |Cache(st'.disk)| >= DATA_START && Cache(st'.disk)[..SB_A_OFF] == Cache(st.disk)[..SB_A_OFF]
  {
    hide Cache, Splice, Issued;
    if data != [] {
      var k: nat :| Issued(st.disk, st'.disk, st.mem.value.fileSize, data, k);
      IssuedFront(st.disk, st'.disk, st.mem.value.fileSize, data, k);
    }
  }

  lemma KeepFront(f: bytes, off: nat, data: bytes)
    requires |f| >= DATA_START && off >= SB_A_OFF
    ensures |Splice(f, off, data)| >= DATA_START && Splice(f, off, data)[..SB_A_OFF] == f[..SB_A_OFF]
  {
    SpliceAt(f, off, data);
  }

  lemma IssuedFront(d: Disk, d': Disk, off: nat, data: bytes, k: nat)
    requires |Cache(d)| >= DATA_START && off >= SB_A_OFF && Issued(d, d', off, data, k)
    ensures |Cache(d')| >= DATA_START && Cache(d')[..SB_A_OFF] == Cache(d)[..SB_A_OFF]
  {
    hide Splice, Replay;
    KeepFront(Cache(d), off, data[..k]);
  }

  lemma {:induction false} CommitFront(cs: Suite, key: bytes, st: State, st': State, root: Root, nonce: bytes,
                                       fate: Fate)
    requires MemBounds(st) && CommitStep(cs, key, st, st', root, nonce, fate)
    ensures |Cache(st'.disk)| >= DATA_START && Cache(st'.disk)[..SB_A_OFF] == Cache(st.disk)[..SB_A_OFF]
  {
    hide SbBlock, Splice, Data, NewSnapshot, Issued;
    var block := SbBlock(cs, key, nonce, st.mem.value.seqno + 1, root);
    var pos := st.mem.value.active.Other().Off();
    if fate == Done {
      KeepFront(Cache(st.disk), pos, block);
    } else if fate == WriteFailed || fate == FlushFailed {
      var k: nat :| Issued(SyncState(st).disk, st'.disk, pos, block, k);
      IssuedFront(SyncState(st).disk, st'.disk, pos, block, k);
    }
  }
}
