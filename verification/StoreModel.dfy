/** The single-file layout and the double-superblock commit protocol, as a state machine
    whose steps include failing I/O, crashes, and closing without syncing. */
module StoreModel {
  import opened Bytes
  import opened Crypto
  import opened Disk

  // ---- fixed layout ----
  const HEADER_SIZE: nat := 24
  const SLOT_SIZE: nat := 88
  const NUM_SLOTS: nat := 8
  const SLOTS_OFF: nat := HEADER_SIZE
  const SB_SIZE: nat := 64
  const SB_A_OFF: nat := SLOTS_OFF + NUM_SLOTS * SLOT_SIZE
  const SB_B_OFF: nat := SB_A_OFF + SB_SIZE
  const DATA_START: nat := SB_B_OFF + SB_SIZE
  const VERSION: u32 := 2
  const MAGIC: bytes := [83, 69, 65, 76, 80, 65, 67, 75]  // "SEALPACK"
  const MAX_KDF_LANES: nat := 64
  const MAX_KDF_BLOCKS: nat := 0x40_0000
  const MAX_OFFSET: nat := 0x7FFF_FFFF_FFFF_FFFF  // largest file offset of either system

  datatype Side = A | B {
    function Other(): Side { if A? then B else A }
    function Off(): nat { if A? then SB_A_OFF else SB_B_OFF }
  }

  /** Commits alternate sides, starting with sequence number 1 on side A. */
  function SideOf(seqno: nat): Side { if seqno % 2 == 1 then A else B }

  datatype Root = Root(offset: u64, len: u64)

  function Block(f: bytes, side: Side): (b: bytes)
    requires |f| >= DATA_START
    ensures |b| == SB_SIZE
  {
    f[side.Off()..side.Off() + SB_SIZE]
  }

  // ---- superblock codec ----
  function SbPlain(seqno: nat, root: Root): (p: bytes)
    ensures |p| == 24
  {
    LE(seqno, 8) + LE(root.offset, 8) + LE(root.len, 8)
  }

  function SbBlock(cs: Suite, key: bytes, nonce: bytes, seqno: nat, root: Root): bytes {
    Seal(cs, key, nonce, SbPlain(seqno, root))
  }

  function DecodeSb(cs: Suite, key: bytes, block: bytes): Option<(nat, Root)> {
    match Unseal(cs, key, block)
    case None => None
    case Some(p) =>
      if |p| != 24 then None
      else
        Pow256Values();
        Some((UnLE(p[..8]), Root(UnLE(p[8..16]), UnLE(p[16..]))))
  }

  lemma SbRoundTrip(cs: Suite, key: bytes, nonce: bytes, seqno: u64, root: Root)
    requires |nonce| == NONCE
    ensures |SbBlock(cs, key, nonce, seqno, root)| == SB_SIZE
    ensures DecodeSb(cs, key, SbBlock(cs, key, nonce, seqno, root)) == Some((seqno, root))
  {
    hide LE, UnLE, Seal, Unseal;
    var p := SbPlain(seqno, root);
    SealThenUnseal(cs, key, nonce, p);
    assert p[..8] == LE(seqno, 8) && p[8..16] == LE(root.offset, 8) && p[16..] == LE(root.len, 8);
    LE64(seqno);
    LE64(root.offset);
    LE64(root.len);
  }

  /** Where the fields of a superblock's plaintext stand. */
  lemma SuperblockLayout(seqno: u64, root: Root)
    ensures var p := SbPlain(seqno, root);
            |p| == 24 && UnLE(p[0..8]) == seqno && UnLE(p[8..16]) == root.offset && UnLE(p[16..24]) == root.len
  {
    hide LE, UnLE;
    var p := SbPlain(seqno, root);
    assert p[0..8] == LE(seqno, 8) && p[8..16] == LE(root.offset, 8) && p[16..24] == LE(root.len, 8);
    LE64(seqno);
    LE64(root.offset);
    LE64(root.len);
  }

  // ---- header codec ----
  function Header(kdf: Kdf): (h: bytes)
    ensures |h| == HEADER_SIZE
  {
    MAGIC + LE(VERSION, 4) + LE(kdf.blocks, 4) + LE(kdf.passes, 4) + LE(kdf.lanes, 4)
  }

  predicate ValidKdf(kdf: Kdf) {
    && 0 < kdf.lanes <= MAX_KDF_LANES
    && kdf.passes != 0
    && 8 * kdf.lanes <= kdf.blocks <= MAX_KDF_BLOCKS
  }

  function U32At(f: bytes, off: nat): u32
    requires off + 4 <= |f|
  {
    Pow256Values();
    UnLE(f[off..off + 4])
  }

  function ReadHeader(f: bytes): Option<Kdf> {
    if |f| < HEADER_SIZE || f[..8] != MAGIC || U32At(f, 8) != VERSION then None
    else
      var kdf := Kdf(U32At(f, 12), U32At(f, 16), U32At(f, 20));
      if ValidKdf(kdf) then Some(kdf) else None
  }

  /** Where the fields of the header stand, and which headers are accepted. */
  lemma HeaderLayout(kdf: Kdf)
    ensures var h := Header(kdf);
            && h[0..8] == [83, 69, 65, 76, 80, 65, 67, 75] && UnLE(h[8..12]) == 2
            && UnLE(h[12..16]) == kdf.blocks && UnLE(h[16..20]) == kdf.passes && UnLE(h[20..24]) == kdf.lanes
    ensures ValidKdf(kdf) <==> && 1 <= kdf.lanes <= 64 && kdf.passes >= 1
                               && 8 * kdf.lanes <= kdf.blocks <= 4194304
  {
    hide LE, U32At, UnLE;
    HeaderFields(kdf, Header(kdf));
    FieldsOf(Header(kdf));
  }

  lemma FieldsOf(h: bytes)
    requires |h| == 24
    ensures UnLE(h[8..12]) == U32At(h, 8) && UnLE(h[12..16]) == U32At(h, 12)
    ensures UnLE(h[16..20]) == U32At(h, 16) && UnLE(h[20..24]) == U32At(h, 20) && h[0..8] == h[..8]
  {
  }

  /** Exactly these headers are accepted. */
  lemma HeaderAccepted(f: bytes, kdf: Kdf)
    ensures ReadHeader(f) == Some(kdf)
       <==> && |f| >= 24 && f[0..8] == [83, 69, 65, 76, 80, 65, 67, 75] && UnLE(f[8..12]) == 2
            && UnLE(f[12..16]) == kdf.blocks && UnLE(f[16..20]) == kdf.passes && UnLE(f[20..24]) == kdf.lanes
            && 1 <= kdf.lanes <= 64 && kdf.passes >= 1 && 8 * kdf.lanes <= kdf.blocks <= 4194304
  {
    hide UnLE;
    if |f| >= 24 {
      assert f[0..8] == f[..8];
    }
  }

  lemma HeaderIsValid(f: bytes)
    ensures ReadHeader(f).Some? ==> ValidKdf(ReadHeader(f).value)
  {
  }

  lemma FieldAt(f: bytes, pre: bytes, v: u32, post: bytes)
    requires f == pre + LE(v, 4) + post
    ensures U32At(f, |pre|) == v
  {
    assert f[|pre|..|pre| + 4] == LE(v, 4);
    LE32(v);
  }

  lemma HeaderRoundTrip(kdf: Kdf, f: bytes)
    requires ValidKdf(kdf) && |f| >= HEADER_SIZE && f[..HEADER_SIZE] == Header(kdf)
    ensures ReadHeader(f) == Some(kdf)
  {
    hide LE, U32At;
    HeaderFields(kdf, f);
  }

  lemma HeaderFields(kdf: Kdf, f: bytes)
    requires |f| >= HEADER_SIZE && f[..HEADER_SIZE] == Header(kdf)
    ensures f[..8] == MAGIC && U32At(f, 8) == VERSION
    ensures U32At(f, 12) == kdf.blocks && U32At(f, 16) == kdf.passes && U32At(f, 20) == kdf.lanes
  {
    hide LE, U32At;
    var v, x, y, z, post := LE(VERSION, 4), LE(kdf.blocks, 4), LE(kdf.passes, 4), LE(kdf.lanes, 4), f[HEADER_SIZE..];
    assert f == MAGIC + v + x + y + z + post;
    FieldAt(f, MAGIC, VERSION, x + y + z + post);
    FieldAt(f, MAGIC + v, kdf.blocks, y + z + post);
    FieldAt(f, MAGIC + v + x, kdf.passes, z + post);
    FieldAt(f, MAGIC + v + x + y, kdf.lanes, post);
  }

  // ---- state ----

  /** The fields of an open store. */
  datatype Mem = Mem(seqno: nat, active: Side, root: Root, fileSize: nat)

  /** A commit: its sequence number, its root, and the whole data region (the file from
      DATA_START on) as it was when the commit's first sync completed. */
  datatype Snapshot = Snapshot(seqno: nat, root: Root, data: bytes)

  datatype Attempt = Attempt(block: bytes, snap: Snapshot)

  /** `base` is the newest commit known to be on stable storage, and `prev` the one it
      followed; `later` are the commits begun since whose superblock write may or may not
      survive; `live` is the commit the open store stands on. The last four are history, not
      stored anywhere. */
  datatype State =
    State(disk: Disk, mem: Option<Mem>, prev: Snapshot, base: Snapshot, later: seq<Attempt>, live: Snapshot)

  /** The store was opened on a commit before the newest durable one. */
  predicate Behind(s: State) {
    s.mem.Some? && s.mem.value.seqno < s.base.seqno
  }

  /** The bytes of the file from DATA_START to the append position. */
  function Data(s: State): bytes
    requires s.mem.Some? && DATA_START <= s.mem.value.fileSize <= |Cache(s.disk)|
  {
    Cache(s.disk)[DATA_START..s.mem.value.fileSize]
  }

  ghost predicate Holds(f: bytes, data: bytes) {
    DATA_START + |data| <= |f| && f[DATA_START..DATA_START + |data|] == data
  }

  // ---- opening ----

  function ReadSide(cs: Suite, key: bytes, f: bytes, side: Side): Option<(nat, Root)> {
    if |f| < side.Off() + SB_SIZE then None else DecodeSb(cs, key, f[side.Off()..side.Off() + SB_SIZE])
  }

  function Pick(a: Option<(nat, Root)>, b: Option<(nat, Root)>, end: nat): Option<Mem> {
    if a.None? && b.None? then None
    else if a.Some? && (b.None? || a.value.0 >= b.value.0) then Some(Mem(a.value.0, A, a.value.1, end))
    else Some(Mem(b.value.0, B, b.value.1, end))
  }

  /** `Store::open` on the bytes of a file; a superblock that cannot be read counts as invalid. */
  function OpenReads(cs: Suite, key: bytes, f: bytes, readA: bool, readB: bool): Option<Mem> {
    if ReadHeader(f).None? then None
    else Pick(if readA then ReadSide(cs, key, f, A) else None, if readB then ReadSide(cs, key, f, B) else None,
              if |f| < DATA_START then DATA_START else |f|)
  }

  /** Opening when every read succeeds. */
  function OpenImage(cs: Suite, key: bytes, f: bytes): Option<Mem> {
    OpenReads(cs, key, f, true, true)
  }

  /** A read error is harmless exactly if it spares the newer superblock: otherwise the
      store opens on the commit before, or not at all. */
  lemma ReadErrors(cs: Suite, key: bytes, f: bytes, readA: bool, readB: bool)
    requires OpenImage(cs, key, f).Some?
    ensures OpenReads(cs, key, f, readA, readB) == OpenImage(cs, key, f)
       <==> if OpenImage(cs, key, f).value.active == A then readA else readB
  {
  }

  // ---- invariant ----

  ghost predicate Decodes(cs: Suite, key: bytes, block: bytes, snap: Snapshot) {
    DecodeSb(cs, key, block) == Some((snap.seqno, snap.root))
  }

  /** The snapshot's bytes are on stable storage, out of reach of every pending write and
      of the append position. */
  ghost predicate Kept(s: State, snap: Snapshot) {
    && Holds(s.disk.durable, snap.data)
    && Untouched(s.disk.pending, DATA_START, DATA_START + |snap.data|)
    && (s.mem.Some? ==> s.mem.value.fileSize >= DATA_START + |snap.data|)
  }

  predicate Within(w: Write, lo: nat, hi: nat) {
    lo <= w.off && w.off + |w.data| <= hi
  }

  /** Pending writes touch key slots, the side that is not the anchor, or the data region. */
  ghost predicate Placed(s: State) {
    var o := SideOf(s.base.seqno).Other().Off();
    forall j: nat | j < |s.disk.pending| ::
      var w := s.disk.pending[j];
      Within(w, SLOTS_OFF, SB_A_OFF) || Within(w, o, o + SB_SIZE) || w.off >= DATA_START
  }

  /** What the side opposite the anchor may hold: nothing valid, the commit before, or a
      commit begun since. */
  ghost predicate OtherOk(cs: Suite, key: bytes, s: State, block: bytes) {
    || DecodeSb(cs, key, block).None?
    || IsPrev(cs, key, s, block)
    || exists j: nat :: j < |s.later| && s.later[j].block == block
  }

  /** The superblock of the commit before. */
  ghost predicate IsPrev(cs: Suite, key: bytes, s: State, block: bytes) {
    s.prev.seqno + 1 == s.base.seqno && Decodes(cs, key, block, s.prev)
  }

  /** The open store stands on the newest durable commit, on one begun since, or on the one before. */
  ghost predicate MemOk(cs: Suite, key: bytes, s: State)
    requires |s.disk.durable| >= DATA_START
  {
    s.mem.Some? ==>
      var m, o := s.mem.value, SideOf(s.base.seqno).Other();
      && DATA_START <= m.fileSize <= |Cache(s.disk)|
      && m.seqno == s.live.seqno && m.root == s.live.root && m.active == SideOf(m.seqno)
      && (|| s.live == s.base
          || (exists j: nat ::
                j < |s.later| && s.later[j].snap == s.live && Block(Cache(s.disk), o) == s.later[j].block)
          || (s.live == s.prev && Block(Cache(s.disk), o) == Block(s.disk.durable, o)
              && IsPrev(cs, key, s, Block(s.disk.durable, o))))
  }

  ghost predicate Anchored(cs: Suite, key: bytes, s: State) {
    var side := SideOf(s.base.seqno);
    && |s.disk.durable| >= DATA_START
    && ReadHeader(s.disk.durable).Some?
    && Decodes(cs, key, Block(s.disk.durable, side), s.base)
    && OtherOk(cs, key, s, Block(s.disk.durable, side.Other()))
    && OtherOk(cs, key, s, Block(Cache(s.disk), side.Other()))
  }

  ghost predicate AttemptsOk(cs: Suite, key: bytes, s: State) {
    forall j: nat | j < |s.later| ::
      && |s.later[j].block| == SB_SIZE
      && Decodes(cs, key, s.later[j].block, s.later[j].snap)
      && s.later[j].snap.seqno == s.base.seqno + 1
      && s.base.data <= s.later[j].snap.data
      && Kept(s, s.later[j].snap)
  }

  ghost predicate Inv(cs: Suite, key: bytes, s: State) {
    && Anchored(cs, key, s)
    && Placed(s)
    && Kept(s, s.base)
    && Kept(s, s.prev) && s.prev.data <= s.base.data
    && AttemptsOk(cs, key, s)
    && MemOk(cs, key, s)
  }

  /** No accidental forgery: whatever mixture of old and new bytes a superblock write
      leaves behind is the stored block, a block that was being written, or not authentic. */
  ghost predicate Unforged(cs: Suite, key: bytes, s: State) {
    |s.disk.durable| >= DATA_START ==>
    forall img, side: Side | CrashImage(s.disk, img) ::
      || Block(img, side) == Block(s.disk.durable, side)
      || (exists j: nat :: j < |s.later| && s.later[j].block == Block(img, side))
      || DecodeSb(cs, key, Block(img, side)).None?
  }

  /** With nothing unsynced there is nothing to tear. */
  lemma SyncedUnforged(cs: Suite, key: bytes, s: State)
    requires s.disk.pending == []
    ensures Unforged(cs, key, s)
  {
    hide DecodeSb;
    forall img | CrashImage(s.disk, img)
      ensures img == s.disk.durable
    {
      assert Cache(s.disk) == s.disk.durable;
      assert forall i: nat | i < |img| :: !Puts(s.disk.pending, i, img[i]);
      assert |img| == |s.disk.durable|;
    }
  }

  // ---- steps ----

  ghost predicate AppendStep(s: State, s': State, data: bytes, off: nat)
    requires s.mem.Some?
  {
    var m := s.mem.value;
    if data == [] then s' == s && off == m.fileSize
    else if off != 0 then
      && off == m.fileSize && off + |data| <= MAX_OFFSET
      && Issued(s.disk, s'.disk, off, data, |data|)
      && s' == s.(disk := s'.disk, mem := Some(m.(fileSize := m.fileSize + |data|)))
    else
      && (exists k: nat :: Issued(s.disk, s'.disk, m.fileSize, data, k))
      && s' == s.(disk := s'.disk)
  }

  /** A successful sync; the commit the store stands on is then known to be durable. */
  function SyncState(s: State): State {
    if Behind(s) || s.live == s.base then s.(disk := Synced(s.disk))
    else s.(disk := Synced(s.disk), prev := s.base, base := s.live, later := [])
  }

  /** Committing from behind writes over the newest superblock: from then on only the commit
      before is known to survive, and the newest one is as uncertain as the one being made. */
  function Demoted(s: State): State
    requires |s.disk.durable| >= DATA_START
  {
    if Behind(s) then
      s.(base := s.prev, later := [Attempt(Block(s.disk.durable, SideOf(s.base.seqno)), s.base)], live := s.prev)
    else s
  }

  datatype Fate = SyncFailed | NoEntropy | WriteFailed | FlushFailed | Done

  /** The commit being made: the data region is all on stable storage at this point. */
  function NewSnapshot(s: State, root: Root): Snapshot
    requires s.mem.Some? && DATA_START <= s.mem.value.fileSize <= |Cache(s.disk)|
  {
    Snapshot(s.mem.value.seqno + 1, root, Data(s))
  }

  ghost predicate CommitStep(cs: Suite, key: bytes, s: State, s': State, root: Root, nonce: bytes, fate: Fate)
    requires s.mem.Some? && DATA_START <= s.mem.value.fileSize <= |Cache(s.disk)|
  {
    var m := s.mem.value;
    var s1 := SyncState(s);
    var s2 := Demoted(s1);
    var snap := NewSnapshot(s, root);
    var block := SbBlock(cs, key, nonce, m.seqno + 1, root);
    var pos := m.active.Other().Off();
    match fate
    case SyncFailed => s' == s
    case NoEntropy => s' == s1
    case WriteFailed =>
      && (exists k: nat :: Issued(s1.disk, s'.disk, pos, block, k))
      && s' == s2.(disk := s'.disk, later := s2.later + [Attempt(block, snap)])
    case FlushFailed =>
      && Issued(s1.disk, s'.disk, pos, block, |block|)
      && s' == s2.(disk := s'.disk, later := s2.later + [Attempt(block, snap)])
    case Done =>
      s' == State(Disk(Splice(Cache(s.disk), pos, block), []),
                  Some(m.(seqno := m.seqno + 1, active := m.active.Other(), root := root)), s.live, snap, [], snap)
  }

  function SlotOff(idx: nat): nat { SLOTS_OFF + idx * SLOT_SIZE }

  /** The places in the file, in numbers. */
  lemma FileLayout(idx: nat)
    ensures SlotOff(idx) == 24 + 88 * idx && NUM_SLOTS == 8
    ensures A.Off() == 728 && B.Off() == 792 && SB_SIZE == 64 && DATA_START == 856
    ensures SideOf(idx) == A <==> idx % 2 == 1
  {
  }

  ghost predicate WriteSlotStep(s: State, s': State, idx: nat, content: bytes, ok: bool)
    requires idx < NUM_SLOTS && |content| == SLOT_SIZE
  {
    if ok then
      s' == SyncState(s).(disk := Disk(Splice(Cache(s.disk), SlotOff(idx), content), []))
    else
      && (exists k: nat :: Issued(s.disk, s'.disk, SlotOff(idx), content, k))
      && s' == s.(disk := s'.disk)
  }

  ghost predicate CrashStep(s: State, s': State) {
    && CrashImage(s.disk, s'.disk.durable)
    && s' == s.(disk := Disk(s'.disk.durable, []), mem := None)
  }

  /** The process ends; unsynced writes stay with the system. */
  function CloseState(s: State): State { s.(mem := None) }

  /** Opening; when nothing is unsynced, what was found is known to be durable. */
  ghost predicate OpenStep(cs: Suite, key: bytes, s: State, s': State) {
    && s.mem.None?
    && s'.mem.Some? && s'.mem == OpenImage(cs, key, Cache(s.disk))
    && s'.disk == s.disk
    && (|| (s'.mem.value.seqno == s.base.seqno && s'.live == s.base)
        || (s'.mem.value.seqno != s.base.seqno && |s.disk.durable| >= DATA_START &&
            exists j: nat :: j < |s.later| && s.later[j].snap == s'.live
              && s.later[j].block == Block(Cache(s.disk), SideOf(s.base.seqno).Other())))
    && (if s.disk.pending == [] then
          s'.base == s'.live && s'.later == [] && s'.prev == if s'.live == s.base then s.prev else s.base
        else s'.base == s.base && s'.later == s.later && s'.prev == s.prev)
  }

  /** Opening when a superblock may not be readable. If that misses the newest commit, what
      is known of the file stays as it was, and the store may stand on the commit before. */
  ghost predicate OpenAnyStep(cs: Suite, key: bytes, s: State, s': State, readA: bool, readB: bool) {
    && s.mem.None?
    && s'.mem.Some? && s'.mem == OpenReads(cs, key, Cache(s.disk), readA, readB)
    && if s'.mem == OpenImage(cs, key, Cache(s.disk)) then OpenStep(cs, key, s, s')
       else s' == s.(mem := s'.mem, live := if s'.mem.value.seqno == s.base.seqno then s.base else s.prev)
  }

  // ---- creation ----
  function CreatedFile(cs: Suite, key: bytes, kdf: Kdf, nonceA: bytes, nonceB: bytes): bytes {
    Header(kdf) + Zeros(NUM_SLOTS * SLOT_SIZE)
    + SbBlock(cs, key, nonceA, 1, Root(0, 0)) + SbBlock(cs, key, nonceB, 0, Root(0, 0))
  }

  function CreatedState(f: bytes): State {
    var snap := Snapshot(1, Root(0, 0), []);
    State(Disk(f, []), Some(Mem(1, A, Root(0, 0), DATA_START)), Snapshot(0, Root(0, 0), []), snap, [], snap)
  }

  lemma CreatedInv(cs: Suite, key: bytes, kdf: Kdf, nonceA: bytes, nonceB: bytes)
    requires |nonceA| == |nonceB| == NONCE && ValidKdf(kdf)
    ensures var f := CreatedFile(cs, key, kdf, nonceA, nonceB);
            |f| == DATA_START && Inv(cs, key, CreatedState(f))
  {
    hide ReadHeader;
    var f := CreatedFile(cs, key, kdf, nonceA, nonceB);
    SbRoundTrip(cs, key, nonceA, 1, Root(0, 0));
    SbRoundTrip(cs, key, nonceB, 0, Root(0, 0));
    assert Block(f, A) == SbBlock(cs, key, nonceA, 1, Root(0, 0));
    assert Block(f, B) == SbBlock(cs, key, nonceB, 0, Root(0, 0));
    assert f[..HEADER_SIZE] == Header(kdf);
    HeaderRoundTrip(kdf, f);
  }

  // ---- every step keeps the invariant ----

  lemma HeaderStays(f: bytes, f': bytes)
    requires HEADER_SIZE <= |f| && HEADER_SIZE <= |f'| && f[0..HEADER_SIZE] == f'[0..HEADER_SIZE]
    ensures ReadHeader(f) == ReadHeader(f')
  {
    var h := f[0..HEADER_SIZE];
    assert f[..8] == h[..8] && f[8..12] == h[8..12] && f[12..16] == h[12..16];
    assert f[16..20] == h[16..20] && f[20..24] == h[20..24];
    assert f'[..8] == h[..8] && f'[8..12] == h[8..12] && f'[12..16] == h[12..16];
    assert f'[16..20] == h[16..20] && f'[20..24] == h[20..24];
  }

  /** The anchor block, the header and every kept snapshot lie outside all pending writes. */
  lemma AnchorUntouched(s: State)
    requires Placed(s)
    ensures Untouched(s.disk.pending, 0, HEADER_SIZE)
    ensures var off := SideOf(s.base.seqno).Off(); Untouched(s.disk.pending, off, off + SB_SIZE)
  {
  }

  lemma IssueKept(s: State, s': State, off: nat, data: bytes, k: nat, snap: Snapshot)
    requires Kept(s, snap) && Issued(s.disk, s'.disk, off, data, k)
    requires off + |data| <= DATA_START || off >= DATA_START + |snap.data|
    requires s'.mem.Some? ==> s'.mem.value.fileSize >= DATA_START + |snap.data|
    ensures Kept(s', snap)
  {
  }

  lemma IssuePlaced(s: State, s': State, off: nat, data: bytes, k: nat)
    requires Placed(s) && Issued(s.disk, s'.disk, off, data, k) && s'.base == s.base
    requires var o := SideOf(s.base.seqno).Other().Off();
             || (SLOTS_OFF <= off && off + |data| <= SB_A_OFF)
             || (o <= off && off + |data| <= o + SB_SIZE)
             || off >= DATA_START
    ensures Placed(s')
  {
  }

  lemma {:induction false} AppendInv(cs: Suite, key: bytes, s: State, s': State, data: bytes, off: nat)
    requires Inv(cs, key, s) && s.mem.Some? && AppendStep(s, s', data, off)
    ensures Inv(cs, key, s')
  {
    hide DecodeSb, ReadHeader, Splice, Cache;
    if data != [] {
      var m := s.mem.value;
      var k: nat :| Issued(s.disk, s'.disk, m.fileSize, data, k) && (off != 0 ==> k == |data|);
      IssuedBeyond(s, s'.disk, m.fileSize, data, k);
      IssuePlaced(s, s', m.fileSize, data, k);
      IssueKept(s, s', m.fileSize, data, k, s.base);
      IssueKept(s, s', m.fileSize, data, k, s.prev);
      forall j: nat | j < |s.later|
        ensures Kept(s', s.later[j].snap)
      {
        IssueKept(s, s', m.fileSize, data, k, s.later[j].snap);
      }
    }
  }

  lemma AppendData(s: State, s': State, data: bytes, off: nat)
    requires s.mem.Some? && DATA_START <= s.mem.value.fileSize <= |Cache(s.disk)|
    requires AppendStep(s, s', data, off)
    ensures s'.mem.Some? && DATA_START <= s'.mem.value.fileSize <= |Cache(s'.disk)|
    ensures off != 0 ==> Data(s') == Data(s) + data && off == DATA_START + |Data(s)|
    ensures off == 0 ==> Data(s') == Data(s)
  {
    if data != [] {
      var m := s.mem.value;
      var k: nat :| Issued(s.disk, s'.disk, m.fileSize, data, k) && (off != 0 ==> k == |data|);
      SpliceKeeps(Cache(s.disk), m.fileSize, data[..k], DATA_START, m.fileSize);
      if off != 0 {
        assert data[..k] == data;
        SpliceReads(Cache(s.disk), off, data);
        assert Cache(s'.disk)[DATA_START..off + |data|]
            == Cache(s'.disk)[DATA_START..off] + Cache(s'.disk)[off..off + |data|];
      }
    }
  }

  /** Bytes issued at or beyond the append position change no block, no header and no data. */
  lemma IssuedBeyond(s: State, d': Disk, off: nat, data: bytes, k: nat)
    requires |s.disk.durable| >= DATA_START && DATA_START <= off <= |Cache(s.disk)|
    requires Issued(s.disk, d', off, data, k)
    ensures Cache(d')[..off] == Cache(s.disk)[..off]
    ensures Block(Cache(d'), A) == Block(Cache(s.disk), A) && Block(Cache(d'), B) == Block(Cache(s.disk), B)
  {
    SpliceKeeps(Cache(s.disk), off, data[..k], 0, off);
    SpliceKeeps(Cache(s.disk), off, data[..k], SB_A_OFF, SB_B_OFF);
    SpliceKeeps(Cache(s.disk), off, data[..k], SB_B_OFF, DATA_START);
  }

  lemma AttemptAt(s: State, block: bytes) returns (j: nat)
    requires exists j: nat :: j < |s.later| && s.later[j].block == block
    ensures j < |s.later| && s.later[j].block == block
  {
    j :| j < |s.later| && s.later[j].block == block;
  }

  /** What the anchor promises survives in every file that keeps the untouched ranges. */
  lemma AnchorRead(cs: Suite, key: bytes, s: State, f: bytes)
    requires Inv(cs, key, s) && CrashImage(s.disk, f)
    ensures ReadHeader(f).Some?
    ensures Block(f, SideOf(s.base.seqno)) == Block(s.disk.durable, SideOf(s.base.seqno))
    ensures Holds(f, s.base.data) && Holds(f, s.prev.data)
    ensures forall j: nat | j < |s.later| :: Holds(f, s.later[j].snap.data)
  {
    hide ReadHeader, DecodeSb;
    var off := SideOf(s.base.seqno).Off();
    AnchorUntouched(s);
    ImageKeeps(s.disk, f, 0, HEADER_SIZE);
    HeaderStays(s.disk.durable, f);
    ImageKeeps(s.disk, f, off, off + SB_SIZE);
    ImageKeeps(s.disk, f, DATA_START, DATA_START + |s.base.data|);
    ImageKeeps(s.disk, f, DATA_START, DATA_START + |s.prev.data|);
    forall j: nat | j < |s.later|
      ensures Holds(f, s.later[j].snap.data)
    {
      ImageKeeps(s.disk, f, DATA_START, DATA_START + |s.later[j].snap.data|);
    }
  }

  /** Making any crash image the stable contents keeps the anchor, provided the other
      side holds something it may hold. */
  lemma SettleInv(cs: Suite, key: bytes, s: State, s': State, f: bytes)
    requires Inv(cs, key, s) && CrashImage(s.disk, f)
    requires OtherOk(cs, key, s, Block(f, SideOf(s.base.seqno).Other()))
    requires s' == s.(disk := Disk(f, []), mem := s'.mem)
    requires s'.mem.None? || (s'.mem == s.mem && f == Cache(s.disk))
    ensures Inv(cs, key, s')
  {
    hide ReadHeader, DecodeSb;
    AnchorRead(cs, key, s, f);
    assert Cache(s'.disk) == f;
    assert OtherOk(cs, key, s', Block(f, SideOf(s.base.seqno).Other())) by {
      var b := Block(f, SideOf(s.base.seqno).Other());
      if exists j: nat :: j < |s.later| && s.later[j].block == b {
        var j := AttemptAt(s, b);
        assert s'.later[j].block == b;
      }
    }
  }

  /** With nothing pending, a begun commit that reached the disk becomes the anchor. */
  lemma PromoteInv(cs: Suite, key: bytes, s: State, j: nat, s': State)
    requires Inv(cs, key, s) && s.disk.pending == []
    requires j < |s.later| && s.later[j].block == Block(s.disk.durable, SideOf(s.base.seqno).Other())
    requires s' == s.(prev := s.base, base := s.later[j].snap, later := [], live := s.later[j].snap, mem := s'.mem)
    requires s'.mem.None? ||
             (var m := s'.mem.value; var snap := s.later[j].snap;
              && m.seqno == snap.seqno && m.root == snap.root && m.active == SideOf(m.seqno)
              && DATA_START + |snap.data| <= m.fileSize <= |s.disk.durable|)
    ensures Inv(cs, key, s')
  {
    hide DecodeSb, ReadHeader;
    var side := SideOf(s.base.seqno);
    assert SideOf(s'.base.seqno) == side.Other() && side.Other().Other() == side;
    assert Decodes(cs, key, Block(s.disk.durable, side), s.base);
    assert Cache(s'.disk) == s.disk.durable;
  }

  /** What the invariant says about an open store. */
  lemma MemFacts(cs: Suite, key: bytes, s: State)
    requires Inv(cs, key, s) && s.mem.Some?
    ensures var m := s.mem.value;
            && |s.disk.durable| >= DATA_START
            && DATA_START <= m.fileSize <= |Cache(s.disk)|
            && m.seqno == s.live.seqno && m.root == s.live.root && m.active == SideOf(m.seqno)
    ensures Holds(Cache(s.disk), Data(s))
    ensures if Behind(s) then s.live == s.prev && s.prev.seqno + 1 == s.base.seqno
            else s.live == s.base || s.live.seqno == s.base.seqno + 1
  {
  }

  /** Syncing changes nothing a running process reads, and settles which commit is newest. */
  lemma SyncFacts(cs: Suite, key: bytes, s: State)
    requires Inv(cs, key, s) && s.mem.Some?
    ensures var s1 := SyncState(s);
            s1.disk == Disk(Cache(s.disk), []) && Cache(s1.disk) == Cache(s.disk) && s1.mem == s.mem
            && s1.live == s.live && (Behind(s) <==> Behind(s1)) && (!Behind(s) ==> s1.base == s.live)
            && Data(s1) == Data(s)
  {
  }

  lemma SyncInv(cs: Suite, key: bytes, s: State)
    requires Inv(cs, key, s) && s.mem.Some?
    ensures Inv(cs, key, SyncState(s))
  {
    hide Inv, CrashImage, Cache, DecodeSb;
    CacheIsImage(s.disk);
    ImageSize(cs, key, s, Cache(s.disk));
    OtherNow(cs, key, s);
    var s1 := s.(disk := Synced(s.disk));
    SettleInv(cs, key, s, s1, Cache(s.disk));
    if s.live != s.base && !Behind(s) {
      var j := LiveAttempt(cs, key, s);
      MemFacts(cs, key, s);
      PromoteInv(cs, key, s1, j, SyncState(s));
    }
  }

  lemma OtherNow(cs: Suite, key: bytes, s: State)
    requires Inv(cs, key, s)
    ensures |Cache(s.disk)| >= DATA_START && OtherOk(cs, key, s, Block(Cache(s.disk), SideOf(s.base.seqno).Other()))
  {
    hide DecodeSb, ReadHeader, Placed, Kept, MemOk;
  }

  /** Which of the commits begun since an open store stands on, if it stands on one. */
  lemma LiveAttempt(cs: Suite, key: bytes, s: State) returns (j: nat)
    requires Inv(cs, key, s) && s.mem.Some? && s.live != s.base && !Behind(s)
    ensures j < |s.later| && s.later[j].snap == s.live && |Cache(s.disk)| >= DATA_START
    ensures Block(Cache(s.disk), SideOf(s.base.seqno).Other()) == s.later[j].block
    ensures DATA_START + |s.live.data| <= s.mem.value.fileSize
  {
    hide DecodeSb, ReadHeader, Placed;
    j :| && j < |s.later| && s.later[j].snap == s.live
         && Block(Cache(s.disk), SideOf(s.base.seqno).Other()) == s.later[j].block;
    assert Kept(s, s.later[j].snap);
  }

  lemma DemotedInv(cs: Suite, key: bytes, s: State)
    requires Inv(cs, key, s) && s.mem.Some? && s.disk.pending == [] && (Behind(s) || s.live == s.base)
    ensures var s2 := Demoted(s);
            Inv(cs, key, s2) && s2.disk == s.disk && s2.mem == s.mem && s2.live == s2.base == s.live
            && Data(s2) == Data(s)
  {
    hide DecodeSb, ReadHeader;
    if Behind(s) {
      var side, s2 := SideOf(s.base.seqno), Demoted(s);
      assert SideOf(s2.base.seqno) == side.Other() && side.Other().Other() == side;
      assert Cache(s.disk) == s.disk.durable;
      assert s2.later[0].block == Block(s.disk.durable, side);
    }
  }

  /** Part or all of a new superblock is on its way to the side opposite the anchor. */
  lemma AttemptInv(cs: Suite, key: bytes, s: State, s': State, block: bytes, snap: Snapshot, k: nat)
    requires Inv(cs, key, s) && s.mem.Some? && s.live == s.base && s.disk.pending == []
    requires |block| == SB_SIZE && Decodes(cs, key, block, snap)
    requires snap.seqno == s.base.seqno + 1 && snap.data == Data(s) && s.base.data <= snap.data
    requires Issued(s.disk, s'.disk, SideOf(s.base.seqno).Other().Off(), block, k)
    requires s' == s.(disk := s'.disk, later := s.later + [Attempt(block, snap)])
    requires k == SB_SIZE || Unforged(cs, key, s')
    ensures Inv(cs, key, s')
  {
    hide ReadHeader, Splice;
    var o := SideOf(s.base.seqno).Other();
    assert Kept(s, snap);
    IssuePlaced(s, s', o.Off(), block, k);
    IssueKept(s, s', o.Off(), block, k, s.base);
    IssueKept(s, s', o.Off(), block, k, s.prev);
    forall j: nat | j < |s'.later|
      ensures Kept(s', s'.later[j].snap)
    {
      IssueKept(s, s', o.Off(), block, k, s'.later[j].snap);
    }
    assert OtherOk(cs, key, s', Block(s'.disk.durable, o)) by {
      MoreAttempts(cs, key, s, s', Block(s.disk.durable, o));
    }
    assert OtherOk(cs, key, s', Block(Cache(s'.disk), o)) by {
      if k == SB_SIZE {
        assert block[..k] == block;
        SpliceReads(Cache(s.disk), o.Off(), block);
        assert s'.later[|s.later|].block == Block(Cache(s'.disk), o);
      } else {
        CacheIsImage(s'.disk);
      }
    }
  }

  lemma MoreAttempts(cs: Suite, key: bytes, s: State, s': State, block: bytes)
    requires OtherOk(cs, key, s, block) && s'.base == s.base && s'.prev == s.prev && s.later <= s'.later
    ensures OtherOk(cs, key, s', block)
  {
    if exists j: nat :: j < |s.later| && s.later[j].block == block {
      var j := AttemptAt(s, block);
      assert s'.later[j].block == block;
    }
  }

  lemma {:induction false} CommitInv(cs: Suite, key: bytes, s: State, s': State, root: Root, nonce: bytes, fate: Fate)
    requires Inv(cs, key, s) && s.mem.Some? && |nonce| == NONCE && s.mem.value.seqno + 1 < U64_LIMIT
    requires CommitStep(cs, key, s, s', root, nonce, fate) && Unforged(cs, key, s')
    ensures Inv(cs, key, s')
  {
    hide Inv, Unforged, Issued, Splice, SbBlock, DecodeSb, Cache, Data, SyncState, Demoted;
    if fate != SyncFailed {
      SyncInv(cs, key, s);
      MemFacts(cs, key, s);
      var s1, snap := SyncState(s), NewSnapshot(s, root);
      var s2 := Ready(cs, key, s);
      var block := SbBlock(cs, key, nonce, snap.seqno, root);
      SbRoundTrip(cs, key, nonce, snap.seqno, root);
      if fate == Done {
        DoneInv(cs, key, s2, s', block, snap);
      } else if fate != NoEntropy {
        var k: nat :| Issued(s1.disk, s'.disk, s.mem.value.active.Other().Off(), block, k)
                      && (fate == FlushFailed ==> k == SB_SIZE);
        AttemptInv(cs, key, s2, s', block, snap, k);
      }
    }
  }

  /** The state in which a commit starts to write its superblock. */
  lemma Ready(cs: Suite, key: bytes, s: State) returns (s2: State)
    requires Inv(cs, key, s) && s.mem.Some?
    ensures |SyncState(s).disk.durable| >= DATA_START && s2 == Demoted(SyncState(s)) && Inv(cs, key, s2)
    ensures s2.disk == SyncState(s).disk == Disk(Cache(s.disk), []) && Cache(s2.disk) == Cache(s.disk)
            && s2.mem == s.mem
    ensures s2.live == s2.base == s.live && DATA_START <= s.mem.value.fileSize <= |Cache(s.disk)|
    ensures Data(s2) == Data(s) && s2.base.data <= Data(s)
  {
    hide Inv, Cache, Data, SyncState, Demoted;
    MemFacts(cs, key, s);
    SyncInv(cs, key, s);
    SyncFacts(cs, key, s);
    MemFacts(cs, key, SyncState(s));
    DemotedInv(cs, key, SyncState(s));
    s2 := Demoted(SyncState(s));
    LiveData(cs, key, s2);
  }

  lemma DoneInv(cs: Suite, key: bytes, s: State, s': State, block: bytes, snap: Snapshot)
    requires Inv(cs, key, s) && s.mem.Some? && s.live == s.base && s.disk.pending == []
    requires |block| == SB_SIZE && Decodes(cs, key, block, snap)
    requires snap.seqno == s.base.seqno + 1 && snap.data == Data(s) && s.base.data <= snap.data
    requires var m := s.mem.value;
             s' == State(Disk(Splice(Cache(s.disk), m.active.Other().Off(), block), []),
                         Some(m.(seqno := m.seqno + 1, active := m.active.Other(), root := snap.root)),
                         s.base, snap, [], snap)
    ensures Inv(cs, key, s')
  {
    hide ReadHeader, Splice, DecodeSb;
    var side := SideOf(s.base.seqno);
    var f, f' := s.disk.durable, s'.disk.durable;
    assert Cache(s.disk) == f && Cache(s'.disk) == f' && SideOf(snap.seqno) == side.Other();
    assert side.Other().Other() == side;
    BlockSplice(f, side.Other(), block, |snap.data|);
  }

  /** A full superblock write changes its own side only. */
  lemma BlockSplice(f: bytes, side: Side, block: bytes, n: nat)
    requires DATA_START + n <= |f| && |block| == SB_SIZE
    ensures var f' := Splice(f, side.Off(), block);
            && |f'| == |f| && ReadHeader(f') == ReadHeader(f)
            && Block(f', side) == block && Block(f', side.Other()) == Block(f, side.Other())
            && f'[DATA_START..DATA_START + n] == f[DATA_START..DATA_START + n]
  {
    hide ReadHeader, Splice;
    SpliceReads(f, side.Off(), block);
    SpliceKeeps(f, side.Off(), block, side.Other().Off(), side.Other().Off() + SB_SIZE);
    SpliceKeeps(f, side.Off(), block, 0, HEADER_SIZE);
    SpliceKeeps(f, side.Off(), block, DATA_START, DATA_START + n);
    HeaderStays(f, Splice(f, side.Off(), block));
  }

  lemma {:induction false} WriteSlotInv(cs: Suite, key: bytes, s: State, s': State, idx: nat, content: bytes, ok: bool)
    requires Inv(cs, key, s) && s.mem.Some? && idx < NUM_SLOTS && |content| == SLOT_SIZE
    requires WriteSlotStep(s, s', idx, content, ok)
    ensures Inv(cs, key, s')
    ensures Data(s') == Data(s)
  {
    hide DecodeSb, ReadHeader, Unforged, Splice, Cache;
    if ok {
      SyncInv(cs, key, s);
      SyncFacts(cs, key, s);
      SlotDoneInv(cs, key, SyncState(s), s', idx, content);
    } else {
      var off := SlotOff(idx);
      var k: nat :| Issued(s.disk, s'.disk, off, content, k);
      IssuePlaced(s, s', off, content, k);
      IssueKept(s, s', off, content, k, s.base);
      IssueKept(s, s', off, content, k, s.prev);
      forall j: nat | j < |s.later|
        ensures Kept(s', s.later[j].snap)
      {
        IssueKept(s, s', off, content, k, s.later[j].snap);
      }
      SpliceKeeps(Cache(s.disk), off, content[..k], SB_A_OFF, SB_B_OFF);
      SpliceKeeps(Cache(s.disk), off, content[..k], SB_B_OFF, DATA_START);
      SpliceKeeps(Cache(s.disk), off, content[..k], DATA_START, s.mem.value.fileSize);
    }
  }

  lemma SlotSplice(f: bytes, idx: nat, content: bytes)
    requires |f| >= DATA_START && idx < NUM_SLOTS && |content| == SLOT_SIZE
    ensures var f' := Splice(f, SlotOff(idx), content);
            && |f'| == |f| && ReadHeader(f') == ReadHeader(f)
            && Block(f', A) == Block(f, A) && Block(f', B) == Block(f, B)
            && f'[DATA_START..] == f[DATA_START..]
  {
    var off := SlotOff(idx);
    SpliceKeeps(f, off, content, 0, HEADER_SIZE);
    SpliceKeeps(f, off, content, SB_A_OFF, SB_B_OFF);
    SpliceKeeps(f, off, content, SB_B_OFF, DATA_START);
    SpliceKeeps(f, off, content, DATA_START, |f|);
    HeaderStays(f, Splice(f, off, content));
  }

  lemma SlotDoneInv(cs: Suite, key: bytes, s: State, s': State, idx: nat, content: bytes)
    requires Inv(cs, key, s) && s.mem.Some? && s.disk.pending == [] && idx < NUM_SLOTS && |content| == SLOT_SIZE
    requires s' == s.(disk := Disk(Splice(s.disk.durable, SlotOff(idx), content), []))
    ensures Inv(cs, key, s')
    ensures Data(s') == Data(s)
  {
    hide ReadHeader, DecodeSb, Splice;
    var f, f' := s.disk.durable, s'.disk.durable;
    assert Cache(s.disk) == f && Cache(s'.disk) == f';
    SlotSplice(f, idx, content);
    DataKept(f, f', s.base.data);
    DataKept(f, f', s.prev.data);
    forall j: nat | j < |s.later|
      ensures Kept(s', s.later[j].snap)
    {
      DataKept(f, f', s.later[j].snap.data);
    }
    assert Holds(f, Data(s));
    DataKept(f, f', Data(s));
    MoreAttempts(cs, key, s, s', Block(f, SideOf(s.base.seqno).Other()));
  }

  lemma DataKept(f: bytes, f': bytes, data: bytes)
    requires DATA_START <= |f| <= |f'| && f'[DATA_START..|f|] == f[DATA_START..] && Holds(f, data)
    ensures Holds(f', data)
  {
    var hi := DATA_START + |data|;
    assert f'[DATA_START..hi] == f'[DATA_START..|f|][..|data|];
    assert f[DATA_START..hi] == f[DATA_START..][..|data|];
  }

  lemma CrashInv(cs: Suite, key: bytes, s: State, s': State)
    requires Inv(cs, key, s) && Unforged(cs, key, s) && CrashStep(s, s')
    ensures Inv(cs, key, s')
  {
    SettleInv(cs, key, s, s', s'.disk.durable);
  }

  lemma CloseInv(cs: Suite, key: bytes, s: State)
    requires Inv(cs, key, s)
    ensures Inv(cs, key, CloseState(s))
  {
    var s' := CloseState(s);
    assert OtherOk(cs, key, s', Block(s.disk.durable, SideOf(s.base.seqno).Other())) by {
      MoreAttempts(cs, key, s, s', Block(s.disk.durable, SideOf(s.base.seqno).Other()));
    }
    MoreAttempts(cs, key, s, s', Block(Cache(s.disk), SideOf(s.base.seqno).Other()));
  }

  /** Appending forges no superblock: it does not reach one. */
  lemma {:induction false} AppendUnforged(cs: Suite, key: bytes, s: State, s': State, data: bytes, off: nat)
    requires Unforged(cs, key, s) && s.mem.Some? && s.mem.value.fileSize >= DATA_START
    requires AppendStep(s, s', data, off)
    ensures Unforged(cs, key, s')
  {
    hide DecodeSb, Splice, Cache;
    if |s.disk.durable| >= DATA_START && s' != s {
      forall img, side: Side | CrashImage(s'.disk, img)
        ensures || Block(img, side) == Block(s'.disk.durable, side)
                || (exists j: nat :: j < |s'.later| && s'.later[j].block == Block(img, side))
                || DecodeSb(cs, key, Block(img, side)).None?
      {
        var k: nat :| Issued(s.disk, s'.disk, s.mem.value.fileSize, data, k);
        var front := img[..DATA_START] + s.disk.durable[DATA_START..];
        FrontImage(s.disk, s'.disk, s.mem.value.fileSize, data, k, img);
        assert Block(front, side) == Block(img, side);
        assert CrashImage(s.disk, front);
      }
    }
  }

  lemma FrontImage(d: Disk, d': Disk, off: nat, data: bytes, k: nat, img: bytes)
    requires |d.durable| >= DATA_START && off >= DATA_START && Issued(d, d', off, data, k) && CrashImage(d', img)
    ensures CrashImage(d, img[..DATA_START] + d.durable[DATA_START..])
  {
    hide Splice, Cache, Puts;
    var front := img[..DATA_START] + d.durable[DATA_START..];
    forall i: nat | i < DATA_START && Puts(d'.pending, i, img[i])
      ensures Puts(d.pending, i, img[i])
    {
      PutsBefore(d, d', off, data, k, i, img[i]);
    }
    assert forall i: nat | i < |front| :: front[i] == if i < DATA_START then img[i] else d.durable[i];
  }

  lemma PutsBefore(d: Disk, d': Disk, off: nat, data: bytes, k: nat, i: nat, b: byte)
    requires Issued(d, d', off, data, k) && i < off && Puts(d'.pending, i, b)
    ensures Puts(d.pending, i, b)
  {
    hide Splice, Cache;
    var j: nat :| j < |d'.pending| && Covers(d'.pending[j], i) && d'.pending[j].data[i - d'.pending[j].off] == b;
    assert j < |d.pending|;
    assert d.pending[j] == d'.pending[j];
  }

  // ---- recovery ----

  /** Opening an image finds exactly `snap`: its number, its root and every byte of its data region. */
  ghost predicate Recovers(cs: Suite, key: bytes, img: bytes, snap: Snapshot) {
    && OpenImage(cs, key, img).Some?
    && OpenImage(cs, key, img).value == Mem(snap.seqno, SideOf(snap.seqno), snap.root, |img|)
    && Holds(img, snap.data)
  }

  /** Opening takes the side with the larger number; a tie never arises. */
  lemma OpenPicks(cs: Suite, key: bytes, img: bytes, side: Side, snap: Snapshot)
    requires |img| >= DATA_START && ReadHeader(img).Some? && Holds(img, snap.data)
    requires SideOf(snap.seqno) == side && Decodes(cs, key, Block(img, side), snap)
    requires var d := DecodeSb(cs, key, Block(img, side.Other())); d.Some? ==> d.value.0 < snap.seqno
    ensures Recovers(cs, key, img, snap)
  {
  }

  lemma ImageOther(cs: Suite, key: bytes, s: State, img: bytes)
    requires Inv(cs, key, s) && Unforged(cs, key, s) && CrashImage(s.disk, img)
    ensures OtherOk(cs, key, s, Block(img, SideOf(s.base.seqno).Other()))
  {
    hide ReadHeader, DecodeSb, Placed, MemOk, Kept, CrashImage;
  }

  /** Crash atomicity of the store: whatever a power loss leaves of the unsynced writes,
      opening succeeds on the newest commit known to be durable or on one begun since,
      with the whole data region that commit was made over, and never on a mixture. */
  lemma {:induction false} Recovery(cs: Suite, key: bytes, s: State, img: bytes)
    requires Inv(cs, key, s) && Unforged(cs, key, s) && CrashImage(s.disk, img)
    ensures forall j: nat | j < |s.later| && s.later[j].block == Block(img, SideOf(s.base.seqno).Other()) ::
              Recovers(cs, key, img, s.later[j].snap) && s.later[j].snap.seqno == s.base.seqno + 1
    ensures || Recovers(cs, key, img, s.base)
            || exists j: nat :: j < |s.later| && s.later[j].block == Block(img, SideOf(s.base.seqno).Other())
  {
    hide OpenImage, ReadHeader, DecodeSb, Placed, MemOk, Kept, Untouched, CrashImage;
    AnchorRead(cs, key, s, img);
    var side := SideOf(s.base.seqno);
    var b := Block(img, side.Other());
    assert side.Other().Other() == side;
    forall j: nat | j < |s.later| && s.later[j].block == b
      ensures Recovers(cs, key, img, s.later[j].snap)
    {
      OpenPicks(cs, key, img, side.Other(), s.later[j].snap);
    }
    if !(exists j: nat :: j < |s.later| && s.later[j].block == b) {
      assert OtherOk(cs, key, s, b);
      OpenPicks(cs, key, img, side, s.base);
    }
  }

  /** An open store at the anchor: the other side, if valid, is older. */
  lemma OpenedBaseInv(cs: Suite, key: bytes, s: State, s': State)
    requires Inv(cs, key, s) && Recovers(cs, key, Cache(s.disk), s.base)
    requires s' == s.(mem := OpenImage(cs, key, Cache(s.disk)), live := s.base, later := s'.later)
    requires if s.disk.pending == [] then s'.later == [] else s'.later == s.later
    ensures Inv(cs, key, s')
  {
    hide ReadHeader, CrashImage, Untouched;
    var img := Cache(s.disk);
    var o := SideOf(s.base.seqno).Other();
    CacheIsImage(s.disk);
    AnchorRead(cs, key, s, img);
    if s.disk.pending == [] {
      assert img == s.disk.durable;
      assert DecodeSb(cs, key, Block(img, o)) != None ==> DecodeSb(cs, key, Block(img, o)).value.0 <= s.base.seqno;
    } else {
      MoreAttempts(cs, key, s, s', Block(s.disk.durable, o));
      MoreAttempts(cs, key, s, s', Block(img, o));
    }
  }

  lemma OpenedLaterInv(cs: Suite, key: bytes, s: State, s': State, j: nat)
    requires Inv(cs, key, s) && j < |s.later| && Recovers(cs, key, Cache(s.disk), s.later[j].snap)
    requires s.later[j].block == Block(Cache(s.disk), SideOf(s.base.seqno).Other())
    requires s' == s.(mem := OpenImage(cs, key, Cache(s.disk)), live := s.later[j].snap)
    ensures Inv(cs, key, s')
  {
    hide DecodeSb, ReadHeader, OpenImage, CrashImage;
    var o := SideOf(s.base.seqno).Other();
    CacheIsImage(s.disk);
    AnchorRead(cs, key, s, Cache(s.disk));
    MoreAttempts(cs, key, s, s', Block(s.disk.durable, o));
    MoreAttempts(cs, key, s, s', Block(Cache(s.disk), o));
    assert s'.later[j].snap == s'.live;
  }

  lemma {:induction false} OpenInv(cs: Suite, key: bytes, s: State, s': State)
    requires Inv(cs, key, s) && Unforged(cs, key, s) && OpenStep(cs, key, s, s')
    ensures Inv(cs, key, s')
    ensures s'.live == s.base || exists j: nat :: j < |s.later| && s.later[j].snap == s'.live
  {
    hide Inv, Unforged, CrashImage, OpenImage;
    CacheIsImage(s.disk);
    var img := Cache(s.disk);
    Recovery(cs, key, s, img);
    AnchorRead(cs, key, s, img);
    if s'.live == s.base {
      OpenedBaseInv(cs, key, s, s');
    } else {
      var j: nat :| j < |s.later| && s.later[j].snap == s'.live
                    && s.later[j].block == Block(img, SideOf(s.base.seqno).Other());
      if s.disk.pending == [] {
        PromoteInv(cs, key, s, j, s');
      } else {
        OpenedLaterInv(cs, key, s, s', j);
      }
    }
  }

  /** Where opening lands, in terms of the history of commits. */
  lemma Landed(cs: Suite, key: bytes, s: State) returns (s': State)
    requires Inv(cs, key, s) && Unforged(cs, key, s) && s.mem.None?
    ensures OpenStep(cs, key, s, s') && s'.disk == s.disk && s'.mem == OpenImage(cs, key, Cache(s.disk))
  {
    hide CrashImage, Unforged, OpenImage, Anchored, Placed, Kept, AttemptsOk, MemOk;
    CacheIsImage(s.disk);
    assert |s.disk.durable| >= DATA_START by { AnchorRead(cs, key, s, Cache(s.disk)); DurableSize(cs, key, s); }
    Recovery(cs, key, s, Cache(s.disk));
    var live := s.base;
    if j: nat :| j < |s.later| && s.later[j].block == Block(Cache(s.disk), SideOf(s.base.seqno).Other()) {
      live := s.later[j].snap;
    }
    s' := s.(mem := OpenImage(cs, key, Cache(s.disk)), live := live);
    if s.disk.pending == [] {
      s' := s'.(prev := if live == s.base then s.prev else s.base, base := live, later := []);
    }
  }

  /** A file that satisfies the invariant opens if everything in it can be read. */
  lemma AlwaysOpens(cs: Suite, key: bytes, s: State)
    requires Inv(cs, key, s) && Unforged(cs, key, s)
    ensures var f := Cache(s.disk);
            |f| >= DATA_START && ReadHeader(f).Some? && OpenImage(cs, key, f).Some?
  {
    hide Inv, Unforged, OpenImage, Cache, CrashImage, Block;
    CacheIsImage(s.disk);
    ImageSize(cs, key, s, Cache(s.disk));
    AnchorRead(cs, key, s, Cache(s.disk));
    Recovery(cs, key, s, Cache(s.disk));
  }

  lemma DurableSize(cs: Suite, key: bytes, s: State)
    requires Inv(cs, key, s)
    ensures |s.disk.durable| >= DATA_START
  {
  }

  lemma OpenedSide(cs: Suite, key: bytes, f: bytes, readA: bool, readB: bool)
    requires |f| >= DATA_START && OpenReads(cs, key, f, readA, readB).Some?
    ensures var m := OpenReads(cs, key, f, readA, readB).value;
            && (if m.active == A then readA else readB)
            && DecodeSb(cs, key, Block(f, m.active)) == Some((m.seqno, m.root)) && m.fileSize == |f|
            && OpenImage(cs, key, f).Some? && OpenImage(cs, key, f).value.seqno >= m.seqno
            && (m.seqno == OpenImage(cs, key, f).value.seqno && m.active == OpenImage(cs, key, f).value.active
                ==> Some(m) == OpenImage(cs, key, f))
  {
    hide DecodeSb, ReadHeader;
  }

  /** What an opening with an unreadable superblock can find. */
  lemma {:induction false} OpenAnyFinds(cs: Suite, key: bytes, s: State, readA: bool, readB: bool)
    requires Inv(cs, key, s) && Unforged(cs, key, s) && s.mem.None?
    requires OpenReads(cs, key, Cache(s.disk), readA, readB).Some?
    ensures |s.disk.durable| >= DATA_START
    ensures var f, side := Cache(s.disk), SideOf(s.base.seqno);
            var m := OpenReads(cs, key, f, readA, readB).value;
            && OpenImage(cs, key, f).Some? && m.fileSize == |f| && DATA_START + |s.base.data| <= |f|
            && m.active == SideOf(m.seqno)
            && (m.active == side ==> m.seqno == s.base.seqno && m.root == s.base.root)
            && (m.active != side ==>
                  || (m.seqno == s.prev.seqno && m.root == s.prev.root
                      && Block(f, side.Other()) == Block(s.disk.durable, side.Other())
                      && IsPrev(cs, key, s, Block(f, side.Other())))
                  || (m.seqno == s.base.seqno + 1 && OpenImage(cs, key, f) == Some(m)))
  {
    hide OpenReads, ReadHeader, DecodeSb, Placed, MemOk, Kept, CrashImage, Unforged;
    var f, side := Cache(s.disk), SideOf(s.base.seqno);
    CacheIsImage(s.disk);
    AnchorRead(cs, key, s, f);
    OpenedSide(cs, key, f, readA, readB);
    var m := OpenReads(cs, key, f, readA, readB).value;
    if m.active != side {
      assert OtherOk(cs, key, s, Block(f, side.Other()));
      SideStored(cs, key, s, f, side.Other());
      Recovery(cs, key, s, f);
    }
  }

  /** A side that is valid in a crash image is as it was, or is one that was being written. */
  lemma SideStored(cs: Suite, key: bytes, s: State, img: bytes, side: Side)
    requires Unforged(cs, key, s) && CrashImage(s.disk, img) && |s.disk.durable| >= DATA_START
    ensures || Block(img, side) == Block(s.disk.durable, side)
            || (exists j: nat :: j < |s.later| && s.later[j].block == Block(img, side))
            || DecodeSb(cs, key, Block(img, side)).None?
  {
    hide DecodeSb, CrashImage;
  }

  /** An opening keeps the invariant, whatever it could read: it stands on the newest durable
      commit, on one begun since, or, if it is behind, on the one before. */
  lemma {:induction false} OpenAnyInv(cs: Suite, key: bytes, s: State, s': State, readA: bool, readB: bool)
    requires Inv(cs, key, s) && Unforged(cs, key, s) && OpenAnyStep(cs, key, s, s', readA, readB)
    ensures Inv(cs, key, s') && s'.disk == s.disk && s'.mem.value.fileSize == |Cache(s.disk)|
    ensures if Behind(s') then s' == s.(mem := s'.mem, live := s.prev) && s.prev.seqno + 1 == s.base.seqno
            else s'.live == s.base || exists j: nat :: j < |s.later| && s.later[j].snap == s'.live
    ensures s'.mem != OpenImage(cs, key, Cache(s.disk)) && !Behind(s') ==> s' == s.(mem := s'.mem, live := s.base)
  {
    hide Inv, Unforged, OpenReads, OpenStep, Cache, Block;
    OpenAnyFinds(cs, key, s, readA, readB);
    if s'.mem == OpenImage(cs, key, Cache(s.disk)) {
      OpenInv(cs, key, s, s');
      MemFacts(cs, key, s');
      OpenedBase(cs, key, s, s');
      assert !Behind(s');
    } else {
      StandOn(cs, key, s, s');
    }
  }

  /** What opening with both superblocks readable stands on, and what it makes of the history. */
  lemma {:induction false} OpenedBase(cs: Suite, key: bytes, s: State, s': State)
    requires Inv(cs, key, s) && OpenStep(cs, key, s, s')
    ensures s'.disk == s.disk && s'.live.seqno >= s.base.seqno
    ensures s'.base == s'.live || s'.base == s.base
  {
    hide Anchored, Placed, Kept, MemOk, OpenImage, Cache, Decodes;
  }

  /** A store that opened on the newest superblock in the file is not behind. */
  lemma NewestNotBehind(cs: Suite, key: bytes, s: State, s': State, readA: bool, readB: bool)
    requires Inv(cs, key, s) && Unforged(cs, key, s) && OpenAnyStep(cs, key, s, s', readA, readB)
    requires s'.mem == OpenImage(cs, key, Cache(s'.disk)) && s'.disk == s.disk
    ensures !Behind(s')
  {
    hide Inv, Unforged, OpenReads, OpenStep, Cache;
    OpenAnyInv(cs, key, s, s', readA, readB);
    OpenedBase(cs, key, s, s');
    MemFacts(cs, key, s');
  }

  lemma StandOn(cs: Suite, key: bytes, s: State, s': State)
    requires Inv(cs, key, s) && s'.mem.Some? && |s.disk.durable| >= DATA_START
    requires s' == s.(mem := s'.mem, live := if s'.mem.value.seqno == s.base.seqno then s.base else s.prev)
    requires var m, o := s'.mem.value, SideOf(s.base.seqno).Other();
             && m.active == SideOf(m.seqno) && m.fileSize == |Cache(s.disk)|
             && ((m.seqno == s.base.seqno && m.root == s.base.root)
                 || (m.seqno == s.prev.seqno && m.root == s.prev.root
                     && Block(Cache(s.disk), o) == Block(s.disk.durable, o)
                     && IsPrev(cs, key, s, Block(s.disk.durable, o))))
    ensures Inv(cs, key, s') && (Behind(s') <==> s'.live != s.base)
  {
    hide DecodeSb, ReadHeader, Cache;
    MoreAttempts(cs, key, s, s', Block(s.disk.durable, SideOf(s.base.seqno).Other()));
    MoreAttempts(cs, key, s, s', Block(Cache(s.disk), SideOf(s.base.seqno).Other()));
  }

  /** Before the call: an opening will not be behind exactly if it can read the newest
      durable superblock, or a newer one that is there. */
  lemma {:induction false} OpenSees(cs: Suite, key: bytes, s: State, readA: bool, readB: bool)
    requires Inv(cs, key, s) && Unforged(cs, key, s) && s.mem.None?
    requires OpenReads(cs, key, Cache(s.disk), readA, readB).Some?
    ensures |Cache(s.disk)| >= DATA_START
    ensures var o := SideOf(s.base.seqno).Other();
            (OpenReads(cs, key, Cache(s.disk), readA, readB).value.seqno >= s.base.seqno
             <==> || (if o == B then readA else readB)
                  || ((if o == A then readA else readB)
                      && exists j: nat :: j < |s.later| && s.later[j].block == Block(Cache(s.disk), o)))
  {
    hide Inv, Unforged, OpenReads, Cache, CrashImage, Block, DecodeSb;
    var f, m, o := Cache(s.disk), OpenReads(cs, key, Cache(s.disk), readA, readB).value, SideOf(s.base.seqno).Other();
    CacheIsImage(s.disk);
    ImageSize(cs, key, s, f);
    OpenAnyFinds(cs, key, s, readA, readB);
    OpenedSide(cs, key, f, readA, readB);
    OpenTakesRead(cs, key, f, readA, readB);
    CacheHolds(cs, key, s, f);
    if exists j: nat :: j < |s.later| && s.later[j].block == Block(f, o) {
      var j := AttemptAt(s, Block(f, o));
      assert DecodeSb(cs, key, Block(f, o)) == Some((s.later[j].snap.seqno, s.later[j].snap.root));
    }
  }

  /** The anchor and the begun commits, as a running process reads them. */
  lemma CacheHolds(cs: Suite, key: bytes, s: State, f: bytes)
    requires Inv(cs, key, s) && f == Cache(s.disk) && |f| >= DATA_START
    ensures DecodeSb(cs, key, Block(f, SideOf(s.base.seqno))) == Some((s.base.seqno, s.base.root))
    ensures forall j: nat | j < |s.later| ::
              DecodeSb(cs, key, s.later[j].block) == Some((s.later[j].snap.seqno, s.later[j].snap.root))
              && s.later[j].snap.seqno == s.base.seqno + 1
    ensures OtherOk(cs, key, s, Block(f, SideOf(s.base.seqno).Other()))
  {
    hide DecodeSb, ReadHeader, Cache, Placed, Kept, MemOk, CrashImage;
    CacheIsImage(s.disk);
    AnchorRead(cs, key, s, f);
  }

  lemma ImageSize(cs: Suite, key: bytes, s: State, f: bytes)
    requires Inv(cs, key, s) && CrashImage(s.disk, f)
    ensures |f| >= DATA_START
  {
  }

  /** A readable side is outdone only by a larger number. */
  lemma OpenTakesRead(cs: Suite, key: bytes, f: bytes, readA: bool, readB: bool)
    requires |f| >= DATA_START && OpenReads(cs, key, f, readA, readB).Some? && OpenImage(cs, key, f).Some?
    ensures var m, n := OpenReads(cs, key, f, readA, readB).value, OpenImage(cs, key, f).value;
            (if n.active == A then readA else readB) ==> m == n
    ensures forall side: Side :: (if side == A then readA else readB) && DecodeSb(cs, key, Block(f, side)).Some? ==>
              OpenReads(cs, key, f, readA, readB).value.seqno >= DecodeSb(cs, key, Block(f, side)).value.0
  {
    hide DecodeSb, ReadHeader;
  }

  lemma LiveData(cs: Suite, key: bytes, s: State)
    requires Inv(cs, key, s) && s.mem.Some?
    ensures s.live.data <= Data(s)
  {
    hide ReadHeader, DecodeSb, CrashImage, Decodes, OtherOk;
    CacheIsImage(s.disk);
    AnchorRead(cs, key, s, Cache(s.disk));
    assert Holds(Cache(s.disk), s.live.data) && Kept(s, s.live);
    PrefixOfRegion(Cache(s.disk), s.live.data, s.mem.value.fileSize);
  }

  lemma PrefixOfRegion(f: bytes, data: bytes, end: nat)
    requires Holds(f, data) && DATA_START + |data| <= end <= |f|
    ensures data <= f[DATA_START..end]
  {
    assert f[DATA_START..end][..|data|] == f[DATA_START..DATA_START + |data|];
  }

  /** A commit, however it ends, leaves the data region as it was. */
  lemma {:induction false} CommitData(cs: Suite, key: bytes, s: State, s': State, root: Root, nonce: bytes, fate: Fate)
    requires s.mem.Some? && DATA_START <= s.mem.value.fileSize <= |Cache(s.disk)| && |nonce| == NONCE
    requires s.mem.value.seqno + 1 < U64_LIMIT
    requires CommitStep(cs, key, s, s', root, nonce, fate)
    ensures s'.mem.Some? && s'.mem.value.fileSize == s.mem.value.fileSize <= |Cache(s'.disk)|
    ensures Data(s') == Data(s)
  {
    hide SbBlock, Splice;
    var f, pos := Cache(s.disk), s.mem.value.active.Other().Off();
    var block := SbBlock(cs, key, nonce, s.mem.value.seqno + 1, root);
    SbRoundTrip(cs, key, nonce, s.mem.value.seqno + 1, root);
    if fate == Done {
      SpliceKeeps(f, pos, block, DATA_START, s.mem.value.fileSize);
    } else if fate == WriteFailed || fate == FlushFailed {
      assert exists k: nat :: Issued(SyncState(s).disk, s'.disk, pos, block, k);
      var k: nat :| Issued(SyncState(s).disk, s'.disk, pos, block, k);
      assert k <= |block|;
      SpliceKeeps(f, pos, block[..k], DATA_START, s.mem.value.fileSize);
    }
  }

  // ---- what a commit that fails can cost ----

  /** Whatever a commit comes to, and whatever a power loss then leaves of it, opens on a commit
      at least as new as the newest durable one, if and only if the store was not behind, or
      the newest superblock is still, or again, valid. Otherwise it opens on the commit before. */
  lemma {:induction false} SurvivesExactly(cs: Suite, key: bytes, s: State, s': State,
                                           root: Root, nonce: bytes, fate: Fate, img: bytes)
    requires Inv(cs, key, s) && s.mem.Some? && |nonce| == NONCE && s.mem.value.seqno + 1 < U64_LIMIT
    requires CommitStep(cs, key, s, s', root, nonce, fate) && Unforged(cs, key, s') && CrashImage(s'.disk, img)
    ensures |img| >= DATA_START && OpenImage(cs, key, img).Some?
    ensures OpenImage(cs, key, img).value.seqno >= s.base.seqno
       <==> (Behind(s) ==> DecodeSb(cs, key, Block(img, SideOf(s.base.seqno))).Some?)
    ensures OpenImage(cs, key, img).value.seqno < s.base.seqno ==> Recovers(cs, key, img, s.prev)
  {
    hide Inv, Unforged, Issued, Splice, SbBlock, DecodeSb, Cache, Data, OpenImage, CrashImage, Block, Decodes;
    MemFacts(cs, key, s);
    var r := Ready(cs, key, s);
    CommitInv(cs, key, s, s', root, nonce, fate);
    ImageSize(cs, key, s', img);
    Recovery(cs, key, s', img);
    if Behind(s) {
      NewestSide(cs, key, s', img);
    }
  }

  /** The sides of a crash image: the anchor is valid; the other is if a commit begun since is there. */
  lemma NewestSide(cs: Suite, key: bytes, s: State, img: bytes)
    requires Inv(cs, key, s) && Unforged(cs, key, s) && CrashImage(s.disk, img)
    ensures |img| >= DATA_START && DecodeSb(cs, key, Block(img, SideOf(s.base.seqno))).Some?
    ensures s.prev.seqno + 1 != s.base.seqno ==>
              (DecodeSb(cs, key, Block(img, SideOf(s.base.seqno).Other())).Some?
               <==> exists j: nat :: j < |s.later| && s.later[j].block == Block(img, SideOf(s.base.seqno).Other()))
  {
    hide ReadHeader, DecodeSb, Placed, MemOk, Kept, CrashImage, Unforged;
    AnchorRead(cs, key, s, img);
    ImageOther(cs, key, s, img);
    var b := Block(img, SideOf(s.base.seqno).Other());
    if exists j: nat :: j < |s.later| && s.later[j].block == b {
      var j := AttemptAt(s, b);
      assert Decodes(cs, key, s.later[j].block, s.later[j].snap);
    }
  }

  /** It does happen: if the superblock that a store which is behind was writing got as far as
      to differ in two bytes from the one it replaces, a power loss can take the newest commit. */
  lemma {:induction false} LossPossible(cs: Suite, key: bytes, s: State, s': State,
                                        root: Root, nonce: bytes, fate: Fate, i: nat, j: nat)
    requires Inv(cs, key, s) && Behind(s) && |nonce| == NONCE && s.mem.value.seqno + 1 < U64_LIMIT
    requires CommitStep(cs, key, s, s', root, nonce, fate) && Unforged(cs, key, s')
    requires fate == WriteFailed || fate == FlushFailed
    requires |Cache(s.disk)| >= DATA_START && |Cache(s'.disk)| >= DATA_START && i < j < SB_SIZE
    requires var was, now := Block(Cache(s.disk), SideOf(s.base.seqno)), Block(Cache(s'.disk), SideOf(s.base.seqno));
             was[i] != now[i] && was[j] != now[j]
    ensures exists img :: CrashImage(s'.disk, img) && Recovers(cs, key, img, s.prev)
  {
    hide Inv, Unforged, Issued, Splice, SbBlock, DecodeSb, Cache, Data, OpenImage, CrashImage, Block, Decodes,
         Recovers, SyncState;
    var side := SideOf(s.base.seqno);
    MemFacts(cs, key, s);
    var r := Ready(cs, key, s);
    DemotedLater(s, SyncState(s));
    var block := SbBlock(cs, key, nonce, s.mem.value.seqno + 1, root);
    SbRoundTrip(cs, key, nonce, s.mem.value.seqno + 1, root);
    var k: nat :| Issued(r.disk, s'.disk, s.mem.value.active.Other().Off(), block, k);
    var img := HalfMixed(r.disk, s'.disk, side, block, k, i, j);
    CommitInv(cs, key, s, s', root, nonce, fate);
    ImageSize(cs, key, s', img);
    SideStored(cs, key, s', img, side);
    SurvivesExactly(cs, key, s, s', root, nonce, fate, img);
    assert |s'.later| == 2 && s'.later[1].block == block && s'.later[0].block == Block(Cache(s.disk), side);
  }

  lemma DemotedLater(s: State, s1: State)
    requires Behind(s) && s1 == SyncState(s) && |Cache(s.disk)| >= DATA_START
    ensures Behind(s1) && s1.base == s.base && s1.prev == s.prev && s1.disk.durable == Cache(s.disk)
    ensures Demoted(s1).later == [Attempt(Block(Cache(s.disk), SideOf(s.base.seqno)), s.base)]
            && Demoted(s1).base == s.prev
  {
  }

  /** A crash may keep byte i as it was and byte j as it was written. */
  lemma {:induction false} HalfMixed(d: Disk, d': Disk, side: Side, block: bytes, k: nat, i: nat, j: nat)
    returns (img: bytes)
    requires |d.durable| >= DATA_START && d.pending == [] && |block| == SB_SIZE && |Cache(d')| >= DATA_START
    requires Issued(d, d', side.Off(), block, k) && i < j < SB_SIZE
    requires Block(d.durable, side)[i] != Block(Cache(d'), side)[i]
             && Block(d.durable, side)[j] != Block(Cache(d'), side)[j]
    ensures CrashImage(d', img) && |img| >= DATA_START && d'.durable == d.durable
    ensures Block(img, side) != Block(d.durable, side) && Block(img, side) != block
  {
    hide Puts;
    var f, p := Cache(d'), side.Off() + i;
    CacheIsImage(d');
    SpliceAt(d.durable, side.Off(), block[..k]);
    assert Cache(d) == d.durable;
    img := f[p := d.durable[p]];
    assert Block(img, side)[i] == d.durable[p] && Block(img, side)[j] == f[side.Off() + j];
  }

  // ---- bytes that stay, across steps ----

  lemma SyncKept(s: State, snap: Snapshot)
    requires Kept(s, snap) && s.mem.Some?
    ensures Kept(SyncState(s), snap)
  {
    hide Cache, Untouched;
    CacheKeeps(s.disk, DATA_START, DATA_START + |snap.data|);
    NothingPending(DATA_START, DATA_START + |snap.data|);
  }

  lemma NothingPending(lo: nat, hi: nat)
    ensures Untouched([], lo, hi)
  {
  }

  lemma AppendKept(s: State, s': State, data: bytes, off: nat, snap: Snapshot)
    requires Kept(s, snap) && s.mem.Some? && AppendStep(s, s', data, off)
    ensures Kept(s', snap)
  {
    hide Issued, Cache, Kept;
    if data != [] {
      var k: nat :| Issued(s.disk, s'.disk, s.mem.value.fileSize, data, k);
      assert s.mem.value.fileSize >= DATA_START + |snap.data| by { KeptSize(s, snap); }
      IssueKept(s, s', s.mem.value.fileSize, data, k, snap);
    }
  }

  lemma KeptSize(s: State, snap: Snapshot)
    requires Kept(s, snap) && s.mem.Some?
    ensures s.mem.value.fileSize >= DATA_START + |snap.data| && DATA_START + |snap.data| <= |s.disk.durable|
  {
  }

  lemma {:induction false} CommitKept(cs: Suite, key: bytes, s: State, s': State, root: Root, nonce: bytes, fate: Fate,
                                      snap: Snapshot)
    requires Kept(s, snap) && s.mem.Some? && DATA_START <= s.mem.value.fileSize <= |Cache(s.disk)| && |nonce| == NONCE
    requires s.mem.value.seqno + 1 < U64_LIMIT && CommitStep(cs, key, s, s', root, nonce, fate)
    ensures Kept(s', snap)
  {
    hide Issued, Cache, Kept, Splice, SbBlock, SyncState, Data, Demoted;
    if fate != SyncFailed {
      var pos, block := s.mem.value.active.Other().Off(), SbBlock(cs, key, nonce, s.mem.value.seqno + 1, root);
      SbRoundTrip(cs, key, nonce, s.mem.value.seqno + 1, root);
      SyncKept(s, snap);
      SyncedDisk(s);
      KeptSize(s, snap);
      if fate == Done {
        SpliceKept(SyncState(s), s', pos, block, snap);
      } else if fate != NoEntropy {
        var k: nat :| Issued(SyncState(s).disk, s'.disk, pos, block, k);
        DemotedMem(SyncState(s));
        IssueKept(SyncState(s), s', pos, block, k, snap);
      }
    }
  }

  lemma SyncedDisk(s: State)
    ensures SyncState(s).disk == Disk(Cache(s.disk), []) && Cache(SyncState(s).disk) == Cache(s.disk)
            && SyncState(s).mem == s.mem
    ensures SyncState(s).live == s.live
  {
  }

  lemma DemotedMem(s: State)
    requires |s.disk.durable| >= DATA_START
    ensures Demoted(s).mem == s.mem && Demoted(s).disk == s.disk
  {
  }

  lemma SpliceKept(s: State, s': State, off: nat, data: bytes, snap: Snapshot)
    requires Kept(s, snap) && s'.disk == Disk(Splice(s.disk.durable, off, data), []) && off + |data| <= DATA_START
    requires s.mem.Some? && s'.mem.Some? && s'.mem.value.fileSize == s.mem.value.fileSize
    ensures Kept(s', snap)
  {
    hide Splice;
    SpliceKeeps(s.disk.durable, off, data, DATA_START, DATA_START + |snap.data|);
  }

  lemma {:induction false} WriteSlotKept(s: State, s': State, idx: nat, content: bytes, ok: bool, snap: Snapshot)
    requires Kept(s, snap) && s.mem.Some? && idx < NUM_SLOTS && |content| == SLOT_SIZE
    requires WriteSlotStep(s, s', idx, content, ok)
    ensures Kept(s', snap)
  {
    hide Issued, Cache, Kept, Splice, SyncState;
    SyncedDisk(s);
    KeptSize(s, snap);
    if ok {
      SyncKept(s, snap);
      SpliceKept(SyncState(s), s', SlotOff(idx), content, snap);
    } else {
      var k: nat :| Issued(s.disk, s'.disk, SlotOff(idx), content, k);
      IssueKept(s, s', SlotOff(idx), content, k, snap);
    }
  }

  /** What a crash leaves still has them. */
  lemma CrashKept(s: State, s': State, snap: Snapshot)
    requires Kept(s, snap) && CrashStep(s, s')
    ensures Kept(s', snap)
  {
    ImageKeeps(s.disk, s'.disk.durable, DATA_START, DATA_START + |snap.data|);
  }

  // ---- the newest durable commit across steps ----

  /** The newest durable commit never goes back, and keeps every byte of the one before. */
  ghost predicate Grows(s: State, s': State) {
    && s.base.seqno <= s'.base.seqno
    && (s.base.seqno == s'.base.seqno ==> s.base == s'.base)
    && s.base.data <= s'.base.data
  }

  lemma SyncGrows(cs: Suite, key: bytes, s: State)
    requires Inv(cs, key, s) && s.mem.Some?
    ensures Grows(s, SyncState(s))
  {
    hide Anchored, Placed, Kept, Decodes;
  }

  lemma {:induction false} CommitGrows(cs: Suite, key: bytes, s: State, s': State, root: Root, nonce: bytes, fate: Fate)
    requires Inv(cs, key, s) && s.mem.Some? && CommitStep(cs, key, s, s', root, nonce, fate)
    requires !Behind(s) || fate == SyncFailed || fate == NoEntropy
    ensures Grows(s, s')
  {
    hide Inv, Issued, SbBlock, Splice, Cache, Data;
    MemFacts(cs, key, s);
    SyncGrows(cs, key, s);
    LiveData(cs, key, s);
    if fate == Done {
      assert s'.base.data == Data(s);
    }
  }

  lemma {:induction false} OpenGrows(cs: Suite, key: bytes, s: State, s': State)
    requires Inv(cs, key, s) && OpenStep(cs, key, s, s')
    ensures Grows(s, s')
  {
    hide Anchored, Placed, Kept, Decodes, OpenImage, MemOk;
  }

  // ---- superblock discipline ----

  /** In whatever a crash leaves, side A is valid only with odd numbers and side B with even
      ones, and two valid sides are consecutive: opening never meets a tie. */
  lemma SuperblockDiscipline(cs: Suite, key: bytes, s: State, img: bytes)
    requires Inv(cs, key, s) && Unforged(cs, key, s) && CrashImage(s.disk, img)
    ensures var a, b := DecodeSb(cs, key, Block(img, A)), DecodeSb(cs, key, Block(img, B));
            && (a.Some? || b.Some?)
            && (a.Some? ==> a.value.0 % 2 == 1) && (b.Some? ==> b.value.0 % 2 == 0)
            && (a.Some? && b.Some? ==> a.value.0 == b.value.0 + 1 || b.value.0 == a.value.0 + 1)
  {
    hide ReadHeader, DecodeSb, Placed, MemOk, Kept, CrashImage, Unforged;
    AnchorRead(cs, key, s, img);
    ImageOther(cs, key, s, img);
    var side := SideOf(s.base.seqno);
    var b := Block(img, side.Other());
    assert Decodes(cs, key, Block(img, side), s.base);
    if exists j: nat :: j < |s.later| && s.later[j].block == b {
      var j := AttemptAt(s, b);
    }
  }

  /** No two of the commits begun since have the same root: each stored its own manifest. */
  predicate RootsApart(s: State) {
    forall i, j | 0 <= i < j < |s.later| :: s.later[i].snap.root != s.later[j].snap.root
  }

  /** The active superblock is on stable storage, valid and with the number and root held in
      memory, if and only if no unsynced write has changed it. */
  lemma {:induction false} ActiveDurable(cs: Suite, key: bytes, s: State)
    requires Inv(cs, key, s) && s.mem.Some? && RootsApart(s)
    ensures |s.disk.durable| >= DATA_START
    ensures var m := s.mem.value;
            (DecodeSb(cs, key, Block(s.disk.durable, m.active)) == Some((m.seqno, m.root))
             <==> Block(s.disk.durable, m.active) == Block(Cache(s.disk), m.active))
  {
    hide ReadHeader, DecodeSb, Placed, Kept, CrashImage, Cache;
    var m, side := s.mem.value, SideOf(s.base.seqno);
    CacheIsImage(s.disk);
    AnchorRead(cs, key, s, Cache(s.disk));
    if s.live != s.base {
      assert m.active == side.Other();
      var b := Block(s.disk.durable, side.Other());
      if !Behind(s) && DecodeSb(cs, key, b) == Some((m.seqno, m.root)) {
        var j: nat :| && j < |s.later| && s.later[j].snap == s.live
                      && Block(Cache(s.disk), side.Other()) == s.later[j].block;
        var i := AttemptAt(s, b);
        assert Decodes(cs, key, s.later[i].block, s.later[i].snap);
        assert i == j;
      }
    }
  }

  /** In particular it is if no unsynced write reaches it. */
  lemma ActiveUntouched(cs: Suite, key: bytes, s: State)
    requires Inv(cs, key, s) && s.mem.Some? && RootsApart(s)
    requires var off := s.mem.value.active.Off(); Untouched(s.disk.pending, off, off + SB_SIZE)
    ensures |s.disk.durable| >= DATA_START
    ensures DecodeSb(cs, key, Block(s.disk.durable, s.mem.value.active)) == Some((s.mem.value.seqno, s.mem.value.root))
  {
    hide DecodeSb, Anchored, AttemptsOk, Kept, Placed, MemOk;
    ActiveDurable(cs, key, s);
    var off := s.mem.value.active.Off();
    CacheKeeps(s.disk, off, off + SB_SIZE);
  }

  /** It is not whenever the second sync of a commit fails, however many failed before, and
      the file is closed and opened again with no crash in between. */
  lemma {:induction false} ActiveNotDurable(cs: Suite, key: bytes, s: State, s1: State, s2: State, root: Root,
                                            nonce: bytes)
    requires Inv(cs, key, s) && s.mem.Some? && |nonce| == NONCE && s.mem.value.seqno + 1 < U64_LIMIT
    requires CommitStep(cs, key, s, s1, root, nonce, FlushFailed) && Unforged(cs, key, s1) && RootsApart(s1)
    requires OpenStep(cs, key, CloseState(s1), s2)
    ensures s2.mem.value.seqno == s.live.seqno + 1 && s2.mem.value.root == root
    ensures |s2.disk.durable| >= DATA_START
    ensures var m := s2.mem.value;
            DecodeSb(cs, key, Block(s2.disk.durable, m.active)) != Some((m.seqno, m.root))
  {
    hide Inv, DecodeSb, OpenImage, Unforged, Splice, SbBlock, CrashImage, Cache, Data;
    var o := SideOf(s.live.seqno).Other();
    var block := SbBlock(cs, key, nonce, s.mem.value.seqno + 1, root);
    MemFacts(cs, key, s);
    var r := Ready(cs, key, s);
    CommitInv(cs, key, s, s1, root, nonce, FlushFailed);
    SbRoundTrip(cs, key, nonce, s.mem.value.seqno + 1, root);
    assert block[..SB_SIZE] == block;
    SpliceReads(Cache(s.disk), o.Off(), block);
    var n := |s1.later| - 1;
    assert s1.later[n].block == block && s1.later[n].snap.root == root && Block(Cache(s1.disk), o) == block;
    var c := CloseState(s1);
    CloseInv(cs, key, s1);
    SameForgery(cs, key, s1, c);
    CacheIsImage(c.disk);
    Recovery(cs, key, c, Cache(c.disk));
    assert Recovers(cs, key, Cache(c.disk), c.later[n].snap);
    OldRoot(cs, key, r, Block(Cache(s.disk), o), root, s1);
  }

  /** What stood on the other side before the newest commit was begun has another root. */
  lemma OldRoot(cs: Suite, key: bytes, s: State, old_: bytes, root: Root, s1: State)
    requires Inv(cs, key, s) && old_ == Block(Cache(s.disk), SideOf(s.base.seqno).Other())
    requires |s1.later| == |s.later| + 1 && s.later == s1.later[..|s.later|] && s1.later[|s.later|].snap.root == root
             && RootsApart(s1)
    ensures DecodeSb(cs, key, old_) != Some((s.base.seqno + 1, root))
  {
    hide DecodeSb, ReadHeader, Cache, Placed, Kept, MemOk;
    assert OtherOk(cs, key, s, old_);
    if DecodeSb(cs, key, old_) == Some((s.base.seqno + 1, root)) {
      var i := AttemptAt(s, old_);
      assert false;
    }
  }

  lemma SameForgery(cs: Suite, key: bytes, s: State, s': State)
    requires Unforged(cs, key, s) && s'.disk == s.disk && s'.later == s.later
    ensures Unforged(cs, key, s')
  {
    hide DecodeSb, CrashImage;
  }
}
