/** The single-file store: its fields, and the methods that create, open, extend and
    commit it. Each method is a step of the state machine of StoreModel. */
module Store {
  import opened Bytes
  import opened Crypto
  import opened Disk
  import opened StoreModel
  import opened Os

  /** A password-wrapped master key; an all-zero salt marks an empty slot. */
  datatype KeySlot = KeySlot(salt: bytes, wrapped: bytes) {
    predicate Sized() { |salt| == SALT && |wrapped| == SLOT_SIZE - SALT }

    predicate Empty() { salt == Zeros(|salt|) }

    function Content(): bytes { salt + wrapped }
  }

  function SlotOf(content: bytes): (s: KeySlot)
    requires |content| == SLOT_SIZE
    ensures s.Sized() && s.Content() == content
  {
    KeySlot(content[..SALT], content[SALT..])
  }

  /** How many of the two superblocks could not be read. */
  function Unread(readA: bool, readB: bool): nat {
    (if readA then 0 else 1) + if readB then 0 else 1
  }

  lemma AppendSplice(f: bytes, data: bytes)
    ensures Splice(f, |f|, data) == f + data
  {
    SpliceAt(f, |f|, data);
    var l, r := Splice(f, |f|, data), f + data;
    assert |l| == |r| && forall i | 0 <= i < |l| :: l[i] == r[i];
  }

  /** A full write at the end of the file. */
  lemma IssuedAtEnd(d: Disk, d': Disk, off: nat, data: bytes)
    requires Issued(d, d', off, data, |data|) && off == |Cache(d)|
    ensures Cache(d') == Cache(d) + data
  {
    hide Splice;
    assert data[..|data|] == data;
    AppendSplice(Cache(d), data);
  }

  /** `write_sb`; `begun` tells whether any byte may have been issued. */
  method WriteSb(os: System, name: Name, cs: Suite, key: bytes, side: Side, seqno: u64, root: Root)
    returns (ok: bool, ghost begun: bool, ghost nonce: bytes, ghost k: nat)
    requires name in os.files
    modifies os
    ensures Touched(name, old(os.files), old(os.trace), os.files, os.trace)
    ensures |nonce| == NONCE
    ensures !begun ==> !ok && os.files == old(os.files) && os.trace == old(os.trace)
    ensures begun ==> Issued(old(os.files[name]), os.files[name], side.Off(), SbBlock(cs, key, nonce, seqno, root), k)
    ensures begun ==> PartWrites(old(os.trace), os.trace, name, old(os.files[name]), side.Off(),
                                 SbBlock(cs, key, nonce, seqno, root))
    ensures begun ==> (ok <==> k == SB_SIZE)
    ensures os.Onward() && os.times == old(os.times) && (!ok ==> os.faults > old(os.faults))
    ensures os.drawn == if begun then old(os.drawn) + [nonce] else old(os.drawn)
  {
    hide Issued, SbBlock, PartWrites;
    var random := os.RandomBytes(NONCE);
    if random.None? {
      return false, false, Zeros(NONCE), 0;
    }
    nonce := random.value;
    SbRoundTrip(cs, key, nonce, seqno, root);
    begun := true;
    ok, k := os.PWriteAll(name, SbBlock(cs, key, random.value, seqno, root), side.Off());
  }

  /** Header and empty key slots. */
  method WriteSlots(os: System, name: Name, kdf: Kdf) returns (ok: bool)
    requires name in os.files && Cache(os.files[name]) == []
    modifies os
    ensures Touched(name, old(os.files), old(os.trace), os.files, os.trace)
    ensures ok ==> Cache(os.files[name]) == Header(kdf) + Zeros(NUM_SLOTS * SLOT_SIZE)
    ensures os.Onward() && os.drawn == old(os.drawn) && os.times == old(os.times)
    ensures !ok ==> os.faults > old(os.faults)
  {
    hide Issued, Cache, Header, Touched;
    ghost var f0, t0 := os.files, os.trace;
    ghost var k: nat;
    ok, k := os.PWriteAll(name, Header(kdf), 0);
    if !ok {
      return;
    }
    IssuedAtEnd(f0[name], os.files[name], 0, Header(kdf));
    ghost var f1, t1 := os.files, os.trace;
    ok, k := os.PWriteAll(name, Zeros(NUM_SLOTS * SLOT_SIZE), SLOTS_OFF);
    TouchedTrans(name, f0, t0, f1, t1, os.files, os.trace);
    if ok {
      IssuedAtEnd(f1[name], os.files[name], SLOTS_OFF, Zeros(NUM_SLOTS * SLOT_SIZE));
    }
  }

  /** Header, empty key slots, and the two first superblocks. */
  method WriteFront(os: System, name: Name, cs: Suite, key: bytes, kdf: Kdf)
    returns (ok: bool, ghost nonceA: bytes, ghost nonceB: bytes)
    requires name in os.files && Cache(os.files[name]) == []
    modifies os
    ensures Touched(name, old(os.files), old(os.trace), os.files, os.trace)
    ensures |nonceA| == |nonceB| == NONCE
    ensures ok ==> Cache(os.files[name]) == CreatedFile(cs, key, kdf, nonceA, nonceB)
    ensures os.Onward() && os.times == old(os.times) && (!ok ==> os.faults > old(os.faults))
    ensures ok ==> os.drawn == old(os.drawn) + [nonceA, nonceB]
  {
    hide Issued, SbBlock, Cache, Header, Touched;
    ghost var f0, t0 := os.files, os.trace;
    ghost var k: nat, begun: bool;
    nonceA, nonceB := Zeros(NONCE), Zeros(NONCE);
    ok := WriteSlots(os, name, kdf);
    if !ok {
      return false, nonceA, nonceB;
    }
    TouchedHas(name, f0, t0, os.files, os.trace);
    ghost var f2, t2 := os.files, os.trace;
    ok, begun, nonceA, k := WriteSb(os, name, cs, key, A, 1, Root(0, 0));
    TouchedTrans(name, f0, t0, f2, t2, os.files, os.trace);
    if !ok {
      return false, nonceA, nonceB;
    }
    SbRoundTrip(cs, key, nonceA, 1, Root(0, 0));
    IssuedAtEnd(f2[name], os.files[name], SB_A_OFF, SbBlock(cs, key, nonceA, 1, Root(0, 0)));
    ghost var f3, t3 := os.files, os.trace;
    ok, begun, nonceB, k := WriteSb(os, name, cs, key, B, 0, Root(0, 0));
    TouchedTrans(name, f0, t0, f3, t3, os.files, os.trace);
    if !ok {
      return false, nonceA, nonceB;
    }
    SbRoundTrip(cs, key, nonceB, 0, Root(0, 0));
    IssuedAtEnd(f3[name], os.files[name], SB_B_OFF, SbBlock(cs, key, nonceB, 0, Root(0, 0)));
  }

  class Store {
    const os: System
    const name: Name
    const cs: Suite
    const kdf: Kdf

    var seqno: u64
    var active: Side
    var root: Root
    var fileSize: u64

    // history of commits; see StoreModel.State
    ghost var prev: Snapshot
    ghost var base: Snapshot
    ghost var later: seq<Attempt>
    ghost var live: Snapshot

    ghost predicate Attached()
      reads this, os
    {
      name in os.files && DATA_START <= fileSize <= |Cache(os.files[name])|
    }

    ghost function Now(): State
      reads this, os
      requires name in os.files
    {
      State(os.files[name], Some(Mem(seqno, active, root, fileSize)), prev, base, later, live)
    }

    constructor (os: System, name: Name, cs: Suite, kdf: Kdf, m: Mem, ghost history: State)
      requires m.seqno < U64_LIMIT && m.fileSize < U64_LIMIT
      ensures this.os == os && this.name == name && this.cs == cs && this.kdf == kdf
      ensures name in os.files ==> Now() == history.(disk := os.files[name], mem := Some(m))
    {
      this.os, this.name, this.cs, this.kdf := os, name, cs, kdf;
      seqno, active, root, fileSize := m.seqno, m.active, m.root, m.fileSize;
      prev, base, later, live := history.prev, history.base, history.later, history.live;
    }

    // ---- creating and opening ----

    static method Create(os: System, name: Name, cs: Suite, key: bytes, kdf: Kdf)
      returns (st: Store?, ghost nonceA: bytes, ghost nonceB: bytes)
      modifies os
      ensures st == null ==>
                os.files - {name} == old(os.files) - {name} && Only(old(os.trace), os.trace, old(os.files), name)
      ensures |nonceA| == |nonceB| == NONCE
      ensures st != null ==>
                && fresh(st) && st.os == os && st.name == name && st.cs == cs && st.kdf == kdf
                && name !in old(os.files) && Touched(name, old(os.files), old(os.trace), os.files, os.trace)
                && st.Now() == CreatedState(CreatedFile(cs, key, kdf, nonceA, nonceB))
                && os.drawn == old(os.drawn) + [nonceA, nonceB]
      ensures os.Onward() && os.times == old(os.times)
      ensures st == null && name !in old(os.files) ==> os.faults > old(os.faults)
      // what could not be finished is removed, unless that fails as well
      ensures st == null && os.files != old(os.files) ==> os.faults >= old(os.faults) + 2
    {
      hide CreatedFile, Only, Cache;
      ghost var f0, t0 := os.files, os.trace;
      nonceA, nonceB := Zeros(NONCE), Zeros(NONCE);
      var ok := os.CreateNew(name);
      if !ok {
        assert Only(t0, os.trace, f0, name) by { Nothing(t0, f0, name); }
        return null, nonceA, nonceB;
      }
      ghost var f1, t1 := os.files, os.trace;
      assert Cache(f1[name]) == [] by { EmptyFile(); }
      ok, nonceA, nonceB := WriteFront(os, name, cs, key, kdf);
      TouchedTrans(name, f0, t0, f1, t1, os.files, os.trace);
      ghost var f2, t2 := os.files, os.trace;
      if ok {
        ok := os.Sync(name);
        TouchedTrans(name, f0, t0, f2, t2, os.files, os.trace);
      }
      if !ok {
        ghost var f3, t3 := os.files, os.trace;
        assert f3 - {name} == f0 - {name};
        var removed := os.Remove(name);
        OnlyTrans(t0, t3, os.trace, f0, f3, name);
        assert removed ==> os.files == f0;
        return null, nonceA, nonceB;
      }
      st := new Store(os, name, cs, kdf, Mem(1, A, Root(0, 0), DATA_START), CreatedState([]));
    }

    /** `closed` is what is known of the file, `readA` and `readB` whether its superblocks could
        be read; one that could not counts as invalid. Unless a call fails, the store opens, and
        on the newest superblock that is in the file. */
    static method Open(os: System, name: Name, cs: Suite, key: bytes, ghost closed: State)
      returns (st: Store?, ghost readA: bool, ghost readB: bool)
      requires name in os.files ==>
                 closed.disk == os.files[name] && closed.mem.None? && Inv(cs, key, closed) && Unforged(cs, key, closed)
      modifies os`interrupts, os`faults
      ensures st != null ==>
                && fresh(st) && st.os == os && st.name == name && st.cs == cs && name in os.files
                && ReadHeader(Cache(os.files[name])) == Some(st.kdf)
                && OpenAnyStep(cs, key, closed, st.Now(), readA, readB)
      ensures st != null ==> old(os.faults) + Unread(readA, readB) <= os.faults
      ensures old(os.faults) <= os.faults
      ensures name in os.files && os.faults == old(os.faults) ==>
                && readA && readB && st != null && |Cache(os.files[name])| >= DATA_START
                && st.Now().mem == OpenImage(cs, key, Cache(os.files[name]))
    {
      hide Inv, Unforged, ReadHeader, DecodeSb, CrashImage, Cache, OpenStep;
      readA, readB := false, false;
      ghost var faults := os.faults;
      var ok := os.OpenExisting(name);
      if !ok {
        return null, readA, readB;
      }
      ghost var f := Cache(os.files[name]);
      AlwaysOpens(cs, key, closed);
      var header := os.ReadAll(name, 0, HEADER_SIZE);
      if header.None? {
        return null, readA, readB;
      }
      var kdf := ReadHeader(header.value);
      HeaderStays(header.value, f);
      if kdf.None? {
        return null, readA, readB;
      }
      var blockA := os.ReadAll(name, SB_A_OFF, SB_SIZE);
      var blockB := os.ReadAll(name, SB_B_OFF, SB_SIZE);
      readA, readB := blockA.Some?, blockB.Some?;
      var a := if blockA.Some? then DecodeSb(cs, key, blockA.value) else None;
      var b := if blockB.Some? then DecodeSb(cs, key, blockB.value) else None;
      assert OpenReads(cs, key, f, readA, readB) == Pick(a, b, |f|);
      if a.None? && b.None? {
        return null, readA, readB;
      }
      var end := os.FileSize(name);
      if end < 0 {
        return null, readA, readB;
      }
      if end < DATA_START {
        end := DATA_START;
      }
      var m := Pick(a, b, end).value;
      assert Some(m) == OpenReads(cs, key, f, readA, readB);
      ghost var history := closed.(live := if m.seqno == closed.base.seqno then closed.base else closed.prev);
      if Some(m) == OpenImage(cs, key, f) {
        history := Landed(cs, key, closed);
      }
      DecodedFits(cs, key, blockA);
      DecodedFits(cs, key, blockB);
      st := new Store(os, name, cs, kdf.value, m, history);
    }

    // ---- reading and appending ----

    method ReadAt(off: u64, n: nat) returns (r: Option<bytes>)
      requires name in os.files
      modifies os`interrupts, os`faults
      ensures old(os.faults) <= os.faults
      ensures r.None? && off + n <= |Cache(os.files[name])| ==> os.faults > old(os.faults)
      ensures r.Some? ==> |r.value| == n
      ensures r.Some? && n > 0 ==> off + n <= |Cache(os.files[name])| && r.value == Cache(os.files[name])[off..off + n]
    {
      r := os.ReadAll(name, off, n);
    }

    /** The offset of the appended bytes, or 0 if they could not all be written. */
    method Append(data: bytes) returns (off: u64)
      requires Attached()
      modifies this`fileSize, os
      ensures Touched(name, old(os.files), old(os.trace), os.files, os.trace)
      ensures Attached() && AppendStep(old(Now()), Now(), data, off)
      ensures PartWrites(old(os.trace), os.trace, name, old(os.files[name]), old(fileSize), data)
      ensures os.Onward() && os.drawn == old(os.drawn) && os.times == old(os.times)
      ensures off == 0 ==> os.faults > old(os.faults)
    {
      hide PartWrites;
      off := fileSize;
      NoPartWrites(os.trace, name, os.files[name], off, data);
      TouchedRefl(name, os.files, os.trace);
      if data == [] {
        return;
      }
      ghost var k: nat;
      var ok: bool;
      ok, k := os.PWriteAll(name, data, off);
      if !ok {
        return 0;
      }
      fileSize := fileSize + |data|;
    }

    // ---- committing ----

    /** Syncs, writes the inactive superblock with the next number, and syncs again. Every
        state on the way is one that the commit could have failed in, or its end. */
    method Commit(newRoot: Root, key: bytes) returns (ok: bool, ghost nonce: bytes, ghost fate: Fate)
      requires Attached() && seqno + 1 < U64_LIMIT
      modifies this, os
      ensures Touched(name, old(os.files), old(os.trace), os.files, os.trace)
      ensures |nonce| == NONCE && (ok <==> fate == Done)
      ensures Attached() && CommitStep(cs, key, old(Now()), Now(), newRoot, nonce, fate)
      ensures CommitMoments(cs, key, old(Now()), newRoot, old(os.trace), os.trace, name)
      ensures os.Onward() && os.times == old(os.times) && (!ok ==> os.faults > old(os.faults))
      ensures os.drawn == if fate == SyncFailed || fate == NoEntropy then old(os.drawn) else old(os.drawn) + [nonce]
    {
      hide SbBlock, Splice, Issued, Touched, Cache, DecodeSb, CommitStep, NewSnapshot, PartWrites, CommitMoments,
           SyncState, Demoted;
      ghost var s := Now();
      ghost var f0, t0 := os.files, os.trace;
      nonce := Zeros(NONCE);
      var synced := os.Sync(name);
      NotBegun(cs, key, s, newRoot, nonce);
      if !synced {
        NoMoments(cs, key, s, newRoot, t0, name);
        return false, nonce, SyncFailed;
      }
      Confirm(s);
      SyncedDisk(s);
      MidSynced(cs, key, s, newRoot, t0, os.files, name);
      ghost var f1, t1 := os.files, os.trace;
      ok, nonce, fate := CommitSynced(newRoot, key, s, t0);
      TouchedTrans(name, f0, t0, f1, t1, os.files, os.trace);
    }

    /** The rest of a commit of `s`, after its first sync. */
    method CommitSynced(newRoot: Root, key: bytes, ghost s: State, ghost t0: seq<map<Name, Disk>>)
      returns (ok: bool, ghost nonce: bytes, ghost fate: Fate)
      requires Attached() && seqno + 1 < U64_LIMIT && Now() == SyncState(s)
      requires s.mem.Some? && DATA_START <= s.mem.value.fileSize <= |Cache(s.disk)|
      requires CommitMoments(cs, key, s, newRoot, t0, os.trace, name)
      modifies this, os
      ensures Touched(name, old(os.files), old(os.trace), os.files, os.trace)
      ensures |nonce| == NONCE && (ok <==> fate == Done) && fate != SyncFailed
      ensures Attached() && CommitStep(cs, key, s, Now(), newRoot, nonce, fate)
      ensures CommitMoments(cs, key, s, newRoot, t0, os.trace, name)
      ensures os.Onward() && os.times == old(os.times) && (!ok ==> os.faults > old(os.faults))
      ensures os.drawn == if fate == NoEntropy then old(os.drawn) else old(os.drawn) + [nonce]
    {
      hide SbBlock, Splice, Issued, Touched, Cache, DecodeSb, CommitStep, NewSnapshot, PartWrites, CommitMoments,
           SyncState, Demoted;
      SyncedDisk(s);
      ghost var f1, t1, s1 := os.files, os.trace, Now();
      DemotedMem(s1);
      ghost var begun: bool, k: nat;
      var nextSlot, nextSeq := active.Other(), seqno + 1;
      var written: bool;
      written, begun, nonce, k := WriteSb(os, name, cs, key, nextSlot, nextSeq, newRoot);
      NotBegun(cs, key, s, newRoot, nonce);
      TouchedHas(name, f1, t1, os.files, os.trace);
      if begun {
        MidWrites(cs, key, s, newRoot, nonce, t0, t1, os.trace, name);
      }
      ghost var att := Attempt(SbBlock(cs, key, nonce, nextSeq, newRoot), NewSnapshot(s, newRoot));
      if !written {
        if begun {
          Begin(s1, att);
          BegunStep(cs, key, s, Now(), newRoot, nonce, WriteFailed, k);
        }
        return false, nonce, if begun then WriteFailed else NoEntropy;
      }
      ghost var f2, t2 := os.files, os.trace;
      var flushed := os.Sync(name);
      TouchedTrans(name, f1, t1, f2, t2, os.files, os.trace);
      if !flushed {
        Begin(s1, att);
        BegunStep(cs, key, s, Now(), newRoot, nonce, FlushFailed, k);
        return false, nonce, FlushFailed;
      }
      seqno, active, root := nextSeq, nextSlot, newRoot;
      prev, base, later, live := live, att.snap, [], att.snap;
      DoneStep(cs, key, s, f2[name], Now(), newRoot, nonce, k);
      MidDone(cs, key, s, newRoot, nonce, Now(), t0, t2, os.files, name);
      return true, nonce, Done;
    }

    /** History: the store `s` has been synced. */
    ghost method Confirm(s: State)
      requires live == s.live
      modifies this`prev, this`base, this`later
      ensures var s1 := SyncState(s); prev == s1.prev && base == s1.base && later == s1.later && live == s1.live
    {
      var s1 := SyncState(s);
      prev, base, later := s1.prev, s1.base, s1.later;
    }

    /** History: a commit is begun; `s` is the store before its superblock was. */
    ghost method Begin(s: State, att: Attempt)
      requires |s.disk.durable| >= DATA_START
      modifies this`prev, this`base, this`later, this`live
      ensures var s2 := Demoted(s); prev == s2.prev && base == s2.base && later == s2.later + [att] && live == s2.live
    {
      var s2 := Demoted(s);
      prev, base, later, live := s2.prev, s2.base, s2.later + [att], s2.live;
    }

    // ---- key slots ----

    /** The slot's 88 bytes; a slot that a failing call keeps from being read reads as an empty one. */
    method Slot(idx: nat) returns (s: KeySlot, ghost read: bool)
      requires name in os.files && idx < NUM_SLOTS
      modifies os`interrupts, os`faults
      ensures old(os.faults) <= os.faults
      ensures !read && SlotOff(idx) + SLOT_SIZE <= |Cache(os.files[name])| ==> os.faults > old(os.faults)
      ensures s.Sized()
      ensures if read then SlotOff(idx) + SLOT_SIZE <= |Cache(os.files[name])|
                           && s.Content() == Cache(os.files[name])[SlotOff(idx)..SlotOff(idx) + SLOT_SIZE]
              else s.Empty() && s.Content() == Zeros(SLOT_SIZE)
    {
      var r := os.ReadAll(name, SlotOff(idx), SLOT_SIZE);
      read := r.Some?;
      s := if r.Some? then SlotOf(r.value) else KeySlot(Zeros(SALT), Zeros(SLOT_SIZE - SALT));
    }

    method WriteSlot(idx: nat, s: KeySlot) returns (ok: bool)
      requires Attached() && s.Sized() && idx < NUM_SLOTS
      modifies this`prev, this`base, this`later, os
      ensures Touched(name, old(os.files), old(os.trace), os.files, os.trace)
      ensures Attached() && WriteSlotStep(old(Now()), Now(), idx, s.Content(), ok)
      ensures old(os.trace) <= os.trace
      ensures forall i | |old(os.trace)| <= i < |os.trace| ::
                name in os.trace[i] && MidSlot(old(Now()), idx, s.Content(), os.trace[i][name])
      ensures os.Onward() && os.drawn == old(os.drawn) && os.times == old(os.times)
      ensures !ok ==> os.faults > old(os.faults)
    {
      hide Splice, Issued, Touched, PartWrites, MidSlot, WriteSlotStep, Cache;
      ghost var f0, t0, was := os.files, os.trace, Now();
      ghost var k: nat;
      ok, k := os.PWriteAll(name, s.Content(), SlotOff(idx));
      SlotWrites(was, t0, os.trace, name, idx, s.Content());
      SlotEnds(was, os.files[name], Now(), idx, s.Content(), k, false);
      if !ok {
        return;
      }
      ghost var f1, t1 := os.files, os.trace;
      ok := os.Sync(name);
      TouchedTrans(name, f0, t0, f1, t1, os.files, os.trace);
      if ok {
        Confirm(was);
        SyncedDisk(was);
        SlotEnds(was, f1[name], Now(), idx, s.Content(), k, true);
      }
    }
  }

  // ---- states on the way ----

  /** The commit could have ended with the file in this state. */
  ghost predicate MidCommit(cs: Suite, key: bytes, s: State, root: Root, d: Disk)
    requires s.mem.Some? && DATA_START <= s.mem.value.fileSize <= |Cache(s.disk)|
  {
    exists s': State, nonce: bytes, fate: Fate ::
      |nonce| == NONCE && CommitStep(cs, key, s, s', root, nonce, fate) && s'.disk == d
  }

  /** Writing a key slot could have ended with the file in this state. */
  ghost predicate MidSlot(s: State, idx: nat, content: bytes, d: Disk)
    requires idx < NUM_SLOTS && |content| == SLOT_SIZE
  {
    exists s': State, ok: bool :: WriteSlotStep(s, s', idx, content, ok) && s'.disk == d
  }

  ghost predicate CommitMoments(cs: Suite, key: bytes, s: State, root: Root,
                                t0: seq<map<Name, Disk>>, t1: seq<map<Name, Disk>>, name: Name)
    requires s.mem.Some? && DATA_START <= s.mem.value.fileSize <= |Cache(s.disk)|
  {
    t0 <= t1 && forall i | |t0| <= i < |t1| :: name in t1[i] && MidCommit(cs, key, s, root, t1[i][name])
  }

  lemma NoMoments(cs: Suite, key: bytes, s: State, root: Root, t: seq<map<Name, Disk>>, name: Name)
    requires s.mem.Some? && DATA_START <= s.mem.value.fileSize <= |Cache(s.disk)|
    ensures CommitMoments(cs, key, s, root, t, t, name)
  {
  }

  lemma MidSynced(cs: Suite, key: bytes, s: State, root: Root, t: seq<map<Name, Disk>>, files: map<Name, Disk>,
                  name: Name)
    requires s.mem.Some? && DATA_START <= s.mem.value.fileSize <= |Cache(s.disk)|
    requires name in files && files[name] == Synced(s.disk)
    ensures CommitMoments(cs, key, s, root, t, t + [files], name)
  {
    hide SbBlock, Issued, Cache;
    assert CommitStep(cs, key, s, SyncState(s), root, Zeros(NONCE), NoEntropy);
  }

  lemma MidWrites(cs: Suite, key: bytes, s: State, root: Root, nonce: bytes,
                  t0: seq<map<Name, Disk>>, t1: seq<map<Name, Disk>>, t2: seq<map<Name, Disk>>, name: Name)
    requires s.mem.Some? && DATA_START <= s.mem.value.fileSize <= |Cache(s.disk)| && |nonce| == NONCE
    requires CommitMoments(cs, key, s, root, t0, t1, name)
    requires PartWrites(t1, t2, name, Synced(s.disk), s.mem.value.active.Other().Off(),
                        SbBlock(cs, key, nonce, s.mem.value.seqno + 1, root))
    ensures CommitMoments(cs, key, s, root, t0, t2, name)
  {
    hide SbBlock, Issued, Cache, Data, MidCommit, Part;
    forall i | |t1| <= i < |t2|
      ensures name in t2[i] && MidCommit(cs, key, s, root, t2[i][name])
    {
      MidWrite(cs, key, s, root, nonce, t2[i][name]);
    }
  }

  lemma MidWrite(cs: Suite, key: bytes, s: State, root: Root, nonce: bytes, d: Disk)
    requires s.mem.Some? && DATA_START <= s.mem.value.fileSize <= |Cache(s.disk)| && |nonce| == NONCE
    requires Part(Synced(s.disk), d, s.mem.value.active.Other().Off(),
                  SbBlock(cs, key, nonce, s.mem.value.seqno + 1, root))
    ensures MidCommit(cs, key, s, root, d)
  {
    hide SbBlock, Issued, Cache, Data;
    var s2, block := Demoted(SyncState(s)), SbBlock(cs, key, nonce, s.mem.value.seqno + 1, root);
    var s' := s2.(disk := d, later := s2.later + [Attempt(block, NewSnapshot(s, root))]);
    assert CommitStep(cs, key, s, s', root, nonce, WriteFailed);
  }

  lemma MidDone(cs: Suite, key: bytes, s: State, root: Root, nonce: bytes, s': State,
                t0: seq<map<Name, Disk>>, t1: seq<map<Name, Disk>>, files: map<Name, Disk>, name: Name)
    requires s.mem.Some? && DATA_START <= s.mem.value.fileSize <= |Cache(s.disk)| && |nonce| == NONCE
    requires CommitMoments(cs, key, s, root, t0, t1, name)
    requires CommitStep(cs, key, s, s', root, nonce, Done) && name in files && files[name] == s'.disk
    ensures CommitMoments(cs, key, s, root, t0, t1 + [files], name)
  {
    hide CommitStep, Cache;
    assert MidCommit(cs, key, s, root, s'.disk);
  }

  lemma SlotWrites(s: State, t0: seq<map<Name, Disk>>, t1: seq<map<Name, Disk>>, name: Name, idx: nat, content: bytes)
    requires idx < NUM_SLOTS && |content| == SLOT_SIZE && PartWrites(t0, t1, name, s.disk, SlotOff(idx), content)
    ensures forall i | |t0| <= i < |t1| :: name in t1[i] && MidSlot(s, idx, content, t1[i][name])
  {
    hide Issued;
    forall i | |t0| <= i < |t1|
      ensures name in t1[i] && MidSlot(s, idx, content, t1[i][name])
    {
      assert Part(s.disk, t1[i][name], SlotOff(idx), content);
      assert WriteSlotStep(s, s.(disk := t1[i][name]), idx, content, false);
    }
  }

  lemma SlotEnds(s: State, written: Disk, s': State, idx: nat, content: bytes, k: nat, ok: bool)
    requires idx < NUM_SLOTS && |content| == SLOT_SIZE && Issued(s.disk, written, SlotOff(idx), content, k)
    requires if ok then k == SLOT_SIZE && s' == SyncState(s).(disk := Synced(written)) else s' == s.(disk := written)
    ensures WriteSlotStep(s, s', idx, content, ok) && MidSlot(s, idx, content, s'.disk)
    ensures |Cache(s'.disk)| >= |Cache(s.disk)|
  {
    hide Splice;
    assert content[..SLOT_SIZE] == content;
    assert WriteSlotStep(s, s', idx, content, ok);
  }

  // the ends a commit can come to, as steps

  lemma NotBegun(cs: Suite, key: bytes, s: State, root: Root, nonce: bytes)
    requires s.mem.Some? && DATA_START <= s.mem.value.fileSize <= |Cache(s.disk)|
    ensures CommitStep(cs, key, s, s, root, nonce, SyncFailed)
    ensures CommitStep(cs, key, s, SyncState(s), root, nonce, NoEntropy)
    ensures |Cache(SyncState(s).disk)| == |Cache(s.disk)|
  {
    hide SbBlock, Issued;
  }

  lemma BegunStep(cs: Suite, key: bytes, s: State, s': State, root: Root, nonce: bytes, fate: Fate, k: nat)
    requires s.mem.Some? && DATA_START <= s.mem.value.fileSize <= |Cache(s.disk)| && s.mem.value.seqno + 1 < U64_LIMIT
    requires |nonce| == NONCE
    requires var m, s1 := s.mem.value, SyncState(s);
             var block := SbBlock(cs, key, nonce, m.seqno + 1, root);
             && Issued(s1.disk, s'.disk, m.active.Other().Off(), block, k)
             && s' == Demoted(s1).(disk := s'.disk, later := Demoted(s1).later + [Attempt(block, NewSnapshot(s, root))])
    requires fate == WriteFailed || (fate == FlushFailed && k == SB_SIZE)
    ensures CommitStep(cs, key, s, s', root, nonce, fate)
    ensures |Cache(s'.disk)| >= |Cache(s.disk)|
  {
    hide SbBlock, NewSnapshot, Splice;
    SbRoundTrip(cs, key, nonce, s.mem.value.seqno + 1, root);
  }

  lemma DoneStep(cs: Suite, key: bytes, s: State, flushed: Disk, s': State, root: Root, nonce: bytes, k: nat)
    requires s.mem.Some? && DATA_START <= s.mem.value.fileSize <= |Cache(s.disk)| && s.mem.value.seqno + 1 < U64_LIMIT
    requires |nonce| == NONCE && k == SB_SIZE
    requires var m := s.mem.value;
             && Issued(Synced(s.disk), flushed, m.active.Other().Off(), SbBlock(cs, key, nonce, m.seqno + 1, root), k)
             && s' == State(Synced(flushed), Some(m.(seqno := m.seqno + 1, active := m.active.Other(), root := root)),
                            s.live, NewSnapshot(s, root), [], NewSnapshot(s, root))
    ensures CommitStep(cs, key, s, s', root, nonce, Done)
    ensures |Cache(s'.disk)| >= |Cache(s.disk)|
  {
    hide SbBlock, Splice, NewSnapshot;
    var block := SbBlock(cs, key, nonce, s.mem.value.seqno + 1, root);
    SbRoundTrip(cs, key, nonce, s.mem.value.seqno + 1, root);
    assert block[..k] == block;
  }

  lemma DecodedFits(cs: Suite, key: bytes, block: Option<bytes>)
    ensures block.Some? && DecodeSb(cs, key, block.value).Some? ==> DecodeSb(cs, key, block.value).value.0 < U64_LIMIT
  {
    Pow256Values();
  }

  lemma Nothing(trace: seq<map<Name, Disk>>, files: map<Name, Disk>, name: Name)
    ensures Only(trace, trace, files, name)
  {
  }

  lemma EmptyFile()
    ensures Cache(Disk([], [])) == []
  {
  }
}
