/** The pack: a store, the index kept in memory, and the methods that change them. Each
    changing method is a step of PackRuns, and says what it does to the map from paths to
    contents that the pack stands for. */
module Pack {
  import opened Bytes
  import opened Crypto
  import opened Disk
  import opened StoreModel
  import opened Os
  import opened Store
  import opened Keys
  import opened Index
  import Codec
  import opened Paths
  import opened Delta
  import opened PackModel
  import opened PackRuns

  const DEFAULT_KDF: Kdf := Kdf(65536, 3, 1)

  // ---- records ----

  /** `encrypt_append`: a fresh nonce, and one record at the end of the file. Nothing is written
      under bytes that were not drawn for it, and it fails only if a call does. */
  method EncryptAppend(st: Store, key: bytes, data: bytes) returns (ok: bool, off: u64, ghost nonce: bytes)
    requires st.Attached()
    modifies st`fileSize, st.os
    ensures st.Attached() && Touched(st.name, old(st.os.files), old(st.os.trace), st.os.files, st.os.trace)
    ensures |nonce| == NONCE
    ensures var rec := Seal(st.cs, key, nonce, data);
            |rec| == OVERHEAD + |data|
            && if ok then off == old(st.fileSize) && off > 0 && off + |rec| <= MAX_OFFSET
                          && AppendStep(old(st.Now()), st.Now(), rec, off)
               else st.Now() == old(st.Now()) || AppendStep(old(st.Now()), st.Now(), rec, 0)
    ensures PartWrites(old(st.os.trace), st.os.trace, st.name, old(st.os.files[st.name]), old(st.fileSize),
                       Seal(st.cs, key, nonce, data))
    ensures st.os.Onward() && st.os.times == old(st.os.times) && (!ok ==> st.os.faults > old(st.os.faults))
    ensures || st.os.drawn == old(st.os.drawn) + [nonce]
            || (!ok && st.os.drawn == old(st.os.drawn) && st.os.files == old(st.os.files))
  {
    hide Seal, Cache, Touched, PartWrites;
    nonce := Zeros(NONCE);
    NoPartWrites(st.os.trace, st.name, st.os.files[st.name], st.fileSize, Seal(st.cs, key, nonce, data));
    TouchedRefl(st.name, st.os.files, st.os.trace);
    SealThenUnseal(st.cs, key, nonce, data);
    var random := st.os.RandomBytes(NONCE);
    if random.None? {
      return false, 0, nonce;
    }
    nonce := random.value;
    SealThenUnseal(st.cs, key, nonce, data);
    ghost var s := st.Now();
    off := st.Append(Seal(st.cs, key, random.value, data));
    AppendData(s, st.Now(), Seal(st.cs, key, nonce, data), off);
    ok := off != 0;
  }

  /** `read_decrypt`; nothing is returned when a call fails or when the record is malformed or
      not authentic. */
  method ReadDecrypt(st: Store, key: bytes, ref: BlobRef) returns (r: Option<bytes>, ghost read: bool)
    requires st.name in st.os.files
    modifies st.os`interrupts, st.os`faults
    ensures old(st.os.faults) <= st.os.faults && (!read ==> st.os.faults > old(st.os.faults))
    ensures r == if read then FileBlob(st.cs, key, Cache(st.os.files[st.name]), ref) else None
  {
    hide Unseal, Cache;
    read := true;
    if ref.encSize < OVERHEAD || ref.plainSize != ref.encSize - OVERHEAD {
      return None, read;
    }
    var rec := st.ReadAt(ref.offset, ref.encSize);
    if rec.None? {
      return None, ref.offset + ref.encSize > |Cache(st.os.files[st.name])|;
    }
    return Unseal(st.cs, key, rec.value), read;
  }

  // ---- states on the way ----

  /** Every state of the file since is one that the call on `s` could have ended in. */
  ghost predicate Moments(cs: Suite, key: bytes, s: PackState, call: Call,
                          t0: seq<map<Name, Disk>>, t1: seq<map<Name, Disk>>, name: Name) {
    t0 <= t1 && forall i | |t0| <= i < |t1| :: name in t1[i] && During(cs, key, s, call, t1[i][name])
  }

  lemma NoneYet(cs: Suite, key: bytes, s: PackState, call: Call, t: seq<map<Name, Disk>>, name: Name)
    ensures Moments(cs, key, s, call, t, t, name)
  {
  }

  lemma PutMoments(cs: Suite, key: bytes, s: PackState, path: bytes, data: bytes, now: u64, nonce: bytes,
                   t0: seq<map<Name, Disk>>, t1: seq<map<Name, Disk>>, name: Name)
    requires MemBounds(s.store) && |nonce| == NONCE && NoCollision(cs, key, s, data)
    requires Normalize(path) != [] && cs.hash(data) !in s.index.blobs
    requires PartWrites(t0, t1, name, s.store.disk, s.store.mem.value.fileSize, Seal(cs, key, nonce, data))
    ensures Moments(cs, key, s, Putting, t0, t1, name)
  {
    hide Seal, Cache, Part, Normalize, During, NoCollision, PutStep;
    forall i | |t0| <= i < |t1|
      ensures name in t1[i] && During(cs, key, s, Putting, t1[i][name])
    {
      var s' := s.(store := s.store.(disk := t1[i][name]));
      PutPart(cs, key, s, s', path, data, now, nonce);
      DuringBy(cs, key, s, Putting, Op.Put(path, data, now, nonce, false), s', t1[i][name]);
    }
  }

  lemma PartAppend(cs: Suite, key: bytes, s: State, s': State, nonce: bytes, plain: bytes)
    requires s.mem.Some? && s' == s.(disk := s'.disk) && |nonce| == NONCE
    requires Part(s.disk, s'.disk, s.mem.value.fileSize, Seal(cs, key, nonce, plain))
    ensures AppendStep(s, s', Seal(cs, key, nonce, plain), 0) && Seal(cs, key, nonce, plain) != []
  {
    hide Seal, Issued;
    SealThenUnseal(cs, key, nonce, plain);
  }

  lemma PutPart(cs: Suite, key: bytes, s: PackState, s': PackState, path: bytes, data: bytes, now: u64, nonce: bytes)
    requires s.store.mem.Some? && s' == s.(store := s.store.(disk := s'.store.disk)) && |nonce| == NONCE
    requires Normalize(path) != [] && cs.hash(data) !in s.index.blobs
    requires Part(s.store.disk, s'.store.disk, s.store.mem.value.fileSize, Seal(cs, key, nonce, data))
    ensures PutStep(cs, key, s, s', path, data, now, nonce, false)
  {
    hide Seal, Part, Normalize, AppendStep;
    PartAppend(cs, key, s.store, s'.store, nonce, data);
  }

  /** While the manifest is appended, the file is as an unentered commit leaves it. */
  lemma AppendMoments(cs: Suite, key: bytes, s: PackState, nonceM: bytes,
                      t0: seq<map<Name, Disk>>, t1: seq<map<Name, Disk>>, name: Name)
    requires MemBounds(s.store) && |nonceM| == NONCE
    requires PartWrites(t0, t1, name, s.store.disk, s.store.mem.value.fileSize,
                        Seal(cs, key, nonceM, Serialize(s.index)))
    ensures Moments(cs, key, s, Committing, t0, t1, name)
  {
    hide Seal, Serialize, Cache, Part, During, AppendStep;
    forall i | |t0| <= i < |t1|
      ensures name in t1[i] && During(cs, key, s, Committing, t1[i][name])
    {
      var s' := s.(store := s.store.(disk := t1[i][name]));
      PartAppend(cs, key, s.store, s'.store, nonceM, Serialize(s.index));
      DuringBy(cs, key, s, Committing, Op.Commit(nonceM, Zeros(NONCE), NoRecord), s', t1[i][name]);
    }
  }

  /** After that, as one that got as far as the superblock leaves it. */
  lemma FlushMoments(cs: Suite, key: bytes, s: PackState, mid: State, nonceM: bytes,
                     t0: seq<map<Name, Disk>>, t1: seq<map<Name, Disk>>, t2: seq<map<Name, Disk>>, name: Name)
    requires MemBounds(s.store) && MemBounds(mid) && |nonceM| == NONCE && Moments(cs, key, s, Committing, t0, t1, name)
    requires var off, rec := s.store.mem.value.fileSize, Seal(cs, key, nonceM, Serialize(s.index));
             && off > 0 && rec != [] && off + |rec| <= MAX_OFFSET && AppendStep(s.store, mid, rec, off)
             && CommitMoments(cs, key, mid, Root(off, |rec|), t1, t2, name)
    ensures Moments(cs, key, s, Committing, t0, t2, name)
  {
    hide Seal, Serialize, Cache, During, AppendStep, MidCommit;
    var off, rec := s.store.mem.value.fileSize, Seal(cs, key, nonceM, Serialize(s.index));
    forall i | |t1| <= i < |t2|
      ensures name in t2[i] && During(cs, key, s, Committing, t2[i][name])
    {
      FlushMoment(cs, key, s, mid, nonceM, t2[i][name]);
    }
  }

  lemma FlushMoment(cs: Suite, key: bytes, s: PackState, mid: State, nonceM: bytes, d: Disk)
    requires MemBounds(s.store) && MemBounds(mid) && |nonceM| == NONCE
    requires var off, rec := s.store.mem.value.fileSize, Seal(cs, key, nonceM, Serialize(s.index));
             && off > 0 && rec != [] && off + |rec| <= MAX_OFFSET && AppendStep(s.store, mid, rec, off)
             && MidCommit(cs, key, mid, Root(off, |rec|), d)
    ensures During(cs, key, s, Committing, d)
  {
    hide Seal, Serialize, Cache, During, AppendStep, CommitStep;
    var off, rec := s.store.mem.value.fileSize, Seal(cs, key, nonceM, Serialize(s.index));
    var st': State, nonceS: bytes, fate: Fate :| && |nonceS| == NONCE && st'.disk == d
                                                 && CommitStep(cs, key, mid, st', Root(off, |rec|), nonceS, fate);
    assert Flushed(cs, key, s.store, mid, st', rec, nonceS, fate);
    DuringBy(cs, key, s, Committing, Op.Commit(nonceM, nonceS, Reached(fate)), s.(store := st'), d);
  }

  lemma SlotMoments(cs: Suite, key: bytes, s: PackState, idx: nat, content: bytes,
                    t0: seq<map<Name, Disk>>, t1: seq<map<Name, Disk>>, name: Name)
    requires MemBounds(s.store) && idx < NUM_SLOTS && |content| == SLOT_SIZE && t0 <= t1
    requires forall i | |t0| <= i < |t1| :: name in t1[i] && MidSlot(s.store, idx, content, t1[i][name])
    ensures Moments(cs, key, s, Rekeying, t0, t1, name)
  {
    hide Cache, During, WriteSlotStep;
    forall i | |t0| <= i < |t1|
      ensures name in t1[i] && During(cs, key, s, Rekeying, t1[i][name])
    {
      assert MidSlot(s.store, idx, content, t1[i][name]);
      var st': State, ok: bool :| WriteSlotStep(s.store, st', idx, content, ok) && st'.disk == t1[i][name];
      DuringBy(cs, key, s, Rekeying, Op.WriteSlot(idx, content, ok), s.(store := st'), t1[i][name]);
    }
  }

  // ---- what the index operations mean ----

  lemma DelMeaning(cs: Suite, key: bytes, s: PackState, path: bytes)
    requires PackInv(cs, key, s) && MemBounds(s.store)
    ensures var (st, idx) := DelIndex(s.index, path);
            var s', p := s.(index := idx), Normalize(path);
            && PackInv(cs, key, s') && Step(cs, key, s, Op.Del(path), s')
            && Buffered(cs, key, s') == Buffered(cs, key, s) - {p}
            && (p in Buffered(cs, key, s) <==> p in s.index.paths)
            && SamePlaces(s.index.blobs, idx.blobs)
  {
    hide Inv, SnapsOk, Cache, Data, Normalize, IndexInv, Content, SamePlaces, DelIndex;
    DelInv(cs, key, Data(s.store), s.index, path);
  }

  lemma MoveMeaning(cs: Suite, key: bytes, s: PackState, from: bytes, to: bytes)
    requires PackInv(cs, key, s) && MemBounds(s.store)
    ensures var s', v := s.(index := MoveIndex(s.index, from, to).1), Buffered(cs, key, s);
            && PackInv(cs, key, s') && Step(cs, key, s, Op.Move(from, to), s')
            && Buffered(cs, key, s') == MoveView(v, from, to)
            && forall p :: p in v <==> p in s.index.paths
  {
    hide Inv, SnapsOk, Cache, Data, Normalize, IndexInv, Content, MoveIndex;
    MoveInv(cs, key, Data(s.store), s.index, from, to);
  }

  lemma CopyMeaning(cs: Suite, key: bytes, s: PackState, from: bytes, to: bytes, now: u64)
    requires PackInv(cs, key, s) && MemBounds(s.store) && |s.index.paths| + 1 < U32_LIMIT
    ensures var s', v := s.(index := CopyIndex(s.index, from, to, now).1), Buffered(cs, key, s);
            && PackInv(cs, key, s') && Step(cs, key, s, Op.Copy(from, to, now), s')
            && Buffered(cs, key, s') == CopyView(v, from, to)
            && (forall p :: p in v <==> p in s.index.paths)
            && (forall p | p in s.index.paths :: s.index.paths[p].hash in s.index.blobs)
  {
    hide Inv, SnapsOk, Cache, Data, Normalize, BlobsOk, CountsOk, IsNormal, Content, CopyIndex;
    CopyInv(cs, key, Data(s.store), s.index, from, to, now);
  }

  /** Index operations and commits leave the header as it is. */
  lemma HeaderKept(cs: Suite, key: bytes, s: PackState, op: Op, s': PackState)
    requires MemBounds(s.store) && Step(cs, key, s, op, s')
    requires op.Put? || op.Del? || op.Move? || op.Copy? || op.Commit?
    ensures ReadHeader(Cache(s'.store.disk)) == ReadHeader(Cache(s.store.disk))
  {
    hide Cache, Step, ReadHeader;
    FrontStays(cs, key, s, op, s');
    SameFront(cs, Cache(s.store.disk), Cache(s'.store.disk), [], []);
  }

  lemma PutMeaning(cs: Suite, key: bytes, s: PackState, s': PackState,
                   path: bytes, data: bytes, now: u64, nonce: bytes, ok: bool)
    requires PackInv(cs, key, s) && MemBounds(s.store) && NoCollision(cs, key, s, data)
    requires |nonce| == NONCE && |s.index.paths| + 1 < U32_LIMIT
    requires PutStep(cs, key, s, s', path, data, now, nonce, ok)
    ensures PackInv(cs, key, s') && MemBounds(s'.store) && Step(cs, key, s, Op.Put(path, data, now, nonce, ok), s')
    ensures Buffered(cs, key, s') == if ok then Buffered(cs, key, s)[Normalize(path) := data] else Buffered(cs, key, s)
    ensures ReadHeader(Cache(s'.store.disk)) == ReadHeader(Cache(s.store.disk))
  {
    hide PackInv, NoCollision, PutStep, Buffered, Cache, ReadHeader, Normalize;
    PutRefines(cs, key, s, s', path, data, now, nonce, ok);
    InvBounds(cs, key, s');
    HeaderKept(cs, key, s, Op.Put(path, data, now, nonce, ok), s');
  }

  class Pack {
    const os: System
    const name: Name
    const cs: Suite
    const key: bytes          // the master key
    const openedSlot: nat

    var store: Store?
    var index: Index
    var lastErr: Status

    ghost predicate Bound()
      reads this, store, os
    {
      && store != null && store.os == os && store.name == name && store.cs == cs && store.Attached()
      && |key| == KEY && openedSlot < NUM_SLOTS && ValidKdf(store.kdf)
      && ReadHeader(Cache(os.files[name])) == Some(store.kdf)
    }

    ghost function Now(): PackState
      reads this, store, os
      requires Bound()
    {
      PackState(store.Now(), index)
    }

    ghost predicate Valid()
      reads this, store, os
    {
      Bound() && PackInv(cs, key, Now())
    }

    /** The buffered contents. */
    ghost function View(): View
      reads this, store, os
      requires Bound()
    {
      Buffered(cs, key, Now())
    }

    constructor (os: System, name: Name, cs: Suite, key: bytes, openedSlot: nat, store: Store, index: Index)
      ensures this.os == os && this.name == name && this.cs == cs && this.key == key && this.openedSlot == openedSlot
      ensures this.store == store && this.index == index && lastErr == Ok
    {
      this.os, this.name, this.cs, this.key, this.openedSlot := os, name, cs, key, openedSlot;
      this.store, this.index, lastErr := store, index, Ok;
    }

    // ---- buffered changes ----

    method Put(path: bytes, data: bytes) returns (ok: bool, ghost op: Op)
      requires Valid() && |index.paths| + 1 < U32_LIMIT && NoCollision(cs, key, Now(), data)
      modifies this`index, this`lastErr, store`fileSize, os
      ensures Valid() && Touched(name, old(os.files), old(os.trace), os.files, os.trace)
      ensures op.Put? && op.path == path && op.data == data && op.ok == ok && |op.nonce| == NONCE
      ensures Step(cs, key, old(Now()), op, Now())
      ensures View() == if ok then old(View())[Normalize(path) := data] else old(View())
      ensures ok ==> Normalize(path) != [] && lastErr == Ok
      ensures !ok ==> lastErr == if Normalize(path) == [] then ErrArg else ErrIo
      // content already stored, even if no path uses it, is not stored again
      ensures cs.hash(data) in old(index.blobs) ==> store.Now() == old(store.Now()) && os.files == old(os.files)
      ensures Moments(cs, key, old(Now()), Putting, old(os.trace), os.trace, name)
      ensures os.Onward() && (!ok && Normalize(path) != [] ==> os.faults > old(os.faults))
      ensures os.times == if ok then old(os.times) + [op.now] else old(os.times)
      ensures ok ==> var p := Normalize(path); p in index.paths && index.paths[p] == PathEntry(cs.hash(data), op.now)
      ensures || os.drawn == old(os.drawn) + [op.nonce]
              || (os.drawn == old(os.drawn) && os.files == old(os.files))
    {
      hide PackInv, Seal, Cache, Data, Touched, Normalize, Repoint, NoCollision, Buffered, AppendStep, PartWrites,
           Moments, ReadHeader, Step;
      ghost var s, t0 := Now(), os.trace;
      TouchedRefl(name, os.files, os.trace);
      NoneYet(cs, key, s, Putting, t0, name);
      var p := NormalizePath(path);
      var now: u64 := 0;
      ghost var nonce := Zeros(NONCE);
      if p == [] {
        lastErr := ErrArg;
        op := Op.Put(path, data, now, nonce, false);
        PutMeaning(cs, key, s, s, path, data, now, nonce, false);
        return false, op;
      }
      var h := cs.hash(data);
      if h !in index.blobs {
        var off: u64;
        ok, off, nonce := EncryptAppend(store, key, data);
        PutMoments(cs, key, s, path, data, now, nonce, t0, os.trace, name);
        if !ok {
          lastErr := ErrIo;
          op := Op.Put(path, data, now, nonce, false);
          PutMeaning(cs, key, s, PackState(store.Now(), index), path, data, now, nonce, false);
          return false, op;
        }
        index := index.(blobs := index.blobs[h := BlobRef(off, OVERHEAD + |data|, |data|, 0)]);
      }
      now := os.Clock();
      RepointHere(p, h, now);
      lastErr := Ok;
      op := Op.Put(path, data, now, nonce, true);
      PutMeaning(cs, key, s, PackState(store.Now(), index), path, data, now, nonce, true);
      return true, op;
    }

    /** The path gives up its old blob, if it had one, and takes h. */
    method RepointHere(p: bytes, h: bytes, now: u64)
      requires h in index.blobs
      modifies this`index
      ensures index == Repoint(old(index), p, h, now)
      ensures p in index.paths && index.paths[p] == PathEntry(h, now)
    {
      var blobs := index.blobs;
      if p in index.paths {
        var o := index.paths[p].hash;
        if o in blobs && blobs[o].refcount > 0 {
          blobs := blobs[o := blobs[o].(refcount := blobs[o].refcount - 1)];
        }
      }
      blobs := blobs[h := blobs[h].(refcount := (blobs[h].refcount + 1) % U32_LIMIT)];
      index := Index(blobs, index.paths[p := PathEntry(h, now)]);
    }

    method Del(path: bytes) returns (ok: bool)
      requires Valid()
      modifies this`index, this`lastErr
      ensures Valid() && Step(cs, key, old(Now()), Op.Del(path), Now())
      ensures View() == old(View()) - {Normalize(path)}
      ensures (ok <==> Normalize(path) in old(View())) && lastErr == if ok then Ok else ErrNotFound
      ensures SamePlaces(old(index.blobs), index.blobs)
    {
      hide PackInv, Step, Buffered, Cache, ReadHeader, Normalize, SamePlaces;
      DelMeaning(cs, key, Now(), path);
      var p := NormalizePath(path);
      if p !in index.paths {
        lastErr := ErrNotFound;
        return false;
      }
      var h := index.paths[p].hash;
      var blobs := index.blobs;
      if h in blobs && blobs[h].refcount > 0 {
        blobs := blobs[h := blobs[h].(refcount := blobs[h].refcount - 1)];
      }
      index := Index(blobs, index.paths - {p});
      lastErr := Ok;
      return true;
    }

    method Move(from: bytes, to: bytes) returns (ok: bool)
      requires Valid()
      modifies this`index, this`lastErr
      ensures Valid() && Step(cs, key, old(Now()), Op.Move(from, to), Now())
      ensures View() == MoveView(old(View()), from, to)
      ensures var f, t := Normalize(from), Normalize(to);
              && (ok <==> f != [] && t != [] && f in old(View()) && t !in old(View()))
              && (ok ==> f in old(index).paths && t in index.paths && index.paths[t] == old(index).paths[f])
              && lastErr == if ok then Ok else if f == [] || t == [] then ErrArg
                            else if f !in old(View()) then ErrNotFound else ErrExists
    {
      hide PackInv, Step, Buffered, Cache, ReadHeader, Normalize, MoveView;
      MoveMeaning(cs, key, Now(), from, to);
      var f := NormalizePath(from);
      var t := NormalizePath(to);
      if f == [] || t == [] {
        lastErr := ErrArg;
        return false;
      }
      if f !in index.paths {
        lastErr := ErrNotFound;
        return false;
      }
      if t in index.paths {
        lastErr := ErrExists;
        return false;
      }
      index := index.(paths := index.paths[t := index.paths[f]]);
      index := index.(paths := index.paths - {f});
      lastErr := Ok;
      return true;
    }

    method Copy(from: bytes, to: bytes) returns (ok: bool, ghost now: u64)
      requires Valid() && |index.paths| + 1 < U32_LIMIT
      modifies this`index, this`lastErr, os`times
      ensures os.times == if ok then old(os.times) + [now] else old(os.times)
      ensures ok ==>
                var f, t := Normalize(from), Normalize(to);
                && f in old(index).paths && t in index.paths
                && index.paths[t] == PathEntry(old(index).paths[f].hash, now)
      ensures Valid() && Step(cs, key, old(Now()), Op.Copy(from, to, now), Now())
      ensures View() == CopyView(old(View()), from, to)
      ensures var f, t := Normalize(from), Normalize(to);
              && (ok <==> f != [] && t != [] && f in old(View()) && t !in old(View()))
              && lastErr == if ok then Ok else if f == [] || t == [] then ErrArg
                            else if f !in old(View()) then ErrNotFound else ErrExists
    {
      hide PackInv, Step, Buffered, Cache, ReadHeader, Normalize, CopyView;
      now := 0;
      CopyMeaning(cs, key, Now(), from, to, now);
      var f := NormalizePath(from);
      var t := NormalizePath(to);
      if f == [] || t == [] {
        lastErr := ErrArg;
        return false, now;
      }
      if f !in index.paths {
        lastErr := ErrNotFound;
        return false, now;
      }
      if t in index.paths {
        lastErr := ErrExists;
        return false, now;
      }
      var h := index.paths[f].hash;
      if h !in index.blobs {
        assert false;  // every path's hash is a blob key
      }
      var blobs := index.blobs[h := index.blobs[h].(refcount := (index.blobs[h].refcount + 1) % U32_LIMIT)];
      var time := os.Clock();
      now := time;
      CopyMeaning(cs, key, Now(), from, to, now);
      index := Index(blobs, index.paths[t := PathEntry(h, time)]);
      lastErr := Ok;
      return true, now;
    }

    // ---- reading ----

    method Has(path: bytes) returns (r: bool)
      requires Valid()
      ensures r <==> Normalize(path) in View()
    {
      hide Inv, SnapsOk, Cache, Data, ReadHeader, Normalize, IndexInv, Content;
      var p := NormalizePath(path);
      r := p in index.paths;
    }

    /** The content of a path; a failed read is the only way not to get it. */
    method Get(path: bytes) returns (r: Option<bytes>, ghost read: bool)
      requires Valid()
      modifies this`lastErr, os`interrupts, os`faults
      ensures Valid() && Now() == old(Now())
      ensures old(os.faults) <= os.faults && (!read ==> os.faults > old(os.faults))
      ensures var p := Normalize(path);
              && (r.Some? <==> p in View() && read)
              && (r.Some? ==> r.value == View()[p] && p in index.paths && cs.hash(r.value) == index.paths[p].hash)
              && lastErr == if r.Some? then Ok else if p !in View() then ErrNotFound else ErrAuth
    {
      hide Inv, SnapsOk, Cache, Data, ReadHeader, Normalize, ReadBlob, CountsOk, IsNormal;
      read := true;
      var p := NormalizePath(path);
      if p !in index.paths {
        lastErr := ErrNotFound;
        return None, read;
      }
      var h := index.paths[p].hash;
      if h !in index.blobs {
        assert false;  // every path's hash is a blob key
      }
      assert Sound(cs, key, Data(store.Now()), h, index.blobs[h]);
      BlobInFile(cs, key, store.Now(), index.blobs[h]);
      r, read := ReadDecrypt(store, key, index.blobs[h]);
      lastErr := if r.None? then ErrAuth else Ok;
    }

    // ---- durability ----

    method Commit() returns (ok: bool, ghost op: Op)
      requires Valid() && Fits(index) && store.seqno + 1 < U64_LIMIT
      modifies this`lastErr, store, os
      ensures Bound() && index == old(index) && Touched(name, old(os.files), old(os.trace), os.files, os.trace)
      ensures op.Commit? && (ok <==> op.outcome == Reached(Done)) && lastErr == if ok then Ok else ErrIo
      ensures Step(cs, key, old(Now()), op, Now()) && |op.nonceM| == |op.nonceS| == NONCE
      // what a failing commit leaves is only known if no torn superblock was forged
      ensures Unforged(cs, key, store.Now()) ==>
                Valid() && LayerStep(Abstract(cs, key, old(Now())), op, Abstract(cs, key, Now()))
      ensures View() == old(View())
      ensures Moments(cs, key, old(Now()), Committing, old(os.trace), os.trace, name)
      ensures os.Onward() && os.times == old(os.times) && (!ok ==> os.faults > old(os.faults))
      ensures || os.drawn == old(os.drawn) + Drawn(op.nonceM, op.nonceS, op.outcome)
              || (op.outcome == NoRecord && os.drawn == old(os.drawn) && os.files == old(os.files))
    {
      hide PackInv, CommitOp, LayerStep, Unforged, Buffered, Touched, Cache, Moments, ReadHeader;
      ghost var s := Now();
      ghost var nonceM: bytes, nonceS: bytes, outcome: Outcome;
      ok, nonceM, nonceS, outcome := FlushManifest(store, key, index);
      lastErr := if ok then Ok else ErrIo;
      op := Op.Commit(nonceM, nonceS, outcome);
      HeaderKept(cs, key, s, op, PackState(store.Now(), index));
      CommitMeaning(cs, key, s, Now(), nonceM, nonceS, outcome);
    }

    // ---- passwords ----

    /** The new password takes over this pack's slot; the data region is not touched. */
    method Rekey(password: bytes) returns (ok: bool, ghost salt: bytes, ghost nonce: bytes)
      requires Valid()
      modifies this`lastErr, store`prev, store`base, store`later, os
      ensures Valid() && index == old(index) && Touched(name, old(os.files), old(os.trace), os.files, os.trace)
      ensures View() == old(View()) && lastErr == if ok then Ok else ErrIo
      ensures |salt| == SALT && |nonce| == NONCE
      ensures var s := Wrap(cs, key, password, store.kdf, salt, nonce);
              && s.Sized()
              && (Now() == old(Now()) || Step(cs, key, old(Now()), Op.WriteSlot(openedSlot, s.Content(), ok), Now()))
              && (ok ==>
                    os.files[name] == Disk(Splice(Cache(old(os.files[name])), SlotOff(openedSlot), s.Content()), []))
      // the pack can be opened with the new password
      ensures ok && KeysAgree(cs, old(Cache(os.files[name])), password, key) ==>
                && KeysAgree(cs, Cache(os.files[name]), password, key)
                && var r := Unlock(cs, store.kdf, Cache(os.files[name]), password, 0);
                   (salt != Zeros(SALT) ==> r.Some?) && (r.Some? ==> r.value.1 == key)
      ensures Moments(cs, key, old(Now()), Rekeying, old(os.trace), os.trace, name)
      ensures os.Onward() && os.times == old(os.times) && (!ok ==> os.faults > old(os.faults))
      ensures os.drawn == old(os.drawn) + [salt, nonce] || (!ok && os.files == old(os.files))
    {
      hide PackInv, Step, Buffered, Cache, Splice, Wrap, Moments, ReadHeader, KeysAgree, Unlock;
      ghost var s, t0 := Now(), os.trace;
      NoneYet(cs, key, s, Rekeying, t0, name);
      TouchedRefl(name, os.files, os.trace);
      var slot: Option<KeySlot>;
      slot, salt, nonce := WrapMaster(os, cs, key, password, store.kdf);
      WrapThenUnwrap(cs, key, password, store.kdf, salt, nonce);
      if slot.None? {
        lastErr := ErrIo;
        return false, salt, nonce;
      }
      ok := store.WriteSlot(openedSlot, slot.value);
      SlotHeader(s.store, store.Now(), openedSlot, slot.value.Content(), ok);
      SlotMeaning(cs, key, s, Now(), openedSlot, slot.value.Content(), ok);
      if ok && KeysAgree(cs, Cache(s.store.disk), password, key) {
        RekeyAgrees(cs, store.kdf, Cache(s.store.disk), openedSlot, key, password, salt, nonce);
        CacheSynced(os.files[name]);
      }
      SlotMoments(cs, key, s, openedSlot, slot.value.Content(), t0, os.trace, name);
      lastErr := if ok then Ok else ErrIo;
    }

    // ---- creating and opening ----

    static method Create(os: System, name: Name, cs: Suite, password: bytes)
      returns (pk: Pack?, ghost salt: bytes, ghost nonce: bytes)
      modifies os
      ensures pk == null ==>
                os.files - {name} == old(os.files) - {name} && Only(old(os.trace), os.trace, old(os.files), name)
      ensures pk != null ==>
                && fresh(pk) && fresh(pk.store) && pk.os == os && pk.name == name && pk.cs == cs && pk.Valid()
                && name !in old(os.files) && Touched(name, old(os.files), old(os.trace), os.files, os.trace)
                && pk.store.later == [] && pk.index == EMPTY && pk.store.seqno == 1
                && pk.store.base == pk.store.live == Snapshot(1, Root(0, 0), [])
                && Abstract(cs, pk.key, pk.Now()) == Layers(map[], map[], [], Some(map[]), false)
      ensures |salt| == SALT && |nonce| == NONCE
      ensures pk != null ==>
                && os.files[name].pending == []
                && FreshSlots(cs, Cache(os.files[name]), DEFAULT_KDF, pk.key, password, salt, nonce)
      // the pack can be opened with the password, unless the salt drawn for it is the mark of an empty slot
      ensures pk != null ==>
                && KeysAgree(cs, Cache(os.files[name]), password, pk.key) && |Cache(os.files[name])| >= DATA_START
                && Unlock(cs, DEFAULT_KDF, Cache(os.files[name]), password, 0)
                   == if salt != Zeros(SALT) then Some((0, pk.key)) else None
      ensures os.Onward() && os.times == old(os.times)
      ensures pk != null ==> ReadHeader(Cache(os.files[name])) == Some(Kdf(65536, 3, 1))
      ensures pk == null && name !in old(os.files) ==> os.faults > old(os.faults)
      ensures pk != null ==> old(os.drawn) + [pk.key, salt, nonce] <= os.drawn
    {
      hide PackInv, Splice, Wrap, CreatedFile, Only, FreshSlots, ReadHeader, KeysAgree, Unlock;
      ghost var f0, t0 := os.files, os.trace;
      assert Only(t0, t0, f0, name) by { Nothing(t0, f0, name); }
      salt, nonce := Zeros(SALT), Zeros(NONCE);
      var master := os.RandomBytes(KEY);
      if master.None? {
        return null, salt, nonce;
      }
      var slot: Option<KeySlot>;
      slot, salt, nonce := WrapMaster(os, cs, master.value, password, DEFAULT_KDF);
      if slot.None? {
        return null, salt, nonce;
      }
      pk := CreateWith(os, name, cs, master.value, slot.value, password, salt, nonce);
      if pk != null {
        CreatedUnlocks(cs, Cache(os.files[name]), DEFAULT_KDF, pk.key, password, salt, nonce);
        FreshHeader(cs, Cache(os.files[name]), DEFAULT_KDF, pk.key, password, salt, nonce);
      }
    }

    /** The second half of creating: the store and its first slot, given the master key. */
    static method CreateWith(os: System, name: Name, cs: Suite, master: bytes, slot: KeySlot,
                             ghost password: bytes, ghost salt: bytes, ghost nonce: bytes)
      returns (pk: Pack?)
      requires |master| == KEY && |salt| == SALT && |nonce| == NONCE
      requires slot == Wrap(cs, master, password, DEFAULT_KDF, salt, nonce) && slot.Sized()
      modifies os
      ensures pk == null ==>
                os.files - {name} == old(os.files) - {name} && Only(old(os.trace), os.trace, old(os.files), name)
      ensures pk != null ==>
                && fresh(pk) && fresh(pk.store) && pk.os == os && pk.name == name && pk.cs == cs && pk.key == master
                && pk.Valid()
                && name !in old(os.files) && Touched(name, old(os.files), old(os.trace), os.files, os.trace)
                && pk.store.later == [] && pk.index == EMPTY && pk.store.seqno == 1
                && pk.store.base == pk.store.live == Snapshot(1, Root(0, 0), [])
                && Abstract(cs, pk.key, pk.Now()) == Layers(map[], map[], [], Some(map[]), false)
                && os.files[name].pending == []
                && FreshSlots(cs, Cache(os.files[name]), DEFAULT_KDF, master, password, salt, nonce)
      ensures os.Onward() && os.times == old(os.times)
      ensures pk == null && name !in old(os.files) ==> os.faults > old(os.faults)
    {
      hide PackInv, Splice, Wrap, CreatedFile, Only, FreshSlots, ReadHeader;
      ghost var f0, t0 := os.files, os.trace;
      ghost var nonceA: bytes, nonceB: bytes;
      var store: Store?;
      store, nonceA, nonceB := Store.Create(os, name, cs, master, DEFAULT_KDF);
      if store == null {
        return null;
      }
      CreatedPack(cs, master, DEFAULT_KDF, nonceA, nonceB);
      CreatedSlots(cs, master, password, DEFAULT_KDF, nonceA, nonceB, salt, nonce);
      ghost var s := PackState(store.Now(), EMPTY);
      ghost var f1, t1 := os.files, os.trace;
      var written := store.WriteSlot(0, slot);
      TouchedTrans(name, f0, t0, f1, t1, os.files, os.trace);
      if !written {
        assert os.files - {name} == f0 - {name}
               && Only(t0, os.trace, f0, name) by { TouchedOnly(name, f0, t0, os.files, os.trace); }
        return null;
      }
      SlotMeaning(cs, master, s, PackState(store.Now(), EMPTY), 0, slot.Content(), true);
      FreshHeader(cs, Cache(os.files[name]), DEFAULT_KDF, master, password, salt, nonce);
      pk := new Pack(os, name, cs, master, 0, store, EMPTY);
    }

    /** `closed` is what is known of the file, and `master` the key its slots hold. Opening is a
        step of the run, and the pack is valid whichever superblocks could be read; a password
        that no slot accepts opens nothing. Unless a call fails, a password that some slot accepts
        opens the pack, by the first such slot, and it buffers the newest commit in the file. */
    static method Open(os: System, name: Name, cs: Suite, password: bytes, ghost closed: PackState, ghost master: bytes)
      returns (pk: Pack?, ghost readA: bool, ghost readB: bool)
      requires name in os.files ==>
                 && closed.store.disk == os.files[name] && closed.store.mem.None?
                 && PackInv(cs, master, closed) && Unforged(cs, master, closed.store)
                 && KeysAgree(cs, Cache(os.files[name]), password, master)
      requires |master| == KEY
      modifies os`interrupts, os`faults
      ensures pk != null ==>
                && fresh(pk) && fresh(pk.store) && pk.os == os && pk.name == name && pk.cs == cs && pk.key == master
                && pk.Bound() && Step(cs, master, closed, Op.Open(readA, readB), pk.Now())
                && pk.Valid()
      ensures pk != null ==>
                && name in os.files && |Cache(os.files[name])| >= DATA_START
                && ReadHeader(Cache(os.files[name])) == Some(pk.store.kdf)
                && Accepts(cs, pk.store.kdf, Cache(os.files[name]), password, pk.openedSlot)
      ensures pk != null ==> old(os.faults) + Unread(readA, readB) <= os.faults
      ensures old(os.faults) <= os.faults
      ensures name in os.files && os.faults == old(os.faults) ==>
                && |Cache(os.files[name])| >= DATA_START && ReadHeader(Cache(os.files[name])).Some?
                && var r := Unlock(cs, ReadHeader(Cache(os.files[name])).value, Cache(os.files[name]), password, 0);
                && (pk != null <==> r.Some?) && (pk != null ==> r.value == (pk.openedSlot, master))
      ensures pk != null && os.faults == old(os.faults) ==>
                !Behind(pk.store.Now()) && OpensAs(cs, master, Cache(os.files[name]), pk.View())
    {
      hide PackInv, Cache, Unwrap, SlotAt, ReadHeader, OpenAnyStep, FileIndex, Unforged, Unlock, OpensAs, Buffered,
           Behind;
      readA, readB := false, false;
      if name in os.files {
        Readable(cs, master, closed);
      }
      var meta, slots := ReadMeta(os, name);
      if meta.None? {
        return null, readA, readB;
      }
      ghost var f := Cache(os.files[name]);
      var which, key := TrySlots(os, cs, slots, password, meta.value, f);
      if which == NUM_SLOTS {
        return null, readA, readB;
      }
      assert Accepts(cs, meta.value, f, password, which);
      pk, readA, readB := Attach(os, name, cs, key, which, closed);
    }

    /** The second half of opening: the store and the index, given the master key. */
    static method Attach(os: System, name: Name, cs: Suite, key: bytes, slot: nat, ghost closed: PackState)
      returns (pk: Pack?, ghost readA: bool, ghost readB: bool)
      requires name in os.files && closed.store.disk == os.files[name] && closed.store.mem.None?
      requires PackInv(cs, key, closed) && Unforged(cs, key, closed.store) && |key| == KEY && slot < NUM_SLOTS
      modifies os`interrupts, os`faults
      ensures pk != null ==>
                && fresh(pk) && fresh(pk.store) && pk.os == os && pk.name == name && pk.cs == cs && pk.key == key
                && pk.openedSlot == slot && pk.Valid() && Step(cs, key, closed, Op.Open(readA, readB), pk.Now())
      ensures pk != null ==> old(os.faults) + Unread(readA, readB) <= os.faults
      ensures old(os.faults) <= os.faults && (pk == null ==> os.faults > old(os.faults))
      ensures pk != null && os.faults == old(os.faults) ==>
                !Behind(pk.store.Now()) && OpensAs(cs, key, Cache(os.files[name]), pk.View())
    {
      hide PackInv, Cache, ReadHeader, OpenAnyStep, FileIndex, Unforged, LayerStep, Step, OpenImage, OpensAs, Buffered,
           Behind;
      ghost var faults := os.faults;
      StoreOf(cs, key, true, closed);
      var store: Store?;
      store, readA, readB := Store.Open(os, name, cs, key, closed.store);
      if store == null {
        return null, readA, readB;
      }
      HeaderIsValid(Cache(os.files[name]));
      OpenBounds(cs, key, closed, store.Now(), readA, readB);
      ManifestThere(cs, key, closed, store.Now(), readA, readB);
      var idx := LoadManifest(store, key);
      if idx.None? {
        return null, readA, readB;
      }
      OpenMeaning(cs, key, closed, PackState(store.Now(), idx.value), readA, readB);
      if os.faults == faults {
        NewestOpened(cs, key, closed, PackState(store.Now(), idx.value), readA, readB);
      }
      pk := new Pack(os, name, cs, key, slot, store, idx.value);
    }
  }

  lemma TouchedOnly(name: Name, files: map<Name, Disk>, trace: seq<map<Name, Disk>>,
                    files': map<Name, Disk>, trace': seq<map<Name, Disk>>)
    requires Touched(name, files, trace, files', trace')
    ensures files' - {name} == files - {name} && Only(trace, trace', files, name)
  {
  }

  lemma SlotMeaning(cs: Suite, key: bytes, s: PackState, s': PackState, idx: nat, content: bytes, ok: bool)
    requires PackInv(cs, key, s) && MemBounds(s.store) && s'.index == s.index && idx < NUM_SLOTS
             && |content| == SLOT_SIZE
    requires WriteSlotStep(s.store, s'.store, idx, content, ok)
    ensures PackInv(cs, key, s') && MemBounds(s'.store) && Step(cs, key, s, Op.WriteSlot(idx, content, ok), s')
    ensures Buffered(cs, key, s') == Buffered(cs, key, s)
    ensures s.store.live == s.store.base ==> s'.store == s.store.(disk := s'.store.disk)
  {
    hide PackInv, WriteSlotStep;
    WriteSlotRefines(cs, key, s, s', idx, content, ok);
    InvBounds(cs, key, s');
    SlotKeepsMem(s.store, s'.store, idx, content, ok);
  }

  /** Writing a key slot leaves the header as it is. */
  lemma {:induction false} SlotHeader(s: State, s': State, idx: nat, content: bytes, ok: bool)
    requires MemBounds(s) && idx < NUM_SLOTS && |content| == SLOT_SIZE && WriteSlotStep(s, s', idx, content, ok)
    ensures ReadHeader(Cache(s'.disk)) == ReadHeader(Cache(s.disk))
  {
    hide ReadHeader, Splice, Replay;
    var f, off := Cache(s.disk), SlotOff(idx);
    if ok {
      CacheSynced(s'.disk);
      SlotSplice(f, idx, content);
    } else {
      var k: nat :| Issued(s.disk, s'.disk, off, content, k);
      SpliceKeeps(f, off, content[..k], 0, HEADER_SIZE);
      HeaderStays(f, Cache(s'.disk));
    }
  }

  lemma SlotKeepsMem(s: State, s': State, idx: nat, content: bytes, ok: bool)
    requires s.mem.Some? && idx < NUM_SLOTS && |content| == SLOT_SIZE && WriteSlotStep(s, s', idx, content, ok)
    ensures s'.mem == s.mem
    ensures s.live == s.base ==> s' == s.(disk := s'.disk)
  {
  }

  lemma InvBounds(cs: Suite, key: bytes, s: PackState)
    requires PackInv(cs, key, s)
    ensures s.store.mem.Some? ==> MemBounds(s.store)
  {
    hide Inv;
  }

  lemma Readable(cs: Suite, key: bytes, s: PackState)
    requires PackInv(cs, key, s) && Unforged(cs, key, s.store)
    ensures |Cache(s.store.disk)| >= DATA_START && ReadHeader(Cache(s.store.disk)).Some?
  {
    hide Inv, SnapsOk, Unforged, ReadHeader, OpenImage;
    AlwaysOpens(cs, key, s.store);
  }

  /** The manifest of the commit that an opening stands on can be read. */
  lemma ManifestThere(cs: Suite, key: bytes, s: PackState, st': State, readA: bool, readB: bool)
    requires PackInv(cs, key, s) && Unforged(cs, key, s.store) && OpenAnyStep(cs, key, s.store, st', readA, readB)
    ensures st'.mem.Some? && FileIndex(cs, key, Cache(st'.disk), st'.mem.value.root).Some?
  {
    hide Inv, OpenAnyStep, Unforged, Cache, SnapsOk, SnapOk, FileIndex, LoadIndex;
    OpenedSnaps(cs, key, s.store, st', readA, readB);
    OpenedDisk(cs, key, s.store, st', readA, readB);
    StandsOn(cs, key, st');
    LiveReadable(cs, key, st'.live);
  }

  lemma LiveReadable(cs: Suite, key: bytes, snap: Snapshot)
    requires SnapOk(cs, key, snap)
    ensures LoadIndex(cs, key, snap.data, snap.root).Some?
  {
    hide LoadIndex, IndexInv;
  }

  /** An opening that found the newest superblock buffers what is in the file. */
  lemma NewestOpened(cs: Suite, key: bytes, s: PackState, s': PackState, readA: bool, readB: bool)
    requires PackInv(cs, key, s) && Unforged(cs, key, s.store) && OpenAnyStep(cs, key, s.store, s'.store, readA, readB)
    requires PackInv(cs, key, s') && MemBounds(s'.store)
    requires FileIndex(cs, key, Cache(s'.store.disk), s'.store.mem.value.root) == Some(s'.index)
    requires s'.store.mem == OpenImage(cs, key, Cache(s'.store.disk))
    ensures !Behind(s'.store) && OpensAs(cs, key, Cache(s'.store.disk), Buffered(cs, key, s'))
  {
    hide Inv, OpenReads, Unforged, Cache, SnapsOk, SnapOk, FileIndex, LoadIndex, IndexInv, Contents, OpenStep;
    OpenAnyInv(cs, key, s.store, s'.store, readA, readB);
    OpenedDisk(cs, key, s.store, s'.store, readA, readB);
    NewestNotBehind(cs, key, s.store, s'.store, readA, readB);
    MemFacts(cs, key, s'.store);
    LiveSnap(cs, key, s'.store);
    RootInside(cs, key, s'.store.live);
    var f := Cache(s'.store.disk);
    FileIndexData(cs, key, f, s'.store.mem.value.root);
    assert f[DATA_START..|f|] == f[DATA_START..];
  }

  lemma StoreOf(cs: Suite, key: bytes, b: bool, s: PackState)
    requires b ==> PackInv(cs, key, s)
    ensures b ==> Inv(cs, key, s.store)
  {
    hide Inv;
  }

  lemma OpenBounds(cs: Suite, key: bytes, s: PackState, st': State, readA: bool, readB: bool)
    requires PackInv(cs, key, s) && Unforged(cs, key, s.store) && OpenAnyStep(cs, key, s.store, st', readA, readB)
    ensures MemBounds(st') && st'.mem.value.fileSize == |Cache(st'.disk)|
  {
    hide Inv, OpenReads, Unforged, Cache, SnapsOk, OpenStep;
    OpenAnyFinds(cs, key, s.store, readA, readB);
    OpenedDisk(cs, key, s.store, st', readA, readB);
  }

  lemma OpenMeaning(cs: Suite, key: bytes, s: PackState, s': PackState, readA: bool, readB: bool)
    requires PackInv(cs, key, s) && Unforged(cs, key, s.store) && OpenAnyStep(cs, key, s.store, s'.store, readA, readB)
    requires MemBounds(s'.store) && FileIndex(cs, key, Cache(s'.store.disk), s'.store.mem.value.root) == Some(s'.index)
    ensures Step(cs, key, s, Op.Open(readA, readB), s') && PackInv(cs, key, s')
  {
    hide PackInv, OpenAnyStep, FileIndex, Cache, Unforged, LayerStep;
    OpenRefines(cs, key, s, s', readA, readB);
  }

  lemma BlobInFile(cs: Suite, key: bytes, st: State, ref: BlobRef)
    requires MemBounds(st) && ReadBlob(cs, key, Data(st), ref).Some?
    ensures FileBlob(cs, key, Cache(st.disk), ref) == ReadBlob(cs, key, Data(st), ref)
  {
    hide ReadBlob, FileBlob, Cache;
    FileBlobData(cs, key, Cache(st.disk), st.mem.value.fileSize, ref);
  }

  /** `Store::read_meta`: the header and all eight slots. */
  method ReadMeta(os: System, name: Name) returns (kdf: Option<Kdf>, slots: seq<KeySlot>)
    modifies os`interrupts, os`faults
    ensures old(os.faults) <= os.faults
    ensures kdf.None? && name in os.files && |Cache(os.files[name])| >= SB_A_OFF
            && ReadHeader(Cache(os.files[name])).Some? ==>
              os.faults > old(os.faults)
    ensures kdf.Some? ==>
              && name in os.files && |Cache(os.files[name])| >= SB_A_OFF && |slots| == NUM_SLOTS
              && ReadHeader(Cache(os.files[name])) == kdf
              && forall j: nat | j < NUM_SLOTS ::
                   slots[j].Sized() && slots[j].Content() == Cache(os.files[name])[SlotOff(j)..SlotOff(j) + SLOT_SIZE]
  {
    hide ReadHeader, Cache;
    slots := [];
    var ok := os.OpenExisting(name);
    if !ok {
      return None, slots;
    }
    var header := os.ReadAll(name, 0, HEADER_SIZE);
    if header.None? {
      return None, slots;
    }
    kdf := ReadHeader(header.value);
    HeaderStays(header.value, Cache(os.files[name]));
    var i := 0;
    while i < NUM_SLOTS
      invariant 0 <= i <= NUM_SLOTS && |slots| == i && old(os.faults) <= os.faults
      invariant i > 0 ==> |Cache(os.files[name])| >= SlotOff(i)
      invariant forall j: nat | j < i ::
                  slots[j].Sized() && slots[j].Content() == Cache(os.files[name])[SlotOff(j)..SlotOff(j) + SLOT_SIZE]
    {
      var b := os.ReadAll(name, SlotOff(i), SLOT_SIZE);
      if b.None? {
        return None, slots;
      }
      slots := slots + [SlotOf(b.value)];
      i := i + 1;
    }
  }

  /** A slot that the password opens, the first one unless a call fails; or NUM_SLOTS. */
  method TrySlots(os: System, cs: Suite, slots: seq<KeySlot>, password: bytes, kdf: Kdf, ghost f: bytes)
    returns (which: nat, key: bytes)
    requires |slots| == NUM_SLOTS && |f| >= SB_A_OFF
    modifies os`faults
    requires forall j: nat | j < NUM_SLOTS ::
               slots[j].Sized() && slots[j].Content() == f[SlotOff(j)..SlotOff(j) + SLOT_SIZE]
    ensures which <= NUM_SLOTS
    ensures which < NUM_SLOTS ==> Unwrap(cs, slots[which], password, kdf) == Some(key)
    ensures which < NUM_SLOTS && |f| >= DATA_START ==> SlotAt(f, which) == slots[which]
    ensures old(os.faults) <= os.faults
    ensures os.faults == old(os.faults) && |f| >= DATA_START ==>
              Unlock(cs, kdf, f, password, 0) == if which < NUM_SLOTS then Some((which, key)) else None
  {
    hide Unwrap;
    which, key := 0, [];
    while which < NUM_SLOTS
      invariant which <= NUM_SLOTS && old(os.faults) <= os.faults
      invariant os.faults == old(os.faults) && |f| >= DATA_START ==>
                  Unlock(cs, kdf, f, password, 0) == Unlock(cs, kdf, f, password, which)
    {
      var m, derived := UnwrapMaster(os, cs, slots[which], password, kdf);
      if |f| >= DATA_START {
        SameContent(SlotAt(f, which), slots[which]);
      }
      if m.Some? {
        return which, m.value;
      }
      which := which + 1;
    }
  }

  /** `load_manifest`. */
  method LoadManifest(st: Store, key: bytes) returns (r: Option<Index>)
    requires st.name in st.os.files
    modifies st.os`interrupts, st.os`faults
    ensures old(st.os.faults) <= st.os.faults
    ensures r == FileIndex(st.cs, key, Cache(st.os.files[st.name]), st.root)
            || (r.None? && st.os.faults > old(st.os.faults))
  {
    hide Cache, Unseal, Deserialized;
    if st.root.len == 0 {
      return Some(EMPTY);
    }
    if st.root.len < OVERHEAD {
      return None;
    }
    var rec := st.ReadAt(st.root.offset, st.root.len);
    if rec.None? {
      return None;
    }
    var plain := Unseal(st.cs, key, rec.value);
    if plain.None? {
      return None;
    }
    r := Codec.Read(plain.value);
  }

  lemma CommitMeaning(cs: Suite, key: bytes, s: PackState, s': PackState, nonceM: bytes, nonceS: bytes,
                      outcome: Outcome)
    requires PackInv(cs, key, s) && MemBounds(s.store) && Fits(s.index) && s.store.mem.value.seqno + 1 < U64_LIMIT
    requires CommitOp(cs, key, s, s', nonceM, nonceS, outcome) && |nonceM| == |nonceS| == NONCE
    ensures MemBounds(s'.store) && Buffered(cs, key, s') == Buffered(cs, key, s)
    ensures Unforged(cs, key, s'.store) ==>
              PackInv(cs, key, s')
              && LayerStep(Abstract(cs, key, s), Op.Commit(nonceM, nonceS, outcome), Abstract(cs, key, s'))
  {
    hide PackInv, CommitOp, LayerStep, Unforged, Buffered, Fits;
    CommitKeepsView(cs, key, s, s', nonceM, nonceS, outcome);
    if Unforged(cs, key, s'.store) {
      CommitRefines(cs, key, s, s', nonceM, nonceS, outcome);
    }
  }

  lemma CommitKeepsView(cs: Suite, key: bytes, s: PackState, s': PackState, nonceM: bytes, nonceS: bytes,
                        outcome: Outcome)
    requires PackInv(cs, key, s) && MemBounds(s.store) && s.store.mem.value.seqno + 1 < U64_LIMIT
    requires CommitOp(cs, key, s, s', nonceM, nonceS, outcome) && |nonceM| == |nonceS| == NONCE
    ensures MemBounds(s'.store) && Buffered(cs, key, s') == Buffered(cs, key, s)
  {
    hide Inv, Seal, Serialize, SnapsOk, IndexInv, Cache, Data, Contents, CommitStep, AppendStep;
    var rec := Seal(cs, key, nonceM, Serialize(s.index));
    if outcome == NoRecord {
      if s'.store != s.store {
        AppendData(s.store, s'.store, rec, 0);
      }
    } else {
      var mid: State :| Flushed(cs, key, s.store, mid, s'.store, rec, nonceS, outcome.fate);
      var off := s.store.mem.value.fileSize;
      AppendData(s.store, mid, rec, off);
      assert mid.mem.value.seqno == s.store.mem.value.seqno by { AppendSeq(s.store, mid, rec, off); }
      CommitData(cs, key, mid, s'.store, Root(off, |rec|), nonceS, outcome.fate);
      IndexStays(cs, key, Data(s.store), Data(s'.store), s.index);
    }
  }

  lemma AppendSeq(s: State, s': State, data: bytes, off: nat)
    requires s.mem.Some? && AppendStep(s, s', data, off)
    ensures s'.mem.Some? && s'.mem.value.seqno == s.mem.value.seqno
  {
  }

  /** `flush_manifest`: append the sealed index and commit it as the root. */
  method FlushManifest(st: Store, key: bytes, idx: Index)
    returns (ok: bool, ghost nonceM: bytes, ghost nonceS: bytes, ghost outcome: Outcome)
    requires st.Attached() && st.seqno + 1 < U64_LIMIT
    modifies st, st.os
    ensures st.Attached() && Touched(st.name, old(st.os.files), old(st.os.trace), st.os.files, st.os.trace)
    ensures |nonceM| == |nonceS| == NONCE && (ok <==> outcome == Reached(Done))
    ensures CommitOp(st.cs, key, PackState(old(st.Now()), idx), PackState(st.Now(), idx), nonceM, nonceS, outcome)
    ensures Moments(st.cs, key, PackState(old(st.Now()), idx), Committing, old(st.os.trace), st.os.trace, st.name)
    ensures st.os.Onward() && st.os.times == old(st.os.times) && (!ok ==> st.os.faults > old(st.os.faults))
    ensures || st.os.drawn == old(st.os.drawn) + Drawn(nonceM, nonceS, outcome)
            || (outcome == NoRecord && st.os.drawn == old(st.os.drawn) && st.os.files == old(st.os.files))
  {
    hide Seal, Serialize, Cache, Touched, CommitStep, AppendStep, PartWrites, Moments, CommitMoments;
    nonceS := Zeros(NONCE);
    ghost var s := st.Now();
    ghost var f0, t0 := st.os.files, st.os.trace;
    var plain := Codec.Print(idx);
    var off: u64;
    ok, off, nonceM := EncryptAppend(st, key, plain);
    AppendMoments(st.cs, key, PackState(s, idx), nonceM, t0, st.os.trace, st.name);
    if !ok {
      return false, nonceM, nonceS, NoRecord;
    }
    ghost var rec := Seal(st.cs, key, nonceM, plain);
    ghost var mid := st.Now();
    AppendSeq(s, mid, rec, off);
    ghost var f1, t1 := st.os.files, st.os.trace;
    ghost var fate: Fate;
    ok, nonceS, fate := st.Commit(Root(off, OVERHEAD + |plain|), key);
    TouchedTrans(st.name, f0, t0, f1, t1, st.os.files, st.os.trace);
    CommitBounds(st.cs, key, mid, st.Now(), Root(off, |rec|), nonceS, fate);
    FlushMoments(st.cs, key, PackState(s, idx), mid, nonceM, t0, t1, st.os.trace, st.name);
    assert Flushed(st.cs, key, s, mid, st.Now(), rec, nonceS, fate);
    outcome := Reached(fate);
  }

  lemma CommitBounds(cs: Suite, key: bytes, s: State, s': State, root: Root, nonce: bytes, fate: Fate)
    requires MemBounds(s) && |nonce| == NONCE && s.mem.value.seqno + 1 < U64_LIMIT
    requires CommitStep(cs, key, s, s', root, nonce, fate)
    ensures MemBounds(s')
  {
    hide CommitStep, Cache;
    CommitData(cs, key, s, s', root, nonce, fate);
  }
}
