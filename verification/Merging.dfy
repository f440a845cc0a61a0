/** `Pack::merge`, proved to do to the contents of a pack what Delta says, as a run of puts
    and deletions. */
module Merging {
  import opened Bytes
  import opened Crypto
  import opened Disk
  import opened StoreModel
  import opened Os
  import opened Order
  import opened Index
  import opened Paths
  import opened Delta
  import opened PackModel
  import opened PackRuns
  import opened Pack
  import opened Walks

  // ---- contents without hash collisions ----

  /** Every content a pack stores, whether or not a path uses it. */
  function Stored(cs: Suite, key: bytes, s: PackState): set<bytes>
    requires MemBounds(s.store)
  {
    set h | h in s.index.blobs :: Content(cs, key, Data(s.store), s.index, h)
  }

  /** The hash tells the contents in `all` apart. */
  ghost predicate Distinct(cs: Suite, all: set<bytes>) {
    forall x, y | x in all && y in all && cs.hash(x) == cs.hash(y) :: x == y
  }

  lemma ContentHash(cs: Suite, key: bytes, s: PackState, h: bytes)
    requires PackInv(cs, key, s) && MemBounds(s.store) && h in s.index.blobs
    ensures cs.hash(Content(cs, key, Data(s.store), s.index, h)) == h
    ensures Content(cs, key, Data(s.store), s.index, h) in Stored(cs, key, s)
  {
    hide Inv, SnapsOk, Cache, Data, ReadBlob, IsNormal, CountsOk;
    assert Sound(cs, key, Data(s.store), h, s.index.blobs[h]);
  }

  lemma DistinctPut(cs: Suite, key: bytes, s: PackState, data: bytes, all: set<bytes>)
    requires PackInv(cs, key, s) && MemBounds(s.store)
    requires Distinct(cs, all) && Stored(cs, key, s) <= all && data in all
    ensures NoCollision(cs, key, s, data)
  {
    hide PackInv, Content, Stored;
    if cs.hash(data) in s.index.blobs {
      ContentHash(cs, key, s, cs.hash(data));
    }
  }

  /** What a path of a pack refers to, in hashes and in contents. */
  lemma PathHash(cs: Suite, key: bytes, s: PackState, p: bytes)
    requires PackInv(cs, key, s) && MemBounds(s.store) && p in s.index.paths
    ensures p in Buffered(cs, key, s) && IsNormal(p)
    ensures cs.hash(Buffered(cs, key, s)[p]) == s.index.paths[p].hash && s.index.paths[p].hash in s.index.blobs
    ensures Buffered(cs, key, s)[p] in Stored(cs, key, s)
  {
    hide Inv, SnapsOk, Cache, Data, Content, IsNormal, CountsOk, BlobsOk, Stored;
    assert s.index.paths[p].hash in s.index.blobs;
    ContentHash(cs, key, s, s.index.paths[p].hash);
  }

  lemma ViewKeys(cs: Suite, key: bytes, s: PackState)
    requires PackInv(cs, key, s) && MemBounds(s.store)
    ensures Buffered(cs, key, s).Keys == s.index.paths.Keys && NormalKeys(Buffered(cs, key, s))
  {
    hide Inv, SnapsOk, Cache, Data, Content, IsNormal, CountsOk, BlobsOk;
  }

  /** b's blobs include a's, each where it was. */
  ghost predicate Extends(a: map<bytes, BlobRef>, b: map<bytes, BlobRef>) {
    a.Keys <= b.Keys && forall h | h in a :: a[h].(refcount := 0) == b[h].(refcount := 0)
  }

  /** A put adds at most its own content to what is stored. */
  lemma {:induction false} PutStored(cs: Suite, key: bytes, s: PackState, s': PackState,
                                     path: bytes, data: bytes, now: u64, nonce: bytes, ok: bool)
    requires PackInv(cs, key, s) && MemBounds(s.store) && NoCollision(cs, key, s, data)
    requires PutStep(cs, key, s, s', path, data, now, nonce, ok) && |nonce| == NONCE && |s.index.paths| + 1 < U32_LIMIT
    ensures MemBounds(s'.store) && Stored(cs, key, s') <= Stored(cs, key, s) + {data}
    ensures Extends(s.index.blobs, s'.index.blobs) && s'.index.blobs.Keys <= s.index.blobs.Keys + {cs.hash(data)}
    ensures ok ==> cs.hash(data) in s'.index.blobs
    ensures s'.index.paths.Keys <= s.index.paths.Keys + {Normalize(path)}
  {
    hide Inv, SnapsOk, Cache, Data, Content, IsNormal, Normalize, CountsOk, ReadBlob, Seal, AppendStep, Repoint,
         IndexInv;
    var p, h, rec := Normalize(path), cs.hash(data), Seal(cs, key, nonce, data);
    PutRefines(cs, key, s, s', path, data, now, nonce, ok);
    PutPlaces(cs, key, s, s', path, data, now, nonce, ok);
    assert Data(s.store) <= Data(s'.store) by { PutData(cs, key, s, s', path, data, now, nonce, ok); }
    forall k | k in s'.index.blobs
      ensures Content(cs, key, Data(s'.store), s'.index, k) in Stored(cs, key, s) + {data}
    {
      if k in s.index.blobs {
        SoundAt(cs, key, s, k);
        PlaceContent(cs, key, Data(s.store), Data(s'.store), s.index, s'.index, k);
      } else {
        PutTarget(cs, key, s, s', path, data, now, nonce, ok);
        assert Buffered(cs, key, s')[p] == data;
      }
    }
  }

  lemma SoundAt(cs: Suite, key: bytes, s: PackState, h: bytes)
    requires PackInv(cs, key, s) && MemBounds(s.store) && h in s.index.blobs
    ensures Sound(cs, key, Data(s.store), h, s.index.blobs[h])
  {
    hide Inv, SnapsOk, Data, Cache, Sound;
  }

  lemma PutTarget(cs: Suite, key: bytes, s: PackState, s': PackState,
                  path: bytes, data: bytes, now: u64, nonce: bytes, ok: bool)
    requires MemBounds(s.store) && MemBounds(s'.store) && PutStep(cs, key, s, s', path, data, now, nonce, ok)
    ensures ok ==> Normalize(path) in Buffered(cs, key, s')
                   && Buffered(cs, key, s')[Normalize(path)]
                      == Content(cs, key, Data(s'.store), s'.index, cs.hash(data))
  {
    hide Seal, AppendStep, Normalize, Content, Data, Cache;
  }

  lemma PutPlaces(cs: Suite, key: bytes, s: PackState, s': PackState,
                  path: bytes, data: bytes, now: u64, nonce: bytes, ok: bool)
    requires s.store.mem.Some? && PutStep(cs, key, s, s', path, data, now, nonce, ok)
    ensures Extends(s.index.blobs, s'.index.blobs) && s'.index.blobs.Keys <= s.index.blobs.Keys + {cs.hash(data)}
    ensures ok ==> cs.hash(data) in s'.index.blobs
    ensures !ok ==> s'.index == s.index
    ensures s'.index.paths.Keys <= s.index.paths.Keys + {Normalize(path)}
  {
    hide Seal, AppendStep, Normalize;
  }

  lemma PutData(cs: Suite, key: bytes, s: PackState, s': PackState,
                path: bytes, data: bytes, now: u64, nonce: bytes, ok: bool)
    requires MemBounds(s.store) && PutStep(cs, key, s, s', path, data, now, nonce, ok)
    ensures MemBounds(s'.store) && Data(s.store) <= Data(s'.store)
  {
    hide Seal, AppendStep, Normalize, Cache, Data, Repoint;
    var rec := Seal(cs, key, nonce, data);
    if s'.store != s.store {
      AppendData(s.store, s'.store, rec, if ok then s.store.mem.value.fileSize else 0);
    }
  }

  lemma PlaceContent(cs: Suite, key: bytes, data: bytes, data': bytes, a: Index, b: Index, h: bytes)
    requires data <= data' && h in a.blobs && h in b.blobs && a.blobs[h].(refcount := 0) == b.blobs[h].(refcount := 0)
    requires Sound(cs, key, data, h, a.blobs[h])
    ensures Content(cs, key, data', b, h) == Content(cs, key, data, a, h)
  {
    hide ReadRecord;
    RecordStays(cs, key, data, data', a.blobs[h].offset, a.blobs[h].encSize);
  }

  // ---- merge ----

  /** The part of the deletion list from position i on. */
  function NamesFrom(list: bytes, i: nat): seq<bytes> {
    if i > |list| then [] else Names(Split(list[i..], NEWLINE))
  }

  /** What one line names, if anything. */
  function NameOn(line: bytes): seq<bytes> {
    var t := Trim(line);
    if t == [] || t[0] == HASH_SIGN then [] else [t]
  }

  lemma NamesStep(lines: seq<bytes>, line: bytes, rest: seq<bytes>)
    requires lines == [line] + rest
    ensures Names(lines) == NameOn(line) + Names(rest)
  {
    hide Trim;
    assert lines[1..] == rest;
  }

  lemma NextLine(list: bytes, i: nat)
    requires i <= |list|
    ensures var j := Find(list, NEWLINE, i);
            NamesFrom(list, i) == NameOn(list[i..j]) + NamesFrom(list, j + 1)
  {
    hide Trim, Split, Names, NameOn;
    var j := Find(list, NEWLINE, i);
    var rest, line := list[i..], list[i..j];
    if j == |list| {
      assert rest == line;
      SplitNone(line, NEWLINE);
      NamesStep([line], line, []);
      assert Names([]) == [] by { NoNames([]); }
    } else {
      assert rest == line + [NEWLINE] + list[j + 1..];
      SplitHead(line, NEWLINE, list[j + 1..]);
      NamesStep(Split(rest, NEWLINE), line, Split(list[j + 1..], NEWLINE));
    }
  }

  lemma NoNames(lines: seq<bytes>)
    requires lines == []
    ensures Names(lines) == []
  {
  }

  lemma DeletedHead(v: View, t: bytes, names: seq<bytes>)
    ensures v - Deleted([t] + names) == v - {Normalize(t)} - Deleted(names)
  {
    hide Normalize;
    assert forall n :: n in [t] + names <==> n == t || n in names;
    assert Deleted([t] + names) == {Normalize(t)} + Deleted(names);
  }

  /** merge's line loop: a run of deletions. */
  method DeleteListed(im: Pack, list: bytes, ghost run0: seq<PackState>, ghost ops0: seq<Op>)
    returns (ghost run: seq<PackState>, ghost ops: seq<Op>)
    requires im.Valid()
    requires Walk(im.cs, im.key, run0, ops0) && run0[|ops0|] == im.Now()
    modifies im`index, im`lastErr
    ensures im.Valid() && im.store == old(im.store)
    ensures im.View() == old(im.View()) - Deleted(ParseDeletions(list))
    ensures SamePlaces(old(im.index.blobs), im.index.blobs)
    ensures Walk(im.cs, im.key, run, ops) && run0 <= run && run[|ops|] == im.Now()
    ensures AllRoom(run0) ==> AllRoom(run)
  {
    hide PackInv, Buffered, Step, Find, Split, Trim, Deleted, Normalize, Cache, ReadHeader, NamesFrom, SamePlaces,
         ParseDeletions, Walk, AllRoom, Room;
    WholeList(list);
    run, ops := run0, ops0;
    var start := 0;
    ghost var goal := im.View() - Deleted(ParseDeletions(list));
    SamePlacesRefl(im.index.blobs);
    assert |run| == |ops| + 1 by { WalkShape(im.cs, im.key, run, ops); }
    while start <= |list|
      invariant im.Valid() && im.store == old(im.store)
      invariant im.View() - Deleted(NamesFrom(list, start)) == goal
      invariant SamePlaces(old(im.index.blobs), im.index.blobs)
      invariant |run| == |ops| + 1 && Walk(im.cs, im.key, run, ops) && run0 <= run && run[|ops|] == im.Now()
      invariant AllRoom(run0) ==> AllRoom(run)
      decreases |list| + 1 - start
    {
      var nl := Find(list, NEWLINE, start);
      var line := list[start..nl];
      NextLine(list, start);
      start := nl + 1;
      var path := Trim(line);
      if path == [] || path[0] == HASH_SIGN {
        assert [] + NamesFrom(list, start) == NamesFrom(list, start);
        continue;
      }
      DeletedHead(im.View(), path, NamesFrom(list, start));
      ghost var blobs := im.index.blobs;
      var found := im.Del(path);
      SamePlacesTrans(old(im.index.blobs), blobs, im.index.blobs);
      WalkMore(im.cs, im.key, run, ops, [Op.Del(path)], im.Now());
      if AllRoom(run) {
        LastRoom(run);
        DelRoom(im.cs, im.key, run[|ops|], path, im.Now());
      }
      MoreRoom(run, im.Now());
      run, ops := run + [im.Now()], ops + [Op.Del(path)];
    }
    NoneDeleted(list, start);
  }

  // ---- room for a merge ----

  ghost predicate AllRoom(run: seq<PackState>) {
    forall k: nat | k < |run| :: Room(run[k])
  }

  /** The counters have room for every path and blob of the two packs together. */
  predicate RoomFor(s: PackState, other: PackState) {
    && Fits(s.index) && Fits(other.index)
    && |s.index.paths| + |other.index.paths| + 1 < U32_LIMIT
    && |s.index.blobs| + |other.index.paths| < U32_LIMIT
    && (s.store.mem.Some? ==> s.store.mem.value.seqno + 1 < U64_LIMIT)
  }

  lemma MoreRoom(run: seq<PackState>, s: PackState)
    requires AllRoom(run) ==> Room(s)
    ensures AllRoom(run) ==> AllRoom(run + [s])
  {
    hide Room;
  }

  lemma LastRoom(run: seq<PackState>)
    requires AllRoom(run) && run != []
    ensures Room(run[|run| - 1])
  {
    hide Room;
  }

  lemma DelRoom(cs: Suite, key: bytes, s: PackState, path: bytes, s': PackState)
    requires Step(cs, key, s, Op.Del(path), s')
    ensures Room(s) ==> Room(s')
  {
    hide Normalize;
    var paths, blobs := s.index.paths, s.index.blobs;
    assert s'.index.paths.Keys <= paths.Keys && s'.index.blobs.Keys == blobs.Keys;
    SubsetSize(s'.index.paths.Keys, paths.Keys);
    assert |s'.index.paths| == |s'.index.paths.Keys| && |paths| == |paths.Keys|;
    assert |s'.index.blobs| == |s'.index.blobs.Keys| && |blobs| == |blobs.Keys|;
  }

  /** However far a merge has come, there is room if there is for all of it. */
  lemma ProgressFits(cs: Suite, key: bytes, s0: PackState, s: PackState, okey: bytes, other: PackState,
                     copied: set<bytes>, all: set<bytes>)
    requires Progress(cs, key, s0, s, okey, other, copied, all) && |copied| <= |other.index.paths|
    requires PackInv(cs, key, s0) && PackInv(cs, key, s) && PackInv(cs, okey, other) && RoomFor(s0, other)
    requires s.store.mem.Some? && s0.store.mem.Some? && s.store.mem.value.seqno == s0.store.mem.value.seqno
    ensures Room(s)
  {
    hide PackInv, Buffered, Stored, Reuses, Progress, NormalKeys, Restrict;
    ProgressBounds(cs, key, s0, s, okey, other, copied, all);
    ProgressRoom(cs, key, s0, s, okey, other, copied, all);
    ViewKeys(cs, key, s0);
    ViewKeys(cs, key, s);
    ViewKeys(cs, okey, other);
    RestrictKeys(Buffered(cs, okey, other), copied);
    forall p | p in s.index.paths
      ensures |p| < U32_LIMIT
    {
      assert p in Buffered(cs, key, s);
    }
  }

  lemma RestrictKeys(v: View, keys: set<bytes>)
    ensures Restrict(v, keys).Keys <= v.Keys
  {
  }

  lemma SamePlacesRefl(a: map<bytes, BlobRef>)
    ensures SamePlaces(a, a)
  {
  }

  lemma SamePlacesTrans(a: map<bytes, BlobRef>, b: map<bytes, BlobRef>, c: map<bytes, BlobRef>)
    requires SamePlaces(a, b) && SamePlaces(b, c)
    ensures SamePlaces(a, c)
  {
  }

  lemma WholeList(list: bytes)
    ensures NamesFrom(list, 0) == ParseDeletions(list)
  {
    assert list[0..] == list;
  }

  lemma NoneDeleted(list: bytes, i: nat)
    requires i > |list|
    ensures Deleted(NamesFrom(list, i)) == {}
  {
  }

  function Restrict(v: View, keys: set<bytes>): View {
    map p | p in v && p in keys :: v[p]
  }

  /** Blobs are only added; nothing is written if all the copied files' blobs were there. */
  ghost predicate Reuses(s0: PackState, s: PackState, paths: map<bytes, PathEntry>, copied: set<bytes>) {
    && Extends(s0.index.blobs, s.index.blobs)
    && (forall p | p in copied :: p in paths && paths[p].hash in s.index.blobs)
    && ((forall p | p in copied :: p in paths && paths[p].hash in s0.index.blobs) ==>
          s.store == s0.store && s.index.blobs.Keys == s0.index.blobs.Keys)
  }

  lemma ReusesStep(s0: PackState, s: PackState, s': PackState, paths: map<bytes, PathEntry>, copied: set<bytes>,
                   p: bytes)
    requires Reuses(s0, s, paths, copied) && Extends(s.index.blobs, s'.index.blobs) && p in paths
    requires var h := paths[p].hash;
             h in s'.index.blobs && (h in s.index.blobs ==>
                                       s'.store == s.store && s'.index.blobs.Keys == s.index.blobs.Keys)
    ensures Reuses(s0, s', paths, copied + {p})
  {
    hide Extends;
    ExtendsTrans(s0.index.blobs, s.index.blobs, s'.index.blobs);
    KeysGrow(s.index.blobs, s'.index.blobs);
    KeysGrow(s0.index.blobs, s.index.blobs);
    if forall q | q in copied + {p} :: q in paths && paths[q].hash in s0.index.blobs {
      assert p in copied + {p};
      assert forall q | q in copied :: q in copied + {p};
    }
  }

  /** How far a merge into s0 has come: the files in `copied` have been put. */
  ghost predicate Progress(cs: Suite, key: bytes, s0: PackState, s: PackState, okey: bytes, other: PackState,
                           copied: set<bytes>, all: set<bytes>)
  {
    && MemBounds(s0.store) && MemBounds(s.store) && MemBounds(other.store)
    && s.store.base == s0.store.base && s.store.later == s0.store.later
    && Buffered(cs, key, s) == Buffered(cs, key, s0) + Restrict(Buffered(cs, okey, other), copied)
    && Stored(cs, key, s) <= all
    && Reuses(s0, s, other.index.paths, copied)
    && |s.index.paths| <= |s0.index.paths| + |copied|
    && |s.index.blobs| <= |s0.index.blobs| + |copied|
  }

  lemma ProgressStart(cs: Suite, key: bytes, s0: PackState, okey: bytes, other: PackState, all: set<bytes>)
    requires MemBounds(s0.store) && MemBounds(other.store) && Stored(cs, key, s0) <= all
    ensures Progress(cs, key, s0, s0, okey, other, {}, all)
  {
    hide Buffered, Stored;
    assert Restrict(Buffered(cs, okey, other), {}) == map[];
  }

  /** Everything a merge relies on about one successful put of the source's file p. */
  lemma {:induction false} CopyFacts(cs: Suite, key: bytes, s: PackState, s': PackState, okey: bytes, other: PackState,
                                     all: set<bytes>, p: bytes, data: bytes, now: u64, nonce: bytes)
    requires PackInv(cs, key, s) && MemBounds(s.store) && PackInv(cs, okey, other) && MemBounds(other.store)
    requires p in other.index.paths && p in Buffered(cs, okey, other) && data == Buffered(cs, okey, other)[p]
    requires Distinct(cs, all) && Stored(cs, okey, other) <= all && Stored(cs, key, s) <= all
    requires |nonce| == NONCE && |s.index.paths| + 1 < U32_LIMIT
    requires PutStep(cs, key, s, s', p, data, now, nonce, true)
    ensures MemBounds(s'.store) && s'.store.base == s.store.base && s'.store.later == s.store.later
    ensures Buffered(cs, key, s') == Buffered(cs, key, s)[p := data]
    ensures Stored(cs, key, s') <= all && Extends(s.index.blobs, s'.index.blobs)
    ensures var h := other.index.paths[p].hash;
            h in s'.index.blobs && (h in s.index.blobs ==>
                                      s'.store == s.store && s'.index.blobs.Keys == s.index.blobs.Keys)
    ensures |s'.index.paths| <= |s.index.paths| + 1 && |s'.index.blobs| <= |s.index.blobs| + 1
  {
    hide PackInv, Stored, Content, Data, Cache, PutStep, Distinct, IsNormal, Buffered, Extends;
    PathHash(cs, okey, other, p);
    DistinctPut(cs, key, s, data, all);
    PutStored(cs, key, s, s', p, data, now, nonce, true);
    PutRefines(cs, key, s, s', p, data, now, nonce, true);
    PutReuses(cs, key, s, s', p, data, now, nonce);
    NormalSelf(p);
    GrowsByOne(s.index.paths, s'.index.paths, p);
    GrowsByOne(s.index.blobs, s'.index.blobs, cs.hash(data));
  }

  lemma {:induction false} ProgressStep(cs: Suite, key: bytes, s0: PackState, s: PackState, s': PackState,
                                        okey: bytes, other: PackState, copied: set<bytes>, all: set<bytes>,
                                        p: bytes, data: bytes, now: u64, nonce: bytes)
    requires Progress(cs, key, s0, s, okey, other, copied, all)
    requires PackInv(cs, key, s) && PackInv(cs, okey, other) && p in other.index.paths && p !in copied
    requires p in Buffered(cs, okey, other) && data == Buffered(cs, okey, other)[p]
    requires Distinct(cs, all) && Stored(cs, okey, other) <= all
    requires |nonce| == NONCE && |s.index.paths| + 1 < U32_LIMIT
    requires PutStep(cs, key, s, s', p, data, now, nonce, true)
    ensures Progress(cs, key, s0, s', okey, other, copied + {p}, all)
  {
    hide PackInv, Stored, PutStep, Distinct, Buffered, Extends, Restrict, Reuses, Cache;
    CopyFacts(cs, key, s, s', okey, other, all, p, data, now, nonce);
    ReusesStep(s0, s, s', other.index.paths, copied, p);
    RestrictMore(Buffered(cs, key, s0), Buffered(cs, okey, other), copied, p);
    assert |copied + {p}| == |copied| + 1;
  }

  lemma KeysGrow(a: map<bytes, BlobRef>, b: map<bytes, BlobRef>)
    requires Extends(a, b)
    ensures a.Keys <= b.Keys
  {
  }

  lemma RestrictMore(v: View, w: View, keys: set<bytes>, p: bytes)
    requires p in w
    ensures v + Restrict(w, keys + {p}) == (v + Restrict(w, keys))[p := w[p]]
  {
  }

  lemma NormalSelf(p: bytes)
    requires IsNormal(p)
    ensures Normalize(p) == p
  {
  }

  lemma PutReuses(cs: Suite, key: bytes, s: PackState, s': PackState, p: bytes, data: bytes, now: u64, nonce: bytes)
    requires s.store.mem.Some? && PutStep(cs, key, s, s', p, data, now, nonce, true)
    ensures cs.hash(data) in s.index.blobs ==> s'.store == s.store && s'.index.blobs.Keys == s.index.blobs.Keys
  {
    hide Seal, AppendStep, Normalize;
  }

  lemma ExtendsTrans(a: map<bytes, BlobRef>, b: map<bytes, BlobRef>, c: map<bytes, BlobRef>)
    requires Extends(a, b) && Extends(b, c)
    ensures Extends(a, c)
  {
  }

  lemma GrowsByOne<T>(a: map<bytes, T>, b: map<bytes, T>, p: bytes)
    requires b.Keys <= a.Keys + {p}
    ensures |b| <= |a| + 1
  {
    SubsetSize(b.Keys, a.Keys + {p});
    assert |b.Keys| == |b| && |a.Keys| == |a|;
  }


  lemma ProgressRoom(cs: Suite, key: bytes, s0: PackState, s: PackState, okey: bytes, other: PackState,
                     copied: set<bytes>, all: set<bytes>)
    requires Progress(cs, key, s0, s, okey, other, copied, all)
    ensures Stored(cs, key, s) <= all
    ensures |s.index.paths| <= |s0.index.paths| + |copied| && |s.index.blobs| <= |s0.index.blobs| + |copied|
    ensures Buffered(cs, key, s) == Buffered(cs, key, s0) + Restrict(Buffered(cs, okey, other), copied)
  {
    hide Stored, Buffered, Reuses;
  }

  lemma OtherUntouched(name: Name, other: Name, files: map<Name, Disk>, trace: seq<map<Name, Disk>>,
                       files': map<Name, Disk>, trace': seq<map<Name, Disk>>)
    requires Touched(name, files, trace, files', trace') && other != name && other in files
    ensures other in files' && files'[other] == files[other]
  {
  }

  /** The two packs of a merge: different files and objects, one system. */
  ghost predicate Apart(im: Pack, other: Pack)
    reads im, other
  {
    im != other && im.store != other.store && im.os == other.os && im.name != other.name && im.cs == other.cs
  }

  /** Reads one file of the source and puts it into the target. `steps` is the put, if it
      came to one. */
  method CopyFile(im: Pack, other: Pack, k: bytes, ghost s0: PackState, ghost copied: set<bytes>, ghost all: set<bytes>)
    returns (ok: bool, ghost steps: seq<Op>)
    requires im.Valid() && other.Valid() && Apart(im, other) && k in other.index.paths && k !in copied
    requires |im.index.paths| + 1 < U32_LIMIT
    requires Distinct(im.cs, all) && Stored(im.cs, other.key, other.Now()) <= all
    requires Progress(im.cs, im.key, s0, im.Now(), other.key, other.Now(), copied, all)
    modifies im`index, im`lastErr, other`lastErr, im.store`fileSize, im.os
    ensures im.Valid() && other.Valid() && other.Now() == old(other.Now())
    ensures Touched(im.name, old(im.os.files), old(im.os.trace), im.os.files, im.os.trace)
    ensures im.os.Onward() && (!ok ==> im.os.faults > old(im.os.faults))
    ensures !ok ==> im.View() == old(im.View()) && im.index == old(im.index) && im.lastErr == ErrIo
    ensures ok ==> Progress(im.cs, im.key, s0, im.Now(), other.key, other.Now(), copied + {k}, all)
    ensures Moved(im.cs, im.key, old(im.Now()), steps, im.Now())
    ensures Moments(im.cs, im.key, old(im.Now()), Putting, old(im.os.trace), im.os.trace, im.name)
  {
    hide PackInv, Buffered, Stored, Cache, ReadHeader, Step, PutStep, Normalize, IsNormal, Distinct, Data, NoCollision,
         Progress, Moments, Moved, Touched;
    ghost var s, o := im.Now(), other.Now();
    ghost var f, t := im.os.files, im.os.trace;
    TouchedRefl(im.name, f, t);
    NoneYet(im.cs, im.key, s, Putting, t, im.name);
    PathHash(other.cs, other.key, o, k);
    NormalSelf(k);
    steps := [];
    StayedPut(im.cs, im.key, s);
    var data, read := other.Get(k);
    if data.None? {
      im.lastErr := ErrIo;
      return false, steps;
    }
    ProgressRoom(im.cs, im.key, s0, s, other.key, o, copied, all);
    DistinctPut(im.cs, im.key, s, data.value, all);
    ghost var op: Op;
    ok, op := im.Put(k, data.value);
    steps := [op];
    OnePut(im.cs, im.key, s, op, im.Now());
    OtherUntouched(im.name, other.name, f, t, im.os.files, im.os.trace);
    if ok {
      ProgressStep(im.cs, im.key, s0, s, im.Now(), other.key, o, copied, all, k, data.value, op.now, op.nonce);
    } else {
      PathNormal(other.cs, other.key, o, k);
    }
  }

  /** A put of sane content is a move of one step, and if it fails it leaves the index alone. */
  lemma OnePut(cs: Suite, key: bytes, s: PackState, op: Op, s': PackState)
    requires op.Put? && |op.nonce| == NONCE && MemBounds(s.store) && NoCollision(cs, key, s, op.data)
             && Step(cs, key, s, op, s')
    ensures Moved(cs, key, s, [op], s')
    ensures PutStep(cs, key, s, s', op.path, op.data, op.now, op.nonce, op.ok)
    ensures !op.ok ==> s'.index == s.index
  {
    hide Seal, AppendStep, Normalize, NoCollision;
  }

  lemma PathNormal(cs: Suite, key: bytes, s: PackState, p: bytes)
    requires PackInv(cs, key, s) && MemBounds(s.store) && p in s.index.paths
    ensures Normalize(p) != []
  {
    hide Inv, SnapsOk, BlobsOk, CountsOk, Normalize;
    assert IsNormal(p);
  }

  /** The files among the first i keys. */
  function FilesOf(keys: seq<bytes>, i: nat): set<bytes>
    requires i <= |keys|
  {
    if i == 0 then {}
    else if keys[i - 1] == DEL_LIST then FilesOf(keys, i - 1)
    else FilesOf(keys, i - 1) + {keys[i - 1]}
  }

  lemma {:induction false} FilesIn(keys: seq<bytes>, i: nat)
    requires i <= |keys|
    ensures FilesOf(keys, i) == (set k | k in keys[..i]) - {DEL_LIST}
    ensures |FilesOf(keys, i)| <= i
  {
    if i > 0 {
      FilesIn(keys, i - 1);
      assert keys[..i] == keys[..i - 1] + [keys[i - 1]];
    }
  }

  lemma FilesStep(keys: seq<bytes>, i: nat)
    requires i < |keys| && forall a, b | 0 <= a < b < |keys| :: keys[a] != keys[b]
    ensures keys[i] !in FilesOf(keys, i)
    ensures FilesOf(keys, i + 1) == if keys[i] == DEL_LIST then FilesOf(keys, i) else FilesOf(keys, i) + {keys[i]}
    ensures |FilesOf(keys, i)| <= i
  {
    FilesIn(keys, i);
    assert keys[i] !in keys[..i];
  }

  lemma FilesAll(s: set<bytes>)
    ensures var keys := SortedKeys(s);
            FilesOf(keys, 0) == {} && FilesOf(keys, |keys|) == s - {DEL_LIST}
  {
    hide LexLe, SortedKeys;
    var keys := SortedKeys(s);
    FilesIn(keys, |keys|);
    assert keys[..|keys|] == keys;
  }

  /** In path order: the files among the first keys are those that come before the next one. */
  lemma FilesBefore(s: set<bytes>, i: nat)
    requires i < |s|
    ensures var keys := SortedKeys(s);
            i < |keys| && FilesOf(keys, i) == set p | p in s && p != DEL_LIST && Before(p, keys[i])
  {
    hide SortedKeys, LexLe, FilesOf, Before;
    var keys := SortedKeys(s);
    FilesIn(keys, i);
    KeysAscend(s);
    forall p | p in s
      ensures p in keys[..i] <==> Before(p, keys[i])
    {
      var j :| 0 <= j < |keys| && keys[j] == p;
      if j < i {
        assert keys[..i][j] == p;
      } else {
        NotBefore(keys[i], p);
        assert p !in keys[..i];
      }
    }
  }

  lemma NotBefore(a: bytes, b: bytes)
    requires a == b || Before(a, b)
    ensures !Before(b, a)
  {
    hide Before;
    LexBytes(a, b);
    LexBytes(b, a);
    if Before(b, a) {
      LexAntisymmetric(a, b);
      SelfNotBefore(a);
    }
  }

  lemma SelfNotBefore(a: bytes)
    ensures !Before(a, a)
  {
  }

  /** One turn of merge's first loop. */
  method CopyNext(im: Pack, other: Pack, keys: seq<bytes>, i: nat, ghost s0: PackState, ghost all: set<bytes>)
    returns (ok: bool, ghost steps: seq<Op>)
    requires im.Valid() && other.Valid() && Apart(im, other) && i < |keys| && keys == SortedKeys(other.index.paths.Keys)
    requires |s0.index.paths| + |other.index.paths| + 1 < U32_LIMIT
    requires Distinct(im.cs, all) && Stored(im.cs, other.key, other.Now()) <= all
    requires Progress(im.cs, im.key, s0, im.Now(), other.key, other.Now(), FilesOf(keys, i), all)
    modifies im`index, im`lastErr, other`lastErr, im.store`fileSize, im.os
    ensures im.Valid() && other.Valid() && other.Now() == old(other.Now())
    ensures Touched(im.name, old(im.os.files), old(im.os.trace), im.os.files, im.os.trace)
    ensures im.os.Onward() && (!ok ==> im.os.faults > old(im.os.faults))
    ensures !ok ==> im.View() == old(im.View()) && im.index == old(im.index) && im.lastErr == ErrIo
    ensures ok ==> Progress(im.cs, im.key, s0, im.Now(), other.key, other.Now(), FilesOf(keys, i + 1), all)
    ensures Moved(im.cs, im.key, old(im.Now()), steps, im.Now())
    ensures Moments(im.cs, im.key, old(im.Now()), Putting, old(im.os.trace), im.os.trace, im.name)
  {
    hide PackInv, Buffered, Stored, Cache, ReadHeader, Distinct, Data, Progress, SortedKeys, LexLe, Touched, FilesOf,
         Moments, Moved;
    steps := [];
    assert Moved(im.cs, im.key, im.Now(), [], im.Now()) by { StayedPut(im.cs, im.key, im.Now()); }
    NoneYet(im.cs, im.key, im.Now(), Putting, im.os.trace, im.name);
    TouchedRefl(im.name, im.os.files, im.os.trace);
    FilesStep(keys, i);
    if keys[i] == DEL_LIST {
      return true, steps;
    }
    ProgressRoom(im.cs, im.key, s0, im.Now(), other.key, other.Now(), FilesOf(keys, i), all);
    KeysFit(other.index.paths, keys);
    ok, steps := CopyFile(im, other, keys[i], s0, FilesOf(keys, i), all);
  }

  lemma StayedPut(cs: Suite, key: bytes, s: PackState)
    ensures Moved(cs, key, s, [], s)
  {
  }

  lemma KeysFit(paths: map<bytes, PathEntry>, keys: seq<bytes>)
    requires keys == SortedKeys(paths.Keys)
    ensures |keys| == |paths|
  {
    hide SortedKeys, LexLe;
    assert |paths.Keys| == |paths|;
  }

  /** merge's first loop: every file of `other` but the control file, in path order; when it
      ends early, the first `upto` keys have been dealt with. */
  method MergeFiles(im: Pack, other: Pack, ghost all: set<bytes>)
    returns (ok: bool, ghost upto: nat, ghost run: seq<PackState>, ghost ops: seq<Op>)
    requires im.Valid() && other.Valid() && Apart(im, other)
    requires |im.index.paths| + |other.index.paths| + 1 < U32_LIMIT
    requires Distinct(im.cs, all) && Stored(im.cs, im.key, im.Now()) <= all
             && Stored(im.cs, other.key, other.Now()) <= all
    modifies im`index, im`lastErr, other`lastErr, im.store`fileSize, im.os
    ensures im.Valid() && other.Valid() && other.Now() == old(other.Now())
    ensures Touched(im.name, old(im.os.files), old(im.os.trace), im.os.files, im.os.trace)
    ensures im.os.Onward() && (!ok ==> im.os.faults > old(im.os.faults))
    ensures var keys := SortedKeys(old(other.index.paths).Keys);
            && upto <= |keys| && (ok ==> upto == |keys|)
            && im.View() == old(im.View()) + Restrict(old(other.View()), FilesOf(keys, upto))
            && (ok ==> Progress(im.cs, im.key, old(im.Now()), im.Now(), other.key, old(other.Now()),
                                FilesOf(keys, upto), all))
    ensures !ok ==> im.lastErr == ErrIo
    ensures Walked(im.cs, im.key, run, ops, old(im.Now()), im.Now(), old(im.os.trace), im.os.trace, im.name)
    ensures RoomFor(old(im.Now()), old(other.Now())) ==> AllRoom(run)
  {
    hide PackInv, Buffered, Stored, Cache, ReadHeader, Distinct, Data, Progress, SortedKeys, Touched, Restrict,
         FilesOf, LexLe, Walked, Moved, Moments, Extended, AllRoom, RoomFor, Along;
    ghost var s0, o := im.Now(), other.Now();
    ghost var f0, t0 := im.os.files, im.os.trace;
    run, ops := [s0], [];
    TouchedRefl(im.name, f0, t0);
    var keys := SortedKeys(other.index.paths.Keys);
    AlongStart(im.cs, im.key, s0, other.key, o, all, t0, im.name);
    var i := 0;
    upto := 0;
    while i < |keys|
      invariant 0 <= i == upto <= |keys| && keys == SortedKeys(other.index.paths.Keys)
      invariant im.Valid() && other.Valid() && other.Now() == o
      invariant Touched(im.name, f0, t0, im.os.files, im.os.trace)
      invariant im.os.Onward()
      invariant Along(im.cs, im.key, s0, im.Now(), other.key, o, keys, i, all, run, ops, t0, im.os.trace, im.name)
    {
      ghost var f1, t1, s1 := im.os.files, im.os.trace, im.Now();
      AlongFacts(im.cs, im.key, s0, s1, other.key, o, keys, i, all, run, ops, t0, t1, im.name);
      ghost var steps: seq<Op>;
      ok, steps := CopyNext(im, other, keys, i, s0, all);
      TouchedTrans(im.name, f0, t0, f1, t1, im.os.files, im.os.trace);
      AlongTurn(im.cs, im.key, s0, s1, im.Now(), other.key, o, keys, i, ok, all, run, ops, steps, t0, t1, im.os.trace,
                im.name);
      run, ops := Extended(run, steps, im.Now()), ops + steps;
      if !ok {
        return;
      }
      i := i + 1;
      upto := i;
    }
    ok := true;
    AlongFacts(im.cs, im.key, s0, im.Now(), other.key, o, keys, i, all, run, ops, t0, im.os.trace, im.name);
  }

  /** The merge has dealt with the first i keys, along the given run, with room if there is for all of it. */
  ghost predicate Along(cs: Suite, key: bytes, s0: PackState, s: PackState, okey: bytes, o: PackState,
                        keys: seq<bytes>, i: nat, all: set<bytes>, run: seq<PackState>, ops: seq<Op>,
                        t0: seq<map<Name, Disk>>, t1: seq<map<Name, Disk>>, name: Name)
    requires i <= |keys|
  {
    && Progress(cs, key, s0, s, okey, o, FilesOf(keys, i), all)
    && Walked(cs, key, run, ops, s0, s, t0, t1, name)
    && (RoomFor(s0, o) ==> AllRoom(run))
  }

  lemma AlongStart(cs: Suite, key: bytes, s0: PackState, okey: bytes, o: PackState, all: set<bytes>,
                   t: seq<map<Name, Disk>>, name: Name)
    requires MemBounds(s0.store) && MemBounds(o.store) && Stored(cs, key, s0) <= all
    ensures Along(cs, key, s0, s0, okey, o, SortedKeys(o.index.paths.Keys), 0, all, [s0], [], t, t, name)
  {
    hide Progress, Walked, SortedKeys, LexLe, Stored;
    WalkedNowhere(cs, key, s0, t, name);
    FilesAll(o.index.paths.Keys);
    ProgressStart(cs, key, s0, okey, o, all);
  }

  lemma AlongFacts(cs: Suite, key: bytes, s0: PackState, s: PackState, okey: bytes, o: PackState,
                   keys: seq<bytes>, i: nat, all: set<bytes>, run: seq<PackState>, ops: seq<Op>,
                   t0: seq<map<Name, Disk>>, t1: seq<map<Name, Disk>>, name: Name)
    requires i <= |keys| && Along(cs, key, s0, s, okey, o, keys, i, all, run, ops, t0, t1, name)
    ensures Progress(cs, key, s0, s, okey, o, FilesOf(keys, i), all)
    ensures MemBounds(s0.store) && MemBounds(s.store) && MemBounds(o.store)
    ensures Buffered(cs, key, s) == Buffered(cs, key, s0) + Restrict(Buffered(cs, okey, o), FilesOf(keys, i))
    ensures Walked(cs, key, run, ops, s0, s, t0, t1, name) && (RoomFor(s0, o) ==> AllRoom(run))
  {
    hide Progress, Walked, Stored, Buffered, Reuses, AllRoom, RoomFor;
    ProgressBounds(cs, key, s0, s, okey, o, FilesOf(keys, i), all);
    ProgressRoom(cs, key, s0, s, okey, o, FilesOf(keys, i), all);
  }

  /** One turn of the loop, which ends the merge if it fails. */
  lemma AlongTurn(cs: Suite, key: bytes, s0: PackState, s: PackState, s': PackState, okey: bytes, o: PackState,
                  keys: seq<bytes>, i: nat, ok: bool, all: set<bytes>, run: seq<PackState>, ops: seq<Op>,
                  steps: seq<Op>, t0: seq<map<Name, Disk>>, t1: seq<map<Name, Disk>>, t2: seq<map<Name, Disk>>,
                  name: Name)
    requires i < |keys| && Along(cs, key, s0, s, okey, o, keys, i, all, run, ops, t0, t1, name)
    requires keys == SortedKeys(o.index.paths.Keys)
    requires PackInv(cs, key, s0) && PackInv(cs, key, s') && PackInv(cs, okey, o)
    requires if ok then Progress(cs, key, s0, s', okey, o, FilesOf(keys, i + 1), all) else s'.index == s.index
    requires s0.store.mem.Some? && s.store.mem.Some? && s'.store.mem.Some?
    requires s0.store.mem.value.seqno == s.store.mem.value.seqno == s'.store.mem.value.seqno
    requires Moved(cs, key, s, steps, s') && Moments(cs, key, s, Putting, t1, t2, name)
    ensures var run' := Extended(run, steps, s');
            && Walked(cs, key, run', ops + steps, s0, s', t0, t2, name) && (RoomFor(s0, o) ==> AllRoom(run'))
            && (ok ==> Along(cs, key, s0, s', okey, o, keys, i + 1, all, run', ops + steps, t0, t2, name))
  {
    hide PackInv, Progress, AllRoom, RoomFor, SortedKeys, LexLe, FilesOf, Walked, Moved, Moments, Room;
    WalkedMore(cs, key, run, ops, s0, s, steps, s', t0, t1, t2, name);
    if RoomFor(s0, o) {
      if ok {
        KeysFit(o.index.paths, keys);
        FilesCount(keys, i + 1);
        ProgressFits(cs, key, s0, s', okey, o, FilesOf(keys, i + 1), all);
      } else {
        WalkedEnd(cs, key, run, ops, s0, s, t0, t1, name);
        LastRoom(run);
        SameRoom(s, s');
      }
      MoreRoom(run, s');
    }
  }

  lemma FilesCount(keys: seq<bytes>, i: nat)
    requires i <= |keys|
    ensures |FilesOf(keys, i)| <= i
  {
    FilesIn(keys, i);
  }

  lemma WalkedEnd(cs: Suite, key: bytes, run: seq<PackState>, ops: seq<Op>, s0: PackState, s: PackState,
                  t0: seq<map<Name, Disk>>, t1: seq<map<Name, Disk>>, name: Name)
    requires Walked(cs, key, run, ops, s0, s, t0, t1, name)
    ensures run != [] && run[|run| - 1] == s
  {
    hide Walk, WalkMoments;
  }

  lemma SameRoom(s: PackState, s': PackState)
    requires Room(s) && s'.index == s.index && s.store.mem.Some? && s'.store.mem.Some?
    requires s'.store.mem.value.seqno == s.store.mem.value.seqno
    ensures Room(s')
  {
    hide Fits;
  }

  /** merge's second part: if the source carries a control file, delete what it lists. */
  method ConsumeList(im: Pack, other: Pack, ghost run0: seq<PackState>, ghost ops0: seq<Op>)
    returns (ok: bool, ghost run: seq<PackState>, ghost ops: seq<Op>)
    requires im.Valid() && other.Valid() && Apart(im, other)
    requires Walk(im.cs, im.key, run0, ops0) && run0[|ops0|] == im.Now()
    modifies im`index, im`lastErr, other`lastErr, im.os`interrupts, im.os`faults
    ensures im.Valid() && other.Valid() && other.Now() == old(other.Now()) && im.store.Now() == old(im.store.Now())
    ensures !ok ==> im.index == old(im.index)
    ensures old(im.os.faults) <= im.os.faults && (!ok ==> im.os.faults > old(im.os.faults))
    ensures ok ==>
              im.View() ==
              if DEL_LIST in other.View() then old(im.View()) - Deleted(ParseDeletions(other.View()[DEL_LIST]))
                                else old(im.View())
    ensures SamePlaces(old(im.index.blobs), im.index.blobs) && im.lastErr == if ok then Ok else ErrIo
    ensures Walk(im.cs, im.key, run, ops) && run0 <= run && run[|ops|] == im.Now()
    ensures AllRoom(run0) ==> AllRoom(run)
  {
    hide PackInv, Buffered, Cache, ReadHeader, Normalize, ParseDeletions, Deleted, SamePlaces, Walk, AllRoom;
    ViewKeys(other.cs, other.key, other.Now());
    ControlName();
    SamePlacesRefl(im.index.blobs);
    run, ops := run0, ops0;
    var carried := other.Has(DEL_LIST);
    if carried {
      var list, read := other.Get(DEL_LIST);
      if list.None? {
        im.lastErr := ErrIo;
        return false, run, ops;
      }
      run, ops := DeleteListed(im, list.value, run0, ops0);
    }
    im.lastErr := Ok;
    ok := true;
  }

  /** `Pack::merge`: overlays every file of `other`, then deletes what its control file lists.
      It is the run of puts and deletions `run`, and every state the file passes through is
      one that a put on some state of that run could have ended in. When it fails, the first
      `upto` files in path order have been overlaid. */
  method Merge(im: Pack, other: Pack)
    returns (ok: bool, ghost upto: nat, ghost run: seq<PackState>, ghost ops: seq<Op>)
    requires im.Valid() && other.Valid() && Apart(im, other)
    requires |im.index.paths| + |other.index.paths| + 1 < U32_LIMIT
    requires Distinct(im.cs, Stored(im.cs, im.key, im.Now()) + Stored(im.cs, other.key, other.Now()))
    modifies im`index, im`lastErr, other`lastErr, im.store`fileSize, im.os
    ensures im.Valid() && other.Valid() && other.Now() == old(other.Now())
    ensures Touched(im.name, old(im.os.files), old(im.os.trace), im.os.files, im.os.trace)
    ensures im.os.Onward() && (!ok ==> im.os.faults > old(im.os.faults))
    ensures Walked(im.cs, im.key, run, ops, old(im.Now()), im.Now(), old(im.os.trace), im.os.trace, im.name)
    ensures RoomFor(old(im.Now()), old(other.Now())) ==> AllRoom(run)
    ensures im.lastErr == if ok then Ok else ErrIo
    ensures upto <= |SortedKeys(old(other.index.paths).Keys)|
    ensures !ok ==>
              im.View() ==
              old(im.View()) + Restrict(old(other.View()), FilesOf(SortedKeys(old(other.index.paths).Keys), upto))
    ensures ok ==> im.View() == MergeView(old(im.View()), old(other.View()))
    // blobs are only added, and content that is stored already is not stored again
    ensures ok ==> Reuses(old(im.Now()), im.Now(), old(other.index.paths), old(other.index.paths).Keys - {DEL_LIST})
    ensures ok ==>
              Stored(im.cs, im.key, im.Now()) <=
              old(Stored(im.cs, im.key, im.Now()) + Stored(im.cs, other.key, other.Now()))
  {
    hide PackInv, Buffered, Stored, Cache, ReadHeader, Distinct, Data, Progress, Touched, Restrict, Reuses, MergeView,
         ParseDeletions, Deleted, SamePlaces, Walk, WalkMoments, SortedKeys, LexLe, FilesOf, AllRoom, RoomFor;
    ghost var s0, o := im.Now(), other.Now();
    ghost var all := Stored(im.cs, im.key, s0) + Stored(im.cs, other.key, o);
    ghost var t0 := im.os.trace;
    ghost var run1: seq<PackState>, ops1: seq<Op>;
    ok, upto, run1, ops1 := MergeFiles(im, other, all);
    run, ops := run1, ops1;
    if !ok {
      return;
    }
    ghost var s1 := im.Now();
    ok, run, ops := ConsumeList(im, other, run1, ops1);
    WalkShape(im.cs, im.key, run, ops);
    LongerMoments(im.cs, im.key, run1, run, t0, im.os.trace, im.name);
    FilesAll(o.index.paths.Keys);
    MergedMeaning(im.cs, im.key, s0, s1, im.Now(), other.key, o, o.index.paths.Keys - {DEL_LIST}, all);
  }

  /** Merging into a pack that has a run behind it, with room: the merge continues the run, and a
      power loss at any moment of it gives back, in full, what commit i acknowledged or a
      commit begun after it was made of; nothing of the merge shows. */
  method MergeInRun(im: Pack, other: Pack, ghost run: seq<PackState>, ghost ops: seq<Op>, ghost i: nat)
    returns (ok: bool, ghost walk: seq<PackState>, ghost steps: seq<Op>)
    requires im.Valid() && other.Valid() && Apart(im, other)
    requires |im.index.paths| + |other.index.paths| + 1 < U32_LIMIT
    requires Distinct(im.cs, Stored(im.cs, im.key, im.Now()) + Stored(im.cs, other.key, other.Now()))
    requires Follows(im.cs, im.key, run, ops, i, im.Now()) && RoomFor(im.Now(), other.Now())
    modifies im`index, im`lastErr, other`lastErr, im.store`fileSize, im.os
    ensures im.Valid() && (ok ==> im.View() == MergeView(old(im.View()), old(other.View())))
    ensures im.os.Onward() && (!ok ==> im.os.faults > old(im.os.faults))
    ensures walk != [] && Follows(im.cs, im.key, run + walk[1..], ops + steps, i, im.Now())
    ensures forall j, img | |old(im.os.trace)| <= j < |im.os.trace| && im.name in im.os.trace[j]
                            && CrashImage(im.os.trace[j][im.name], img) :: GivesBack(im.cs, im.key, run, ops, i, img)
  {
    hide PackInv, Buffered, Stored, Cache, Distinct, Data, Touched, Restrict, Reuses, MergeView, Walked, SortedKeys,
         LexLe, ReadHeader, FilesOf, RoomFor, AllRoom, CrashImage, GivesBack, Follows;
    ghost var upto: nat;
    ghost var t0, s0 := im.os.trace, im.Now();
    ok, upto, walk, steps := Merge(im, other);
    MergedRun(im.cs, im.key, run, ops, i, walk, steps, s0, im.Now(), t0, im.os.trace, im.name);
  }

  lemma MergedRun(cs: Suite, key: bytes, run: seq<PackState>, ops: seq<Op>, i: nat, walk: seq<PackState>,
                  steps: seq<Op>, s0: PackState, s: PackState, t0: seq<map<Name, Disk>>, t1: seq<map<Name, Disk>>,
                  name: Name)
    requires Follows(cs, key, run, ops, i, s0) && Walked(cs, key, walk, steps, s0, s, t0, t1, name) && AllRoom(walk)
    ensures walk != [] && Follows(cs, key, run + walk[1..], ops + steps, i, s)
    ensures forall j, img | |t0| <= j < |t1| && name in t1[j] && CrashImage(t1[j][name], img) ::
              GivesBack(cs, key, run, ops, i, img)
  {
    hide Walk, WalkMoments, IsRun, Acknowledges, Steady, Room, CrashImage, GivesBack;
    WalkRun(cs, key, run, ops, i, walk, steps);
    LongerLingers(ops, steps, i + 1);
    forall j, img | |t0| <= j < |t1| && name in t1[j] && CrashImage(t1[j][name], img)
      ensures GivesBack(cs, key, run, ops, i, img)
    {
      WalkedCut(cs, key, run, ops, i, walk, steps, s, t0, t1, name, j, img);
    }
  }

  lemma MergedMeaning(cs: Suite, key: bytes, s0: PackState, s1: PackState, s: PackState, okey: bytes, o: PackState,
                      copied: set<bytes>, all: set<bytes>)
    requires Progress(cs, key, s0, s1, okey, o, copied, all) && copied == o.index.paths.Keys - {DEL_LIST}
    requires PackInv(cs, key, s1) && PackInv(cs, okey, o) && s.store == s1.store
             && SamePlaces(s1.index.blobs, s.index.blobs)
    ensures var v := Buffered(cs, okey, o);
            MergeView(Buffered(cs, key, s0), v) ==
            if DEL_LIST in v then Buffered(cs, key, s1) - Deleted(ParseDeletions(v[DEL_LIST]))
            else Buffered(cs, key, s1)
    ensures Reuses(s0, s, o.index.paths, copied) && Stored(cs, key, s) <= all
  {
    hide PackInv, Buffered, Stored, Cache, Data, Progress, Restrict, Reuses, MergeView, ParseDeletions, Deleted,
         SamePlaces;
    ProgressBounds(cs, key, s0, s1, okey, o, copied, all);
    ViewKeys(cs, okey, o);
    ProgressReuses(cs, key, s0, s1, okey, o, copied, all);
    ProgressRoom(cs, key, s0, s1, okey, o, copied, all);
    ReusesSame(s0, s1, s, o.index.paths, copied);
    StoredSame(cs, key, s1, s);
    MergedAll(Buffered(cs, key, s0), Buffered(cs, okey, o), copied);
  }

  lemma ProgressBounds(cs: Suite, key: bytes, s0: PackState, s: PackState, okey: bytes, other: PackState,
                       copied: set<bytes>, all: set<bytes>)
    requires Progress(cs, key, s0, s, okey, other, copied, all)
    ensures MemBounds(s0.store) && MemBounds(s.store) && MemBounds(other.store)
  {
    hide Stored, Buffered, Reuses;
  }

  lemma ControlName()
    ensures Normalize(DEL_LIST) == DEL_LIST
  {
    SplitNone(DEL_LIST, SLASH);
    assert Keep([DEL_LIST]) == [DEL_LIST];
  }

  lemma ProgressReuses(cs: Suite, key: bytes, s0: PackState, s: PackState, okey: bytes, other: PackState,
                       copied: set<bytes>, all: set<bytes>)
    requires Progress(cs, key, s0, s, okey, other, copied, all)
    ensures Reuses(s0, s, other.index.paths, copied)
  {
    hide Stored, Buffered, Reuses;
  }

  lemma ReusesSame(s0: PackState, s: PackState, s': PackState, paths: map<bytes, PathEntry>, copied: set<bytes>)
    requires Reuses(s0, s, paths, copied) && SamePlaces(s.index.blobs, s'.index.blobs) && s'.store == s.store
    ensures Reuses(s0, s', paths, copied)
  {
  }

  lemma StoredSame(cs: Suite, key: bytes, s: PackState, s': PackState)
    requires PackInv(cs, key, s) && MemBounds(s.store) && s'.store == s.store
             && SamePlaces(s.index.blobs, s'.index.blobs)
    ensures Stored(cs, key, s') == Stored(cs, key, s)
  {
    hide Inv, SnapsOk, Cache, Data, Content, BlobsOk, PathsOk, CountsOk;
    PlacesSuffice(cs, key, Data(s.store), s.index, s'.index);
  }

  lemma MergedAll(v: View, w: View, copied: set<bytes>)
    requires copied == w.Keys - {DEL_LIST}
    ensures MergeView(v, w) ==
            if DEL_LIST in w then v + Restrict(w, copied) - Deleted(ParseDeletions(w[DEL_LIST]))
            else v + Restrict(w, copied)
  {
    hide ParseDeletions, Deleted;
    assert w - {DEL_LIST} == Restrict(w, copied);
  }

  // ---- merging again ----

  /** Two sound indexes over the same data that mean the same and place the same blobs are
      the same but for times: the reference counts are forced. */
  lemma SameIndex(cs: Suite, key: bytes, data: bytes, a: Index, b: Index)
    requires IndexInv(cs, key, data, a) && IndexInv(cs, key, data, b)
    requires Contents(cs, key, data, a) == Contents(cs, key, data, b)
    requires Extends(a.blobs, b.blobs) && a.blobs.Keys == b.blobs.Keys
    ensures a.paths.Keys == b.paths.Keys && (forall p | p in a.paths :: a.paths[p].hash == b.paths[p].hash)
    ensures a.blobs == b.blobs
  {
    hide ReadBlob, IsNormal, CountsOk, Content;
    assert a.paths.Keys == Contents(cs, key, data, a).Keys == Contents(cs, key, data, b).Keys == b.paths.Keys;
    forall p | p in a.paths
      ensures a.paths[p].hash == b.paths[p].hash
    {
      HashOfContent(cs, key, data, a, p);
      HashOfContent(cs, key, data, b, p);
      assert Contents(cs, key, data, a)[p] == Contents(cs, key, data, b)[p];
    }
    assert forall h :: Users(a.paths, h) == Users(b.paths, h);
    SameCounts(a, b);
  }

  lemma HashOfContent(cs: Suite, key: bytes, data: bytes, idx: Index, p: bytes)
    requires IndexInv(cs, key, data, idx) && p in idx.paths
    ensures idx.paths[p].hash == cs.hash(Contents(cs, key, data, idx)[p])
  {
    hide ReadBlob, IsNormal;
    assert Sound(cs, key, data, idx.paths[p].hash, idx.blobs[idx.paths[p].hash]);
  }

  lemma SameCounts(a: Index, b: Index)
    requires CountsOk(a) && CountsOk(b) && Extends(a.blobs, b.blobs) && a.blobs.Keys == b.blobs.Keys
    requires forall h :: Users(a.paths, h) == Users(b.paths, h)
    ensures a.blobs == b.blobs
  {
    hide Users;
    forall h | h in a.blobs
      ensures a.blobs[h] == b.blobs[h]
    {
      assert a.blobs[h].(refcount := 0) == b.blobs[h].(refcount := 0);
      assert a.blobs[h].refcount == |Users(a.paths, h)| && b.blobs[h].refcount == |Users(b.paths, h)|;
    }
  }

  lemma SamePack(cs: Suite, key: bytes, s: PackState, s': PackState)
    requires PackInv(cs, key, s) && PackInv(cs, key, s') && MemBounds(s.store) && s'.store == s.store
    requires Buffered(cs, key, s) == Buffered(cs, key, s')
    requires Extends(s.index.blobs, s'.index.blobs) && s.index.blobs.Keys == s'.index.blobs.Keys
    ensures s.index.paths.Keys == s'.index.paths.Keys
    ensures forall p | p in s.index.paths :: s.index.paths[p].hash == s'.index.paths[p].hash
    ensures s.index.blobs == s'.index.blobs
  {
    hide Inv, SnapsOk, Cache, Data, IndexInv, Contents, Extends;
    SameIndex(cs, key, Data(s.store), s.index, s'.index);
  }

  /** Merging a second time from the same source writes nothing and changes nothing but times. */
  method MergeTwice(im: Pack, other: Pack) returns (ok: bool, ghost first: PackState)
    requires im.Valid() && other.Valid() && Apart(im, other)
    requires |im.index.paths| + 2 * |other.index.paths| + 1 < U32_LIMIT
    requires Distinct(im.cs, Stored(im.cs, im.key, im.Now()) + Stored(im.cs, other.key, other.Now()))
    modifies im`index, im`lastErr, other`lastErr, im.store`fileSize, im.os
    ensures im.Valid()
    ensures im.os.faults == old(im.os.faults) ==> ok
    ensures ok ==>
              && PackInv(im.cs, im.key, first) && MemBounds(first.store)
              && Buffered(im.cs, im.key, first) == MergeView(old(im.View()), old(other.View()))
              && im.Now().store == first.store && im.View() == Buffered(im.cs, im.key, first)
              && im.index.blobs == first.index.blobs && im.index.paths.Keys == first.index.paths.Keys
              && forall p | p in first.index.paths :: first.index.paths[p].hash == im.index.paths[p].hash
  {
    hide PackInv, Buffered, Stored, Cache, ReadHeader, Data, Reuses, MergeView, Touched, Distinct;
    ghost var s0, o := im.Now(), other.Now();
    ghost var upto: nat, run: seq<PackState>, ops: seq<Op>;
    ok, upto, run, ops := Merge(im, other);
    first := im.Now();
    if !ok {
      return;
    }
    FewerPaths(im.cs, im.key, other.key, s0, o, first);
    FewerContents(im.cs, Stored(im.cs, im.key, s0), Stored(im.cs, other.key, o), Stored(im.cs, im.key, first));
    ok, upto, run, ops := Merge(im, other);
    if ok {
      MergeIdempotent(Buffered(im.cs, im.key, s0), Buffered(im.cs, other.key, o));
      NothingNew(s0, first, im.Now(), o.index.paths, o.index.paths.Keys - {DEL_LIST});
      SamePack(im.cs, im.key, first, im.Now());
    }
  }

  lemma NothingNew(s0: PackState, s1: PackState, s2: PackState, paths: map<bytes, PathEntry>, copied: set<bytes>)
    requires Reuses(s0, s1, paths, copied) && Reuses(s1, s2, paths, copied)
    ensures s2.store == s1.store && s2.index.blobs.Keys == s1.index.blobs.Keys
            && Extends(s1.index.blobs, s2.index.blobs)
  {
    hide Extends;
  }

  lemma FewerContents(cs: Suite, a: set<bytes>, b: set<bytes>, c: set<bytes>)
    requires Distinct(cs, a + b) && c <= a + b
    ensures Distinct(cs, c + b)
  {
  }

  lemma FewerPaths(cs: Suite, key: bytes, okey: bytes, s0: PackState, o: PackState, s: PackState)
    requires PackInv(cs, key, s0) && PackInv(cs, okey, o) && PackInv(cs, key, s)
    requires MemBounds(s0.store) && MemBounds(o.store) && MemBounds(s.store)
    requires Buffered(cs, key, s) == MergeView(Buffered(cs, key, s0), Buffered(cs, okey, o))
    ensures |s.index.paths| <= |s0.index.paths| + |o.index.paths|
  {
    hide PackInv, Buffered, ParseDeletions, Deleted;
    ViewKeys(cs, key, s0);
    ViewKeys(cs, okey, o);
    ViewKeys(cs, key, s);
    SubsetSize(s.index.paths.Keys, s0.index.paths.Keys + o.index.paths.Keys);
    assert |s.index.paths.Keys| == |s.index.paths| && |s0.index.paths.Keys| == |s0.index.paths|
        && |o.index.paths.Keys| == |o.index.paths|;
  }
}
