/** One file as a crash sees it: the bytes already on stable storage and the writes
    issued since the last successful sync, oldest first. */
module Disk {
  import opened Bytes

  datatype Write = Write(off: nat, data: bytes)

  datatype Disk = Disk(durable: bytes, pending: seq<Write>)

  /** What running processes read: every issued write is visible at once. */
  function Replay(f: bytes, ws: seq<Write>): (r: bytes)
    ensures |r| >= |f|
  {
    if ws == [] then f
    else
      var w := ws[|ws| - 1];
      Splice(Replay(f, ws[..|ws| - 1]), w.off, w.data)
  }

  function Cache(d: Disk): (r: bytes)
    ensures |r| >= |d.durable|
  {
    Replay(d.durable, d.pending)
  }

  predicate Covers(w: Write, i: nat) {
    w.off <= i < w.off + |w.data|
  }

  /** Some write of `ws` puts the value b at position i. */
  ghost predicate Puts(ws: seq<Write>, i: nat, b: byte) {
    exists j: nat | j < |ws| :: Covers(ws[j], i) && ws[j].data[i - ws[j].off] == b
  }

  /** A power loss keeps any bytes of any unsynced writes: each byte of the image is the
      durable one (zero past the old end) or one that a pending write put there. */
  ghost predicate CrashImage(d: Disk, img: bytes) {
    && |d.durable| <= |img| <= |Cache(d)|
    && forall i: nat | i < |img| ::
         || img[i] == (if i < |d.durable| then d.durable[i] else 0)
         || Puts(d.pending, i, img[i])
  }

  /** The range [lo, hi) is not the target of any unsynced write. */
  ghost predicate Untouched(ws: seq<Write>, lo: nat, hi: nat) {
    forall j: nat | j < |ws| :: ws[j].off >= hi || ws[j].off + |ws[j].data| <= lo
  }

  lemma ImageKeeps(d: Disk, img: bytes, lo: nat, hi: nat)
    requires CrashImage(d, img) && lo <= hi <= |d.durable| && Untouched(d.pending, lo, hi)
    ensures img[lo..hi] == d.durable[lo..hi]
  {
    forall i | lo <= i < hi
      ensures img[i] == d.durable[i]
    {
      assert !Puts(d.pending, i, img[i]);
    }
  }

  lemma {:induction false} ReplayKeeps(f: bytes, ws: seq<Write>, lo: nat, hi: nat)
    requires lo <= hi <= |f| && Untouched(ws, lo, hi)
    ensures Replay(f, ws)[lo..hi] == f[lo..hi]
  {
    if ws != [] {
      var rest, w := ws[..|ws| - 1], ws[|ws| - 1];
      ReplayKeeps(f, rest, lo, hi);
      SpliceKeeps(Replay(f, rest), w.off, w.data, lo, hi);
    }
  }

  lemma CacheKeeps(d: Disk, lo: nat, hi: nat)
    requires lo <= hi <= |d.durable| && Untouched(d.pending, lo, hi)
    ensures Cache(d)[lo..hi] == d.durable[lo..hi]
  {
    ReplayKeeps(d.durable, d.pending, lo, hi);
  }

  /** Losing nothing is one of the possible crashes. */
  lemma {:induction false} CacheIsImage(d: Disk)
    ensures CrashImage(d, Cache(d))
  {
    ReplayIsImage(d.durable, d.pending);
  }

  lemma {:induction false} ReplayIsImage(f: bytes, ws: seq<Write>)
    ensures forall i: nat | i < |Replay(f, ws)| ::
              Replay(f, ws)[i] == (if i < |f| then f[i] else 0) || Puts(ws, i, Replay(f, ws)[i])
  {
    if ws != [] {
      var n := |ws| - 1;
      var r := Replay(f, ws);
      var r' := Replay(f, ws[..n]);
      ReplayIsImage(f, ws[..n]);
      SpliceAt(r', ws[n].off, ws[n].data);
      forall i: nat | i < |r|
        ensures r[i] == (if i < |f| then f[i] else 0) || Puts(ws, i, r[i])
      {
        if Covers(ws[n], i) {
          assert Puts(ws, i, r[i]);
        } else if i < |r'| && Puts(ws[..n], i, r'[i]) {
          var j: nat :| j < n && Covers(ws[j], i) && ws[j].data[i - ws[j].off] == r'[i];
          assert Puts(ws, i, r[i]);
        }
      }
    }
  }

  /** Keeping some of the writes and tearing others at any point is one of the possible
      crashes: `kept` holds a prefix (perhaps empty, perhaps all) of each pending write. */
  lemma TornSubsetIsImage(d: Disk, kept: seq<Write>)
    requires |kept| == |d.pending|
    requires forall j | 0 <= j < |kept| :: kept[j].off == d.pending[j].off && kept[j].data <= d.pending[j].data
    ensures CrashImage(d, Replay(d.durable, kept))
  {
    hide Replay, Puts;
    var img := Replay(d.durable, kept);
    ShorterReplay(d.durable, kept, d.pending);
    ReplayIsImage(d.durable, kept);
    forall i: nat | i < |img| && Puts(kept, i, img[i])
      ensures Puts(d.pending, i, img[i])
    {
      PutsLonger(kept, d.pending, i, img[i]);
    }
  }

  lemma PutsLonger(kept: seq<Write>, ws: seq<Write>, i: nat, b: byte)
    requires |kept| == |ws| && Puts(kept, i, b)
    requires forall j | 0 <= j < |kept| :: kept[j].off == ws[j].off && kept[j].data <= ws[j].data
    ensures Puts(ws, i, b)
  {
    var j: nat :| j < |kept| && Covers(kept[j], i) && kept[j].data[i - kept[j].off] == b;
    assert Covers(ws[j], i) && ws[j].data[i - ws[j].off] == b;
  }

  lemma {:induction false} ShorterReplay(f: bytes, kept: seq<Write>, ws: seq<Write>)
    requires |kept| == |ws|
    requires forall j | 0 <= j < |kept| :: kept[j].off == ws[j].off && kept[j].data <= ws[j].data
    ensures |Replay(f, kept)| <= |Replay(f, ws)|
  {
    if ws != [] {
      hide Splice;
      ShorterReplay(f, kept[..|ws| - 1], ws[..|ws| - 1]);
    }
  }

  /** The first k bytes of `data` were handed to the system at `off`, in any number of
      pieces; nothing outside [off, off + |data|) was written. */
  ghost predicate Issued(d: Disk, d': Disk, off: nat, data: bytes, k: nat) {
    && k <= |data|
    && d'.durable == d.durable
    && d.pending <= d'.pending
    && (forall j: nat | |d.pending| <= j < |d'.pending| ::
          off <= d'.pending[j].off && d'.pending[j].off + |d'.pending[j].data| <= off + |data|)
    && Cache(d') == Splice(Cache(d), off, data[..k])
  }

  /** One more piece of w bytes at the running offset. */
  lemma IssueMore(d: Disk, d1: Disk, off: nat, data: bytes, k: nat, w: nat)
    requires Issued(d, d1, off, data, k) && k + w <= |data|
    ensures Issued(d, d1.(pending := d1.pending + [Write(off + k, data[k..k + w])]), off, data, k + w)
  {
    hide Cache, Splice;
    var piece := Write(off + k, data[k..k + w]);
    CacheMore(d1, piece);
    SpliceTwice(Cache(d), off, data[..k], data[k..k + w]);
    assert data[..k] + data[k..k + w] == data[..k + w];
  }

  lemma CacheSynced(d: Disk)
    requires d.pending == []
    ensures Cache(d) == d.durable
  {
  }

  lemma CacheMore(d: Disk, w: Write)
    ensures Cache(d.(pending := d.pending + [w])) == Splice(Cache(d), w.off, w.data)
  {
    hide Splice;
    assert (d.pending + [w])[..|d.pending|] == d.pending;
  }

  lemma IssuedNothing(d: Disk, off: nat, data: bytes)
    ensures Issued(d, d, off, data, 0)
  {
    assert data[..0] == [];
  }

  /** Stable storage after a successful sync. */
  function Synced(d: Disk): Disk {
    Disk(Cache(d), [])
  }
}
