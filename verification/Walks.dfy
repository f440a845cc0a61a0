/** Operations made of several puts and deletions: the run they walk through, and what a
    power loss in the middle of one leaves. */
module Walks {
  import opened Bytes
  import opened Crypto
  import opened Disk
  import opened StoreModel
  import opened Os
  import opened Paths
  import opened PackModel
  import opened PackRuns
  import opened Pack

  /** A run of puts and deletions. */
  ghost predicate Walk(cs: Suite, key: bytes, run: seq<PackState>, ops: seq<Op>) {
    && |run| == |ops| + 1
    && forall i: nat | i < |ops| ::
         (ops[i].Put? || ops[i].Del?) && Sane(cs, key, run[i], ops[i]) && Step(cs, key, run[i], ops[i], run[i + 1])
  }

  /** Every state of the file since is one that a put on some state of the run could have ended in. */
  ghost predicate WalkMoments(cs: Suite, key: bytes, run: seq<PackState>,
                              t0: seq<map<Name, Disk>>, t1: seq<map<Name, Disk>>, name: Name) {
    t0 <= t1 && forall i | |t0| <= i < |t1| :: name in t1[i] && DuringSome(cs, key, run, t1[i][name])
  }

  ghost predicate DuringSome(cs: Suite, key: bytes, run: seq<PackState>, d: Disk) {
    exists k: nat | k < |run| :: During(cs, key, run[k], Putting, d)
  }

  /** From s to s' in no step or in one. */
  ghost predicate Moved(cs: Suite, key: bytes, s: PackState, steps: seq<Op>, s': PackState) {
    || (steps == [] && s' == s)
    || (|steps| == 1 && (steps[0].Put? || steps[0].Del?) && Sane(cs, key, s, steps[0])
        && Step(cs, key, s, steps[0], s'))
  }

  function Extended(run: seq<PackState>, steps: seq<Op>, s': PackState): seq<PackState> {
    if steps == [] then run else run + [s']
  }

  lemma WalkMore(cs: Suite, key: bytes, run: seq<PackState>, ops: seq<Op>, steps: seq<Op>, s': PackState)
    requires Walk(cs, key, run, ops) && Moved(cs, key, run[|ops|], steps, s')
    ensures var run' := Extended(run, steps, s');
            Walk(cs, key, run', ops + steps) && run' != [] && run'[0] == run[0] && run'[|ops + steps|] == s'
  {
    hide Sane, Step;
    if steps != [] {
      assert steps == [steps[0]];
      var run', ops' := run + [s'], ops + steps;
      forall i: nat | i < |ops'|
        ensures (ops'[i].Put? || ops'[i].Del?) && Sane(cs, key, run'[i], ops'[i])
                && Step(cs, key, run'[i], ops'[i], run'[i + 1])
      {
        if i < |ops| {
          assert run'[i] == run[i] && run'[i + 1] == run[i + 1] && ops'[i] == ops[i];
        }
      }
    } else {
      assert ops + steps == ops;
    }
  }

  lemma MomentsMore(cs: Suite, key: bytes, run: seq<PackState>, steps: seq<Op>, s: PackState, s': PackState,
                    t0: seq<map<Name, Disk>>, t1: seq<map<Name, Disk>>, t2: seq<map<Name, Disk>>, name: Name)
    requires WalkMoments(cs, key, run, t0, t1, name) && run != [] && run[|run| - 1] == s
    requires Moments(cs, key, s, Putting, t1, t2, name)
    ensures WalkMoments(cs, key, Extended(run, steps, s'), t0, t2, name)
  {
    hide During;
    var run' := Extended(run, steps, s');
    forall i | |t0| <= i < |t2|
      ensures name in t2[i] && DuringSome(cs, key, run', t2[i][name])
    {
      if i < |t1| {
        assert t2[i] == t1[i];
        var k: nat :| k < |run| && During(cs, key, run[k], Putting, t1[i][name]);
        assert run'[k] == run[k];
      } else {
        assert run'[|run| - 1] == s;
      }
    }
  }

  /** The run leads from s0 to s, and accounts for every state of the file in between. */
  ghost predicate Walked(cs: Suite, key: bytes, run: seq<PackState>, ops: seq<Op>, s0: PackState, s: PackState,
                         t0: seq<map<Name, Disk>>, t1: seq<map<Name, Disk>>, name: Name) {
    && Walk(cs, key, run, ops) && |run| == |ops| + 1 && run[0] == s0 && run[|ops|] == s
    && WalkMoments(cs, key, run, t0, t1, name)
  }

  lemma WalkedNowhere(cs: Suite, key: bytes, s: PackState, t: seq<map<Name, Disk>>, name: Name)
    ensures Walked(cs, key, [s], [], s, s, t, t, name)
  {
  }

  lemma WalkedMore(cs: Suite, key: bytes, run: seq<PackState>, ops: seq<Op>, s0: PackState, s: PackState,
                   steps: seq<Op>, s': PackState, t0: seq<map<Name, Disk>>, t1: seq<map<Name, Disk>>,
                   t2: seq<map<Name, Disk>>, name: Name)
    requires Walked(cs, key, run, ops, s0, s, t0, t1, name)
    requires Moved(cs, key, s, steps, s') && Moments(cs, key, s, Putting, t1, t2, name)
    ensures Walked(cs, key, Extended(run, steps, s'), ops + steps, s0, s', t0, t2, name)
  {
    hide Walk, WalkMoments, Moved, Moments, Extended;
    WalkMore(cs, key, run, ops, steps, s');
    MomentsMore(cs, key, run, steps, s, s', t0, t1, t2, name);
    WalkShape(cs, key, Extended(run, steps, s'), ops + steps);
  }

  lemma WalkShape(cs: Suite, key: bytes, run: seq<PackState>, ops: seq<Op>)
    requires Walk(cs, key, run, ops)
    ensures |run| == |ops| + 1
  {
    hide Sane, Step;
  }

  lemma LongerMoments(cs: Suite, key: bytes, run: seq<PackState>, run': seq<PackState>,
                      t0: seq<map<Name, Disk>>, t1: seq<map<Name, Disk>>, name: Name)
    requires WalkMoments(cs, key, run, t0, t1, name) && run <= run'
    ensures WalkMoments(cs, key, run', t0, t1, name)
  {
    hide During;
    forall i | |t0| <= i < |t1|
      ensures name in t1[i] && DuringSome(cs, key, run', t1[i][name])
    {
      var k: nat :| k < |run| && During(cs, key, run[k], Putting, t1[i][name]);
      assert run'[k] == run[k];
    }
  }

  // ---- what a power loss in the middle leaves ----

  lemma {:induction false} StepUnforged(cs: Suite, key: bytes, s: PackState, op: Op, s': PackState)
    requires Unforged(cs, key, s.store) && Step(cs, key, s, op, s') && (op.Put? || op.Del?)
    ensures Unforged(cs, key, s'.store)
  {
    hide Unforged, Normalize, Seal, AppendStep, DelIndex, Repoint, Cache;
    if op.Put? && s'.store != s.store {
      var off := if op.ok then s.store.mem.value.fileSize else 0;
      AppendUnforged(cs, key, s.store, s'.store, Seal(cs, key, op.nonce, op.data), off);
    }
  }

  /** s is where the run has led, and commit i was acknowledged in it and not endangered since. */
  ghost predicate Follows(cs: Suite, key: bytes, run: seq<PackState>, ops: seq<Op>, i: nat, s: PackState) {
    && |run| == |ops| + 1 && IsRun(cs, key, run, ops) && run[|ops|] == s
    && i < |ops| && Lasting(ops, i) && Steady(run, ops, i, |ops|)
  }

  /** The image opens, in full, as the contents buffered when commit i, or one begun after it, was made. */
  ghost predicate GivesBack(cs: Suite, key: bytes, run: seq<PackState>, ops: seq<Op>, i: nat, img: bytes) {
    exists k: nat | i <= k < |ops| && k < |run| ::
      Begins(ops[k]) && MemBounds(run[k].store) && OpensAs(cs, key, img, Buffered(cs, key, run[k]))
  }

  /** A walk with room continues the run it starts from. */
  lemma {:induction false} WalkExtends(cs: Suite, key: bytes, run: seq<PackState>, ops: seq<Op>,
                                       walk: seq<PackState>, steps: seq<Op>, n: nat)
    requires IsRun(cs, key, run, ops) && Walk(cs, key, walk, steps) && walk[0] == run[|ops|] && n <= |steps|
    requires forall k: nat | k <= n :: Room(walk[k])
    ensures IsRun(cs, key, run + walk[1..n + 1], ops + steps[..n])
    decreases n
  {
    hide PackInv, Sane, Step, Room, Unforged, Next;
    if n == 0 {
      assert run + walk[1..1] == run && ops + steps[..0] == ops;
    } else {
      WalkExtends(cs, key, run, ops, walk, steps, n - 1);
      var run', ops' := run + walk[1..n], ops + steps[..n - 1];
      assert run'[|ops'|] == walk[n - 1];
      StepUnforged(cs, key, walk[n - 1], steps[n - 1], walk[n]);
      LongerRun(cs, key, run', ops', steps[n - 1], walk[n]);
      assert run' + [walk[n]] == run + walk[1..n + 1];
      assert ops' + [steps[n - 1]] == ops + steps[..n];
    }
  }

  /** All of it does. */
  lemma {:induction false} WalkRun(cs: Suite, key: bytes, run: seq<PackState>, ops: seq<Op>, i: nat,
                                   walk: seq<PackState>, steps: seq<Op>)
    requires IsRun(cs, key, run, ops) && Walk(cs, key, walk, steps) && walk[0] == run[|ops|]
    requires i < |ops| && Steady(run, ops, i, |ops|)
    requires forall k: nat | k < |walk| :: Room(walk[k])
    ensures |walk| == |steps| + 1
    ensures IsRun(cs, key, run + walk[1..], ops + steps) && Steady(run + walk[1..], ops + steps, i, |ops + steps|)
  {
    hide PackInv, Sane, Step, Room, Unforged, Next, Steady;
    WalkExtends(cs, key, run, ops, walk, steps, |steps|);
    assert walk[1..|steps| + 1] == walk[1..] && steps[..|steps|] == steps;
    SteadyLonger(run, ops, run + walk[1..], ops + steps, i);
  }

  /** Cutting the power in the middle of a walk, at any state the file goes through, loses
      nothing that was acknowledged before and shows nothing of the walk: what is left opens,
      in full, as the contents buffered when commit i, or a commit begun after it, was made. */
  lemma {:induction false} WalkCut(cs: Suite, key: bytes, run: seq<PackState>, ops: seq<Op>, i: nat,
                                   walk: seq<PackState>, steps: seq<Op>, d: Disk, img: bytes)
    requires |run| == |ops| + 1 && Follows(cs, key, run, ops, i, run[|ops|])
    requires Walk(cs, key, walk, steps) && walk[0] == run[|ops|]
    requires forall k: nat | k < |walk| :: Room(walk[k])
    requires DuringSome(cs, key, walk, d) && CrashImage(d, img)
    ensures GivesBack(cs, key, run, ops, i, img)
  {
    hide Follows, GivesBack, Sane, Step, Room, CrashImage;
    var j: nat :| j < |walk| && During(cs, key, walk[j], Putting, d);
    var op: Op, mid: PackState :| && op.Put? && Sane(cs, key, walk[j], op)
                                  && Step(cs, key, walk[j], op, mid) && mid.store.disk == d;
    WalkCutAt(cs, key, run, ops, i, walk, steps, j, op, mid, img);
  }

  /** In particular at any state recorded while the walk was under way. */
  lemma {:induction false} WalkedCut(cs: Suite, key: bytes, run: seq<PackState>, ops: seq<Op>, i: nat,
                                     walk: seq<PackState>, steps: seq<Op>, s: PackState,
                                     t0: seq<map<Name, Disk>>, t1: seq<map<Name, Disk>>, name: Name, j: nat, img: bytes)
    requires |run| == |ops| + 1 && Follows(cs, key, run, ops, i, run[|ops|])
    requires Walked(cs, key, walk, steps, run[|ops|], s, t0, t1, name)
    requires forall k: nat | k < |walk| :: Room(walk[k])
    requires |t0| <= j < |t1| && name in t1[j] && CrashImage(t1[j][name], img)
    ensures GivesBack(cs, key, run, ops, i, img)
  {
    hide Walk, Follows, GivesBack, Room, DuringSome, CrashImage;
    WalkCut(cs, key, run, ops, i, walk, steps, t1[j][name], img);
  }

  lemma {:induction false} WalkCutAt(cs: Suite, key: bytes, run: seq<PackState>, ops: seq<Op>, i: nat,
                                     walk: seq<PackState>, steps: seq<Op>, j: nat, op: Op, mid: PackState, img: bytes)
    requires |run| == |ops| + 1 && Follows(cs, key, run, ops, i, run[|ops|])
    requires Walk(cs, key, walk, steps) && walk[0] == run[|ops|] && j <= |steps|
    requires forall k: nat | k < |walk| :: Room(walk[k])
    requires op.Put? && Sane(cs, key, walk[j], op) && Step(cs, key, walk[j], op, mid) && CrashImage(mid.store.disk, img)
    ensures GivesBack(cs, key, run, ops, i, img)
  {
    hide PackInv, Sane, Step, Room, Unforged, Buffered, MemBounds, OpensAs, CrashImage, Next, Lingers, Steady,
         Acknowledges;
    WalkExtends(cs, key, run, ops, walk, steps, j);
    var run', ops' := run + walk[1..j + 1], ops + steps[..j];
    assert run'[|ops'|] == walk[j];
    StepUnforged(cs, key, walk[j], op, mid);
    LongerLingers(ops, steps[..j], i + 1);
    forall k: nat | |ops| <= k < |ops'|
      ensures !ops'[k].Commit? && !ops'[k].Compact?
    {
      assert ops'[k] == steps[k - |ops|];
    }
    SteadyLonger(run, ops, run', ops', i);
    PowerCut(cs, key, run', ops', i, op, mid, img);
    var k: nat :| i <= k <= |ops'| && (if k < |ops'| then Begins(ops'[k]) else Begins(op))
                  && MemBounds(run'[k].store) && OpensAs(cs, key, img, Buffered(cs, key, run'[k]));
    assert k < |ops| && ops'[k] == ops[k] && run'[k] == run[k];
  }

  lemma SteadyLonger(run: seq<PackState>, ops: seq<Op>, run': seq<PackState>, ops': seq<Op>, i: nat)
    requires |run| == |ops| + 1 && |run'| == |ops'| + 1 && run <= run' && ops <= ops' && i < |ops|
             && Steady(run, ops, i, |ops|)
    requires forall k: nat | |ops| <= k < |ops'| :: !ops'[k].Commit?
    ensures Steady(run', ops', i, |ops'|)
  {
    forall j: nat | i < j < |ops'|
      ensures !Endangers(run'[j], ops'[j])
    {
      if j < |ops| {
        assert run'[j] == run[j] && ops'[j] == ops[j];
      }
    }
  }

  // ---- what a power loss in the middle of a single call leaves ----

  /** Writing a key slot forges no superblock: it does not reach one. */
  lemma {:induction false} SlotUnforged(cs: Suite, key: bytes, s: State, s': State, idx: nat, content: bytes, ok: bool)
    requires Unforged(cs, key, s) && idx < NUM_SLOTS && |content| == SLOT_SIZE && WriteSlotStep(s, s', idx, content, ok)
    ensures Unforged(cs, key, s')
  {
    hide DecodeSb, Splice, Cache, CrashImage;
    if ok {
      SyncedUnforged(cs, key, s');
    } else if |s.disk.durable| >= DATA_START {
      var k: nat :| Issued(s.disk, s'.disk, SlotOff(idx), content, k);
      forall img, side: Side | CrashImage(s'.disk, img)
        ensures |img| >= DATA_START
        ensures || Block(img, side) == Block(s'.disk.durable, side)
                || (exists j: nat :: j < |s'.later| && s'.later[j].block == Block(img, side))
                || DecodeSb(cs, key, Block(img, side)).None?
      {
        var sides := SidesImage(s.disk, s'.disk, SlotOff(idx), content, k, img);
        SideStored(cs, key, s, sides, side);
      }
    }
  }

  /** The superblocks of a crash image after a write in front of them are those of one before it. */
  lemma SidesImage(d: Disk, d': Disk, off: nat, data: bytes, k: nat, img: bytes) returns (sides: bytes)
    requires |d.durable| >= DATA_START && off + |data| <= SB_A_OFF && Issued(d, d', off, data, k) && CrashImage(d', img)
    ensures CrashImage(d, sides) && |img| >= DATA_START && |sides| >= DATA_START
    ensures forall side: Side :: Block(sides, side) == Block(img, side)
  {
    hide Splice, Cache, Puts;
    sides := d.durable[..SB_A_OFF] + img[SB_A_OFF..DATA_START] + d.durable[DATA_START..];
    forall i: nat | SB_A_OFF <= i < DATA_START && Puts(d'.pending, i, img[i])
      ensures Puts(d.pending, i, img[i])
    {
      PutsBeyond(d, d', off, data, k, i, img[i]);
    }
    assert forall i: nat | i < |sides| :: sides[i] == if SB_A_OFF <= i < DATA_START then img[i] else d.durable[i];
  }

  lemma PutsBeyond(d: Disk, d': Disk, off: nat, data: bytes, k: nat, i: nat, b: byte)
    requires Issued(d, d', off, data, k) && i >= off + |data| && Puts(d'.pending, i, b)
    ensures Puts(d.pending, i, b)
  {
    hide Splice, Cache;
    var j: nat :| j < |d'.pending| && Covers(d'.pending[j], i) && d'.pending[j].data[i - d'.pending[j].off] == b;
    assert j < |d.pending|;
    assert d.pending[j] == d'.pending[j];
  }

  /** The call on `s` could have ended with the file in state d and no superblock forged by it. */
  ghost predicate DuringGenuine(cs: Suite, key: bytes, s: PackState, call: Call, d: Disk) {
    exists op: Op, s': PackState ::
      && Under(call, op) && Sane(cs, key, s, op) && Step(cs, key, s, op, s') && s'.store.disk == d
      && Unforged(cs, key, s'.store) && !Endangers(s, op)
  }

  /** Cutting the power in the middle of a put, a commit or a rekeying, at any state recorded
      while it was under way: what is left opens, in full, as the contents buffered when commit
      i, or one begun after it, was made; and nothing of a put or a rekeying shows. Only what a
      torn superblock leaves is taken for granted, and that a commit is not made from behind. */
  lemma {:induction false} MomentsCut(cs: Suite, key: bytes, run: seq<PackState>, ops: seq<Op>, i: nat, call: Call,
                                      t0: seq<map<Name, Disk>>, t1: seq<map<Name, Disk>>, name: Name, j: nat,
                                      img: bytes)
    requires |run| == |ops| + 1 && Follows(cs, key, run, ops, i, run[|ops|])
    requires Room(run[|ops|]) && Moments(cs, key, run[|ops|], call, t0, t1, name)
    requires |t0| <= j < |t1| && name in t1[j] && CrashImage(t1[j][name], img)
    requires call == Committing ==> DuringGenuine(cs, key, run[|ops|], call, t1[j][name])
    ensures exists k: nat | i <= k <= |ops| ::
              && (if k < |ops| then Begins(ops[k]) else call == Committing)
              && MemBounds(run[k].store) && OpensAs(cs, key, img, Buffered(cs, key, run[k]))
  {
    hide Steady, Lasting, PackInv, Next, Sane, Step, Room, Unforged, Buffered, MemBounds, OpensAs, CrashImage,
         Endangers;
    var s, d := run[|ops|], t1[j][name];
    var op: Op, mid: PackState :| && Under(call, op) && Sane(cs, key, s, op)
                                  && Step(cs, key, s, op, mid) && mid.store.disk == d
                                  && (call == Committing ==> Unforged(cs, key, mid.store) && !Endangers(s, op));
    if call != Committing {
      NotCommitting(cs, key, s, call, op, mid);
    }
    PowerCut(cs, key, run, ops, i, op, mid, img);
  }

  lemma NotCommitting(cs: Suite, key: bytes, s: PackState, call: Call, op: Op, s': PackState)
    requires Unforged(cs, key, s.store) && Under(call, op) && Step(cs, key, s, op, s') && call != Committing
    ensures Unforged(cs, key, s'.store) && !Endangers(s, op)
  {
    hide Unforged, WriteSlotStep, PutStep;
    if op.Put? {
      StepUnforged(cs, key, s, op, s');
    } else {
      SlotUnforged(cs, key, s.store, s'.store, op.idx, op.content, op.ok);
    }
  }

  lemma {:induction false} LongerLingers(ops: seq<Op>, more: seq<Op>, n: nat)
    requires n <= |ops|
    ensures Lingers(ops + more, n) == Lingers(ops, n)
  {
    if n > 0 {
      LongerLingers(ops, more, n - 1);
    }
  }
}
