/** The operating system's files as the pack sees them, and the two backends' loops over
    short transfers. System calls are nondeterministic: any of them may fail or transfer
    less than asked; but the system counts its failures, and keeps the random bytes and the
    times that it has handed out. */
module Os {
  import opened Bytes
  import opened Disk
  import opened StoreModel

  type Name = bytes

  /** From `base` on, the files changed only under `name`; every state in between is recorded. */
  ghost predicate Only(was: seq<map<Name, Disk>>, now: seq<map<Name, Disk>>, base: map<Name, Disk>, name: Name) {
    && was <= now
    && forall i | |was| <= i < |now| :: now[i] - {name} == base - {name}
  }

  /** `name` is the only file that is, or ever was in between, different. */
  ghost predicate Touched(name: Name, files: map<Name, Disk>, trace: seq<map<Name, Disk>>,
                          files': map<Name, Disk>, trace': seq<map<Name, Disk>>) {
    && name in files'
    && files' == files[name := files'[name]]
    && Only(trace, trace', files, name)
  }

  lemma TouchedRefl(name: Name, files: map<Name, Disk>, trace: seq<map<Name, Disk>>)
    requires name in files
    ensures Touched(name, files, trace, files, trace)
  {
  }

  lemma OnlyTrans(t0: seq<map<Name, Disk>>, t1: seq<map<Name, Disk>>, t2: seq<map<Name, Disk>>,
                  f0: map<Name, Disk>, f1: map<Name, Disk>, name: Name)
    requires Only(t0, t1, f0, name) && Only(t1, t2, f1, name) && f0 - {name} == f1 - {name}
    ensures Only(t0, t2, f0, name)
  {
  }

  lemma TouchedTrans(name: Name, f0: map<Name, Disk>, t0: seq<map<Name, Disk>>,
                     f1: map<Name, Disk>, t1: seq<map<Name, Disk>>, f2: map<Name, Disk>, t2: seq<map<Name, Disk>>)
    requires Touched(name, f0, t0, f1, t1) && Touched(name, f1, t1, f2, t2)
    ensures Touched(name, f0, t0, f2, t2)
  {
    assert f0 - {name} == f1 - {name};
    OnlyTrans(t0, t1, t2, f0, f1, name);
  }

  lemma TouchedHas(name: Name, f0: map<Name, Disk>, t0: seq<map<Name, Disk>>, f1: map<Name, Disk>,
                   t1: seq<map<Name, Disk>>)
    requires Touched(name, f0, t0, f1, t1)
    ensures name in f1
  {
  }

  lemma KeepFile(out: Name, name: Name, files: map<Name, Disk>, files': map<Name, Disk>)
    requires files' - {out} == files - {out} && name != out && name in files
    ensures name in files' && files'[name] == files[name]
  {
    assert name in files - {out};
  }

  lemma SameRest(out: Name, a: map<Name, Disk>, b: map<Name, Disk>, c: map<Name, Disk>)
    requires a - {out} == b - {out} && b - {out} == c - {out}
    ensures a - {out} == c - {out}
  {
  }

  /** Some first part of the write has been issued. */
  ghost predicate Part(was: Disk, d: Disk, off: nat, data: bytes) {
    exists k: nat :: Issued(was, d, off, data, k)
  }

  /** In every state recorded since, the file has been written that far, and no further. */
  ghost predicate PartWrites(t0: seq<map<Name, Disk>>, t1: seq<map<Name, Disk>>, name: Name, was: Disk, off: nat,
                             data: bytes) {
    t0 <= t1 && forall i | |t0| <= i < |t1| :: name in t1[i] && Part(was, t1[i][name], off, data)
  }

  lemma NoPartWrites(t: seq<map<Name, Disk>>, name: Name, was: Disk, off: nat, data: bytes)
    ensures PartWrites(t, t, name, was, off, data)
  {
  }

  lemma PartMore(t0: seq<map<Name, Disk>>, t1: seq<map<Name, Disk>>, files: map<Name, Disk>, name: Name,
                 was: Disk, off: nat, data: bytes, k: nat)
    requires PartWrites(t0, t1, name, was, off, data) && name in files && Issued(was, files[name], off, data, k)
    ensures PartWrites(t0, t1 + [files], name, was, off, data)
  {
    hide Issued;
  }

  const CHUNK: nat := 0x7FFF_FFFF

  class System {
    var files: map<Name, Disk>

    /** Which backend is compiled in. */
    const windows: bool

    /** Every state the files have been in: what a crash may find. */
    ghost var trace: seq<map<Name, Disk>>

    /** How many more times a call will be interrupted by a signal. */
    var interrupts: nat

    /** How many calls have failed so far, not counting those that only found what they were
        asked about missing or taken, were interrupted, or read at or past the end of a file. */
    ghost var faults: nat

    /** The random bytes handed out so far, one entry a call, and the times read from the clock. */
    ghost var drawn: seq<bytes>
    ghost var times: seq<u64>

    constructor (windows: bool, interrupts: nat)
      ensures files == map[] && trace == [map[]] && faults == 0 && drawn == [] && times == []
    {
      this.windows, this.interrupts := windows, interrupts;
      files, trace := map[], [map[]];
      faults, drawn, times := 0, [], [];
    }

    /** Faults, draws and readings are only added. */
    twostate predicate Onward()
      reads this
    {
      old(faults) <= faults && old(drawn) <= drawn && old(times) <= times
    }

    // ---- system calls ----

    /** pwrite(2): the number of bytes written, or -1. */
    method PWrite(name: Name, data: bytes, off: nat) returns (w: int, interrupted: bool)
      requires name in files
      modifies this
      ensures -1 <= w <= |data|
      ensures w <= 0 ==> files == old(files) && trace == old(trace)
      ensures w > 0 ==> off + w <= MAX_OFFSET
      ensures w > 0 ==>
                && files == old(files)[name := old(files[name]).(pending := old(files[name]).pending
                                                                 + [Write(off, data[..w])])]
                && trace == old(trace) + [files]
      ensures interrupts <= old(interrupts)
      ensures w < 0 && interrupted ==> interrupts < old(interrupts)
      ensures drawn == old(drawn) && times == old(times) && old(faults) <= faults
      ensures w <= 0 && !(w < 0 && interrupted) && data != [] ==> faults > old(faults)
    {
      var wish: int := *;
      var signal: bool := *;
      interrupted := false;
      if 0 < wish <= |data| && off + wish <= MAX_OFFSET {
        w := wish;
        files := files[name := files[name].(pending := files[name].pending + [Write(off, data[..w])])];
        trace := trace + [files];
      } else if signal && interrupts > 0 {
        w, interrupted, interrupts := -1, true, interrupts - 1;
      } else {
        w := if wish == 0 then 0 else -1;
        faults := faults + 1;
      }
    }

    /** WriteFile with an OVERLAPPED offset given in two halves. */
    method WriteFile(name: Name, data: bytes, offLow: u32, offHigh: u32) returns (done: bool, wrote: nat)
      requires name in files
      modifies this
      ensures wrote <= |data|
      ensures !done || wrote == 0 ==> files == old(files) && trace == old(trace)
      ensures done && wrote > 0 ==> offHigh * U32_LIMIT + offLow + wrote <= MAX_OFFSET
      ensures done && wrote > 0 ==>
                && files == old(files)[name := old(files[name]).(pending := old(files[name]).pending
                                                 + [Write(offHigh * U32_LIMIT + offLow, data[..wrote])])]
                && trace == old(trace) + [files]
      ensures drawn == old(drawn) && times == old(times) && old(faults) <= faults
      ensures (!done || wrote == 0) && data != [] ==> faults > old(faults)
    {
      var at := offHigh * U32_LIMIT + offLow;
      var wish: nat := *;
      done := false;
      wrote := 0;
      if 0 < wish <= |data| && at + wish <= MAX_OFFSET {
        done, wrote := true, wish;
        files := files[name := files[name].(pending := files[name].pending + [Write(at, data[..wrote])])];
        trace := trace + [files];
      } else {
        done := wish == 0;
        faults := faults + 1;
      }
    }

    /** pread(2): the bytes read (none at or past the end of the file), or a failure. */
    method PRead(name: Name, off: nat, want: nat) returns (got: bytes, failed: bool, interrupted: bool)
      requires name in files
      modifies this`interrupts, this`faults
      ensures |got| <= want
      ensures got != [] ==>
                !failed && off + |got| <= |Cache(files[name])| && got == Cache(files[name])[off..off + |got|]
      ensures interrupts <= old(interrupts)
      ensures failed && interrupted ==> interrupts < old(interrupts)
      ensures old(faults) <= faults
      ensures got == [] && !(failed && interrupted) && 0 < want && off < |Cache(files[name])| ==> faults > old(faults)
    {
      var file := Cache(files[name]);
      var wish: nat := *;
      var signal: bool := *;
      got, failed, interrupted := [], false, false;
      if 0 < wish <= want && off + wish <= |file| {
        got := file[off..off + wish];
      } else if signal && interrupts > 0 {
        failed, interrupted, interrupts := true, true, interrupts - 1;
      } else {
        failed := wish > want;
        if failed || off < |file| {
          faults := faults + 1;
        }
      }
    }

    /** ReadFile with an OVERLAPPED offset given in two halves. */
    method ReadFile(name: Name, want: nat, offLow: u32, offHigh: u32) returns (done: bool, got: bytes)
      requires name in files
      modifies this`faults
      ensures |got| <= want
      ensures var at := offHigh * U32_LIMIT + offLow;
              done && got != [] ==>
                at + |got| <= MAX_OFFSET && at + |got| <= |Cache(files[name])|
                && got == Cache(files[name])[at..at + |got|]
      ensures old(faults) <= faults
      ensures (!done || got == []) && 0 < want && offHigh * U32_LIMIT + offLow < |Cache(files[name])| ==>
                faults > old(faults)
    {
      var at, file := offHigh * U32_LIMIT + offLow, Cache(files[name]);
      var wish: nat := *;
      done, got := wish != 0, [];
      if 0 < wish <= want && at + wish <= |file| && at + wish <= MAX_OFFSET {
        got := file[at..at + wish];
      } else if !done || at < |file| {
        faults := faults + 1;
      }
    }

    /** fdatasync, F_FULLFSYNC or FlushFileBuffers; a failure leaves the writes unsynced. */
    method Sync(name: Name) returns (ok: bool)
      requires name in files
      modifies this
      ensures Touched(name, old(files), old(trace), files, trace)
      ensures files[name] == if ok then Synced(old(files[name])) else old(files[name])
      ensures trace == if ok then old(trace) + [files] else old(trace)
      ensures interrupts == old(interrupts) && drawn == old(drawn) && times == old(times)
      ensures if ok then faults == old(faults) else faults > old(faults)
    {
      ok := *;
      if ok {
        files := files[name := Synced(files[name])];
        trace := trace + [files];
      } else {
        faults := faults + 1;
      }
    }

    /** No file is larger than the largest offset. */
    method FileSize(name: Name) returns (end: int)
      requires name in files
      modifies this`faults
      ensures end == -1 || end == |Cache(files[name])| <= MAX_OFFSET
      ensures if end != -1 then faults == old(faults) else faults > old(faults)
    {
      var ok: bool := *;
      end := if ok && |Cache(files[name])| <= MAX_OFFSET then |Cache(files[name])| else -1;
      if end == -1 {
        faults := faults + 1;
      }
    }

    /** Open for reading and writing; false if there is no such file or the open fails. */
    method OpenExisting(name: Name) returns (ok: bool)
      modifies this`faults
      ensures ok ==> name in files
      ensures if ok || name !in files then faults == old(faults) else faults > old(faults)
    {
      var luck: bool := *;
      ok := luck && name in files;
      if !ok && name in files {
        faults := faults + 1;
      }
    }

    /** Create, failing if the name is taken. */
    method CreateNew(name: Name) returns (ok: bool)
      modifies this
      ensures ok ==>
                && name !in old(files) && Touched(name, old(files), old(trace), files, trace)
                && files[name] == Disk([], [])
      ensures !ok ==> files == old(files) && trace == old(trace)
      ensures interrupts == old(interrupts) && drawn == old(drawn) && times == old(times)
      ensures if ok || name in old(files) then faults == old(faults) else faults > old(faults)
    {
      var luck: bool := *;
      ok := luck && name !in files;
      if ok {
        files := files[name := Disk([], [])];
        trace := trace + [files];
      } else if name !in files {
        faults := faults + 1;
      }
    }

    method Remove(name: Name) returns (ok: bool)
      modifies this
      ensures files == if ok then old(files) - {name} else old(files)
      ensures Only(old(trace), trace, old(files), name)
      ensures interrupts == old(interrupts) && drawn == old(drawn) && times == old(times)
      ensures if ok || name !in old(files) then faults == old(faults) else faults > old(faults)
    {
      var luck: bool := *;
      ok := luck && name in files;
      if ok {
        files := files - {name};
        trace := trace + [files];
      } else if name in files {
        faults := faults + 1;
      }
    }

    /** rename(2) or MoveFileEx: the target is replaced at once or not at all. POSIX syncs the
        directory afterwards, but a failure to open or sync it is not reported: `synced` tells
        whether a power loss can no longer bring the old target back. */
    method RenameReplace(from: Name, to: Name) returns (ok: bool, ghost synced: bool)
      requires from in files && from != to
      modifies this
      ensures files == if ok then old(files)[to := old(files)[from]] - {from} else old(files)
      ensures trace == if ok then old(trace) + [files] else old(trace)
      ensures (windows && ok ==> synced) && (synced ==> ok)
      ensures interrupts == old(interrupts) && drawn == old(drawn) && times == old(times)
      ensures if synced then faults == old(faults) else faults > old(faults)
    {
      ok := *;
      synced := false;
      if ok {
        files := files[to := files[from]] - {from};
        trace := trace + [files];
        var directory: bool := *;
        synced := windows || directory;
      }
      if !synced {
        faults := faults + 1;
      }
    }

    /** The system's entropy source, which may fail. */
    method RandomBytes(n: nat) returns (r: Option<bytes>)
      modifies this`drawn, this`faults
      ensures r.Some? ==> |r.value| == n && drawn == old(drawn) + [r.value] && faults == old(faults)
      ensures r.None? ==> drawn == old(drawn) && faults > old(faults)
    {
      var luck: bool := *;
      var b := new byte[n];
      r := if luck then Some(b[..]) else None;
      if r.Some? {
        drawn := drawn + [r.value];
      } else {
        faults := faults + 1;
      }
    }

    /** The time in seconds. */
    method Clock() returns (now: u64)
      modifies this`times
      ensures times == old(times) + [now]
    {
      now := *;
      times := times + [now];
    }

    /** The key derivation's working memory, which may not be there. */
    method Memory() returns (ok: bool)
      modifies this`faults
      ensures if ok then faults == old(faults) else faults > old(faults)
    {
      ok := *;
      if !ok {
        faults := faults + 1;
      }
    }

    // ---- the backends' loops ----

    /** os_posix.cpp: true means exactly the bytes asked for were issued; false means only the
        first k of them were. */
    method PosixPWriteAll(name: Name, data: bytes, off: u64) returns (ok: bool, ghost k: nat)
      requires name in files
      modifies this
      ensures Touched(name, old(files), old(trace), files, trace)
      ensures Issued(old(files[name]), files[name], off, data, k)
      ensures PartWrites(old(trace), trace, name, old(files[name]), off, data)
      ensures ok <==> k == |data|
      ensures ok && data != [] ==> off + |data| <= MAX_OFFSET
      ensures drawn == old(drawn) && times == old(times) && old(faults) <= faults
      ensures !ok ==> faults > old(faults)
    {
      hide Issued, Splice, PartWrites;
      ghost var was := files[name];
      NoPartWrites(trace, name, was, off, data);
      var done := 0;
      IssuedNothing(was, off, data);
      while done < |data|
        invariant 0 <= done <= |data|
        invariant Touched(name, old(files), old(trace), files, trace)
        invariant Issued(was, files[name], off, data, done)
        invariant PartWrites(old(trace), trace, name, was, off, data)
        invariant done > 0 ==> off + done <= MAX_OFFSET
        invariant drawn == old(drawn) && times == old(times) && old(faults) <= faults
        decreases |data| - done + interrupts
      {
        ghost var before, t := files[name], trace;
        var w, interrupted := PWrite(name, data[done..], off + done);
        if w <= 0 {
          if w < 0 && interrupted {
            continue;
          }
          return false, done;
        }
        Piece(data, done, w);
        IssueMore(was, before, off, data, done, w);
        PartMore(old(trace), t, files, name, was, off, data, done + w);
        done := done + w;
      }
      return true, done;
    }

    /** os_win32.cpp: the same contract, with transfers of at most 2^31 - 1 bytes at an
        offset split into two 32-bit halves. */
    method Win32PWriteAll(name: Name, data: bytes, off: u64) returns (ok: bool, ghost k: nat)
      requires name in files
      modifies this
      ensures Touched(name, old(files), old(trace), files, trace)
      ensures Issued(old(files[name]), files[name], off, data, k)
      ensures PartWrites(old(trace), trace, name, old(files[name]), off, data)
      ensures ok <==> k == |data|
      ensures ok && data != [] ==> off + |data| <= MAX_OFFSET
      ensures drawn == old(drawn) && times == old(times) && old(faults) <= faults
      ensures !ok ==> faults > old(faults)
    {
      hide Issued, Splice, PartWrites;
      ghost var was := files[name];
      NoPartWrites(trace, name, was, off, data);
      var done := 0;
      IssuedNothing(was, off, data);
      while done < |data|
        invariant 0 <= done <= |data|
        invariant Touched(name, old(files), old(trace), files, trace)
        invariant Issued(was, files[name], off, data, done)
        invariant PartWrites(old(trace), trace, name, was, off, data)
        invariant done > 0 ==> off + done <= MAX_OFFSET
        invariant drawn == old(drawn) && times == old(times) && old(faults) <= faults
        decreases |data| - done
      {
        ghost var before, t := files[name], trace;
        var at := off + done;
        var chunk := if |data| - done > CHUNK then CHUNK else |data| - done;
        SplitOffset(at);
        var success, wrote := WriteFile(name, data[done..done + chunk], at % U32_LIMIT, at / U32_LIMIT);
        if !success || wrote == 0 {
          return false, done;
        }
        assert data[done..done + chunk][..wrote] == data[done..done + wrote];
        IssueMore(was, before, off, data, done, wrote);
        PartMore(old(trace), t, files, name, was, off, data, done + wrote);
        done := done + wrote;
      }
      return true, done;
    }

    /** os_posix.cpp: true means the buffer holds exactly the bytes at [off, off + n); false
        means only a prefix of the buffer changed. */
    method PosixPReadAll(name: Name, buf: array<byte>, n: nat, off: u64) returns (ok: bool, ghost k: nat)
      requires name in files && n <= buf.Length
      modifies this`interrupts, this`faults, buf
      ensures old(faults) <= faults && (!ok && off + n <= |Cache(files[name])| ==> faults > old(faults))
      ensures k <= n && (ok <==> k == n)
      ensures k > 0 ==> off + k <= |Cache(files[name])| && buf[..k] == Cache(files[name])[off..off + k]
      ensures buf[k..] == old(buf[k..])
    {
      ghost var file, was := Cache(files[name]), buf[..];
      var done := 0;
      while done < n
        invariant 0 <= done <= n
        invariant done > 0 ==> off + done <= |file|
        invariant forall i | 0 <= i < done :: buf[i] == file[off + i]
        invariant forall i | done <= i < buf.Length :: buf[i] == was[i]
        invariant old(faults) <= faults
        decreases n - done + interrupts
      {
        var got, failed, interrupted := PRead(name, off + done, n - done);
        if got == [] {
          if failed && interrupted {
            continue;
          }
          return false, done;
        }
        forall i | 0 <= i < |got| {
          buf[done + i] := got[i];
        }
        done := done + |got|;
      }
      return true, done;
    }

    /** os_win32.cpp: the same contract. */
    method Win32PReadAll(name: Name, buf: array<byte>, n: nat, off: u64) returns (ok: bool, ghost k: nat)
      requires name in files && n <= buf.Length
      modifies this`interrupts, this`faults, buf
      ensures old(faults) <= faults && (!ok && off + n <= |Cache(files[name])| ==> faults > old(faults))
      ensures k <= n && (ok <==> k == n)
      ensures k > 0 ==> off + k <= |Cache(files[name])| && buf[..k] == Cache(files[name])[off..off + k]
      ensures buf[k..] == old(buf[k..])
    {
      ghost var file, was := Cache(files[name]), buf[..];
      var done := 0;
      while done < n
        invariant 0 <= done <= n
        invariant done > 0 ==> off + done <= |file| && off + done <= MAX_OFFSET
        invariant forall i | 0 <= i < done :: buf[i] == file[off + i]
        invariant forall i | done <= i < buf.Length :: buf[i] == was[i]
        invariant old(faults) <= faults
        decreases n - done
      {
        var at := off + done;
        var chunk := if n - done > CHUNK then CHUNK else n - done;
        SplitOffset(at);
        var success, got := ReadFile(name, chunk, at % U32_LIMIT, at / U32_LIMIT);
        if !success || got == [] {
          return false, done;
        }
        forall i | 0 <= i < |got| {
          buf[done + i] := got[i];
        }
        done := done + |got|;
      }
      return true, done;
    }

    // ---- the seam the store uses ----

    method PWriteAll(name: Name, data: bytes, off: u64) returns (ok: bool, ghost k: nat)
      requires name in files
      modifies this
      ensures Touched(name, old(files), old(trace), files, trace)
      ensures Issued(old(files[name]), files[name], off, data, k)
      ensures PartWrites(old(trace), trace, name, old(files[name]), off, data)
      ensures ok <==> k == |data|
      ensures ok && data != [] ==> off + |data| <= MAX_OFFSET
      ensures drawn == old(drawn) && times == old(times) && old(faults) <= faults
      ensures !ok ==> faults > old(faults)
    {
      if windows {
        ok, k := Win32PWriteAll(name, data, off);
      } else {
        ok, k := PosixPWriteAll(name, data, off);
      }
    }

    /** Reading into a fresh buffer: all n bytes or nothing. */
    method ReadAll(name: Name, off: u64, n: nat) returns (r: Option<bytes>)
      requires name in files
      modifies this`interrupts, this`faults
      ensures old(faults) <= faults && (r.None? && off + n <= |Cache(files[name])| ==> faults > old(faults))
      ensures r.Some? ==> |r.value| == n
      ensures r.Some? && n > 0 ==> off + n <= |Cache(files[name])| && r.value == Cache(files[name])[off..off + n]
    {
      var buf := new byte[n];
      var ok: bool;
      ghost var k: nat;
      if windows {
        ok, k := Win32PReadAll(name, buf, n, off);
      } else {
        ok, k := PosixPReadAll(name, buf, n, off);
      }
      assert buf[..] == buf[..n];
      r := if ok then Some(buf[..]) else None;
    }
  }

  lemma Piece(data: bytes, done: nat, w: nat)
    requires done + w <= |data|
    ensures data[done..][..w] == data[done..done + w]
  {
  }

  /** The two halves of a 64-bit offset make it up. */
  lemma SplitOffset(at: nat)
    requires at < U64_LIMIT
    ensures at / U32_LIMIT < U32_LIMIT
    ensures (at / U32_LIMIT) * U32_LIMIT + at % U32_LIMIT == at
  {
  }
}
