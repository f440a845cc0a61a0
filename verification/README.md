# sealpack: model and proofs

A Dafny model of sealpack's single-file, content-addressed, encrypted store, with proofs
of what it is for: no failing I/O and no power loss mixes two commits or loses an
acknowledged one, except that a commit made by a session that opened on an older superblock
can cost the newest one if it fails, and that a compaction whose renaming is not yet durable
can be undone; the in-memory index always means a plain map from paths to contents; and an
update built from two packs turns the old one into the new one exactly when its deletions
can be written down. Each of these exceptions has its exact condition, for all runs, and a
concrete run that shows it.

`dafny verify dfyconfig.toml` checks everything.

## How it is built

Two layers meet in the contracts of the class methods.

* **Values.** `Disk` says what a file is to a crash: durable bytes plus the writes not yet
  synced; a power loss keeps any bytes of any of them. `StoreModel` is the commit protocol
  with its two superblocks as a state machine (append, commit ending at any of its inner
  actions, key-slot write, crash, close, open with readable or unreadable superblocks).
  `PackModel` gives the index operations and what an index means; `PackRuns` puts both
  together into whole runs of a pack and proves that they refine a map with a committed and
  a buffered layer. `Index`, `Paths`, `Delta` and `Compaction` hold the manifest format,
  path normalization, updates and compaction.
* **Code.** `Os` has nondeterministic system calls and the two backends' loops over short
  transfers, and records every state the files pass through in a trace, counts the calls
  that fail, and keeps the random bytes and times it has handed out. `Store`, `Pack`,
  `Keys`, `Codec`, `Merging`, `Update` and `Compact` are the imperative operations, in the
  shape of the C++ source. Put, del, move, copy, commit, rekey, compact and open are each
  proved to be one step of the state machine, and merge to be a run of puts and deletions,
  so the theorems about runs are theorems about the methods. Each state the file passes
  through during a put, a commit or a rekeying is one such a step could have ended in
  (`Pack.Moments`), and during a merge one that a put on some state of its run could have
  ended in (`Walks.Walked`), so cutting the power *during* a call is covered as well
  (`Walks.MomentsCut`, `Merging.MergeInRun`, `Compact.CompactCut`).
  Every operation also says that it fails, or does less, only if a call failed
  (`Os.System.faults`), and that each of its nonces and salts is a draw of its own from the
  entropy source (`Os.System.drawn`).
* **Bytes.** What the code's own helper functions compute is stated once more in plain bytes:
  the order of keys (`Order.LexBytes`), the deletion list (`Delta.ParseConcat`,
  `Delta.ParseLine`), the normal form of paths (`Paths.NormalizePiece`,
  `Paths.NormalizeSlash`), and where every field of the file stands (the lemmas named
  `...Layout`).
* **Witness.** `Witness` has concrete runs: one with a torn superblock write, so that the
  hypotheses about runs are known to be met where they matter, and the runs in which the
  code fails.

In a run, a power loss may also bring an older file back under the pack's name, if a
compaction replaced it and the directory has not been synced since (`PackRuns.Lingers`).
A commit is lasting (`PackRuns.Lasting`) if it was acknowledged when no such file lingered;
the theorems about what survives are about these, and `PackRuns.LingerLoses` shows what
can happen to the others. A session is behind (`StoreModel.Behind`) if the superblock it
opened on is older than the newest durable commit. All methods and all theorems cover
sessions that are behind; a run is steady (`PackRuns.Steady`) as long as no such session
fails in the middle of overwriting the newest superblock (`PackRuns.Endangers`).

## What is assumed

* The primitives are any functions with an AEAD's interface (section 2 of RFC 5116), a
  32-byte hash and a key derivation (`Crypto.Suite`; `Crypto.Transparent` shows that the
  assumptions are consistent). No global freedom from collisions or forgery is assumed: hash
  collisions are excluded only among the contents in play (`PackRuns.NoCollision`,
  `Merging.Distinct`), and what a torn superblock write leaves is the old block, a block
  being written, or not authentic (`StoreModel.Unforged`).
* Sequence numbers stay below 2^64 - 1, numbers of paths and blobs and the lengths of paths
  below 2^32 (`PackRuns.Room`); reference counts then fit as well. Sizes and offsets are
  bounded by the systems' largest file offset, which the code meets as a failed write.
* Opening takes it that the slots which accept the given password hold the pack's master
  key; nothing else ever writes one.
* A fault is a failing system call, a failing allocation of the key derivation's memory, or
  entropy that is not available. A call that is interrupted and retried, one that finds a
  name missing or taken, and a read at or past the end of a file are none. No file grows
  beyond the systems' largest offset: a write past it is a failing call.
* Runs start from a pack that `Pack::create` returned and whose directory entry is durable.
  Clocks and random bytes are arbitrary values, and random bytes may be unavailable.

## What the code does that its design does not say

* An open store need not stand on a durable superblock. It does if and only if no unsynced
  write has changed the active one (`StoreModel.ActiveDurable`, over runs
  `PackRuns.ActiveInRuns`). It does not whenever a commit's second sync fails and the file is
  closed and opened again with no crash in between (`StoreModel.ActiveNotDurable`, with a
  real run in `Witness.NotDurableRun`). A commit there still syncs first.
* `Store::open` takes a superblock that it cannot *read* for an invalid one
  (src/store.cpp lines 170-177). If that is the newest durable one, the store opens on the
  commit before, with all of its contents (`PackRuns.OpenRefines`), and its next commit
  overwrites the newest superblock in place. Closing such a session loses nothing. If it
  commits, the new commit takes the place of the newest one, whose contents the session never
  saw. If that commit fails once it has begun to write the superblock, a power loss takes the
  newest commit if and only if that superblock is no longer valid in what is left
  (`StoreModel.SurvivesExactly`, `PackRuns.LostExactly`, over runs `PackRuns.AtomicExactly`),
  and as soon as two of its bytes have changed there is a power loss that does
  (`PackRuns.CanLose`; a run in `Witness.LosingRun`). Nothing else makes a power loss give
  back anything older (`PackRuns.CrashOutcome`). `StoreModel.OpenSees` says before the call
  which openings will not be behind.
* `rename_replace` does not report a failure to open or sync the directory
  (src/os_posix.cpp lines 81-100). Until a later replacement syncs it, a power loss may bring
  the uncompacted file back, with what was committed there, and commits acknowledged since
  are gone (`PackRuns.LingerLoses`; a run in `Witness.UndoneRun`).
* A fresh random salt of sixteen zero bytes would mark the slot empty, and the password just
  set would not open the pack (`Keys.WrapThenUnwrap`, an if-and-only-if).
* `compact` drops key slots that it cannot read: afterwards exactly the passwords of the
  slots that could be read open the pack (`Compact.CompactUnlock`).
* An update carries deletions by name, one on a line, so it is correct exactly when every
  deleted name is line-safe and `.spkdel` itself need not be shipped (`Delta.DiffThenMerge`);
  a pack may hold names that are not (`Delta.UnsafeName`).
* docs/DESIGN.md lines 119-121 say that rekeying writes slot 0; the code writes the slot the
  password opened (src/pack.cpp lines 360-361), and so does the model.

## Model

| member | source | states |
|---|---|---|
| PackRuns.CrashOutcome | src/store.cpp:164-240 | take any run with failing I/O, crashes, reopenings on whichever superblock and replacements of the file, and any lasting commit in it; whatever a power loss at any later state leaves, perhaps an older file, opens in full as exactly the contents buffered when that commit, or one begun after it, was made, or as those of the commit before the newest durable one at a moment when a session that was behind failed in the middle of overwriting it |
| PackRuns.CrashAtomicity | src/store.cpp:164-240 | without such a failure, always as those of the acknowledged commit or one begun after it, never a mixture; opening behind, closing again, and committing successfully from behind are all allowed |
| PackRuns.AcknowledgedSurvives | src/pack.cpp:290-295 | with no later commit begun, exactly the acknowledged contents come back, whatever was opened in between |
| PackRuns.AtomicExactly | src/store.cpp:170-240 | in any run, at the first such failure: of the images a power loss may leave, exactly those in which the newest superblock is not valid open at an older number, and they hold in full the commit before, which the failing session had opened; all others hold the acknowledged commit or one begun after it |
| PackRuns.LostExactly | src/store.cpp:170-240 | the same for one step from any sound state: which of the three commits comes back, in full |
| PackRuns.CanLose | src/store.cpp:170-240 | if two bytes of the newest superblock have been overwritten with others, some power loss brings back the commit before |
| StoreModel.SurvivesExactly | src/store.cpp:229-240 | a commit, however it ends, is followed by an opening at least as new as the newest durable commit if and only if the store was not behind or that commit's side is valid; else by one on the commit before |
| StoreModel.LossPossible | src/store.cpp:229-240 | the power loss behind `PackRuns.CanLose`, on the store |
| Witness.LosingRun | src/store.cpp:170-177 | a concrete run in which that happens: what a power loss leaves is neither the acknowledged contents nor those of any later commit |
| PackRuns.LingerLoses | src/os_posix.cpp:81-100 | in every run, as long as a replaced file lingers some power loss brings it back, and the pack opens as what was committed in it or begun there |
| Witness.UndoneRun | src/os_posix.cpp:81-100 | a concrete run, for any cryptography: a pack is compacted without the directory being synced, a file is put and its commit acknowledged, and the power loss leaves a file that opens without it |
| PackRuns.PowerCut | src/store.cpp:208-240 | the same as crash atomicity when the power goes while a put, commit or slot write is under way |
| Walks.MomentsCut | src/pack.cpp:175-366 | at every state that `Pack.Put`, `Pack.Commit` (not from behind) or `Pack.Rekey` recorded on its way, a power loss gives back an acknowledged commit or a later one, and nothing of a put or a rekeying shows; torn superblocks are an assumption for the commit only |
| Walks.WalkedCut | src/pack.cpp:374-404 | cutting the power at any state the file passes through during a walk of puts and deletions gives back what was committed before, and nothing of the walk |
| Walks.WalkExtends | src/pack.cpp:374-404 | such a walk continues the run it starts from, with nothing further assumed about forgery |
| Merging.MergeInRun | src/pack.cpp:374-404 | a real merge with room for both packs' paths and blobs continues any run, and a power loss at any state it passes through gives back what was committed before, and nothing of the merge |
| PackRuns.RunRefines | src/pack.cpp:149-295 | every state of every run keeps the pack invariant (records decrypt to contents with the hash they are filed under, extents disjoint, each reference count the number of paths), and every step is a step of the two-layer map |
| PackRuns.StepRefines | src/pack.cpp:149-344 | put, del, move, copy, commit, slot writes, compaction, crash, close and open, each as one step of the buffered contents, the committed ones, those before, and those of commits begun since; also in sessions that are behind |
| PackRuns.NeverOverwritten | src/store.cpp:217-240 | until a compaction, no byte of the data region of a durable commit, of the one before, or of one begun ever changes on stable storage, in all later sessions, whatever they could read |
| PackRuns.NeverBack | src/store.cpp:229-240 | nor does the newest durable commit go back, unless a session that is behind writes over its superblock |
| PackRuns.OpenExtents | src/store.cpp:179-190 | in every state of every run the active manifest and every blob lie between byte 856 and the append position |
| PackRuns.ExtentsInside | src/pack.cpp:53-79 | everything a readable commit refers to lies in its own data region |
| PackRuns.OpenEnabled | src/store.cpp:164-192 | nothing a run does can leave a closed file that the master key does not open to a sound pack |
| PackRuns.CommitEnabled | src/pack.cpp:53-63 | from every open state with room for the manifest a commit can succeed, and can fail at its second sync |
| Witness.TornRun | src/store.cpp:229-240 | a concrete run with an acknowledged commit and a torn superblock write: the theorems about runs are not empty where tearing matters |
| PackRuns.StateRecovers | src/store.cpp:101-116 | every crash image of every state that keeps the invariant opens as the committed contents or those of a commit begun since |
| PackRuns.CommitRefines | src/pack.cpp:53-63 | flushing the manifest moves the buffered contents to the committed layer, or to the undecided ones if it fails at any inner action; from behind, a failure there leaves the contents before committed and the newest ones undecided |
| PackRuns.OpenRefines | src/pack.cpp:66-79 | opening, whichever superblocks can be read, gives a sound pack that buffers exactly the contents of the commit it lands on: the newest durable one, one begun since, or, from behind, the one before |
| PackRuns.CompactRefines | src/pack.cpp:325-340 | a compaction commits what was buffered, with nothing before it, or changes nothing but what is known to be committed; sound however the reopening goes |
| PackRuns.FrontStays | src/pack.cpp:175-295 | puts, deletions, moves, copies and commits leave the header and every key slot as they are |
| PackRuns.CreatedPack | src/store.cpp:85-120 | a created pack keeps the invariant and is empty in both layers |
| StoreModel.Recovery | src/store.cpp:164-192 | every crash image opens at the newest durable commit or one begun since, with all of that commit's data region |
| StoreModel.AppendInv | src/store.cpp:217-223 | appending, also in part, keeps the protocol's invariant |
| StoreModel.CommitInv | src/store.cpp:229-240 | so does a commit, wherever it ends |
| StoreModel.WriteSlotInv | src/store.cpp:208-215 | so does a key-slot write, and it changes no data |
| StoreModel.OpenInv | src/store.cpp:164-192 | so does opening when both superblocks can be read, which lands on the newest durable commit or one begun since |
| StoreModel.OpenAnyInv | src/store.cpp:170-177 | so does opening with unreadable superblocks, which stands on the newest durable commit, one begun since, or, if it is behind, the one before |
| StoreModel.OpenSees | src/store.cpp:170-177 | before the call: it will not be behind exactly if it can read the newest durable superblock, or a newer one that is there |
| StoreModel.AppendUnforged | src/store.cpp:217-223 | appending needs no assumption about torn superblocks |
| StoreModel.AlwaysOpens | src/store.cpp:164-192 | every file that satisfies the invariant opens if all of it can be read |
| StoreModel.CreatedInv | src/store.cpp:101-116 | a created file has 856 bytes and satisfies the invariant |
| StoreModel.SuperblockDiscipline | src/store.cpp:170-177 | in whatever a crash leaves, a valid A is odd, a valid B even, two valid sides differ by one, so opening meets no tie |
| StoreModel.ActiveDurable | src/store.cpp:229-240 | the active side on stable storage is valid with the number and root in memory if and only if no unsynced write has changed it |
| StoreModel.ActiveUntouched | src/store.cpp:229-240 | in particular it is if no unsynced write reaches it |
| PackRuns.ActiveInRuns | src/store.cpp:229-240 | the same in every state of every run: two commits never share a manifest |
| StoreModel.ActiveNotDurable | src/store.cpp:236-239 | after any commit that fails at its second sync, however many failed before, closing and opening again stands on a side that is not durable |
| Witness.NotDurableRun | src/store.cpp:236-239 | a concrete run in which that happens |
| StoreModel.ReadErrors | src/store.cpp:170-177 | a superblock read error is harmless if and only if it spares the newer one |
| StoreModel.SbRoundTrip | src/store.cpp:36-60 | a written superblock has 64 bytes and reads back as its number and root |
| StoreModel.HeaderRoundTrip | src/store.cpp:131-148 | a header written with valid cost parameters reads back as them |
| StoreModel.HeaderAccepted | src/store.cpp:131-148 | exactly which first 24 bytes are accepted as a header, and for which parameters |
| StoreModel.HeaderLayout | src/store.cpp:91-96 | where the header's fields stand, and which cost parameters are valid |
| StoreModel.SuperblockLayout | src/store.cpp:36-47 | number, offset and length stand at bytes 0, 8 and 16 of a superblock's plaintext |
| StoreModel.FileLayout | src/store.cpp:10-18 | slot i at 24 + 88 i, superblocks at 728 and 792, data from 856; odd numbers on A |
| Bytes.LEAt | src/index.cpp:9-14 | byte i of a printed field is the digit for 256 to the power i |
| Bytes.UnLEMore | src/index.cpp:15-28 | and so it is read |
| Crypto.RecordLayout | src/pack.cpp:16-34 | a record is 24 bytes of nonce and then what the AEAD returns |
| Disk.TornSubsetIsImage | src/os_posix.cpp:39-48 | losing any of the unsynced writes and tearing others anywhere is among the crashes the theorems cover |
| Os.System.PosixPWriteAll | src/os_posix.cpp:39-48 | true means exactly [off, off+n) was written, false that a strict first part of it was; nothing else changes, no state in between has written more, and it terminates; false only if a call failed |
| Os.System.Win32PWriteAll | src/os_win32.cpp:64-82 | the same with transfers of at most 2^31-1 bytes and split offsets |
| Os.System.RenameReplace | src/os_posix.cpp:81-100 | the target is replaced at once or not at all; on POSIX the replacement may be reported without being durable; without a fault it is durable |
| Os.System.PosixPReadAll | src/os_posix.cpp:50-59 | true means the buffer holds exactly the bytes asked for, false that only a strict first part of it was filled; within the file, false only if a call failed |
| Os.System.Win32PReadAll | src/os_win32.cpp:84-100 | the same contract |
| Store.Store.Create | src/store.cpp:85-120 | the created state, durable, its two superblocks sealed under two draws; otherwise no file of that name, unless removing it fails as well; and it fails only if the name is taken or a call fails |
| Store.Store.Open | src/store.cpp:164-192 | the open step for the superblocks that could be read; unless a call fails it opens, and on the newest superblock in the file; each superblock passed over cost a failed call |
| Store.Store.Append | src/store.cpp:217-223 | the append step, with every state in between a part of the one write at the end; it fails only if a call does |
| Store.Store.Commit | src/store.cpp:229-240 | the commit step with the fate it met, every state in between one a commit could have ended in; it fails only if a call does, and the superblock is sealed under a draw of its own |
| Store.Store.WriteSlot | src/store.cpp:208-215 | the slot step: 88 bytes at the slot's place, synced if successful; it fails only if a call does |
| Store.Store.Slot | src/store.cpp:197-206 | the slot's bytes, or an empty slot if a call failed, and only then |
| Store.WriteSb | src/store.cpp:36-47 | issues exactly one sealed 64-byte block at its side, or a first part, or nothing, under a nonce drawn for it |
| PackModel.RepointInv | src/pack.cpp:192-199 | pointing a path at a blob keeps counts and records and changes that one path's content |
| PackModel.DelInv | src/pack.cpp:222-231 | deleting removes the one path and keeps counts exact |
| PackModel.MoveInv | src/pack.cpp:237-248 | moving renames one path, only if the target is free |
| PackModel.CopyInv | src/pack.cpp:250-263 | copying gives a free path the same content and adds no record |
| Pack.Pack.Put | src/pack.cpp:175-203 | View becomes View[normal path := data] or stays; content already stored, even unused, is not written again; a put step of the run at every moment; with a legal path it fails only if a call does; the time is the clock's, and a new record is sealed under a draw of its own |
| Pack.Pack.Del | src/pack.cpp:222-231 | View loses exactly the normal path; fails if and only if it was absent |
| Pack.Pack.Move | src/pack.cpp:237-248 | the moved entry is the old one, hash and time; each error exactly when due |
| Pack.Pack.Copy | src/pack.cpp:250-263 | the copy's effect on View; each error exactly when due; the time is the clock's |
| Pack.Pack.Has | src/pack.cpp:233-235 | whether View has the normal path |
| Pack.Pack.Get | src/pack.cpp:209-220 | returns View's content of the path; only a failed call keeps it from doing so |
| Pack.Pack.Commit | src/pack.cpp:290-295 | a commit step; on success both layers equal View; a failing one leaves one of the states listed for its fate; at every moment a state a commit could have ended in; it fails only if a call does; manifest and superblock are sealed under two draws |
| Pack.Pack.Rekey | src/pack.cpp:357-366 | on success the file differs only in the opened slot's 88 bytes, is synced, and opens with the new password to the master key, unless the salt is all zeros, if the slots that accepted that password agreed on it; it fails only if a call does, and salt and nonce are two draws |
| Pack.Pack.Create | src/pack.cpp:130-147 | an empty valid pack in a new durable file, whose first slot wraps the master key under the password and whose other slots are empty; the master key, the salt and the nonce are the first three draws, and the password opens the file unless that salt is all zeros; it fails only if the name is taken or a call fails |
| Pack.Pack.Open | src/pack.cpp:149-173 | an open step of the run under the master key, always valid; none without a slot that accepts the password; unless a call fails, it opens by the first slot that accepts the password and buffers in full the newest commit in the file |
| Pack.EncryptAppend | src/pack.cpp:20-34 | one record of 40 + n bytes at the end of the file that opens to the data, under a nonce drawn for it; it fails only if a call does |
| Pack.ReadDecrypt | src/pack.cpp:37-50 | for any reference: the authentic record's content, nothing if it is malformed or not authentic or if a call failed, and only then |
| PackModel.BlobSizes | src/pack.cpp:37-50 | content is returned only for a reference whose sizes are its length and 40 more |
| Pack.FlushManifest | src/pack.cpp:53-63 | a commit step of the run whose new root is the sealed index; it fails only if a call does |
| Pack.LoadManifest | src/pack.cpp:66-79 | the index the root points at, or none if a call failed, and only then |
| Pack.ReadMeta | src/store.cpp:150-162 | the header's parameters and the eight slots; of a file with a valid header, nothing only if a call failed |
| Keys.WrapThenUnwrap | src/pack.cpp:86-113 | the password opens the slot wrapped with it if and only if the salt is not all zeros |
| Keys.SlotLayout | src/pack.cpp:86-98 | salt, nonce and wrapped key stand at bytes 0, 16 and 40 of a slot, the key derived from the password up to its first NUL |
| Keys.UnlockFinds | src/pack.cpp:149-158 | the search finds a slot exactly if one accepts the password, and returns the key in it |
| Pack.TrySlots | src/pack.cpp:149-158 | the search loop: a slot the password opens, the first such one unless a call fails |
| Keys.RekeyEffect | src/pack.cpp:357-366 | header, superblocks, data and other slots unchanged; afterwards a password opens the pack exactly if the new slot accepts it or another slot did; the new one opens it |
| Keys.RekeyAgrees | src/pack.cpp:357-366 | after a rekeying the slots that accept the new password still agree on the master key, as the next opening needs, and unless the salt is all zeros there is one |
| Keys.CreatedUnlocks | src/pack.cpp:130-173 | a created pack opens with its password, at slot 0 and to its master key, if and only if the salt is not all zeros, and no slot holds another key |
| Keys.WrapMaster | src/pack.cpp:86-98 | a slot made with the salt and the nonce that were drawn, in this order, which the password unlocks to the key unless that salt is all zeros; nothing only if a call failed |
| Keys.UnwrapMaster | src/pack.cpp:102-113 | the key that the slot yields to the password, or nothing if a call failed, and only then |
| Index.RoundTrip | src/index.cpp:65-122 | reading a printed index back, with anything after it, gives exactly that index if and only if its sizes fit the fields |
| Index.SerializeInjective | src/index.cpp:65-86 | two indexes that fit have different printed forms |
| Index.TruncationRejected | src/index.cpp:88-122 | every strict prefix of a manifest is rejected |
| Index.ParseShape | src/index.cpp:88-122 | on arbitrary bytes, a successful parse stays in bounds and yields an index that fits |
| Index.ParseMore | src/index.cpp:88-122 | bytes after what was parsed never change the result |
| Index.ManifestLayout | src/index.cpp:65-86 | magic number, counts and the two parts of a manifest at their places, entries in ascending order of the keys' bytes |
| Index.ManifestBlob | src/index.cpp:65-86 | the i-th blob's entry is the 60 bytes at 8 + 60 i |
| Index.BlobLayout | src/index.cpp:69-76 | hash, offset, stored size, size and count at bytes 0, 32, 40, 48 and 56 of an entry |
| Index.PathLayout | src/index.cpp:78-84 | length, path, hash and time in this order |
| Index.PathsLayout | src/index.cpp:78-84 | the i-th path's entry stands after those of the paths before it |
| Index.MagicRequired | src/index.cpp:88-92 | nothing else is read as a manifest |
| Index.FirstBlobWins | src/index.cpp:95-104 | of two entries for one hash the first one counts |
| Index.FirstPathWins | src/index.cpp:106-118 | the same for paths |
| Codec.Print | src/index.cpp:65-86 | the printing loops produce the manifest's format |
| Codec.Read | src/index.cpp:88-122 | the cursor loops accept exactly what the format's parser accepts, for all bytes, with the same index |
| Codec.TakeInt | src/index.cpp:15-28 | a little-endian field or a refusal, never past the end |
| Codec.PutInt | src/index.cpp:9-14 | the field's bytes, high bits dropped |
| Paths.NormalizePath | src/index.cpp:40-63 | the loop computes split, drop, reject "..", join |
| Paths.NormalizeEmpty | src/index.cpp:47-56 | which paths have no normal form |
| Paths.SegmentsOfNormal | src/index.cpp:47-53 | a normal path has only legal segments, and splits into those it was joined from |
| Paths.NormalizeIdempotent | src/index.cpp:40-63 | normalizing twice is normalizing once |
| Paths.NormalizeConcat | src/index.cpp:40-63 | normalizing distributes over "/" |
| Paths.NormalizePiece | src/index.cpp:44-55 | a path without separators is its own normal form, unless it is empty, "." or ".." |
| Paths.NormalizeSlash | src/index.cpp:40-63 | the normal form of two paths with a separator in between, for all paths: with the row above, of every path |
| Paths.EscapeRejected | src/index.cpp:49-50 | a ".." segment anywhere empties the path |
| Delta.DiffThenMerge | cli/main.cpp:395-425 | merging the update into the old contents gives the new ones if and only if every deleted name is line-safe and `.spkdel` need not be shipped |
| Delta.UnsafeName | src/pack.cpp:388-400 | a name that normalization allows and the list cannot carry, with the merge that fails |
| Delta.DeletionsRoundTrip | cli/main.cpp:421-422 | printing line-safe names and reading the list back gives the names |
| Delta.ParseConcat | src/pack.cpp:388-394 | any list is read line by line |
| Delta.ParseLine | src/pack.cpp:395-399 | in bytes: a line of text with spaces, tabs and CRs around it names exactly the text, or nothing if it begins with "#"; a line of these alone names nothing |
| Delta.LineForms | src/pack.cpp:395-399 | every line is of one of these forms |
| Delta.LineSafeBytes | src/pack.cpp:395-399 | line-safe, in bytes |
| Delta.ListedIsSafe | src/pack.cpp:388-400 | if the reader deletes every one of a list of printed normal names, all of them were line-safe |
| Delta.UpdateAt | cli/main.cpp:409-425 | for each path: the new file if it is new or changed, the deletion list if anything is gone, nothing else |
| Delta.MergeAt | src/pack.cpp:374-404 | for each path: deleted if the list names it, else the source's content, else unchanged |
| Delta.MergeIdempotent | src/pack.cpp:374-404 | a second merge of the same contents changes nothing |
| Merging.Merge | src/pack.cpp:374-404 | a run of puts and deletions that accounts for every state of the file; on success View is the overlay and content already stored is not written again; on failure exactly an initial part of the files in path order is overlaid; room in every state if there is for both packs together; it fails only if a call does |
| Merging.MergeFiles | src/pack.cpp:379-384 | the copying loop in path order: how far it came, what it has put, and the run it walked, with room in every state if there is for both packs |
| Merging.FilesBefore | src/pack.cpp:379-384 | the files among the first keys are those whose bytes come before the next one's |
| Merging.DeleteListed | src/pack.cpp:389-401 | the line loop terminates on every list and deletes exactly what the list names, which `Delta.ParseConcat` and `Delta.ParseLine` say in bytes |
| Merging.MergeTwice | src/pack.cpp:374-404 | re-merging writes nothing, and leaves blobs, counts, paths and hashes as they were; it fails only if a call does |
| Merging.SameIndex | src/pack.cpp:192-199 | two sound indexes with the same contents and places have the same counts |
| Update.Diff | src/pack.cpp:406-419 | the three lists hold exactly the new paths, those with another hash and those that are gone, each ascending in the order of the bytes |
| Order.LexBytes | src/pack.cpp:406-419 | the order of the maps' keys: a shorter beginning first, else the smaller byte at the first difference |
| Order.KeysAscend | src/pack.cpp:406-419 | a walk over a map is ascending in it |
| Update.DiffByContent | src/pack.cpp:406-419 | comparing hashes compares contents, as long as hashes tell these apart |
| Update.BuildUpdate | cli/main.cpp:409-425 | the update pack holds exactly the changed files and the deletion list, committed, under the given password; both sources unchanged; it fails only if a call does, and the password opens it unless the salt drawn for it is all zeros |
| Update.OpenedUpdate | src/pack.cpp:149-173 | however a finished update is opened it is a sound pack: the update, or nothing if its newer superblock cannot be read |
| Delta.PrintAppend | cli/main.cpp:421-422 | in bytes: each name and a newline, in turn |
| Update.PrintList | cli/main.cpp:421-422 | the loop prints the deletion list |
| Update.Receive | src/pack.cpp:374-404 | opening a finished update by its password and merging it, or merging nothing if its newer superblock could not be read, for which a call must have failed |
| Update.Deploy | cli/main.cpp:395-425 | the whole trip over real packs, the update opened by its password in between: the old pack then holds the new one's contents if and only if the update is shippable; unless a call fails or the salt drawn for the update is all zeros, the trip succeeds and sees the update |
| Compaction.CompactSound | src/pack.cpp:310-323 | the copied records and index mean the same: paths, times, counts, contents; no unused blob; verbatim records in disjoint extents that fill the region |
| Compact.Compact | src/pack.cpp:297-344 | on success the new file has 856 + live records + manifest bytes, all synced, and the pack holds what it held, now committed; on failure the old file and index; a step of the run however the reopening went; at every moment the name has the old file or the finished new one; unless a call fails, it succeeds durably, stands on the new commit, and every password opens the slot and key it did before |
| Compact.CompactCrash | src/pack.cpp:325-340 | whatever is under the name when the power goes opens in full as the old contents or the compacted ones |
| Compact.CompactCut | src/pack.cpp:325-340 | over runs: an acknowledged commit, one begun after it, or the compacted contents |
| Compact.CompactUnlock | src/pack.cpp:304-307 | afterwards exactly the passwords of slots that could be read open the pack; if all could, to the same slot and key |
| Compact.CompactLocks | src/pack.cpp:304-307 | if every slot could be read, every password opens the same slot to the same key in both files |
| Compact.CopySlots | src/pack.cpp:304-307 | each slot verbatim unless empty or unreadable; unreadable only if a call failed |
| Compact.CopyBlobs | src/pack.cpp:309-321 | the new data region is the live records one after the other, and the index says where |
| Compact.BuildReplacement | src/pack.cpp:297-326 | a finished, durable new file aside; the pack's own is not touched; it fails only if a call does |

## Left out

- Monocypher, Argon2id and BLAKE2b (src/crypto.cpp): calls into foreign code, kept as functions with the interface above; wiping keys from memory is not modelled.
- Store.Store.WriteSlot: no claim about which key slot bytes a torn slot write leaves, as the source overwrites the slot in place; the rest of the file is covered.
- Pack.Pack.Create: no claim about power cuts before it returns; the source does not promise one.
- Update.BuildUpdate: an output path that names one of the two input packs is not modelled, because the command unlinks that file while its pack stays open, and files here are names rather than handles.
- Os.System.Sync: syncs that drop pages on failure are not modelled; the macOS fallback from F_FULLFSYNC to fsync counts as one successful or failed sync.
- Merging.Merge: a pack merged with itself, and one file opened twice at a time, are outside the intended use.
- `merge`, `diff` and `compact` are module methods over packs rather than members of the class, so that each has its own file.
- File handles: a file is named rather than opened, so a compacted file that is replaced while another process holds it open is not modelled.
- Tampered manifests that authenticate but break the index invariant: the code's checks on them are modelled in reading, but no run produces one.
- `Pack::stat`, `Pack::list` and `verify_password`: settled by reading one branch.
- src/capi.cpp, cli/web.cpp, cli/preview.hpp and the rest of cli/main.cpp: wrappers and user interface.
