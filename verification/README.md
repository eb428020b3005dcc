# A verified model of hackpadfs

hackpadfs builds file systems from small parts. This project models the parts that carry hard
invariants, and proves them.

- **A directory tree on a flat key-value store.** Records live under string keys; the tree exists
  only because Mkdir, MkdirAll, OpenFile, Remove, RemoveAll and Rename keep it. `Paths` relates
  `/`-joined strings to sequences of path elements, once. `KeyValue` is the store with its
  transactions and its two ways of listing a directory, `KeyValueFS` the operations, step by step
  on the strings. `Trees` and `TreeOps` say what each operation does to the tree, and exactly when
  it keeps it a tree; `TreeLaws` what a caller of each operation gets. One constant tells the in-memory store, which checks nothing, from the
  IndexedDB one, which rejects a record whose parent is no directory.
- **File handles.** `Blobs` is a byte blob over a Go slice with spare capacity and a shared mutex;
  `Files` the handle with its offset, memoised size and saves, proved to act like the same
  operations on a byte sequence; `DirFiles` paged directory listings.
- **Transactions run one operation at a time** (`SerialTxn`): operations whose handlers issue
  further operations, against a reference that reports results in the order of issue.
- **The streaming tar reader**, as step functions whose runs are all interleavings (`Runs` says
  what a run is): `PubSub`, `BufferPool` and `TarReader`.
- **Resolution and agreement layers:** `Mounts` (longest-prefix lookup, adding mounts, renaming a
  file across mounts), `Cache` (the read-only cache under path locks), `OsPath` and `S3Keys` (path
  and key codecs).

Where the code does less than one would expect of it, the model keeps the code's behaviour, and a
lemma or contract says exactly when it does meet the expectation:

- A directory rename to a free name two or more levels inside the directory itself, below a
  directory, never ends. All others to a free name that the store does not refuse are exact subtree
  moves; the store that keeps its root keeps it besides. (`TreeOps.DirectoryRename`,
  `TreeOps.RenameIntoSelf`)
- In memory, Mkdir and OpenFile accept a file as parent. Either store lets a file rename replace a
  directory with children. (`TreeOps.StepKeeps`, `TreeOps.MkdirBelowFile`, `TreeOps.OpenBelowFile`,
  `TreeOps.FileOverDirectory`)
- MkdirAll stops at the first directory it finds, and leaves a gap above it: right exactly when there
  is none, as in every well-formed tree. (`TreeOps.MkdirAllStopsEarly`, `TreeOps.MkdirAllLeavesGap`)
- `setFile` on an invalid path returns with the store locked; every caller validates first. It
  does not look at the result of its one write, so that the in-memory store would silently drop a
  record, other than a regular file's, whose data cannot be read. The file system's own records all
  can; only another user of the store could bring one. (`KeyValueFS.FS.SetFile`)
- A blob's `Slice` copies from index 0 whatever its start. (`Blobs.SliceRightWhen`)
- A write at a negative offset fails, but may have grown the file; an append leaves the offset short
  of the end; a view of the file written back into it blocks for ever; saving a handle whose path
  was removed makes the record again. (`Files.File.WriteBlobAt`, `Files.File.Write`,
  `Files.File.Save`)
- A directory handle's unlimited ReadDir moves the offset on by the whole length. A sequence of
  requests panics exactly when the list is not empty and a limited request follows an unlimited one
  that was not the first. (`DirFiles.CrashIff`)
- The in-memory transaction's results stand at their operations' numbers exactly when no handler
  issued an operation. (`SerialTxn.TransactInMemory`, `SerialTxn.NestedOutOfOrder`)
- The tar reader's last select may overlook an error, and Open then succeeds on a file that was not
  written. Once the read has ended in success, an error was overlooked exactly when some entry
  failed, and any Open can get through. (`TarReader.OpenSeesFullFiles`, `TarReader.ErrorUnreadIff`,
  `TarReader.AnyOpenGetsThrough`, `TarReader.DroppedError`)
- A failed copy stays in the cache and is served afterwards. What is served is wrong exactly when
  the failed copy left fewer bytes than the source has, and is then the beginning of the source.
  (`Cache.CacheAgrees`, `Cache.PartialServed`)
- A file renamed between two mounts of one file system that name the same file is lost.
  (`Mounts.MoveAcross`)
- With root ".", which `Sub(".")` makes, no operating system path can be read back.
  (`OsPath.RoundTrip`, `OsPath.SubRoot`)
- Reading an S3 key panics exactly when its last element neither starts with `file-` nor is
  `dir-meta`, and reading the root's listing prefix panics. A listing of the store's own records
  never comes to either; foreign objects, `files/readme` or `files/`, do. (`S3Keys.ReadPanicsIff`,
  `S3Keys.ListedRoot`, `S3Keys.ReadItem`)
- An S3 listing names each child once exactly when no file of the directory has a record below it;
  creating a file below a file passes, and then the name comes twice. (`S3Keys.ListNames`,
  `S3Keys.FileListedTwice`)

`dafny verify dfyconfig.toml` checks the project.

## Model

| member | source | states |
|---|---|---|
| Paths.DecodeEncode | README.md:106-109 | valid paths correspond one to one to sequences of names: every sequence spells a valid path that reads back as it |
| Paths.DirValid | keyvalue/fs.go:148-150 | path.Dir of a valid path is valid and drops exactly the last element; the root is its own parent |
| Paths.BaseValid | indexeddb/store.go:192-198 | path.Base of a valid path is its last element, "." for the root |
| Paths.SplitValid | mount/fs.go:59 | path.Split of a valid path separates the last element from the others and their slash |
| Paths.JoinValid | keyvalue/fs.go:302 | path.Join of two valid paths is valid and appends their elements |
| FileModes.TypeBitsKept | keyvalue/fs.go:320-330 | Chmod's mask keeps every type bit, so it never turns a file into a directory or back |
| KeyValue.PrefixHitIsChild | mem/store.go:42-64 | the prefix scan's test accepts exactly the keys whose parent path is the directory, root included, and yields their last element |
| KeyValue.IndexHitIsChild | indexeddb/store.go:162-201 | so does the lookup of keys by their Parent field, which the root lacks |
| KeyValue.ListingsAgree | mem/store.go:42-64 | the two tests accept the same keys under the same names |
| KeyValue.ParentCheck | indexeddb/store.go:304-340 | the parent check on string keys refuses exactly a key of two or more elements whose parent is not a directory of the tree |
| KeyValue.Store.Begin | mem/store.go:115-124 | a transaction takes the lock, which must be free, and changes no record |
| KeyValue.Store.Get | mem/store.go:144-158 | appends the record under the path, or not-exist |
| KeyValue.Store.Set | indexeddb/transaction.go:114-162 | stores or deletes the one record, or drops one whose data cannot be read; remembers a refused parent; the checked store never deletes its root; each case has its error in the result |
| KeyValue.Store.Commit | mem/store.go:182-186 | releases the lock; after a refusal every record is as before the transaction |
| KeyValue.Store.Abort | mem/store.go:188-192 | releases the lock; only the checked store rolls back |
| KeyValue.Store.ReadDirNames | mem/store.go:42-64 | in whatever order keys come and by either method: exactly the children's names, each once |
| KeyValueFS.FS.GetFile | keyvalue/file.go:60-81 | the record of a valid present path; otherwise invalid or not-exist; lock free again |
| KeyValueFS.FS.SetFile | keyvalue/file.go:84-115 | a valid path's record is stored or deleted unless refused; an invalid path leaves the lock taken; unreadable data is an error before any transaction for a regular file, and ignored otherwise |
| KeyValueFS.FS.Mkdir | keyvalue/fs.go:44-60 | the specified new tree and error, for any argument, with the lock free before and after |
| KeyValueFS.FS.FindMissingDirs | keyvalue/fs.go:142-184 | the paths longer than the longest present prefix, deepest first; an error if that prefix is a file |
| KeyValueFS.FS.MkdirAll | keyvalue/fs.go:67-83 | adds a directory at exactly the missing prefixes, top down, none of them ever refused; lock balanced |
| KeyValueFS.FS.OpenRecord | keyvalue/fs.go:192-218 | the record opened, created below a present parent if asked for; directories are not opened for writing or with create; lock balanced |
| KeyValueFS.FS.Remove | keyvalue/fs.go:237-253 | deletes one record, never a directory with children; lock balanced |
| KeyValueFS.FS.RemoveAll | fs.go:247-251 | an invalid path is rejected; otherwise everything reachable from the path is gone and nothing else |
| KeyValueFS.FS.RemoveTree | fs.go:253-283 | terminates on the number of reachable records and never fails: the final Remove finds the directory empty |
| KeyValueFS.FS.Rename | keyvalue/fs.go:256-309 | on any tree nothing changes outside the two names, and no record under the old name is lost while neither name lies inside the other; with nothing under an absent target the specified result, or a stack overflow when the rename never ends or the stack is shallower than the subtree has records |
| KeyValueFS.FS.RenameChildren | keyvalue/fs.go:301-307 | the loop over the children: nothing changes outside the two names and, while they lie apart, no record is lost; with nothing under the target all are moved, or the recursion overflowed |
| KeyValueFS.FS.RenameFile | keyvalue/fs.go:265-286 | both records change in one transaction, or none does; an invalid target aborts and releases the lock |
| KeyValueFS.FS.Chmod | keyvalue/fs.go:321-330 | only the record's permission bits change; lock balanced |
| KeyValueFS.FS.Chtimes | keyvalue/fs.go:333-340 | only the modification time changes, and not for the zero time; lock balanced |
| KeyValueFS.FS.Perform | keyvalue/fs.go:44-340 | any operation by name does what the specification's step does to the tree and returns its error |
| KeyValueFS.FS.PerformAll | keyvalue/fs.go:44-340 | any sequence of operations: each meets its specification in the tree the one before left, and only a stack overflow cuts it short; if every operation meets its guard and the stack suffices, all states are well-formed and the last is the specified one |
| Trees.MovingStep | keyvalue/fs.go:301-307 | one turn of the rename loop: moving what one child reaches keeps the loop's invariant, wherever the target lies |
| Trees.MovingDone | keyvalue/fs.go:297-308 | after the last child, deleting the old name completes the move of everything reachable |
| Trees.ReachSetShrinks | keyvalue/fs.go:301-302 | a child reaches strictly fewer records: the recursion's measure |
| Trees.ChainChild | keyvalue/fs.go:301-302 | a rename into itself hands on to the child holding the target a rename of the same kind, without end |
| TreeOps.DirectoryRename | keyvalue/fs.go:288-308 | on a well-formed tree a directory rename to a free name is refused with no effect; if not, it never ends exactly when the target is two or more levels inside, below a directory, and otherwise is an exact subtree move: every record keeps its contents under its re-keyed or old name, and nothing else is there but the root that the checked store keeps |
| TreeOps.RenameBack | keyvalue/fs.go:288-308 | on a well-formed tree renaming a directory to a place outside itself and back gives the original tree, to the last record |
| TreeOps.MkdirThenRemove | keyvalue/fs.go:44-60 | removing a directory just made gives the original tree |
| TreeOps.ChainIff | keyvalue/fs.go:288-308 | the condition for never ending, as a test of the target and its parent |
| TreeOps.RenameIntoSelf | keyvalue/fs.go:288-308 | a tree and a rename on it that never ends |
| TreeOps.RenameKeeps | keyvalue/fs.go:256-309 | Rename ends and keeps the tree exactly when a directory moves into a directory outside itself, or a file into a directory and onto nothing with children |
| TreeOps.FileRenameKeeps | keyvalue/fs.go:265-286 | the file case, both directions |
| TreeOps.FileOverDirectory | keyvalue/fs.go:265-286 | a tree that renaming a file onto a directory breaks, with either store |
| TreeOps.MovedKeeps | keyvalue/fs.go:288-308 | moving a directory keeps the tree exactly when it lands in a directory outside itself |
| TreeOps.MkdirKeeps | keyvalue/fs.go:44-60 | Mkdir keeps the tree exactly when it does not put a directory below a file, which only an unchecked store lets it |
| TreeOps.MkdirBelowFile | keyvalue/fs.go:44-60 | a tree that Mkdir breaks in memory |
| TreeOps.OpenKeeps | keyvalue/fs.go:192-218 | the same for creating a file |
| TreeOps.OpenBelowFile | keyvalue/fs.go:192-218 | a tree that creating a file breaks in memory |
| TreeOps.MkdirAllComplete | keyvalue/fs.go:67-83 | on a well-formed tree it ends with every prefix a directory and all earlier records unchanged, adds only prefixes, and writes nothing exactly when a file is on the way |
| TreeOps.FilledKeeps | keyvalue/fs.go:72-81 | the tree is well-formed after each directory that MkdirAll makes |
| TreeOps.MkdirAllStopsEarly | keyvalue/fs.go:155-165 | on any tree all prefixes end up directories exactly when those above the stopping point already were |
| TreeOps.MkdirAllLeavesGap | keyvalue/fs.go:155-165 | a tree with a gap that MkdirAll does not fill |
| TreeOps.RemoveKeeps | keyvalue/fs.go:237-253 | Remove keeps every well-formed tree |
| TreeOps.RemoveAllExact | fs.go:253-283 | on a well-formed tree it deletes exactly the path and all under it; a checked store's root alone survives |
| TreeOps.ChmodKeeps | keyvalue/fs.go:321-330 | Chmod keeps every well-formed tree |
| TreeOps.StepKeeps | keyvalue/fs.go:44-340 | each operation ends and keeps the tree exactly when its guard held before it |
| TreeOps.RunKeeps | keyvalue/fs.go:44-340 | over every run of operations: all states are well-formed and all operations end exactly when every operation met its guard |
| TreeLaws.MkdirLaw | keyvalue/fs.go:44-60 | Mkdir works at a free path below a directory, with the one error for each other case; it leaves a directory with the permissions asked for, and all else alone |
| TreeLaws.OpenLaw | keyvalue/fs.go:192-218 | when opening finds, makes or refuses a file; a new one is regular, with the permissions asked for; all else stays |
| TreeLaws.MkdirAllLaw | keyvalue/fs.go:67-83 | exactly the missing prefixes are made, with the permissions asked for; otherwise not-a-directory and no change |
| TreeLaws.RemoveLaw | keyvalue/fs.go:237-253 | one record goes, unless it is absent or a directory with children, each with its error |
| TreeLaws.ChmodLaw | keyvalue/fs.go:321-330 | the permission, setuid, setgid and sticky bits are those asked for; all other bits, the contents, the time and the other records stay |
| TreeLaws.ChtimesLaw | keyvalue/fs.go:333-340 | the modification time is the one asked for, unless that is zero; all else stays |
| TreeLaws.FileRename | keyvalue/fs.go:265-286 | renaming a file puts its record under the new name, whatever was there, takes it from the old one, and leaves all else; a refused name changes nothing |
| TreeLaws.RenameOutcome | keyvalue/fs.go:256-309 | on a well-formed tree, exactly when Rename works and which error it gives when not; an error other than the overflow means no change |
| TreeLaws.BadName | keyvalue/fs.go:44-340 | an invalid path is an error and changes nothing, for every operation |
| Blobs.Bytes.View | keyvalue/blob/bytes.go:60-72 | a window on the same array and mutex, for exactly the ranges inside; a reversed range panics with the lock released |
| Blobs.Bytes.Slice | keyvalue/blob/bytes.go:75-87 | a fresh copy, of the first bytes |
| Blobs.SliceRightWhen | keyvalue/blob/bytes.go:75-87 | Slice returns the range's bytes for every blob of a length exactly when the range starts at 0 or is empty |
| Blobs.Bytes.Set | keyvalue/blob/bytes.go:90-101 | overwrites as far as it fits and nothing else; which offsets fail and how; a source with the same mutex blocks for ever |
| Blobs.SetErrorIff | keyvalue/blob/bytes.go:90-101 | Set works exactly at offsets up to the end, not on an empty blob with something to write, and not from a blob with the same mutex |
| Blobs.Bytes.Grow | keyvalue/blob/bytes.go:104-110 | appends zeros whatever stale bytes lie in the capacity, in place when they fit; a negative count panics with the mutex held |
| Blobs.Bytes.Truncate | keyvalue/blob/bytes.go:113-124 | keeps a prefix and the capacity behind it; a negative size panics with the mutex held |
| Files.WrittenTwice | keyvalue/file.go:266-295 | two writes end to end are one write of the joined bytes |
| Files.WrittenByOverwrite | keyvalue/file.go:266-295 | growing to the end of the write and overwriting leaves each byte the new one, the old one, or zero in the gap, and the length the larger end |
| Files.ResizedTwice | keyvalue/file.go:301-332 | truncating and growing again yields zeros |
| Files.WrittenAt | keyvalue/file.go:266-295 | byte by byte what a write leaves, and its length |
| Files.ReadsBack | keyvalue/file.go:184-256 | a write, a seek back and a read give the bytes written |
| Files.AppendsAtEnd | keyvalue/file.go:266-295 | an append puts the bytes at the end, and moves the offset from where it was by their count |
| Files.ReadGets | keyvalue/file.go:204-226 | a read in range gets as many bytes as asked for, or all that are left |
| Files.SeekGoes | keyvalue/file.go:228-245 | where each kind of seek goes, and that a negative target is an error that moves nothing |
| Files.ResizedAt | keyvalue/file.go:301-332 | a truncation gives the size, keeps the bytes below it and adds zeros |
| Files.File.Size | keyvalue/record.go:154-162 | the memoised size is always the blob's length |
| Files.File.Save | keyvalue/file.go:164-166 | stores the handle's own blob, mode and time under its path whether or not the path still exists |
| Files.File.WriteBlobAt | keyvalue/file.go:266-295 | the bytes land at the offset, or the end when appending; a negative offset writes nothing but may grow the blob; an end past int64 crashes before any change; a view of the file itself blocks; the tree changes at most by the save |
| Files.File.Write | keyvalue/file.go:247-256 | a write at the handle's offset, which moves by the count even when the bytes went to the end; success saves the handle's record under its path with the new time, failure leaves the tree alone |
| Files.File.WriteAt | keyvalue/file.go:258-264 | a write at a given offset, negative ones included, which leaves the handle's own; the same effect on the tree |
| Files.File.ReadBlobAt | keyvalue/file.go:204-226 | a view of the bytes there are, with end of file exactly when it reaches the end |
| Files.File.ReadAt | keyvalue/file.go:196-202 | copies exactly those bytes and leaves the rest of the buffer |
| Files.File.Read | keyvalue/file.go:184-188 | reads at the offset and moves it by the count |
| Files.File.Seek | keyvalue/file.go:228-245 | moves the offset to the target, wrapping like int64, unless it is negative |
| Files.File.Truncate | keyvalue/file.go:301-332 | cuts or pads with zeros to the size and saves the record with the new time; directories and negative sizes change nothing |
| Files.File.PerformAll | keyvalue/file.go:184-332 | any sequence of writes, reads, seeks and truncations acts like the same sequence on an abstract byte sequence and offset: it returns the same counts, bytes and errors, leaves the same file, and does nothing to the tree but save the handle's blob under its path |
| Files.OpenFile | keyvalue/fs.go:192-234 | the handle holds the stored record with its mode and time, the stored contents, or nothing after truncation or creation, at offset 0; the tree is the specified one, with the truncated record saved |
| DirFiles.DirFile.ReadDirNames | keyvalue/record.go:147-152 | the children's names when first asked, and the same list ever after |
| DirFiles.DirFile.ReadDir | keyvalue/file.go:334-357 | the page at the offset if all its entries still exist; the offset moves by the page only then; a start behind the end crashes |
| DirFiles.PagesCover | keyvalue/file.go:334-357 | any sequence of limited requests: no crash, and the pages joined are the list from the offset on, as far as asked for |
| DirFiles.LimitedAfterUnlimited | keyvalue/file.go:339-344 | a limited request after an unlimited one at the start gets nothing |
| DirFiles.CrashIff | keyvalue/file.go:339-344 | any sequence of requests crashes exactly when the list is not empty and a limited request follows an unlimited one that was not the first |
| DirFiles.LimitedAfterBoth | keyvalue/file.go:339-344 | for example, a limited request after any first and an unlimited second, exactly when the list is not empty |
| DirFiles.DirFile.ReadPages | keyvalue/file.go:334-357 | a sequence of requests to the handle gives those pages of the list, or that crash, while all its entries still exist |
| SerialTxn.RunMeetsInOrder | keyvalue/txn_store.go:119-163 | every run, aborted or not, of a caller whose next step may depend on all that was seen before: same effect on the store as the reference, as many operations numbered, and exactly its results in some order |
| SerialTxn.InOrderNumbered | keyvalue/txn_store.go:94-97 | the reference numbers the results 0, 1, 2 and so on in the order of issue |
| SerialTxn.StoreLaw | keyvalue/txn_store.go:125-163 | a Get after a Set gives that record, after a removal not-exist; no operation touches another path |
| SerialTxn.ResultLaw | keyvalue/txn_store.go:125-163 | an operation's result is its record with its own error or else its handler's |
| SerialTxn.HandlerSees | keyvalue/txn_store.go:148-163 | a handler runs after its operation, and sees what it stored |
| SerialTxn.AbortStops | keyvalue/txn_store.go:105-117 | after an abort no operation reaches the store, and each is reported as cancelled |
| SerialTxn.Serial.Do | keyvalue/txn_store.go:125-163 | one Get or Set with its handler; its number's result is recorded once, and its issuer goes on by what was seen |
| SerialTxn.Serial.Commit | keyvalue/txn_store.go:165-178 | one slot per number, each recorded result in its own; an error after an abort |
| SerialTxn.Transact | keyvalue/txn_store.go:94-178 | a whole transaction: without an abort one result for every operation issued, at its own number, in the order of issue |
| SerialTxn.SameUntilAbort | mem/store.go:126-186 | without an abort the in-memory transaction runs just like the serial one |
| SerialTxn.AppendedInOrderIff | mem/store.go:144-180 | appended results stand at their own numbers exactly when no handler that ran issued an operation |
| SerialTxn.InMemory.Do | mem/store.go:126-180 | one Get or Set with its handler; after an abort it is refused as number 0 |
| SerialTxn.TransactInMemory | mem/store.go:107-192 | the mutex is unlocked once exactly when nothing aborted; the results are then a reordering of the serial transaction's, and equal to them exactly when no handler issued an operation |
| SerialTxn.NestedOutOfOrder | mem/store.go:144-158 | a Get whose handler issues another: the results come in the other order |
| PubSub.InvStep | tar/pubsub.go:24-61 | each step keeps: a visited key has no subscribers, every sleeping waiter is subscribed or on some emitter's list |
| PubSub.NoLostWakeup | tar/pubsub.go:24-61 | in every interleaving, Wait returns only for a visited key or a done context, and a waiter asleep on a visited key is on the list of an emitter that can cancel it |
| PubSub.EmitVisits | tar/pubsub.go:24-39 | in every interleaving an Emit that returned has visited its key, and one that has not can go on |
| PubSub.EmitAgain | tar/pubsub.go:24-30 | a visited key stays so, and emitting it again does nothing |
| PubSub.WaitReturns | tar/pubsub.go:41-52 | a Wait on a visited key, or under a done context, returns without sleeping |
| PubSub.AllWake | tar/pubsub.go:57-60 | a done context wakes every sleeper |
| PubSub.DebtStep | tar/pubsub.go:31-38 | once a key is visited, the number of owed cancels never grows and each cancel pays one |
| PubSub.Drained | tar/pubsub.go:36-38 | after as many cancels as were owed, every Wait on the key has returned or can |
| BufferPool.InvStep | tar/bufferpool.go:32-64 | each step keeps: the count is queued plus held plus in transit, and every buffer is in exactly one place |
| BufferPool.Conserved | tar/bufferpool.go:20-64 | in every interleaving: the count within its bounds, sends never block, a blocked Wait means some buffer is out, no buffer has two holders |
| BufferPool.Grows | tar/bufferpool.go:32-59 | in every interleaving a Wait that found no buffer blocks only once the pool has grown or is at its maximum |
| BufferPool.WaitAlone | tar/bufferpool.go:32-59 | left to itself a Wait gets the first queued buffer, or makes one where there is room |
| BufferPool.DoneAlone | tar/bufferpool.go:62-64 | Done puts the buffer at the end of the queue |
| BufferPool.MemoryBound | tar/fs.go:106-119 | the two pools together never exceed the memory limit |
| TarReader.InvStep | tar/fs.go:104-302 | every step of the reader, its goroutines and Open calls keeps the invariant |
| TarReader.OpenSeesFullFiles | tar/fs.go:222-302 | in every interleaving without outside cancellation, an Open that got through has the full contents of an entry whose write succeeded; otherwise the read has ended with the error unread, and with none unread the contents are always full |
| TarReader.ErrorUnreadIff | tar/fs.go:154-164 | in every interleaving that ended in success, an error is left unread exactly when some entry's goroutine failed |
| TarReader.AnyOpenGetsThrough | tar/fs.go:293-302 | from every such state an Open of any name, an unwritten entry's too, can get through and finds what the destination holds |
| TarReader.OtherOpensWait | tar/fs.go:293-302 | Open of a name that is no file entry, a directory's say, gets through only after the whole read has ended and all goroutines are gone |
| TarReader.BuffersExclusive | tar/fs.go:177-246 | two jobs never share a buffer, and a job's buffer holds its own entry's bytes |
| TarReader.NeverStuck | tar/fs.go:104-246 | in every interleaving, cancelled ones included, the reader or one of its goroutines can go on until the read has ended, whatever buffers and errors are outstanding |
| TarReader.WorkBounded | tar/fs.go:104-246 | in every interleaving the reader and its goroutines take at most sixteen steps for each entry, one for each byte, and five |
| TarReader.ReadEnds | tar/fs.go:104-246 | from every reachable state the read can be brought to its end with nothing failing on the way |
| TarReader.WrittenOpens | tar/fs.go:253-258 | in every interleaving a file that was written and closed is announced, and unless the read has failed an Open of it can get through at once to its full contents, whatever the reader is doing |
| TarReader.UnfailingRead | tar/fs.go:104-302 | when nothing fails, no Open is turned away, and the read ends in success with every entry there |
| TarReader.ReadSucceeds | tar/fs.go:104-246 | and it can be brought to that end from the start |
| TarReader.ReaderFails | tar/fs.go:129-165 | a header, directory or content that cannot be read, or a job's error that is seen, fails the read for good |
| TarReader.JobFails | tar/fs.go:177-262 | a call that fails under a job fails the job, and its error is sent or fails the reader |
| TarReader.FailureTurnsAway | tar/fs.go:293-302 | once the error is stored no later Open gets through |
| TarReader.CancelStops | tar/fs.go:177-190 | once the context is cancelled no further entry is begun |
| TarReader.DroppedError | tar/fs.go:154-164 | a run without outside cancellation in which Open gets an unwritten file and no error |
| Cache.InvStep | cache/fs.go:47-109 | every step of any number of Open calls keeps the invariant |
| Cache.Exclusive | internal/pathlock/lock.go:17-29 | two calls are never inside the lock of one path |
| Cache.CacheAgrees | cache/fs.go:47-109 | in every interleaving: while a file's lock is free the cache has nothing or the source's bytes exactly when no failed copy left fewer; every Open yields a beginning of the source's bytes, and all of them exactly on that condition; a file is copied at most once; no two calls are inside one file's lock |
| Cache.OpenOutcome | cache/fs.go:47-109 | in every interleaving an Open gives a directory for a directory, an error for a name the source lacks, and for a file an error exactly when a call of its own failed, contents otherwise; a retained file is then cached |
| Cache.NeverStuck | cache/fs.go:47-109 | in every interleaving a call that is not done can go on, or waits for its path's lock while the holder can |
| Cache.StepsBounded | cache/fs.go:47-109 | in every interleaving each call takes at most twelve steps and one for each byte of its file |
| Cache.CallsEnd | internal/pathlock/lock.go:17-29 | from every reachable state all calls can be brought to their end with nothing failing |
| Cache.PartialServed | cache/fs.go:91-109 | a run in which a failed copy's bytes are served as the file |
| Mounts.CoversIsPrefix | mount/fs.go:97-105 | the string test for a mount point is the prefix order on path elements |
| Mounts.BestUnique | mount/fs.go:92-122 | the longest covering mount point is unique |
| Mounts.SubPathRebuilds | mount/fs.go:111-121 | mount point and sub-path, joined, are the path |
| Mounts.MountFS.MountPoint | mount/fs.go:92-122 | in whatever order the mounts come, the longest covering one, with its file system and the sub-path |
| Mounts.MountFS.AddMount | mount/fs.go:47-81 | succeeds exactly at a free valid non-root path that is a directory where it resolved before; otherwise nothing changes |
| Mounts.ParentLookup | mount/fs.go:59-60 | the look-up with a trailing slash finds what resolving the path itself finds while nothing is mounted there |
| Mounts.ParentSubPath | mount/fs.go:59-61 | and joining its sub-path with the last element gives the path's own sub-path |
| Mounts.MountChangesNothingOutside | mount/fs.go:75 | a new mount changes the resolution of no path outside it |
| Mounts.MountTakesWhatIsInside | mount/fs.go:75 | and every path at or under it then resolves to it or to a mount below |
| Mounts.MountFS.Rename | mount/fs.go:147-189 | the branches: missing source, same name, same mount, a directory, and the move across mounts with its outcome |
| Mounts.MoveAcross | mount/fs.go:169-188 | for each way the calls answer, the error and what both files hold: between different files the full contents are at the source in every state until the last of a success, which has them only at the destination; a failed copy is cleaned up if that works; no other file changes |
| Mounts.MoveSucceeds | mount/fs.go:169-188 | when every call works the file is moved |
| Mounts.Copy | mount/fs.go:183 | whatever chunks are read, wherever a write fails and whatever part of its chunk it leaves, only the destination changes; it works exactly when every write it makes does, and then the destination holds the source's bytes |
| OsPath.RoundTrip | os/path.go:27-102 | for either separator a valid path comes back exactly when its volume is recognized, the root is not ".", and no name in root or path holds a separator other than the slash |
| OsPath.FromOSPathIff | os/path.go:76-102 | an operating system path is read exactly when it is on the volume and at or under the root, as what is left of it there |
| OsPath.ReadUnderRoot | os/path.go:90-101 | the same for the part behind the volume, by its elements |
| OsPath.ReadTop | os/path.go:90-101 | the top of the volume is read only without a root, and root "." refuses every path but "." |
| OsPath.Accepts | os/path.go:27-61 | only valid paths are converted; on Windows the volume is C: unless another was set |
| OsPath.ToOSPathInjective | os/path.go:27-34 | two paths without such names never become one operating system path, whatever the root |
| OsPath.OsPathForm | os/path.go:27-40 | the operating system path is the volume, one separator, and root and path with separators replaced |
| OsPath.SubComposes | os/fs.go:51-59 | converting under the joined root equals converting the joined path under no root |
| OsPath.SubRoot | os/fs.go:51-59 | Sub's root is valid and appends the directory's elements; it is "." exactly for "." at the top |
| S3Keys.KeyElements | examples/s3/store.go:59-65 | a key is the root path's name, the directory's elements, and the entry's name with its kind |
| S3Keys.RoundTrip | examples/s3/store.go:59-82 | every valid path comes back from its key, as file and as directory |
| S3Keys.KeyInjective | examples/s3/store.go:59-65 | two keys are equal exactly when path and kind are |
| S3Keys.ListedDirectory | examples/s3/store.go:67-82 | a listed directory prefix other than the root's reads as that directory |
| S3Keys.ListedRoot | examples/s3/store.go:67-82 | reading the root's prefix panics |
| S3Keys.ReadPanicsIff | examples/s3/store.go:67-82 | a key under the root path panics exactly when its last element is neither a file's nor a directory's own |
| S3Keys.ListedIff | examples/s3/store.go:138-156 | the keys behind a directory's listing prefix are its own and those of everything under it |
| S3Keys.ListedChild | examples/s3/store.go:138-156 | each listed item under a directory is named after the child it is or lies under |
| S3Keys.ReadItem | examples/s3/store.go:150-153 | reading an item that a listing of the store's own records returns never panics and gives the next path element |
| S3Keys.ListNames | examples/s3/store.go:138-156 | in whatever order items come: exactly the next elements of the records under the directory, each once exactly when no file of the directory has a record below it |
| S3Keys.FileListedTwice | examples/s3/store.go:138-156 | records, which the store lets a caller make, of which a listing has one name twice |

## Left out

- KeyValueFS.FS.Rename: when stray records lie under an absent target, which no well-formed tree has, it does not say which of the records under the old name have moved and which strays were overwritten; while one name lies inside the other it says nothing of the records under them.
- KeyValueFS.FS.Perform: its operations write records whose data can be read; KeyValueFS.FS.SetFile covers the others.
- KeyValueFS.FS.ReadDir: states its result only for a directory; without the final sort by name.
- Files.File.PerformAll: one handle per file and ends within int64; the crash beyond that is in the single operations' contracts.
- SerialTxn.Transact: handlers do not commit, and operation numbers, which follow from the order of issue, are not shown to them.
- TarReader.OpenSeesFullFiles: assumes that resolved entry names differ and nobody else cancels the context.
- Cache.CacheAgrees: the source does not change, callers only read, and the source's Stat does not fail intermittently.
- OsPath.RoundTrip: asks for a volume without a trailing separator, the only kind that SubVolume accepts.
- Concurrent key-value operations: each operation is several transactions; only one operation at a time is modelled.
- Goroutine scheduling in the tar reader is fully interleaved, but its directory cache, parent directories' own records, the big pool's copy buffer and archive parsing are not modelled; a large file's rest is copied in arbitrary chunks instead.
- ValidPath's UTF-8 check: strings are sequences of characters.
- Clocks, allocation of blobs and file system failures are parameters of the operations.
- Error wording, error wrapping and stripErrPathPrefix.
- Several live handles on one blob, Chmod and Close on handles, the read-only and write-only wrappers.
- Seek on directory handles, and paging in cache/dir.go.
- The JavaScript side of IndexedDB: its object stores are a map, its transactions roll back on a refused record.
- The S3 client, metadata and deletion; the os package wrappers; the generic dispatch in fs.go and file.go.
- MkdirAll in fs.go, for file systems without their own.
