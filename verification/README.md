# A verified model of the arcus-memcached core

This project models the parts of arcus-memcached whose state is hardest to keep
right, and proves over unbounded runs what each part is for:

- the hash table that expands while it is in use, with its two resumable scans
  (`engines/default/assoc.c`);
- the fuzzy checkpoint: a snapshot taken by a scan while updates go on, plus the
  log records written twice meanwhile (`engines/default/cmdlogmgr.c`,
  `checkpoint.c`, `chkpt_snapshot.c`);
- the command log: byte ring, flush requests, dual writing across a file
  switch, failed checkpoints, LSNs, syncing, group commit
  (`engines/default/cmdlogbuf.c`, `cmdlogfile.c`, `cmdlogmgr.c`), recovery of a
  log cut off anywhere, and a server's life to a crash and the restart after it;
- the multi-block key tokenizer (`mc_util.c`), the ketama ring
  (`cluster_config.c`), the glob matcher (`util.c`), MD5 streaming
  (`rfc1321/md5c.c`) and the top-keys index (`topkeys.c`, `genhash.c`).

Code that updates things in place is a class or a method with loops. Its
contract names a step of a state machine, or a function of the old state, and
the lemmas are about whole runs of those steps. `dafny verify dfyconfig.toml`
checks everything.

| files | what they hold |
|---|---|
| `Chains`, `AssocTable`, `AssocSteps`, `AssocScan`, `AssocRuns`, `Assoc` | the table as a value, its steps, the placeholder scan, runs, and the class |
| `Bits`, `Cursor`, `AssocDirect` | bit reversal, the order of the cursor scan, the cursor scan over runs |
| `Checkpoint`, `CacheLog` | the fuzzy checkpoint and the class whose methods log |
| `LogRing`, `LogBuffer`, `LogFiles`, `LogSync`, `LogRuns`, `LogCases`, `CommandLog`, `GroupCommit` | the log buffer, the log as a protocol cut at lock boundaries, durability, runs, two runs that go wrong, the class that refines the protocol, the log with its wait list |
| `Recovery`, `CrashLog`, `Crash`, `Lifetime`, `CrashRuns`, `CrashCases` | applying a log file; updates as log records; snapshot, log and recovery put together; a server with cache, checkpoints and log in one run; two runs after which the restart goes wrong |
| `Splitting`, `Tokenizer`, `Stitching`, `KeyBlocks`, `Supply`, `Mblocks` | the block tokenizer, and the blocks it needs |
| `Sorting`, `Ketama`, `Cluster` | the hash ring |
| `Glob`, `Md5`, `DList`, `GenHash`, `TopKeys` | the self-contained algorithms |
| `Arith`, `Options`, `Octets` | shared definitions |

What the model takes as given: calls on the table are atomic under the cache
lock; a log record is generated while its item is linked, and `item_scan_getnext`
is `assoc_scan_next` under that lock; I/O and fsync succeed; logging is
synchronous; `scan->tabidx` starts at 0, although `assoc_scan_init` does not set
it; a range of element deletions holds the cache lock from its BEGIN to its END;
a record is an opaque image. MD5's block function, the key hash and the hash
points of a node name are parameters.

Where the source does not do what it is meant to, the model follows the code and
the exact condition is proved:

- `LogRuns.SwitchExact`: the flusher asserts at a switch that the new file's size
  is what the buffer counted. It is, if and only if no chunk went to the next
  file of a failed checkpoint, or came too late for the one it was chosen for,
  since the last switch: a failed checkpoint clears `dw_size` but not
  `next_size`. `LogCases.SizeAssertionFails` is a run.
- `LogRuns.NotifiedDurable`: a writer is told when the LSN of its record, which is
  that of the record's first byte, is below the fsync LSN. The record is then on
  disk up to a cut that a flush request makes in it, or wholly, and wholly if no
  request cuts it (`LogRuns.WholeDurable`); a record is cut if and only if the
  growing request has no room for all of it (`LogRing.DividedExact`).
  `LogCases.CutRecordTold` is a run in which the writer is told too early.
- `LogRing.RequestQueue.Add`: the ring of flush requests is advanced unchecked.
  It runs over, and nothing is claimed after that, if and only if the requests in
  use and those that the record closes are more than its slots
  (`LogBuffer.Buffer.RunsOver` for a whole turn, and for a whole write the first
  turn that does, `CommandLog.Log.Write`). It is made for records of at
  least 16 bytes, but a range marker has 8; `LogBuffer.MarkersRunOver` fills a
  new buffer until there is room for the next record and no request left.
- `LogRuns.ExtraExact`: a log file begins with bytes of another checkpoint if and
  only if a chunk that was chosen for the file of a checkpoint that failed came to
  it. `CrashRuns.LateRun` is such a run, and `CrashCases.LateRestart` what becomes
  of it: the old value of a key comes back.
- `Recovery.RecoverAgain`: logging resumes inside the recovered file without
  cutting it off. The next recovery redoes exactly the records of both and
  resumes behind them if and only if the first one did not stop inside a range
  and what is left behind the new records does not read as more than an
  incomplete record. `Recovery.DanglingRange` and `Recovery.StaleTail` are
  instances.
- `Mblocks.TokenizeMblocks`: a key string is accepted if and only if it has
  exactly `keycnt` good tokens, or has them as far as some block boundary at
  which a token ends; `KeyBlocks.AcceptsThree` is one with too many. The
  assertion in the block tokenizer fails if and only if `KeyBlocks.Trips` holds:
  a last block that is one delimiter, behind a token that ends the block before;
  `KeyBlocks.TripsOnDelimiter` is one.
- `AssocDirect.ScanDirect`: with an array that cannot take the chains of the last
  step the call returns short or writes one item behind the array, the latter if
  and only if the second chain of a pair comes to a full array;
  `AssocDirect.OverrunsHere` is an instance.
- `Cluster.Config.Reconfigure`: `do_node_item_build` is said to succeed always,
  but the free list is prepared as if the nodes that leave were free already.
  The call aborts if and only if more new names come than items are free then;
  `Cluster.ReplaceAll` is an instance.
- `Cluster.Config.KeyIsMine`: a server that was never configured stops on an
  assertion, and in a cluster that was configured empty the code reads an item
  that does not exist; otherwise it answers.
- `Glob.GlobExact`: the matcher decides every pattern as documented if and only
  if the text has no backslash, also among the patterns that the scan command
  admits. What it decides for any text is `Glob.Accepts`.
- `Md5.Stream`: the loop bound of an update wraps if and only if the update, added
  to what is buffered, reaches 2^32 bytes; if none does, the digest is the one of
  RFC 1321.

Of one property the condition that is proved is sufficient and, as the instances
show, not necessary:

- `Lifetime.CrashConsistent` (`Crash.CrashConsistent` for any snapshot that is
  exact): a restart gives the cache as it was after some number of log records,
  never a part of a range, if no chunk came too late for the log file that
  recovery takes and the disk has all that the file was given during its
  checkpoint. The second holds once a record logged after the checkpoint was
  acknowledged (`Lifetime.NoneLost`). Without the first the restart may be of a
  cache that never was, although the whole file is on disk
  (`CrashCases.LateRestart`; there it is one that was if and only if the key was
  set to the same twice); without the second likewise, since recovery takes the
  newest finished snapshot whatever its log file holds (`CrashCases.LostDual`).
  Even without the second, a key whose last update was acknowledged is what it
  was (`Lifetime.KeysKept`).

## Model

| member | source | states |
|---|---|---|
| `AssocTable.TabIdxBelowTop` | engines/default/assoc.c:39-60 | the sub-table named for a hash never lies beyond the sub-tables that its bucket uses at this stage of the expansion |
| `AssocSteps.PushWf` | engines/default/assoc.c:259-271 | linking a new item keeps chains, placeholders, reference counts and the item count consistent |
| `AssocSteps.PushPassed` | engines/default/assoc.c:259-271 | linking an item changes for no scan what it has passed |
| `AssocSteps.SwapWf` | engines/default/assoc.c:288-301 | replacing an item in place keeps the table consistent |
| `AssocSteps.PullWf` | engines/default/assoc.c:303-324 | unlinking an item keeps the table consistent |
| `AssocSteps.PullPassed` | engines/default/assoc.c:303-324 | unlinking an item changes for no scan which other keys it has passed |
| `AssocSteps.ExpandWf` | engines/default/assoc.c:219-257 | doubling the sub-tables leaves every item in the chain its hash names |
| `AssocSteps.QuietBucket` | engines/default/assoc.c:273-276 | a bucket without references holds no placeholder, so redistribution never moves one |
| `AssocSteps.TargetEmpty` | engines/default/assoc.c:126-164 | the chain that moved items go to is empty before |
| `AssocSteps.MoveChainWf` | engines/default/assoc.c:126-164 | parting one chain by the larger mask keeps the table consistent at every point of the expansion |
| `AssocSteps.MoveChainPassed` | engines/default/assoc.c:126-164 | redistribution changes for no scan what it has passed |
| `AssocScan.UnholdPassed` | engines/default/assoc.c:349-359 | unlinking a placeholder is noticed by no other scan |
| `AssocScan.ReholdPassed` | engines/default/assoc.c:341-347 | linking a placeholder is noticed by no other scan |
| `AssocScan.ChainHanded` | engines/default/assoc.c:395-432 | going on in one chain hands out exactly the linked items between the old and the new position |
| `AssocScan.EnterHanded` | engines/default/assoc.c:373-394 | entering a bucket takes a reference and passes nothing |
| `AssocScan.LeaveHanded` | engines/default/assoc.c:433-447 | leaving a bucket gives the reference back and passes nothing that was not handed out |
| `AssocScan.HandedTwice` | engines/default/assoc.c:373-447 | two stretches of a scan hand out, together, exactly what they pass together, no key twice |
| `AssocRuns.LinkedOnce` | engines/default/assoc.c:166-324 | in every consistent table an item is in a chain if and only if it is linked and the chain is the one its hash names, once; the item count is the size of the map |
| `AssocRuns.StepPassed` | engines/default/assoc.c:373-447 | in one call a linked key is returned by a scan if and only if the scan passes it in that call |
| `AssocRuns.VisitedExact` | engines/default/assoc.c:549-582 | over any stretch of a run in which a key stays linked, a scan returns it if and only if it had not passed it before and has after; passed stays passed |
| `AssocRuns.NoKeyTwice` | engines/default/assoc.c:373-447 | over any run a scan returns no key twice, not even one that was deleted and inserted again |
| `AssocRuns.ScanComplete` | engines/default/assoc.c:329-447 | with any inserts, replaces, deletes, expansions and other scans in between, a finished scan returned every item that stayed linked exactly once |
| `Assoc.HashTable.constructor` | engines/default/assoc.c:62-102 | a new table is consistent and empty |
| `Assoc.HashTable.Find` | engines/default/assoc.c:166-190 | returns what the map of linked items says, at any stage of the expansion |
| `Assoc.HashTable.Redistribute` | engines/default/assoc.c:126-164 | up to four chains are moved, the table stays consistent and no scan notices; how far the expansion then is, and that it is over after the last chain |
| `Assoc.HashTable.Expand` | engines/default/assoc.c:219-257 | the sub-tables are doubled and the expansion starts at the last bucket, or nothing at all changes when memory is short; no scan notices |
| `Assoc.HashTable.Insert` | engines/default/assoc.c:259-286 | is the insert step of a run; it redistributes exactly if an expansion is on and no scan is in the bucket, and starts one exactly if there are more than 3/2 items per bucket, memory can be had and the table is below its largest size |
| `Assoc.HashTable.Replace` | engines/default/assoc.c:288-301 | is the replace step of a run |
| `Assoc.HashTable.Delete` | engines/default/assoc.c:303-324 | is the delete step of a run |
| `Assoc.HashTable.ScanInit` | engines/default/assoc.c:361-371 | opens a scan that has passed nothing |
| `Assoc.HashTable.ScanNext` | engines/default/assoc.c:373-447 | hands out exactly the linked items it passes, at most the array size, and nothing only at the end of the scan; it stops only there, when the array is full, when the items have more elements than the limit, which the last one made them exceed, or when it has passed more buckets and chains than twice the array size |
| `Assoc.HashTable.InVisitedArea` | engines/default/assoc.c:549-582 | true for a linked key if and only if the scan has passed it |
| `Assoc.HashTable.ScanFinal` | engines/default/assoc.c:584-596 | closes the scan and gives its reference and placeholder back; no other scan notices |
| `Bits.ReverseBits` | engines/default/assoc.c:450-460 | the swap network reverses all 32 bits |
| `Bits.MirrorTwice` | engines/default/assoc.c:450-460 | reversing twice is the identity |
| `Cursor.NextTabidx` | engines/default/assoc.c:528-543 | the next sub-table is the successor in bit-reversed order, and 0 exactly at the end |
| `AssocDirect.RankClass` | engines/default/assoc.c:480-546 | whatever the size of the table, the keys of a sub-table fill one stretch of the bit-reversed order |
| `AssocDirect.Twins` | engines/default/assoc.c:500-527 | the two sub-tables that share a chain during an expansion are neighbours in that order |
| `AssocDirect.ScanDirect` | engines/default/assoc.c:480-546 | one call refuses exactly the cursors beyond the table; otherwise, whatever the size of the array, it visits the same chains and emits the same cursor, further on or 0 only at the end; the chains hold exactly the linked items between the two cursors, each once; their number is the distance of the cursors in the order; short of the end there are enough items or four chains per item wanted, and neither limit is passed by more than the last chain, or pair of chains during an expansion; the array gets what it can take of the items, and one behind its end exactly in an overrun |
| `AssocDirect.ShortOrComplete` | engines/default/assoc.c:497-517 | all items found are returned if and only if the array can take them; short of that the call returns the first ones, or overruns |
| `AssocDirect.ChainsFitComplete` | engines/default/assoc.c:505-512 | an array with room for the chains of one step more than the count wanted always suffices |
| `AssocDirect.OverrunsHere` | engines/default/assoc.c:497-512 | in this table, during an expansion, a call for one item with an array for one writes a second |
| `AssocDirect.ResumableKept` | engines/default/assoc.c:480-546 | a cursor stays usable when the table grows |
| `AssocDirect.DirectCovers` | engines/default/assoc.c:480-546 | over calls with any updates and doublings between them no key is returned twice, and a key that stayed linked was returned if and only if the cursor is past it |
| `AssocDirect.DirectComplete` | engines/default/assoc.c:480-546 | when the cursor is back at 0, every item that stayed linked was returned exactly once |
| `Checkpoint.LinkKeeps` | engines/default/cmdlogmgr.c:516-529 | logging a link or a replacement keeps recovery equal to the live data of the visited area |
| `Checkpoint.UnlinkKeeps` | engines/default/cmdlogmgr.c:531-540 | so does logging an unlink before the item leaves the table |
| `Checkpoint.ChangeKeeps` | engines/default/cmdlogmgr.c:551-576 | so does an attribute or element change, although a pending snapshot record may already show part of it |
| `Checkpoint.RedoSets` | engines/default/cmdlogrec.c:438-475 | redoing an attribute or element record sets the fields it carries, each to its own value, and no other |
| `Checkpoint.GrabKeeps` | engines/default/chkpt_snapshot.c:373-408 | so does a scan step that adds items to the snapshot |
| `Checkpoint.DumpKeeps` | engines/default/chkpt_snapshot.c:238-279 | so does writing a snapshot record later, with the attributes the item has by then |
| `Checkpoint.CheckpointExact` | engines/default/cmdlogmgr.c:516-576 | for every interleaving, replaying the finished snapshot and then the records written twice gives, for every key, exactly the live item or nothing |
| `CacheLog.Cache.NeedDualWrite` | engines/default/cmdlogmgr.c:36-37 | a record is written twice if and only if a checkpoint scan is open and has passed the item |
| `CacheLog.Cache.LinkItem` | engines/default/item_base.c:992-1028 | with and without a checkpoint: the key then names the new item, which holds the value, nothing else changes, and the link is logged; in a checkpoint it is the link step of the protocol |
| `CacheLog.Cache.ReplaceItem` | engines/default/item_base.c:1074-1131 | with and without a checkpoint: the key then names the new item, nothing else changes, and only the new link is logged; in a checkpoint it is the replace step |
| `CacheLog.Cache.UnlinkItem` | engines/default/item_base.c:1031-1071 | with and without a checkpoint: the key, and no other, is no longer linked; the record is logged before the item leaves the table; in a checkpoint it is the unlink step |
| `CacheLog.Cache.ChangeItem` | engines/default/cmdlogmgr.c:551-576 | the item gets exactly the expire time, the collection information or the changed body that the record carries, its other fields and all other items stay; in a checkpoint it is the change step |
| `CacheLog.Cache.ScanOpen` | engines/default/cmdlogmgr.c:698-706 | starts a checkpoint that has passed and written nothing; the linked items stay as they are |
| `CacheLog.Cache.ScanGetNext` | engines/default/chkpt_snapshot.c:373-408 | is the grab step of the protocol; it stops where the scan of the table does |
| `CacheLog.Cache.Dump` | engines/default/chkpt_snapshot.c:238-279 | is the dump step of the protocol |
| `CacheLog.Cache.ScanClose` | engines/default/cmdlogmgr.c:708-715 | ends dual writing and leaves the linked items as they are |
| `LogRing.RequestQueue.Add` | engines/default/cmdlogbuf.c:238-254 | queues the length of a record: every byte keeps its flag, no request mixes flags or exceeds 32 KB, complete requests are not touched, the record is cut by a request if and only if the growing one with its flag has no room for it, and the ring runs over exactly if it has too few slots, and otherwise has exactly as many in use |
| `LogRing.DividedExact` | engines/default/cmdlogbuf.c:238-254 | a request ends inside a record if and only if what the record joins and the record together exceed 32 KB |
| `LogRing.RequestQueue.Retire` | engines/default/cmdlogbuf.c:172-176 | takes the first request out of the ring |
| `LogRing.RequestQueue.ClearDual` | engines/default/cmdlogbuf.c:287-295 | clears the dual-write flag of every queued byte and nothing else, also in a full ring |
| `LogRing.ByteRing.Copy` | engines/default/cmdlogbuf.c:227-229 | the record goes behind the queued bytes and overwrites none of them |
| `LogRing.ByteRing.Wrap` | engines/default/cmdlogbuf.c:200-202 | going back to the start of the buffer keeps the queued bytes |
| `LogRing.ByteRing.Drop` | engines/default/cmdlogbuf.c:166-171 | takes exactly the first bytes out, over the wrap mark |
| `LogBuffer.Buffer.TryWrite` | engines/default/cmdlogbuf.c:193-225 | one turn of the space loop appends the whole record or changes nothing that is queued; when the record is cut by a request and when the ring of requests runs over, exactly, also after a wrap; if the turn fails in a large enough buffer, a complete request is there to flush |
| `LogBuffer.MarkersRunOver` | engines/default/cmdlogrec.c:1815-1822 | a new buffer of any size, filled with range markers, written twice, and the shortest records of unvisited items in turn: with at most three quarters of the bytes in use, there is room for the next record and the ring of requests runs over |
| `LogBuffer.Buffer.FlushBegin` | engines/default/cmdlogbuf.c:120-145 | chooses bytes with one flag on one side of the dual-write mark and reports the mark exactly when nothing is queued before it |
| `LogBuffer.Buffer.Chunk` | engines/default/cmdlogbuf.c:158-159 | the bytes handed to the file are the first queued ones, though read without the lock |
| `LogBuffer.Buffer.FlushEnd` | engines/default/cmdlogbuf.c:166-178 | exactly the flushed bytes leave the queue, and the mark moves with them |
| `LogBuffer.Buffer.CompleteDual` | engines/default/cmdlogbuf.c:267-283 | the mark is set behind everything queued, unless the ring of requests runs over |
| `LogBuffer.Buffer.AbandonDual` | engines/default/cmdlogbuf.c:284-296 | after a failed checkpoint no queued byte goes to two files |
| `LogFiles.WriteKeeps` | engines/default/cmdlogbuf.c:226-254 | logging a record keeps files, dual-write size and LSNs in agreement with the log |
| `LogFiles.FailDualKeeps` | engines/default/cmdlogbuf.c:284-296 | a failed checkpoint keeps the invariant: no byte logged so far counts for a next file any more, though a chunk under way still carries its flag |
| `LogFiles.CloseNextKeeps` | engines/default/cmdlogfile.c:298-320 | so does closing its log file, whose size is kept |
| `LogFiles.SwitchFileKeeps` | engines/default/cmdlogfile.c:176-194 | the next file takes over with the records written twice for it, and with a chunk that came too late for an earlier one |
| `LogFiles.WriteFileKeeps` | engines/default/cmdlogfile.c:141-174 | a chunk goes behind what the current file holds, and behind what the next one holds if it is written twice; sizes, and what is wasted of them, are counted |
| `LogFiles.StepKeeps` | engines/default/cmdlogbuf.c:112-298 | every step of writers, flusher, syncer and of checkpoints that succeed or fail keeps the invariant |
| `LogSync.NeedWritten` | engines/default/cmdlogfile.c:208-269 | what must be on disk for a flushed position has been written to the files |
| `LogSync.FdsKeep` | engines/default/cmdlogfile.c:219-233 | descriptors read after the flush LSN cover it, also when the files were switched in between |
| `LogSync.AllKeep` | engines/default/cmdlogfile.c:208-269 | every step keeps the durability invariant: all below the fsync LSN is on disk, in both files if written twice |
| `LogSync.RunKeeps` | engines/default/cmdlogfile.c:141-320 | so every state of every run, with any failed checkpoints in it, satisfies both invariants |
| `LogRuns.NothingLost` | engines/default/cmdlogbuf.c:112-265 | in every state of every run, what the files hold of the log, then what is buffered, is the concatenation of all record images in order |
| `LogRuns.SwitchExact` | engines/default/cmdlogbuf.c:147-156 | at every switch the new file holds the records written twice behind what came to it too late; its size is `dw_size`, as the assertion there says, if and only if no chunk was wasted since the last switch, and then it holds exactly those records |
| `LogRuns.JunkExact` | engines/default/cmdlogfile.c:160-172 | in every state of every run, the size kept for the next file exceeds the dual bytes written if and only if some chunk since the last switch came too late or its checkpoint has failed since |
| `LogRuns.ExtraExact` | engines/default/cmdlogfile.c:160-172 | in every state of every run, a file begins with bytes that were not logged for it if and only if a chunk chosen for the file of a failed checkpoint was written to it since it was opened |
| `LogCases.SizeAssertionFails` | engines/default/cmdlogbuf.c:149-150 | a run: one record is written twice, its checkpoint fails, the next one succeeds, and the sizes differ |
| `LogRuns.PendingBytes` | engines/default/cmdlogbuf.c:230-236 | write LSN minus flush LSN is the number of buffered bytes, also while the two count in different files |
| `LogRuns.LsnsMonotone` | engines/default/cmdlogbuf.c:152-164 | no step takes the write, flush or fsync LSN back |
| `LogRuns.DurableByte` | engines/default/cmdlogfile.c:208-269 | a durable byte is on disk at its place in the file its LSN names |
| `LogRuns.DurableTwice` | engines/default/cmdlogfile.c:208-269 | and, if written twice for a file, at its place in that file too |
| `LogRuns.BoundsInside` | engines/default/cmdlogbuf.c:243-254 | in every state of every run, no flush ever ends inside a logged record except where a request cuts it |
| `LogRuns.NotifiedDurable` | engines/default/cmdlogmgr.c:263-310 | in every run, when a record's LSN is below the fsync LSN, everything logged before it is durable, and the record itself up to a cut of a flush request in it, or wholly |
| `LogRuns.WholeDurable` | engines/default/cmdlogmgr.c:263-310 | a record that no flush request cuts is then wholly durable |
| `LogCases.CutRecordTold` | engines/default/cmdlogbuf.c:243-254 | a run: a record of 32 KB and a byte is below the fsync LSN while its last byte is in no file |
| `CommandLog.Log.TryWrite` | engines/default/cmdlogbuf.c:182-265 | is the write step of the protocol, with the cuts that the real requests make, or leaves it unchanged, or the ring of requests runs over, exactly when the buffer says; there are cuts if and only if the growing request has no room |
| `CommandLog.Log.Write` | engines/default/cmdlogbuf.c:182-265 | with room for two records and a request, the loop of forced flushes ends: the record is logged with the LSN that was next, or the ring of requests runs over, which is settled by how the buffer stood at the beginning: by the first turn that finds room or runs over, each turn before it taking one request out; with room at once nothing is flushed, and a ring with slots to spare never runs over |
| `CommandLog.Log.FlushBegin` | engines/default/cmdlogbuf.c:112-145 | is the choosing step of the protocol, or nothing when there is nothing to do |
| `CommandLog.Log.SwitchFile` | engines/default/cmdlogfile.c:176-194 | is the switching step; the comparison of sizes holds if and only if nothing was wasted, and then the new file has that size |
| `CommandLog.Log.SwitchLsn` | engines/default/cmdlogbuf.c:152-156 | is the step that moves the flush LSN to the new file |
| `CommandLog.Log.WriteFile` | engines/default/cmdlogfile.c:141-174 | is the file-writing step, with the bytes the real buffer holds |
| `CommandLog.Log.CountLsn` | engines/default/cmdlogbuf.c:161-164 | is the counting step |
| `CommandLog.Log.FlushEnd` | engines/default/cmdlogbuf.c:166-178 | is the finishing step |
| `CommandLog.Log.Flush` | engines/default/cmdlogbuf.c:112-180 | one whole flush takes at most one request out of the buffer, the first one and all of it, and one whenever a complete one is queued; its assertion holds if and only if it does not switch files or nothing was wasted |
| `CommandLog.Log.CompleteDual` | engines/default/cmdlogbuf.c:267-283 | is the step that ends a successful checkpoint, unless the ring of requests runs over |
| `CommandLog.Log.FailDual` | engines/default/cmdlogbuf.c:284-296 | is the step of a failed checkpoint: the real flags and size are cleared |
| `CommandLog.Log.CloseNext` | engines/default/cmdlogfile.c:298-320 | is the step that closes its log file, which waits for a running sync |
| `CommandLog.Log.OpenNext` | engines/default/cmdlogfile.c:271-296 | is the step that opens the next file, allowed once the previous switch is settled or the failed file closed |
| `CommandLog.Log.ReadFds` | engines/default/cmdlogfile.c:222-232 | is the step that reads the descriptors and takes over the previous one |
| `CommandLog.Log.SyncPrev` | engines/default/cmdlogfile.c:234-239 | is the step that syncs the previous file |
| `CommandLog.Log.EndSync` | engines/default/cmdlogfile.c:260-263 | is the step that publishes the fsync LSN |
| `GroupCommit.WaitList.EndWaiter` | engines/default/cmdlogmgr.c:348-392 | a writer waits if and only if its LSN is not below the fsync LSN; the count is the length of the list |
| `GroupCommit.WaitList.Release` | engines/default/cmdlogmgr.c:180-218 | releases a front of the list, all of it below the fsync LSN, and stops at the first waiter that is not; the count stays the length |
| `GroupCommit.Committer.Record` | engines/default/cmdlogbuf.c:345-352 | a record is logged with the LSN its writer waits for, or the ring of requests runs over, exactly when the log says |
| `GroupCommit.ToldSafe` | engines/default/cmdlogmgr.c:263-310 | whoever is told on the strength of an fsync LSN read at any earlier state has everything logged before its record on disk, and the record up to a cut in it, or wholly |
| `GroupCommit.Committer.EndWaiter` | engines/default/cmdlogmgr.c:362-392 | a writer that need not wait has its record on disk in that sense; one that waits is in the list |
| `GroupCommit.Committer.Sync` | engines/default/cmdlogfile.c:208-269 | a sync run to its end takes the fsync LSN at least to the flush LSN read at its beginning |
| `GroupCommit.Committer.Release` | engines/default/cmdlogmgr.c:180-218 | everyone released on an fsync LSN that the thread read earlier has its record on disk in that sense |
| `GroupCommit.Committer.Commit` | engines/default/cmdlogmgr.c:287-309 | one turn of the thread releases only such writers, and the first who still waits had not been flushed when the turn began |
| `GroupCommit.Committer.Meanwhile` | engines/default/cmdlogmgr.c:263-310 | whatever steps the log takes in between, the list stays tied to its run |
| `Recovery.RedoPending` | engines/default/cmdlogfile.c:380-421 | redoes the records with a body between two offsets, or fails |
| `Recovery.Apply` | engines/default/cmdlogfile.c:423-559 | the loop with its offsets and pending range computes `Recover`, for any file content; an `int` offset overflows exactly if `Overflows` holds, and never below 2 GB |
| `Recovery.OverflowsCut` | engines/default/cmdlogfile.c:441-500 | for a well-formed log cut at any byte, the offsets overflow if and only if the complete records, or the header of the one that is cut off, reach 2 GB |
| `Recovery.EncodeLayout` | engines/default/cmdlogrec.h:99-110 | the image of a record: types, reserved bytes, the length of the body with the low byte first, the body |
| `Recovery.RecordRead` | engines/default/cmdlogrec.h:99-110 | a complete record image reads back as the record |
| `Recovery.CompleteLongest` | engines/default/cmdlogfile.c:423-559 | the complete records are the longest prefix of the log that fits in the file |
| `Recovery.RedoSettles` | engines/default/cmdlogfile.c:468-500 | replaying with a held-back range redoes exactly the records outside ranges and in ranges whose END is present |
| `Recovery.RedoClosed` | engines/default/cmdlogfile.c:468-500 | replaying redoes exactly the records in front of the last point at which no range is open |
| `Recovery.RecoverCut` | engines/default/cmdlogfile.c:423-559 | for any sequence of valid records cut at any byte, recovery fails if and only if markers are out of place, and otherwise redoes exactly the settled records |
| `Recovery.RecoverTruncated` | engines/default/cmdlogfile.c:423-559 | a well-formed log cut at any byte is recovered: the settled records once and in order, and the log resumes behind the last complete record |
| `Recovery.RecoverAgain` | engines/default/cmdlogfile.c:546-552 | new records overwrite the recovered file from where it resumes; a second recovery redoes exactly the records of both and resumes behind them if and only if the first did not stop inside a range and the bytes left over read as at most an incomplete record |
| `Recovery.StaleTail` | engines/default/cmdlogfile.c:271-296 | a record cut off, then a shorter one written over it: the bytes left over make the next recovery fail |
| `Recovery.DanglingRange` | engines/default/cmdlogfile.c:468-478 | a log that ends with BEGIN: the next recovery forgets what follows, or fails at the next BEGIN |
| `CrashLog.LogIsFlat` | engines/default/cmdlogbuf.c:226-254 | the log of every run is the images of the records logged, each with its flag |
| `CrashLog.RunAligned` | engines/default/cmdlogbuf.c:267-296 | in every run checkpoints begin and end, and files take over, between two records |
| `CrashLog.DualsRanged` | engines/default/cmdlogmgr.c:678-696 | what is written twice begins and ends the same ranges, because markers are |
| `Crash.FileHolds` | engines/default/cmdlogfile.c:141-194 | if no chunk came too late for it, the log file that recovery takes, current or next, holds a front of the images of the records written twice during its checkpoint, then of all records since |
| `Crash.RecoverHeld` | engines/default/cmdlogfile.c:423-559 | of any front of such a file recovery redoes exactly the changes in front of the last point outside all ranges, among the records it has in full |
| `Crash.CrashConsistent` | engines/default/checkpoint.c:415-434 | after a crash that leaves any front of that file with all of its checkpoint's part, if no chunk came too late for it, an exact snapshot and then the recovered log give, for every key, the cache as it was after some number of records, outside all ranges and no fewer than the disk has in full |
| `Crash.AckedDurable` | engines/default/cmdlogmgr.c:263-310 | when an uncut record was acknowledged, the log is durable up to its end |
| `Crash.NoneLost` | engines/default/checkpoint.c:415-434 | if no chunk came too late for the file, once an update logged after its checkpoint was acknowledged with its range, every restart has it and all updates before it |
| `Crash.KeysKept` | engines/default/checkpoint.c:415-434 | if no chunk came too late for the file, whatever front of it is left, a key whose last update was acknowledged, or that was never updated, has after the restart what it had |
| `Lifetime.RedoIsOperation` | engines/default/cmdlogmgr.c:516-576 | redoing the record of a cache operation does to the cache what the operation did |
| `Lifetime.ViewExact` | engines/default/chkpt_snapshot.c:373-413 | a finished checkpoint's snapshot and the records written twice make the cache, or the cache before the range that is open, also before the scan is closed |
| `Lifetime.ChangeRecovered` | engines/default/cmdlogmgr.c:551-576 | after a checkpoint with any updates in it, the value recovered for a key shows its last attribute or element change, field by field |
| `Lifetime.StepOk` | engines/default/cmdlogmgr.c:678-715 | every step of a server, of its operations, ranges, checkpoints that succeed or fail, flusher and syncer, keeps cache, checkpoint and log in agreement |
| `Lifetime.LifeOk` | engines/default/checkpoint.c:232-286 | so they agree at every moment of every life of a server |
| `Lifetime.CrashConsistent` | engines/default/checkpoint.c:383-434 | in every life, at any moment, whichever finished checkpoint recovery takes, also before its scan is closed or its file current: if no chunk came too late for its log file and the disk has all the file was given during the checkpoint, the restart gives the cache after some number of records, outside all ranges and no fewer than when the checkpoint ended |
| `Lifetime.NoneLost` | engines/default/checkpoint.c:383-434 | and if an update logged after the checkpoint was acknowledged, the restart has it and all updates before it |
| `Lifetime.KeysKept` | engines/default/checkpoint.c:383-434 | and even if part of what the file was given is lost, a key whose last update was acknowledged is what it was |
| `CrashRuns.LateRun` | engines/default/cmdlogbuf.c:147-164 | a run: a record is taken by the flusher, its checkpoint fails, the next one gets it, succeeds and its file takes over |
| `CrashRuns.UnsyncedRun` | engines/default/cmdlogbuf.c:147-164 | a run: a record is written twice, its checkpoint succeeds and its file takes over with nothing of it on disk |
| `CrashCases.LateRestart` | engines/default/checkpoint.c:383-434 | after the first run, with real records, an exact snapshot and the whole file on disk, the restarted cache is one that was if and only if the key was set to the same twice |
| `CrashCases.LostDual` | engines/default/checkpoint.c:383-434 | after the second run, with real records and an exact snapshot, a crash that leaves what is on disk makes a cache that never was |
| `Splitting.SplitJoin` | mc_util.c:310-342 | splitting yields delimiter-free tokens that, joined again, are the string |
| `Splitting.SplitGlue` | mc_util.c:310-342 | the tokens of two strings put together are their tokens, glued where they meet |
| `Tokenizer.TokenizeMblck` | mc_util.c:381-416 | succeeds if and only if no token is empty, no stray space occurs and there are not too many tokens, and then yields exactly the tokens |
| `Stitching.CountBlocks` | mc_util.c:424-455 | the first pass fails exactly for a stitched token that is too long, and counts the blocks that greedy packing takes |
| `Stitching.PackedLeast` | mc_util.c:424-455 | no way of packing strings in their order into blocks takes fewer blocks, or leaves less in the last of as many |
| `Stitching.PackedFits` | mc_util.c:424-455 | strings that fit in a block are packed so that no block takes more than it holds |
| `Stitching.Copy` | mc_util.c:462-485 | the second pass uses exactly the blocks counted, and every token then reads as its two pieces |
| `Stitching.Concat` | mc_util.c:424-489 | fails exactly for a too long token or for want of blocks, and otherwise makes every cut token whole |
| `KeyBlocks.PartClean` | mc_util.c:528-560 | if the key string is clean, so is what is tokenized of every block, and all tokens but the last are final |
| `KeyBlocks.PartFits` | mc_util.c:528-560 | if the whole key string fits, so does what is tokenized of every block |
| `KeyBlocks.AcceptedStep` | mc_util.c:528-560 | on the way to a boundary up to which the string fits, every block passes |
| `KeyBlocks.TripStep` | mc_util.c:528-560 | so does every block on the way to a lone delimiter |
| `KeyBlocks.StopRead` | mc_util.c:562-578 | when the tokens suffice at a block boundary, a token ends there and the front up to it is what was read |
| `KeyBlocks.AcceptsThree` | mc_util.c:528-578 | a key string of three tokens where two are due, accepted |
| `KeyBlocks.TripsOnDelimiter` | mc_util.c:381-384 | a key string on which the assertion fails |
| `KeyBlocks.NotCutTwice` | mc_util.c:515-516 | no token can be cut by two block boundaries |
| `Supply.DemandMore` | mc_util.c:424-460 | stitching more tokens, in groups of 128, takes no fewer blocks |
| `Supply.NeedMore` | mc_util.c:518-591 | so a front of a key string needs no more blocks than all of it |
| `Mblocks.SaveCut` | mc_util.c:572-590 | a cut token's first piece is saved, after stitching when the array of 128 is full, which fails exactly for a token among those that is too long, and for want of blocks only if they cost more than are left |
| `Mblocks.Cross` | mc_util.c:554-591 | on to the next block: a token ends at the boundary, or its first piece is saved; the pool runs out only where a full array must be stitched and the tokens cut so far need more blocks than there are |
| `Mblocks.EndsOnce` | mc_util.c:518-591 | a key string is accepted at one boundary at most |
| `Mblocks.Pass` | mc_util.c:518-591 | one pass reads the tokens of a front of the flat string that ends with a token; it passes whenever the string is to be accepted, and trips the assertion if and only if `Trips` holds |
| `Mblocks.PassAccepted` | mc_util.c:592-607 | what a pass has read is accepted if and only if its tokens, made whole, are short |
| `Mblocks.TokenizeMblocks` | mc_util.c:495-607 | any success yields the first `keycnt` tokens of the flat string, none empty or too long; a key string to be accepted succeeds if and only if the pool has the blocks that its cut tokens need, packed in groups of 128, for spaces and for commas; it runs out only at a boundary where that many are needed; with a block per key block in the pool, success and the failing assertion are settled by the key string, each if and only if; a key string that fits succeeds |
| `Ketama.OwnerUnique` | cluster_config.c:107-123 | a hash value has at most one owner, because ties go by name |
| `Ketama.OwnerExists` | cluster_config.c:536-560 | and, in a non-empty cluster, one |
| `Ketama.Monotone` | cluster_config.c:107-123 | when a node joins, a key keeps its owner or moves to the new node, also with equal hash points |
| `Ketama.SuccessorOwns` | cluster_config.c:461-475 | the node of the clockwise successor on the sorted continuum is the owner, a notion of the set of names only |
| `Cluster.FindNode` | cluster_config.c:353-368 | binary search finds a name exactly if it is there |
| `Cluster.FindCont` | cluster_config.c:536-560 | finds the first item at or after the hash value, over duplicates and around the end |
| `Cluster.Config.Acquire` | cluster_config.c:406-431 | takes a node item for every name, and fails exactly when fewer are free than names are new |
| `Cluster.Config.Release` | cluster_config.c:370-379 | items that nobody holds go back to the free list; no item is lost |
| `Cluster.Config.BuildContinuum` | cluster_config.c:461-475 | the continuum is all slices of all nodes, in order |
| `Cluster.Config.Reconfigure` | cluster_config.c:617-670 | leaves exactly the given names as members, whatever was configured before, with node items conserved; aborts if and only if too few are free, and leaves everything as it is if and only if the names are those it had |
| `Cluster.Config.KeyIsMine` | cluster_config.c:678-698 | stops on its assertion if and only if nothing was configured, reads a missing item if and only if the cluster was configured empty, and otherwise true if and only if this server is the owner in its set of members |
| `Cluster.Agreement` | cluster_config.c:617-698 | two servers with histories and orders of their own, whose last lists name the same nodes, give every key to the same node, and each takes it for its own exactly if it is that node; that they get through their histories is settled by the histories |
| `Cluster.ExactlyOneOwner` | cluster_config.c:678-698 | exactly one member takes a key for its own |
| `Cluster.ReplaceAll` | cluster_config.c:203-221 | ten nodes cannot be replaced by ten others in one step |
| `Cluster.Follow` | cluster_config.c:617-670 | a server works through a history of lists if and only if none of them asks for more node items than the history has left it, and then has the last list |
| `Cluster.OneWayWorks` | cluster_config.c:203-221 | it does if nodes join or leave, but not both in one step |
| `Glob.PatternMatch` | util.c:282-331 | the loop with one saved star decides, for every text and pattern, what full backtracking would: a backslash takes the next character literally where the text has it and stands for itself elsewhere; for a text without backslash that is the glob relation |
| `Glob.StarTakesOver` | util.c:299-305 | a new star makes the saved one needless, although a backslash makes the pattern take a varying number of characters |
| `Glob.WalkToStar` | util.c:299-324 | a reading of the pattern that starts later in the text never overtakes the one that the loop follows, so it cannot avoid the next star |
| `Glob.LoopExact` | util.c:289-324 | at every position the loop decides whether the rest is accepted, here or after the saved star |
| `Glob.GlobExact` | util.c:282-331 | for a text, every pattern is decided exactly if and only if the text has no backslash; and so for the patterns that the scan command admits |
| `Md5.Encode` | rfc1321/md5c.c:272-282 | words become bytes: the low byte first, so that four bytes read as their word |
| `Md5.PaddedIs` | rfc1321/md5c.c:154-168 | the padded message: the message, one bit, the fewest zero bytes that leave eight to a whole block, the bit length modulo 2^64 with the low byte first (sections 3.1 and 3.2 of RFC 1321) |
| `Md5.InitBytes` | rfc1321/md5c.c:100-109 | the chaining words at the start read, low byte first, as the bytes of section 3.3 of RFC 1321 |
| `Md5.Context.constructor` | rfc1321/md5c.c:100-109 | a new context has been fed nothing |
| `Md5.Context.Count` | rfc1321/md5c.c:122-126 | the two-word counter is the bit length modulo 2^64, with the carry |
| `Md5.Context.Update` | rfc1321/md5c.c:115-149 | the state is the block function folded over all complete blocks fed, and the buffer holds the rest, unless the 32-bit loop bound wraps, and exactly when it does |
| `Md5.Context.Final` | rfc1321/md5c.c:154-177 | the digest is the four words, low byte first, of the block function folded over the message padded as in sections 3.1 and 3.2 of RFC 1321 |
| `Md5.Stream` | rfc1321/md5c.c:100-177 | however a message is split into updates, the digest is the same, unless one of them wraps the loop bound, and exactly when one does |
| `DList.Remove` | topkeys.c:80-86 | takes a link out of the circular list |
| `DList.InsertFirst` | topkeys.c:88-94 | puts a link behind the head |
| `GenHash.Table.Find` | genhash.c:128-156 | returns what the map of the table says |
| `GenHash.Table.Update` | genhash.c:158-177 | sets one key of the map |
| `GenHash.Table.Delete` | genhash.c:217-250 | removes one key of the map |
| `TopKeys.TouchTake` | topkeys.c:114-135 | keeping the most recent keys at every step is keeping the most recent keys of all |
| `TopKeys.RecencyOrder` | topkeys.c:114-135 | earlier in the recency list means used later |
| `TopKeys.Index.Use` | topkeys.c:114-135 | after any accesses the list is exactly the `max_keys` most recently used distinct keys in recency order; hash table, list and count agree |

## Left out

- Assoc.HashTable.ScanInit: takes `scan->tabidx` to start at 0, which `assoc_scan_init` leaves unset.
- CacheLog.Cache.LinkItem: not the link record that is held back when an element insert creates the collection.
- CacheLog.Cache.UnlinkItem: not the unlink record that is held back when a delete drops the collection.
- CacheLog.Cache.ChangeItem: flush-all, B+trees with a maximum bkey range, and the waiter flags that merge a collection's creation or drop with an element record.
- CacheLog.Cache.ScanGetNext: internal and expired items are not filtered out of what the scan returns.
- CommandLog.Log.Flush: goes on after a failed assertion as a build without assertions would.
- CommandLog.Log.Write: no other thread takes a step between a failed turn and the forced flush.
- CommandLog.Log.OpenNext: opening the next file and beginning to write twice are one step; a checkpoint that fails before its scan begins is one that fails at once.
- Cluster.Config.Acquire: not for lists that repeat a name.
- Cluster.Config.Reconfigure: not for lists that repeat a name.
- Cluster.Agreement: not for lists that repeat a name.
- Cluster.Config.KeyIsMine: the answer for an unknown cluster, which takes a failed allocation after a first configuration.
- Glob.GlobExact: the scan command's limits on the length of a pattern and on its number of stars.
- Recovery.Apply: redo of a record as such, and its failure for want of memory.
- Recovery.RecoverCut: files from 2 GB on, where the `int` offsets of `Apply` overflow.
- Recovery.RecoverTruncated: files from 2 GB on, where the `int` offsets of `Apply` overflow.
- Crash.FileHolds: not for a file that a chunk came too late for; such a file begins with that chunk (`LogRuns.ExtraExact`).
- Crash.CrashConsistent: not for such a file, where it fails (`CrashCases.LateRestart`); the conditions are sufficient only, since a late or a missing record may happen not to matter.
- Crash.NoneLost: not for such a file, for the same reason.
- Crash.KeysKept: not for such a file, for the same reason.
- Lifetime.CrashConsistent: outside a checkpoint the cache is what its records make of it, without the hash table; the conditions are sufficient only, as above.
- Lifetime.NoneLost: not for a file that a chunk came too late for.
- Lifetime.KeysKept: not for a file that a chunk came too late for.
- LogSync.RunKeeps: a run begins with a log file that ends where logging resumes, so no run carries the bytes left over that `Recovery.RecoverAgain` is about.
- Linked chains of hash items, entries and waiters are sequences in fields; update in place is modelled, aliasing of nodes is not. The top-keys list has real links.
- Node items of the ring are named by their node; their reference counts are a map.
- The log with asynchronous logging, which closes the previous file without syncing it.
- The growth of the array of sub-tables, 16-bit overflow of bucket references, and other allocation failures.
- The waiter pool, the memory-block pool and the snapshot buffer: free lists and a buffer that would only add easy members.
- Sweeping of checkpoint files, threads, timers, ZooKeeper, the text of log messages, statistics.
- The arithmetic of one MD5 block, the key hash, the layouts of individual log records.
