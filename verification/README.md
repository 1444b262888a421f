# A Dafny model of the storage back end

This project models the hard parts of the repository's key-value back end in Dafny and proves what
they are for. `dafny verify dfyconfig.toml` checks all of it.

## What is modelled

| files | part of the program |
|---|---|
| `Text`, `KeyOrder` | delimiter scanning, decimal printing, the iteration order of `std::map` |
| `RowCodec`, `Chunks`, `ChunkLayout` | the row a user is evicted as, and the append-only chunk files |
| `FlatStore` | the store a client sees: one map from user to file to bytes, and the size record. It is the independent reference; it knows no memory, disk or recency |
| `TieredStore`, `Tiering`, `Refinement`, `Recency`, `Overfill`, `Accounting` | the two-tier store as functions on values, its refinement of the flat store, and how much of it is in memory |
| `LruCache` | the same store as the source has it: a class over heap nodes in a doubly linked list, each method proved to compute the function of the same name in `TieredStore` |
| `Shipped` | statements of `lrucache.cc` exactly as shipped, where the project repairs them |
| `MetaCodec`, `Recovery`, `RecoveryLimit`, `Chunkserver` | checkpoint files, restart, log replay, and the storage node's loops |
| `Replication`, `Reports`, `Primary`, `Wire`, `LogFile` | the primary/secondary protocol as a step system, what its reports leave held, the primary's books as a class, and the text of requests, messages and the log |
| `Migration` | moving users between nodes |
| `Ring`, `Master` | consistent hashing, and the master's tables as a class |
| `Balancer`, `ReplaceAll` | the round-robin scan and in-place replacement |

A mutable class or a loop of the source is a class or a loop here, with a specification function
beside it; the laws are lemmas about the specification functions. `LruCache` calls nothing
recursively without a termination measure: its `decreases` clauses (kind of put, then depth) say
that an external put may reload, that a reload issues internal puts, and that an internal put never
reloads, so reloads do not nest.

Strings are sequences of bytes. `\r\n` is part of a stored value, as in the source. Sizes are
unbounded integers; `Accounting.RunAccounting` shows that with the configured capacity the `int`
counter stays below 2^31. File names and stored values must be free of commas wherever a row of
them is written: the source says so itself (`kvstore/lrucache.cc:108`), and
`RowCodec.RowRoundTripIff` shows that the requirement is exact.

## Where the model repairs the source

Each repair has a lemma that says exactly when the shipped statement was right.

- `put_helper` moves a linked node to the tail without unlinking it (`kvstore/lrucache.cc:252`,
  `259`). The model unlinks first, as `get_helper` does. `Shipped.MoveToTailIff`.
- `dele` takes an emptied user out of `tablets` but leaves its node linked
  (`kvstore/lrucache.cc:382-385`). The model unlinks it. `Shipped.DeleShippedIff`.
- `write_to_chunk` advances the chunk number without resetting the offset
  (`kvstore/lrucache.cc:135`, `139`), although slot 1 is the current chunk's size
  (`kvstore/kvstore.cc:63-65`). The model resets it, and rounds the number of chunks up exactly
  instead of through `float`. `ChunkLayout.ShippedReadsBackIff`.
- `cput` subtracts the old size before it knows whether it will store, and tries `put_helper` once
  (`kvstore/lrucache.cc:353-356`). The model has the eviction loop of `put` and leaves the sizes
  alone on rejection. `Shipped.CputShippedIff`.
- `rename` onto an existing file does not subtract the overwritten bytes
  (`kvstore/lrucache.cc:455-456`). The model does. `Shipped.RenameShippedIff`.
- `parse_line` uses a counter it does not declare (`kvstore/chunkserver.cc:67`). The model starts
  it at 0.
- `migrate_data` erases from the map it iterates over and assumes the user is in memory
  (`kvstore/chunkserver.cc:511`, `527`). The model loads the user and iterates over a copy of the
  names.

Departures that the model keeps, with the exact condition under which they do no harm:

- The disk branch of `put_helper` adds the value on top of the reloaded files with no second check.
  `Overfill.PutWithinIff` says, from the list and the size record before the put, when this stays
  within capacity, and `Overfill.RunWithinIff` that a run does so all along if and only if it has no
  such put. `Accounting.OverfillReached` is a run that has one.
- A checkpoint with more than `capacity` resident bytes, or with a user name its files cannot hold,
  does not restart: `RecoveryLimit.RestartExactIff`.
- A rename is not replayed (`Recovery.RenameLostIff`). Neither is a request whose command word has an
  upper-case letter: live requests are compared in lower case, logged ones as they were typed. The
  smallest input is `PUT a,f,v` (`LogFile.UpperCasePut`); `LogFile.RecoversThroughoutIff` gives the
  condition over whole runs.
- A request that the secondary refused, or whose report was lost with the connection, stays held and
  is executed again at the next connection. `Replication.InStepIff` says in which runs the secondary
  stays a copy of the primary's past all along, `Replication.IdleIff` which repetitions change
  nothing, and `Replication.RefusedThenLost` is a run that loses a file.
- Users taken in by a migration are neither logged nor passed on to the secondary
  (`kvstore/kvstore.cc:350`, `kvstore/chunkserver.cc:355-360`): `Migration.MigrationLostIff` for the
  log, `Replication.PassedOnIff` and `Replication.IntakeIff` for the secondary.
- The master hands over names by `k < id`: `Ring.HandoverIff`, `Ring.JoinKeepsIff`, and
  `Ring.BetweenHandover` for the test that is always right.

## Model

| member | source | states |
|---|---|---|
| Text.TokensRoundTrip | kvstore/kvstore.cc:489-499 | scanning a text of terminated pieces yields exactly those pieces, for any delimiter they do not contain |
| Text.TokensRebuild | kvstore/lrucache.cc:158-176 | for every text, the scanned pieces and what is left put the text back together, and none contains the delimiter |
| Text.StoiOfToDec | kvstore/chunkserver.cc:116-123 | every printed number reads back as itself |
| Text.ToDecOnly | kvstore/chunkserver.cc:107-123 | the printed form of a number is the only text of digits without a leading zero that has its value |
| Text.StoiReads | kvstore/chunkserver.cc:125-137 | a number is read up to the first character that is no digit, and fails without any |
| KeyOrder.SortedKeysAscend | kvstore/lrucache.cc:107 | keys are visited in ascending byte order |
| KeyOrder.LexAt | kvstore/lrucache.cc:107 | on texts equal before a position, a proper prefix comes first and otherwise the smaller character there decides |
| KeyOrder.AscendingIs | kvstore/lrucache.cc:107 | no other ascending list has the same keys |
| RowCodec.FormatNodeLoop | kvstore/lrucache.cc:105-113 | the loop builds the row of all files in name order and returns the sum of the value lengths |
| RowCodec.RowRoundTripIff | kvstore/lrucache.cc:105-176 | restoring a printed row by append-puts gives the same file map back if and only if no name and no value contains a comma |
| RowCodec.RestoreMore | kvstore/lrucache.cc:158-176 | in any row two more pieces are one more append, and a last piece alone is ignored |
| Chunks.WriteRowLoop | kvstore/lrucache.cc:115-145 | the loop over a computed number of chunks, with its moving start, writes what the recursive description of the layout says |
| Chunks.WriteRowReads | kvstore/lrucache.cc:86-145 | at every offset and for every length the row reads back, all other users' rows read as before, and the recorded offset is again the length of the current chunk file |
| Chunks.ReadExtentIs | kvstore/lrucache.cc:197-214 | a piece is as long as its record says, the bytes of the file and zeros past its end, and empty when the file is missing |
| ChunkLayout.WriteRowDisjoint | kvstore/lrucache.cc:86-103 | no two records, of one user or of two, ever share a byte |
| ChunkLayout.PiecesShape | kvstore/lrucache.cc:120-144 | the pieces of a row lie in consecutive chunks, each inside one chunk; all but the last run to its end and all but the first start at 0 |
| ChunkLayout.WriteRowPieces | kvstore/lrucache.cc:115-145 | the records of a written row are exactly these pieces, and the allocator stands at the end of the last |
| ChunkLayout.ShippedReadsBackIff | kvstore/lrucache.cc:131-141 | without the reset of the offset a row reads back if and only if it fits in the current chunk |
| FlatStore.NextOk | kvstore/lrucache.cc:350-387 | every operation keeps each user's size entry equal to the number of its value bytes and below capacity |
| FlatStore.ClientSees | kvstore/lrucache.cc:219-466 | seen through get alone, a refused operation changes nothing and a successful one exactly the named files: append, swap of the value a get sees, removal, move |
| FlatStore.ReplyIs | kvstore/lrucache.cc:219-466 | which of the nine answers each operation gets, in terms of the files the user has and their bytes: existence, the value seen, and the two size limits |
| Tiering.EvictUntilOk | kvstore/lrucache.cc:324-333 | the eviction loop sends some first users of the list to disk, ends with room for the value or nobody left, and changes the joined map not at all |
| Tiering.EvictLeast | kvstore/lrucache.cc:324-333 | the eviction loop evicts no more than it must: before each eviction the value did not fit |
| Tiering.EvictProtects | kvstore/lrucache.cc:324-333 | the eviction loop never evicts the most recently used user while that user and the value fit together, and it ends with room |
| Tiering.RestoreUserOk | kvstore/lrucache.cc:158-176 | restoring a row gives the user exactly its files, evicts others at most, never itself, and keeps every list and table fact |
| Refinement.ReloadOk | kvstore/lrucache.cc:178-217 | a reload brings a user's files back to memory and leaves the joined map as it was |
| Refinement.AccessOk | kvstore/lrucache.cc:288-305 | looking a user up leaves the joined map as it was and makes that user the most recent one |
| Refinement.PutOk | kvstore/lrucache.cc:219-286 | a put, through any evictions and a reload, is an append in the flat map with the same reply |
| Refinement.CputOk | kvstore/lrucache.cc:350-362 | a cput is compare-and-swap in the flat map, with the same reply in all five outcomes |
| Refinement.DeleOk | kvstore/lrucache.cc:364-387 | a dele removes the file, and the user with its last file |
| Refinement.RenameOk | kvstore/lrucache.cc:451-466 | a rename moves the value, replacing whatever was there |
| Refinement.StepOk | kvstore/lrucache.cc:219-387 | one operation keeps the invariant (no user in both tiers, list and table agree, counters exact) and does to the joined map, the sizes and the reply what the flat store does |
| Refinement.RunRefines | kvstore/lrucache.cc:219-466 | over every run the two tiers joined are the flat store after the same operations, and all replies are equal |
| Recency.StepAges | kvstore/lrucache.cc:147-156 | an operation on a user drops some least recently used users and makes that user the most recent; nothing else moves |
| Recency.RunByRecency | kvstore/lrucache.cc:288-305 | over every run the list is sorted by time of last access, so the evicted user is always the least recently accessed one |
| Accounting.RunAccounting | kvstore/lrucache.cc:223-267 | after every run memory_used is the sum of the resident sizes and below twice the capacity, user_size is each user's total over both tiers and below capacity, and the int counter does not overflow with the configured capacity |
| Overfill.PutUsed | kvstore/lrucache.cc:219-286 | the resident bytes after any accepted put, exactly: what the eviction loop leaves for the larger of the value and the reloaded files, and both of these |
| Overfill.PutWithinIff | kvstore/lrucache.cc:256-263 | an accepted put stays within capacity if and only if it does not reload its user, or what the evictions leave, the reloaded bytes and the new ones fit together |
| Overfill.StepWithinIff | kvstore/lrucache.cc:219-466 | from a state within capacity any operation stays within it if and only if it is no overfilling put |
| Overfill.RunWithinIff | kvstore/lrucache.cc:219-466 | a run stays within capacity all along if and only if none of its operations is an overfilling put where it is served |
| Accounting.OverfillReached | kvstore/lrucache.cc:256-263 | a run that ends with 13 bytes in a memory of 10 |
| Shipped.MoveToTailIff | kvstore/lrucache.cc:68-73 | the four assignments leave a doubly linked list if and only if the node was not linked before |
| Shipped.ShippedTouchCuts | kvstore/lrucache.cc:242-252 | touching a linked node this way cuts off every node behind it |
| Shipped.DeleShippedIff | kvstore/lrucache.cc:364-387 | list and table agree after the shipped dele if and only if the user has a file left |
| Shipped.DeleShippedElse | kvstore/lrucache.cc:364-387 | apart from the list the shipped dele does what the repaired one does |
| Shipped.RenameShippedIff | kvstore/lrucache.cc:451-466 | the shipped rename keeps the size record right if and only if it overwrites no bytes |
| Shipped.RenameShippedElse | kvstore/lrucache.cc:451-466 | apart from the two counters, which it leaves alone, the shipped rename does what the repaired one does |
| Shipped.CputShippedIff | kvstore/lrucache.cc:350-362 | the shipped cput is compare-and-swap if and only if it is accepted with room at once, or the old value is empty and nothing non-empty was to be stored |
| LruCache.LRUCache.constructor | kvstore/lrucache.cc:39-44 | two sentinels linked to each other, nobody resident |
| LruCache.LRUCache.MoveToTail | kvstore/lrucache.cc:68-73 | an unlinked node is linked before the tail; the chain, next and prev stay mirror images |
| LruCache.LRUCache.Unlink | kvstore/lrucache.cc:299-302 | the node leaves the chain, everyone else stays in order |
| LruCache.LRUCache.UseVirtualMemory | kvstore/lrucache.cc:147-156 | evicts the first user of the list: its row is written, its node unlinked, its bytes taken off |
| LruCache.LRUCache.RestoreUser | kvstore/lrucache.cc:158-176 | the token loop issues the restoring puts of the specification |
| LruCache.LRUCache.LoadUserFromDisk | kvstore/lrucache.cc:178-217 | reads all pieces, joins them and restores them; only a virtual memory entry is forgotten |
| LruCache.LRUCache.PutHelper | kvstore/lrucache.cc:219-286 | one attempt: rejection, no room, or one of the three storing branches, with new state and result |
| LruCache.LRUCache.Put | kvstore/lrucache.cc:324-333 | the loop of attempts and evictions ends and computes the specified put |
| LruCache.LRUCache.GetHelper | kvstore/lrucache.cc:288-322 | reload if on disk, unlink, move to the tail, look the file up |
| LruCache.LRUCache.Get | kvstore/lrucache.cc:335-348 | the specified get, in every state that operations reach |
| LruCache.LRUCache.Cput | kvstore/lrucache.cc:350-362 | the specified compare-and-swap, with all its refusals |
| LruCache.LRUCache.Dele | kvstore/lrucache.cc:364-387 | the specified removal, unlinking an emptied user |
| LruCache.LRUCache.Rename | kvstore/lrucache.cc:451-466 | the specified rename |
| MetaCodec.WriteMeta | kvstore/chunkserver.cc:75-105 | the printing loops write the users in name order, each with its records in list order |
| MetaCodec.WriteUserSize | kvstore/chunkserver.cc:116-123 | the printing loop writes every user and its number in name order |
| MetaCodec.RebuildVector | kvstore/chunkserver.cc:125-137 | the loop reads the numbers between commas, the last one included, or fails where stoi does |
| MetaCodec.ParseMeta | kvstore/chunkserver.cc:139-162 | the loop takes the first piece as user and pushes one record for each further one |
| MetaCodec.LoadMeta | kvstore/chunkserver.cc:164-178 | the loop skips what precedes the first '@' and parses every block, the unterminated last one too |
| MetaCodec.LoadUserSize | kvstore/chunkserver.cc:200-216 | the loop assigns alternate pieces as names and numbers |
| MetaCodec.MetaRoundTripIff | kvstore/chunkserver.cc:75-178 | metadata reads back as printed if and only if no user contains '@', ';' or a line end and every user has a record |
| MetaCodec.SizesRoundTripIff | kvstore/chunkserver.cc:116-216 | the size file reads back as printed if and only if no user contains a comma or a line end |
| MetaCodec.InfoRoundTrip | kvstore/chunkserver.cc:107-198 | the four allocator numbers read back; the fifth is never read |
| MetaCodec.ReadFileLines | kvstore/chunkserver.cc:164-216 | a metadata file is read without its line ends and with everything else |
| MetaCodec.RecordIff | kvstore/chunkserver.cc:125-137 | any text is a record if and only if it is three numbers between commas |
| MetaCodec.SizesMore | kvstore/chunkserver.cc:200-216 | in any text two more pieces assign one more size, or fail where stoi does, and a last piece alone is ignored |
| MetaCodec.InfoIff | kvstore/chunkserver.cc:180-198 | from any text the first four terminated numbers are read, if and only if each is one |
| Recovery.InfoOf | kvstore/chunkserver.cc:107-114 | the file holds where both allocators stand, in this order, and memory_used last |
| Recovery.RestartOk | kvstore/chunkserver.cc:219-273 | a restart from a checkpoint within capacity rebuilds both tiers, the sizes and both allocators, whatever lay in the directory |
| Recovery.ReplayIs | kvstore/chunkserver.cc:283-320 | for every log: replay is the flat run of the logged operations without the renames |
| Recovery.LogMore | kvstore/chunkserver.cc:338-506 | each served request adds itself to the log unless it is a get |
| Recovery.RecoveryYields | kvstore/chunkserver.cc:219-320 | for every run after a checkpoint within capacity, recovery gives the files and sizes of that run without its renames |
| Recovery.CrashRecovery | kvstore/chunkserver.cc:219-320 | checkpoint, any operations whose renames are refused or to the same name, rejected ones included, crash, restart, replay: files and sizes are those of the live node |
| Recovery.RecoveryRepeats | kvstore/chunkserver.cc:256-320 | recovering again from the same files, over the leftovers of the first recovery, gives the same node |
| Recovery.RenameLostIff | kvstore/chunkserver.cc:303-315 | after any such run one more rename is lost by recovery if and only if it was carried out and changed the name |
| RecoveryLimit.RestartExactIff | kvstore/chunkserver.cc:256-273 | in every reachable state: a restart gives the checkpointed store back if and only if the metadata files can hold its user names and memory_used was within capacity |
| LogFile.ReadLog | kvstore/chunkserver.cc:283-318 | the line loop gives each line its end back and yields the requests that parse |
| LogFile.LiveTakes | kvstore/kvstore.cc:250-280 | a live node takes every spelling of the command word, and reads the request's own parts if and only if they can be expressed |
| LogFile.LiveOnly | kvstore/kvstore.cc:250-280 | whatever a live node carries out is what the word in lower case names |
| LogFile.LowerIff | kvstore/kvstore.cc:166-173 | the words that name a command are exactly those with its letters in either case |
| LogFile.ReplayTakes | kvstore/chunkserver.cc:294-316 | replay reads the same line as that request if and only if, besides, the word was typed in lower case; otherwise it reads nothing |
| LogFile.UpperCasePut | kvstore/chunkserver.cc:294-316 | a put line that a live node executes and replay skips |
| LogFile.TextIsLog | kvstore/chunkserver.cc:275-320 | the text of logged single-line requests is read back as exactly those with a lower-case command word, in order |
| LogFile.RecoversThroughoutIff | kvstore/chunkserver.cc:219-320 | over every run of such requests: wherever a crash cuts it, checkpoint and log text give back the live store, if and only if every request that replay passes over had changed nothing when it was served |
| LogFile.CrashRecoveryFromText | kvstore/chunkserver.cc:219-320 | crash recovery at the end of such a run from the checkpoint files and the text of the log |
| Chunkserver.Chunkserver.Checkpointing | kvstore/chunkserver.cc:219-253 | leaves exactly the specified files, an empty log, and the new checkpoint chunks and records in memory; the store itself is as before |
| LruCache.LRUCache.SaveUser | kvstore/chunkserver.cc:237-243 | one resident's row goes to the checkpoint area |
| Chunkserver.Chunkserver.WriteResidents | kvstore/chunkserver.cc:228-243 | the area is emptied, then the loop writes every resident's row in name order |
| Chunkserver.Chunkserver.LoadCheckpointing | kvstore/chunkserver.cc:256-273 | parses all four files, restores the users and replaces the directory: the specified restart |
| Chunkserver.Chunkserver.ReplayLog | kvstore/chunkserver.cc:283-320 | the loop over the log with its three arms is the specified replay |
| Chunkserver.Chunkserver.Serve | kvstore/chunkserver.cc:338-506 | a request is executed and, unless it is a get, logged, with the flat store's reply |
| Chunkserver.Chunkserver.MigrateData | kvstore/chunkserver.cc:508-545 | the two loops send the user's put lines and log its deletions, through whatever reloads the lookups cause |
| Chunkserver.Chunkserver.DataMigration | kvstore/kvstore.cc:489-505 | the list is read and its users are moved one after another |
| Replication.NextIsLocal | kvstore/chunkserver.cc:338-506 | an operation reads and writes its own user only |
| Replication.OpsCommute | kvstore/kvstore.cc:476-486 | operations on different users commute |
| Replication.OrderPerUserSuffices | kvstore/kvstore.cc:476-486 | any two sequences that agree on each user's own order lead to the same store, so a resend may visit the users in any order |
| Replication.StrikeOwn | kvstore/kvstore.cc:467-474 | a report removes exactly its own entry |
| Replication.IdleIff | kvstore/kvstore.cc:566-585 | an operation leaves a user's state as it is if and only if it is refused (a put for its size only where a size entry exists), appends nothing to an existing file, puts back the same value, or renames a file to its own name |
| Replication.StepNumbers | kvstore/kvstore.cc:454-591 | every step, whatever becomes of requests and reports, keeps the numbering: what is held and what is under way are some executed requests followed by all later ones |
| Replication.StepFollowsIff | kvstore/kvstore.cc:539-591 | one step (request, accepted or refused, intake, delivery, report, break with reports under way, reconnection) keeps the secondary a copy of a front part of the primary's history if and only if it does not deliver a repetition that changes something |
| Replication.InStepIff | kvstore/kvstore.cc:454-591 | over every run from the start: the secondary is such a copy all along if and only if every repeated delivery would change nothing where it happens |
| Replication.StepPassesOnIff | kvstore/chunkserver.cc:355-360 | one step leaves the primary with what it passed on and nothing else if and only if it takes in no migrated line that changes something |
| Replication.PassedOnIff | kvstore/kvstore.cc:344-351 | over every run from the start: the primary holds what it passed on and nothing else all along if and only if every line taken in would change nothing |
| Replication.SecondaryIsPrefix | kvstore/kvstore.cc:539-591 | in such a run the secondary's data of each user is the primary's requests on that user up to some point, and everything acknowledged is among them |
| Replication.QuietMeansEqual | kvstore/chunkserver.cc:322-335 | in such a run, when nothing is held back, or nothing is under way on a live connection, the two stores are equal if and only if the primary holds nothing but what it passed on, hence whenever no line taken in changed anything |
| Replication.IntakeIff | kvstore/kvstore.cc:350 | a migrated line leaves equal stores equal if and only if it changes nothing |
| Replication.FlatIdleIff | kvstore/kvstore.cc:566-585 | an operation leaves the whole store as it is if and only if it is idle for its user |
| Replication.HeldInOrder | kvstore/chunkserver.cc:322-335 | over every run without exception the held numbers of a user are strictly increasing, between 1 and the highest number given out, and each belongs to its own request |
| Replication.TwiceIff | kvstore/kvstore.cc:566-585 | executing a successful operation again changes nothing if and only if it is not an append of bytes that still fit |
| Replication.ResendIff | kvstore/kvstore.cc:476-486 | everything is executed and the connection breaks with any reports under way: the secondary stays in step through the whole resend if and only if every held request would change nothing; its final store is the same if so and, where no user has more than one, only if |
| Replication.RefusedThenLost | kvstore/kvstore.cc:476-486 | a run in which a refused removal is resent after the file was stored and acknowledged: the secondary has lost the file |
| Reports.DeliveryReports | kvstore/lrucache.cc:269-283 | in every reachable state a delivered request is reported under its own number if and only if it was not refused |
| Reports.HeldIsRefused | kvstore/kvstore.cc:454-486 | over every run, with any breaks and lost reports: on a live connection with nothing under way the primary holds exactly the requests refused on it, and nothing if and only if none was |
| Reports.AllReported | kvstore/kvstore.cc:454-486 | over every run in which the secondary refuses nothing, a live connection with nothing under way leaves nothing held |
| Reports.RequestIs | kvstore/chunkserver.cc:322-335 | every request but a get is served at any time: executed, numbered next, held last, and sent when the connection is up |
| Reports.DeliverIs | kvstore/kvstore.cc:539-591 | the secondary executes what comes first, and nothing changes at the primary |
| Reports.ReportIs | kvstore/kvstore.cc:454-474 | a report takes exactly the entries of its user and number out of the books |
| Reports.ConnectIs | kvstore/kvstore.cc:476-486 | a new connection brings all of each user's entries again, in order, and changes neither stores nor books |
| Primary.Primary.SendToSecondary | kvstore/chunkserver.cc:322-335 | the next number is given out, the entry is appended and the numbered text is sent |
| Primary.Primary.HandleSecondaryReport | kvstore/kvstore.cc:454-474 | the named entry is erased, and the user with its last entry |
| Primary.Primary.CheckPrimaryHoldback | kvstore/kvstore.cc:476-486 | everything held is sent again, user by user in order |
| Primary.MessageCarries | kvstore/kvstore.cc:539-585 | the secondary reads from a message the very number and operation that are held, and its report reads back as that entry |
| Wire.ParseLineLoop | kvstore/chunkserver.cc:63-73 | the loop cuts at the first commas only, as many as there are arguments to separate |
| Wire.RequestRoundTripIff | kvstore/chunkserver.cc:338-506 | a request line parses back to its own parts if and only if its user, and for put, cput and rename its file, and for cput its line-ended old value, are free of commas |
| Wire.ParsesIff | kvstore/chunkserver.cc:338-506 | every line: it is taken if and only if it begins with one of the five commands and a space and has the commas that separate its arguments |
| Wire.ParsedRenders | kvstore/chunkserver.cc:338-506 | every line that is taken is the text of what is read from it; for get, dele and rename up to the two characters their handlers drop |
| Wire.RefusedIff | kvstore/chunkserver.cc:338-506 | a line that ends in CR LF is refused if and only if no request is written like it |
| Wire.LogRoundTripIff | kvstore/chunkserver.cc:275-294 | the log splits back into the lines written to it if and only if every one is a single line |
| Wire.LastLine | kvstore/chunkserver.cc:283-294 | text after the last line end is read as one more line |
| Wire.MessageRoundTrip | kvstore/kvstore.cc:539-564 | the secondary recovers number and line from every message |
| Wire.MessageReads | kvstore/kvstore.cc:554-568 | any message is cut at its first comma only |
| Wire.ReportRoundTripIff | kvstore/kvstore.cc:454-466 | a report reads back if and only if the user has no comma |
| Wire.ReportReads | kvstore/kvstore.cc:454-466 | of any report the user is the piece before the last comma, and the number is what follows it |
| Migration.OneUser | kvstore/chunkserver.cc:508-545 | while the total fits, every line is stored, the source has nothing of the user left, and the requester has the files appended to its own |
| Migration.ExactIff | kvstore/kvstore.cc:326-355 | the requester has exactly the source's files if and only if its own files of that user were empty ones the source has too |
| Migration.MigrationConserves | kvstore/kvstore.cc:489-505 | for any list: listed users the requester did not have arrive complete, none is left at the source, everyone else on both sides is unchanged, and the sizes are exact |
| Migration.LinesClean | kvstore/chunkserver.cc:508-521 | no line sent carries a comma inside a name or a value |
| Migration.MigrationIntoTiers | kvstore/kvstore.cc:326-355 | the same between two-tier stores, whatever the requester evicts and reloads on the way |
| Migration.LinesParse | kvstore/chunkserver.cc:508-545 | for user names without commas every line sent and every deletion logged parses back to the request it stands for |
| Migration.OthersRecovered | kvstore/kvstore.cc:344-351 | checkpoint, requests, a migration, more requests, crash: every user not taken in comes back as it was, whatever was asked about the others |
| Migration.MigrationLostIff | kvstore/kvstore.cc:344-351 | what comes back is exactly the live store less the users taken in, so nothing is lost if and only if the source had none of the listed users, for any requests before and any on other users after the migration |
| Migration.SourceRecovers | kvstore/chunkserver.cc:526-545 | a source that crashes after its deletions recovers as the migration left it |
| Ring.HashStr | master/conhash.cc:3-10 | the loop computes the hash, with 32-bit wrap-around, in 0 to 86968 |
| Ring.HashIs | master/conhash.cc:3-10 | the key is the last state modulo 86969, the first state is 37, and each byte in turn takes it on |
| Ring.MixIs | master/conhash.cc:6 | one byte c takes the state h to (h * 54059) xor (c * 76963) modulo 2^32 |
| Ring.ByteIs | master/conhash.cc:6 | a byte counts as a signed number |
| Ring.SomeKeys | master/conhash.cc:3-10 | the keys of four texts as numbers, one of them with a negative byte |
| Ring.OwnerLoop | master/master.cc:71-90 | the iterator loop returns the least id greater than the key, else the least id, or -1 on an empty ring |
| Ring.AddMoves | master/master.cc:71-90 | a new id changes the owner of exactly the keys from its predecessor up to itself, around the circle, each from its successor to itself |
| Ring.AskKeeps | master/master.cc:141-153 | recording a looked-up name keeps every name at its owner, on an empty ring too |
| Ring.AskAdds | master/master.cc:141-153 | a lookup adds its name at the owner of its hash, and every node keeps the names it has |
| Ring.JoinTakes | master/master.cc:171-186 | a join takes from the successor exactly its names with a hash below the id, and nothing from anybody else |
| Ring.NameMoves | master/master.cc:180-185 | one name at the successor: the test k < id against the true change of owner, in all positions |
| Ring.HandoverIff | master/master.cc:171-186 | the names handed over are the ones whose owner changed if and only if the id lies between existing ones, or is the new least and no name has gone around, or is the new greatest and all have |
| Ring.OnlySuccessorGives | master/master.cc:174-175 | only names at the successor can change owner |
| Ring.JoinKeepsIff | master/master.cc:158-204 | a join keeps every name at its owner unless the id is a new least one and a name at the successor has gone around |
| Ring.BetweenHandover | master/master.cc:180-185 | handing over by position between predecessor and new id is exact for every join |
| Ring.StepKeepsIff | master/master.cc:141-187 | one lookup or join keeps every name at its owner unless it is a join of a new least id while a name at the successor has gone around, and then it does not |
| Ring.FromStart | master/master.cc:141-187 | from an empty master, over any lookups and joins, every name is at its owner all the way if and only if no join is of a new least id while a name at its successor has gone around |
| Ring.NamesFromStart | master/master.cc:141-187 | over every run of lookups and joins from an empty master the names asked for are exactly those still recorded together with those handed over in the answers |
| Ring.OwnedDisjoint | master/master.cc:141-187 | while every name is at its owner the name sets of different nodes are disjoint |
| Master.Master.Ask | master/master.cc:141-153 | the name is added at the owner of its hash; the answer is that node's primary if it answers, else its secondary, which steps in; nothing else changes |
| Master.Master.GetBackendInfo | master/master.cc:93-105 | a primary that answers stays; otherwise the secondary takes its place and leaves its own empty |
| Master.Master.Join | master/master.cc:158-204 | a known id keeps a primary that answers, else its secondary becomes primary, and the caller becomes secondary; with neither the caller becomes primary. A new id gets the caller as primary, and, unless nothing was ever asked for, is told whom to take which names from |
| Master.Master.EraseHanded | master/master.cc:178-186 | the loop over a copy erases exactly the names below the id and lists them in order |
| Master.ChosenMembers | master/master.cc:178-186 | the names in the answer are exactly the names of the list whose hash is below the id |
| Master.AnswerLists | master/master.cc:177-184 | the answer lists them once each, in ascending order |
| Master.AnswerParses | master/master.cc:177-184 | the name list in the answer splits back into those names when none has a comma |
| Balancer.NextIndexRange | frontend/load_balancer.cc:161-164 | the index advance is 1 to n in a circle, for one server too |
| Balancer.Scan | frontend/load_balancer.cc:159-167 | the scan stops at the first running server of the circle, and its count reaches n if and only if none runs |
| Balancer.Accept | frontend/load_balancer.cc:150-197 | "no server" exactly when none runs; otherwise a running one, and the index moves past it and stays in 1 to n |
| Balancer.RoundRobin | frontend/load_balancer.cc:150-200 | with r servers running, any r connections in a row go to r different servers, each running one exactly once |
| ReplaceAll.ReplaceAll | frontend/utils.cc:176-186 | ends for every pattern, also when the replacement contains it, and joins the parts of the cut with the replacement |
| ReplaceAll.CutIff | frontend/utils.cc:182-183 | there is exactly one way to cut a text at first occurrences from the left, and the cut used is it |
| ReplaceAll.CutJoin | frontend/utils.cc:176-186 | joined with the pattern the parts are the original text, and no part contains the pattern |

## Left out

- Replication.SecondaryIsPrefix: speaks of runs whose repeated deliveries would change nothing, as `Replication.QuietMeansEqual` does; `Replication.InStepIff` says that in all other runs the secondary is not in step all along.
- Replication.ResendIff: where a user holds several entries, two repetitions may undo each other; the final store then says nothing about each, and only the statement about the whole resend is exact.
- Recovery.CrashRecovery: speaks of runs whose renames change nothing; `Recovery.RecoveryYields` says what recovery gives for all others.
- LruCache.LRUCache.MoveToTail: takes a node that is not linked, where the source also passes linked ones; `Shipped.MoveToTailIff` says what the four assignments do to those.
- Text.Stoi: reads digits only. Signs, leading blanks and overflow of `stoi` are not modelled; the printers never produce them.
- Sockets, framing and coalescing of messages, threads and signals: a command is one atomic step and a channel a sequence of whole messages. The source has no locks around the store.
- The file system: a directory of chunk files is a map from number to bytes, with zeros read past the end of a file. A crash in the middle of `checkpointing` is not protected by the code and not modelled.
- Chunkserver.Chunkserver.LoadCheckpointing: takes the checkpoints whose metadata files can hold the user names (no '@', ';', comma or line end where the file uses it); `RecoveryLimit.RestartExactIff` says what the specified restart does with all others.
- LogFile.CrashRecoveryFromText: takes requests that fit on one line and that the parser cuts as they were composed; `Wire.RequestRoundTripIff` and `Wire.LogRoundTripIff` say which those are.
- A refused operation's error text goes from the secondary to the primary (`kvstore/lrucache.cc:226-227`, `312-320`), which answers "-ERR Not supported" (`kvstore/kvstore.cc:724-725`); the secondary finds no comma in that answer (`kvstore/kvstore.cc:555`). So a refusal ends the connection. The model lets it go on; a break right after the refusal is among its runs.
- Migration.MigrationLostIff: what becomes of later requests on the users taken in is not described; `Migration.OthersRecovered` allows them.
- `getlist` and `getfile` look at resident users only, so they do not refine the flat map.
- The floating-point ceiling in `write_to_chunk`: the model rounds up exactly.
- Metadata records are triples; a record of another length is rejected when read rather than when used.
- Promotion of a secondary on its first client connection, its restart, and liveness probes: which servers answer is a parameter of the master's methods.
- The "A" and "U" arms of the master and its address index only list what the tables hold.
- Feedback texts, verbose logging, time stamps; the frontend's pages, sessions and admin console; webmail.
- `url_decode`, `split`, `read_line` and the buffer helpers: easy, and not used by the parts above.
