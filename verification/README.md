# Verification model of the MongoDB C++ client

This project models the parts of the MongoDB C++ client whose correctness is hard to see from any
one function, and proves what those parts are for. `dafny verify dfyconfig.toml` checks all of it.

## What is modelled

**The distributed lock** (`DistLock*.dfy`). Any number of clients compete for one lock document
through compare-and-set updates. Every atomic action of `lock_try`, `unlock`, the pinger and the
late-unlock loop is a step of a state machine, and a run is any interleaving of steps of any
clients, with updates that may be lost, may be applied but reported as failed, and may throw. The
main theorem, `SafeExactlyWhenLeased`, names the exact timing bounds under which no run ever takes
the lock from a client that believes it has it, for every lock timeout T, network skew N, ping gap P,
time F to finalize and gap of at most G between reading a ping and asking for the remote time. A
reading of the remote clock lags by half of what it took, so two looks x apart can seem
L(x) = x + min(2N, x) / 2 apart; the bounds are N + L(P + G) <= T and L(F) <= T, which for T >= 4N are
P <= T - 2N - G and F <= T - N (`DistLockSafety.LeasedForLongTimeouts`). One millisecond more on either side and there is a run, constructed
step by step, in which a rival forces a lock that is held. `DistLockClient.dfy` then gives `lock_try`
and `unlock` as code over one shared cluster that others change between any two actions, and proves
that whatever this code does is a run of the state machine, so that a true return value in a run that
keeps the bounds means sole ownership, or for a re-entry that nobody else owns anything but the
document the caller's process has finalized. `DistLockHandle.dfy` follows the duty to unlock through
copies and assignments of `dist_lock_try` objects, in any program that uses them.

**BSON bytes** (`Bson*.dfy`). The grammar is a recursive data type with an encoder. A recursive
descent parser is proved sound and complete for it. The validator is an explicit-stack machine over
six states. A negative length prefix moves its 64-bit position backwards; it meets one exactly on the
buffers on which the parser does, and on all others it returns within a linear number of turns and
accepts exactly the buffers that hold a document. With negative prefixes it can loop for ever or
accept a buffer that holds none, and two buffers show it. The size computation and the iterator are
proved to agree with the grammar, byte for byte; and the builder, which patches sizes into a shared
buffer, is proved to write documents that validate and read back as what was appended.

**The initializer graph** (`InitGraph.dfy`, `InitBuild.dfy`). Depth-first topological sort with
cycle extraction, building the graph in any order, and running the initializers.

**Sharded cursors** (`Merge.dfy`, `MergeCursor.dfy`, `ShardInit.dfy`). The k-way merge with skip and
rotation, and the retry machine that opens a cursor on every shard.

**The client cursor** (`ClientCursor.dfy`). Batches fetched under a limit read like one stream.

**The replica set view** (`ReplicaSelect.dfy`, `ReplicaMonitor.dfy`). Choosing a member by
preference, tags, locality and rotation, and the node list that is edited in place.

**Number parsing** (`ParseNumber.dfy`). Bounded accumulation for every integer type.

Servers, clocks and schedulers are inputs: replies, delivery failures and the actions of other
clients are arbitrary parameters of the code, and every statement is for all of them.

## Where the code and its comments differ

The model follows the code.

- The comment on `remoteTime` bounds the error at the completion of the call. The code bounds it at
  the start; at completion it can be three times the skew (`DistLock.RemoteTimeCommentFails`). The
  comment holds exactly for calls whose delay and half the delay stay within the skew
  (`DistLock.RemoteTimeCommentHolds`).
- The bound for finalizing a lock is T - N, not the shorter T - 2N - G that pings have to keep.
- `validateBSON` is to decide whether a buffer holds a document. It does on every buffer without a
  negative length prefix on its way (`BsonMachine.DecidesDocuments`); `BsonMachine.LoopsForever` and
  `BsonMachine.AcceptsNoDocument` are buffers of 11 and 19 bytes with one.
- A host list with repeats misleads `_shouldChangeHosts` in both directions
  (`ReplicaMonitor.RepeatsMislead`); `ShouldChangeAgrees` says exactly when it is right. One that
  repeats the known hosts fails the check in `_checkHosts`; its sender then counts as not ok and may
  be cached as the primary all the same (`ReplicaMonitor.ReplicaSetMonitor.CheckConnection`).
- `addInitializer` calls a name a duplicate only if it has a function already; a name known only as
  somebody's dependent is not one, although the header says "already present in the graph".
- `TagSet::next` is documented to throw when exhausted; it sets the exhausted flag.
- Without a local member, `_selectNode` does not rotate: it stays with the member it chose last
  (`ReplicaSelect.StickyWithoutLocal`).
- An empty reply that leaves the server's cursor open ends the client's loop early
  (`ClientCursor.FlowIsAll` and `ClientCursor.Query` say when nothing is lost).
- `dist_lock_try` means to unlock exactly once; assigning to an object that holds a lock forgets that
  lock (`DistLockHandle.AssignmentForgets`), and only that does (`DistLockHandle.UnlockedExactlyOnce`).
- `_markStaleNS` starts counting a namespace at one, so the fourth stale answer is one too many.

## Model

| member | source | states |
|---|---|---|
| DistLock.RemoteTime | src/mongo/client/distlock.cpp:385-438 | wherever in the call the server samples its clock, the result is within the skew of the remote clock at the start of the call, never later than its end, and longer calls are errors |
| DistLock.RemoteTimeCommentFails | src/mongo/client/distlock.cpp:381-384 | an accepted call whose result is three times the skew behind the clock at completion |
| DistLock.RemoteTimeCommentHolds | src/mongo/client/distlock.cpp:381-437 | the result is within the skew of the clock at completion, wherever in the call the server sampled it, exactly if the delay and half of it together are |
| DistLockSafety.ElapsedMeansNotLive | src/mongo/client/distlock.cpp:662-746 | a contender that sees the same ping and ts for longer than the timeout is looking at a lock that is no longer live, or that was finalized after it was seen |
| DistLockSafety.StepKeeps | src/mongo/client/distlock.cpp:612-1034 | every step of every client, pinger and clock keeps the invariant |
| DistLockSafety.OwnerIsAlone | src/mongo/client/distlock.cpp:843-1034 | a client between its winning update and its unlock owns the document, and no other client is in that phase |
| DistLockSafety.ForceHitsEnded | src/mongo/client/distlock.cpp:736-752 | a force that matches the document hits only an acquisition that has ended |
| DistLockTheorems.RunKeeps | src/mongo/client/distlock.cpp:612-1034 | the invariant holds at the end of every timely run |
| DistLockTheorems.MutualExclusion | src/mongo/client/distlock.cpp:843-1034 | in every timely run at most one client is between its winning update and its unlock; the document is then its own, in state 2 once finalized, and is the document it will unlock with |
| DistLockTheorems.ReleasesAreHarmless | src/mongo/client/distlock.cpp:1054-1117 | every force, unlock, retried unlock and late unlock names an acquisition that has ended, and the name-only finalize update writes only over its own document |
| DistLockTheorems.LeasedRespects | src/mongo/client/distlock.cpp:191-212 | no step of a timely run changes the document of a live acquisition, except its own finalize |
| DistLockTheorems.LateFinalizeIsUnsafe | src/mongo/client/distlock.cpp:973-1006 | if two looks within the time to finalize can seem further apart than the timeout (for long timeouts: if finalizing may take longer than T - N), some timely run forces a lock its owner still holds |
| DistLockTheorems.SlowPingIsUnsafe | src/mongo/client/distlock.cpp:672-742 | if two looks at the same ping can seem further apart than the timeout (for long timeouts: if pings may be further apart than T - 2N - G), some timely run with two rival threads forces a held lock |
| DistLockTheorems.SafeExactlyWhenLeased | src/mongo/client/distlock.cpp:612-742 | for every timeout and skew, no timely run takes the lock from a live acquisition if and only if the ping gap and the time to finalize keep the two bounds |
| DistLockClient.Cluster.LockTry | src/mongo/client/distlock.cpp:582-1034 | whatever others do between its actions, the code performs a run of the step machine, takes the branch the machine takes, and on success in a timely run the caller alone owns the document it returns; on a re-entry that document is in place, finalized by the caller's process, and nobody owns another |
| DistLockClient.Cluster.Unlock | src/mongo/client/distlock.cpp:1042-1126 | releases exactly the document that was acquired, or queues its ts after three attempts |
| DistLockClient.ReentryFacts | src/mongo/client/distlock.cpp:767-815 | in a timely run, a re-entry whose update matches shows that the lock document is the one that was read, and that whoever owns a lock owns this one from the same process |
| DistLockClient.TimelyTakes | src/mongo/client/distlock.cpp:582-1126 | a run of the code that meets the timing assumptions is a timely run, so the theorems apply to it |
| DistLockClient.OthersLeave | src/mongo/client/distlock.cpp:582-1126 | no other client's action moves a client, deletes the lock document or turns back the clock |
| DistLockHandle.DistLockTry.Copy | src/mongo/client/distlock.h:204-213 | the copy owes the unlock the original owed, and the original owes none |
| DistLockHandle.DistLockTry.Assign | src/mongo/client/distlock.h:215-232 | the duty moves over, and assigning to itself keeps it |
| DistLockHandle.DistLockTry.Destroy | src/mongo/client/distlock.h:239-244 | makes exactly the unlock that is owed, if one is, with a document that is there |
| DistLockHandle.RunProgram | src/mongo/client/distlock.h:199-244 | any program of constructing, copying, assigning and destroying such objects, carried out on real ones, makes the unlocks of the ledger below |
| DistLockHandle.NeverUnlockedTwice | src/mongo/client/distlock.h:199-244 | in every program over any number of objects, each acquisition is always owed by one object, unlocked once, or forgotten |
| DistLockHandle.CarefulForgetsNothing | src/mongo/client/distlock.h:215-232 | a program forgets nothing exactly if none of its assignments goes to an object that still owes an unlock |
| DistLockHandle.UnlockedExactlyOnce | src/mongo/client/distlock.h:199-244 | once all objects are gone, everything acquired was unlocked exactly once if and only if none of the program's assignments went to an object that still owed an unlock |
| DistLockHandle.AssignmentForgets | src/mongo/client/distlock.h:215-232 | a program that leaves a lock set because of such an assignment |
| BsonGrammar.Int32WritesBack | src/mongo/bson/bson_validate.cpp:32-43 | reading a 32-bit integer and writing it gives the same four bytes |
| BsonGrammar.Int32ReadsBack | src/mongo/bson/bson_validate.cpp:32-43 | writing a 32-bit integer and reading it gives the same number |
| BsonParse.DocSound | src/mongo/bson/bson_validate.cpp:224-299 | what is parsed as a document is a well-formed document encoded by exactly the bytes read |
| BsonParse.DocComplete | src/mongo/bson/bson_validate.cpp:224-299 | the encoding of every well-formed document is parsed as that document, wherever it stands |
| BsonParse.ParsesExactlyDocuments | src/mongo/bson/bson_validate.cpp:224-299 | the recursive parser accepts exactly the buffers that start with a document |
| BsonParse.EncodingIsPrefixFree | src/mongo/bson/bson_validate.cpp:248-253 | one buffer starts with at most one document |
| BsonValidate.FramePacking | src/mongo/bson/bson_validate.cpp:108-128 | the flag in bit 31 and a start position below 2^31 do not disturb each other, in either order, whatever the word held |
| BsonValidate.Buffer.ReadUTF8String | src/mongo/bson/bson_validate.cpp:60-85 | where it stops, or that it fails, for every length prefix: a negative one moves the position backwards |
| BsonValidate.Buffer.ReadCString | src/mongo/bson/bson_validate.cpp:45-58 | stops after the first NUL, or reports that there is none |
| BsonValidate.ValidateElementInfo | src/mongo/bson/bson_validate.cpp:130-222 | the next state and position after one element, or the error, for every buffer |
| BsonValidate.PlainAgrees | src/mongo/bson/bson_validate.cpp:147-210 | a value without a document inside ends where the grammar says unless its length prefix is negative; an ignored overrun of a DBRef leaves the position past the last byte |
| BsonMachine.ElementKeepsFate | src/mongo/bson/bson_validate.cpp:242-247 | what one element's reading makes of the machine does not change the final verdict, unless it meets a negative prefix |
| BsonMachine.PopStacked | src/mongo/bson/bson_validate.cpp:248-292 | a CodeWScope frame is never the bottom frame, so the "unnested CodeWScope" error cannot occur |
| BsonMachine.BeginCodeKeepsFate | src/mongo/bson/bson_validate.cpp:267-279 | pushing a CodeWScope frame and reading its code keeps the verdict |
| BsonMachine.EveryTurnIsRight | src/mongo/bson/bson_validate.cpp:229-296 | a turn of the loop that meets no negative prefix returns the error the grammar asks for, or keeps the verdict with less left to do |
| BsonMachine.ValidateBSONIterative | src/mongo/bson/bson_validate.cpp:224-299 | after any number of turns of its loop the code has returned what the machine has, or still runs |
| BsonMachine.MeetsExactly | src/mongo/bson/bson_validate.cpp:69-85 | the machine ever meets a negative length prefix if and only if the recursive parser does |
| BsonMachine.DecidesDocuments | src/mongo/bson/bson_validate.cpp:224-299 | on a buffer of n bytes without one it returns within 2n + 25 turns, OK if and only if the buffer starts with a document |
| BsonMachine.LoopsForever | src/mongo/bson/bson_validate.cpp:69-85 | a buffer of 11 bytes on which it comes back to the same state, frames and position after every turn and never returns |
| BsonMachine.AcceptsNoDocument | src/mongo/bson/bson_validate.cpp:69-85 | a buffer of 19 bytes that it accepts although it holds no document |
| BsonMachine.ValidateBSON | src/mongo/bson/bson_validate.cpp:303-310 | a buffer without a negative length prefix on its way is accepted if and only if it starts with a document |
| BsonElement.ElementSizeAgrees | src/mongo/bson/bson-inl.h:613-677 | the unchecked size of a valid element is the number of bytes the validator consumed |
| BsonElement.BoundedSizeAgrees | src/mongo/bson/bson-inl.h:531-611 | so is the bounded size, for every bound the element fits in |
| BsonElement.BSONElement.Size | src/mongo/bson/bson-inl.h:613-677 | the cached size is the size, and filling the cache changes nothing else |
| BsonElement.BSONObjIterator.More | src/mongo/bson/bsonobjiterator.h:56-57 | true exactly while elements are left |
| BsonElement.BSONObjIterator.StopsAtEoo | src/mongo/bson/bsonobjiterator.h:41-57 | an exhausted iterator stands on the document's own EOO |
| BsonElement.BSONObjIterator.Next | src/mongo/bson/bsonobjiterator.h:79-84 | returns the type, name and value bytes of the next element and stays inside the document |
| BsonElement.BSONObjIterator.NextChecked | src/mongo/bson/bsonobjiterator.h:62-78 | so does the form that checks its bounds |
| BsonElement.ReadTrees | src/mongo/bson/bsonobjiterator.h:41-84 | iterating over a document and over the documents inside it gives back exactly the encoded elements at every level |
| BsonBuilder.BSONObjBuilder.Done | src/mongo/bson/bsonobjbuilder.h:671-684 | the finished bytes are the encoding of what was appended, and finishing twice is finishing once |
| BsonBuilder.BSONObjBuilder.AsTempObj | src/mongo/bson/bsonobjbuilder.h:599-608 | a look at the unfinished document is a finished document, and leaves the builder as it was |
| BsonBuilder.BSONObjBuilder.AppendElements | src/mongo/bson/bson-inl.h:290-297 | copies the elements of a document without its frame |
| BsonBuilder.Perform | src/mongo/bson/bsonobjbuilder.h:58-162 | any builder call, nested documents included, appends exactly its element and touches nothing before the document |
| BsonBuilder.BuiltWellFormed | src/mongo/bson/bsonobjbuilder.h:58-162 | calls with NUL-free names build well-formed documents |
| BsonBuilder.BuildValidateRead | src/mongo/bson/bsonobjbuilder.h:576-684 | any nested sequence of calls yields bytes that validate and that iterators read back as what was appended |
| InitGraph.TopSort | src/mongo/base/initializer_dependency_graph.cpp:61-89 | OK exactly for complete acyclic graphs, and then a duplicate-free listing of all nodes with prerequisites first; a cycle status comes with a closed walk that repeats only its end; a bad-value status names a missing node or function |
| InitGraph.TopSorter.RecursiveTopSort | src/mongo/base/initializer_dependency_graph.cpp:91-152 | the recursion is never deeper than there are nodes, leaves the exploration chain as it found it, and cannot report a corrupt stack |
| InitGraph.OrderedMeansAcyclic | src/mongo/base/initializer_dependency_graph.h:76-88 | a full listing with prerequisites first exists only for graphs without closed walks |
| InitGraph.ClosedByRepeat | src/mongo/base/initializer_dependency_graph.cpp:117-127 | the extracted part of the chain is a closed walk along prerequisite edges with equal ends |
| InitBuild.InitializerDependencyGraph.AddInitializer | src/mongo/base/initializer_dependency_graph.cpp:27-50 | exactly the named node, its prerequisites and its dependents change; null functions and duplicates change nothing |
| InitBuild.AddAllBuilds | src/mongo/base/initializer_dependency_graph.cpp:27-50 | all registrations succeed exactly if names are distinct and functions non-null, and then each node's prerequisites are its explicit ones and all nodes that named it a dependent |
| InitBuild.OrderIsIrrelevant | src/mongo/base/init.h:91-93 | any order of the same registrations builds the same graph |
| InitBuild.Execute | src/mongo/base/initializer.cpp:30-57 | each function runs at most once, only after all its prerequisites returned OK; the first failure ends the run; the "no associated function" error cannot occur |
| Merge.KeepsShardOrder | src/mongo/client/parallel.cpp:1609-1652 | each shard contributes exactly its own documents in its own order, and nobody else does |
| Merge.MergedAscending | src/mongo/client/parallel.cpp:1609-1652 | streams that ascend under the sort key merge into one that ascends |
| Merge.RoundRobin | src/mongo/client/parallel.cpp:1613-1633 | without a sort key, a shard that still has documents is served again within as many documents as there are shards |
| Merge.WinnerUnique | src/mongo/client/parallel.cpp:1613-1641 | the choice is determined: the least head, and among equal heads the one reached last in rotation |
| MergeCursor.FilteringClientCursor.Advance | src/mongo/client/parallel.cpp:370-387 | look-ahead skips to the next matching document and loses none |
| MergeCursor.FilteringClientCursor.Next | src/mongo/client/parallel.cpp:356-364 | returns the first pending document; neither check inside it fails once a document is known |
| MergeCursor.ParallelSortClusteredCursor.Next | src/mongo/client/parallel.cpp:1609-1652 | returns the head of the merge and leaves the rest of it; the error comes exactly at the end |
| MergeCursor.ParallelSortClusteredCursor.More | src/mongo/client/parallel.cpp:1588-1607 | carries out a pending skip by dropping that many documents of the merge, remembers what it could not skip, and says whether anything is left |
| MergeCursor.Drain | src/mongo/client/parallel.cpp:1588-1652 | a client that alternates the two gets the merge without its first n documents |
| MergeCursor.DroppedAscending | src/mongo/client/parallel.cpp:1588-1652 | that is still ascending |
| ShardInit.ParallelSortClusteredCursor.MarkStaleNS | src/mongo/client/parallel.cpp:661-673 | a namespace can be stale three times; a reload is forced from the second time on |
| ShardInit.ParallelSortClusteredCursor.StartShard | src/mongo/client/parallel.cpp:847-1039 | a connection that serves this pass is left alone and any other is replaced under this pass's routing, or given up for a partial result; no check inside it or in cleanup fails |
| ShardInit.ParallelSortClusteredCursor.StartInit | src/mongo/client/parallel.cpp:772-1063 | ends, at most nine passes succeed, and every entry then passes the final checks; the check that there is a shard to open fails exactly on a routing that names none |
| ShardInit.FullCleanup | src/mongo/client/parallel.cpp:539-583 | cleaning up a sound entry fails no check and empties it |
| ShardInit.ParallelSortClusteredCursor.FinishShard | src/mongo/client/parallel.cpp:1076-1193 | a shard is completed, given up, or due again; completed implies finished implies initialized |
| ShardInit.ParallelSortClusteredCursor.FinishInit | src/mongo/client/parallel.cpp:1065-1272 | mutual recursion with the start pass ends, and on return everything left is completed |
| ShardInit.ParallelSortClusteredCursor.FullInit | src/mongo/client/parallel.cpp:656-659 | on return every entry is completed and compatible with the last routing; without partial results the entries are exactly the shards it names |
| ClientCursor.DBClientCursor.More | src/mongo/client/dbclientcursor.cpp:206-223 | true exactly if the stream has more, which is then ready and unchanged; the limit check inside a request for more never fails |
| ClientCursor.DBClientCursor.Next | src/mongo/client/dbclientcursor.cpp:225-240 | returns the head of the stream once it is ready |
| ClientCursor.DBClientCursor.PutBack | src/mongo/client/dbclientcursor.h:75-78 | prepends to the stream, so it undoes next, last in first out |
| ClientCursor.DBClientCursor.NextBatchSize | src/mongo/client/dbclientcursor.cpp:36-45 | the smaller of the batch size and what is left of a limit, zero standing for none, and never one unless just one document is left |
| ClientCursor.DBClientCursor.ItCount | src/mongo/client/dbclientcursor.h:106-116 | counts exactly the stream |
| ClientCursor.FlowIsAll | src/mongo/client/dbclientcursor.cpp:218-223 | a reader that stops at an empty reply misses nothing exactly if no documents come after one |
| ClientCursor.LimitBeforeGap | src/mongo/client/dbclientcursor.cpp:206-223 | a reader gets all it asked for exactly if no gap follows the first reply or its limit is reached before one |
| ClientCursor.Query | src/mongo/client/dbclientcursor.cpp:118-240 | for any split into batches a query yields the documents up to its limit or the first empty later reply, and exactly if no such reply comes before documents still wanted these are the first documents up to its limit |
| ReplicaSelect.SelectNodeForTag | src/mongo/client/dbclient_rs.cpp:197-262 | the next local eligible node in rotation; without one the last eligible node; none exactly if none is eligible |
| ReplicaSelect.EveryLocalBeforeRepeat | src/mongo/client/dbclient_rs.cpp:205-247 | with nodes fixed, between two calls that return the same node every local eligible node is returned |
| ReplicaSelect.StickyWithoutLocal | src/mongo/client/dbclient_rs.cpp:234-251 | without local nodes the chosen node is chosen again as long as it is eligible |
| ReplicaSelect.TakenUnique | src/mongo/client/dbclient_rs.cpp:217-247 | the description of the choice fits one node only |
| ReplicaSelect.SelectNode | src/mongo/client/dbclient_rs.cpp:1106-1195 | each preference's fallbacks; by tags, the first remaining tag that any node serves decides, the tag list is left at it, and nothing is returned only if no tag is served |
| ReplicaSelect.TagSet.Next | src/mongo/client/dbclient_rs.cpp:2185-2194 | moves to the following tag, or to the exhausted state |
| ReplicaMonitor.ShouldChangeOfDistinct | src/mongo/client/dbclient_rs.cpp:715-743 | for lists without repeats, true exactly if the list is not empty and the address sets differ |
| ReplicaMonitor.ShouldChangeAgrees | src/mongo/client/dbclient_rs.cpp:715-743 | the exact condition on any list for the count to stand in for the comparison |
| ReplicaMonitor.RepeatsMislead | src/mongo/client/dbclient_rs.cpp:726-741 | lists with repeats on which it answers wrongly either way, the second of which fails the check of `_checkHosts` |
| ReplicaMonitor.ReplicaSetMonitor.GetHostDiff | src/mongo/client/dbclient_rs.cpp:689-713 | exactly the unknown hosts and the indices that are gone |
| ReplicaMonitor.ReplicaSetMonitor.EraseNodes | src/mongo/client/dbclient_rs.cpp:776-781 | erasing from the highest index down leaves exactly the survivors, in order and unchanged |
| ReplicaMonitor.ReplicaSetMonitor.CheckHosts | src/mongo/client/dbclient_rs.cpp:745-826 | for every list: its own check fails exactly if the list names just the known hosts and repeats some; the nodes change exactly if a change is called for and the address sets differ, and then are the survivors and one fresh node per new host, their addresses are the reported ones, and the cached primary is forgotten |
| ReplicaMonitor.ReplicaSetMonitor.NotifyFailure | src/mongo/client/dbclient_rs.cpp:571-580 | forgets the primary only if it is the server that failed |
| ReplicaMonitor.ReplicaSetMonitor.NotifySlaveFailure | src/mongo/client/dbclient_rs.cpp:681-687 | marks that server's record, and nothing else |
| ReplicaMonitor.ReplicaSetMonitor.CheckConnection | src/mongo/client/dbclient_rs.cpp:829-930 | the exact new state for every answer: ignored from a server that moved, a failed mark, or the updated record followed by the reported list; a member that answers as primary and keeps its place is recorded as ok exactly if its list does not fail the check |
| ReplicaMonitor.ReplicaSetMonitor.Check | src/mongo/client/dbclient_rs.cpp:932-996 | the cached primary index stays in range; afterwards it is a member that answered as primary in a round of this check, ok unless its list repeats the known hosts, or none; failures are counted exactly if no member is ok |
| ReplicaMonitor.ReplicaSetMonitor.GetMaster | src/mongo/client/dbclient_rs.cpp:584-598 | returns the cached primary unchanged while it is ok, and else a member that answered as primary in the check or the error; its range checks never fail |
| ReplicaMonitor.SurvivorsAddrs | src/mongo/client/dbclient_rs.cpp:776-781 | survivors are distinct and are the intersection of the two address sets |
| ParseNumber.Parse | src/mongo/base/parse_number.cpp:114-173 | succeeds with v exactly if the string denotes v in that base and v fits the type; a minus sign never succeeds for unsigned types; exactly when each special error is reported |
| ParseNumber.ParseUp | src/mongo/base/parse_number.cpp:156-170 | the loop is exact and no intermediate value leaves the type; overflow is reported only for a prefix that does not fit |
| ParseNumber.ParseDown | src/mongo/base/parse_number.cpp:130-151 | the same downwards, to the least value, with truncating division |
| ParseNumber.QuotientCheck | src/mongo/base/parse_number.cpp:161-162 | the division test passes exactly if the multiplication stays in range |
| ParseNumber.DenotesExtracted | src/mongo/base/parse_number.cpp:50-112 | sign and prefix extraction finds the only reading of a string |
| ParseNumber.PrintedDenotes | src/mongo/base/parse_number.cpp:114-173 | a printed number denotes that number, in every base |
| ParseNumber.ParsePrinted | src/mongo/base/parse_number.cpp:114-173 | parsing inverts printing in every base and at every width |

## Left out

- Sockets, authentication, logging, threads and mutexes: foreign calls, replaced by atomic steps and arbitrary replies.
- Distributed lock: single-document updates are atomic, generated ids are fresh, one process's pings strictly increase, and all clocks advance at the same rate; an update takes effect while its call lasts or never.
- Distributed lock: the `UpdateNotTheSame` tournament over three config servers (distlock.cpp:873-965) depends on `SyncClusterConnection`, which is not part of this model; there is one logical lock document.
- Distributed lock: `unlock(NULL)`, which releases whatever it reads; the callers modelled pass their own lock document.
- Distributed lock: liveness. A failed finalize may leave the document set until it is forced.
- Distributed lock: `isLockHeld`, `checkSkew` as a computation (it can only make a force fail, which an update that throws covers), and starting and killing pinger threads.
- DistLockClient.Cluster.LockTry: recording or resetting the ping check is part of the read it follows, reading it is one action with asking for the time, and an exception while reading a document ends the attempt as a crash does.
- DistLockTheorems.SafeExactlyWhenLeased: for ping gaps above 0; a gap of 0 would let no time pass while a lock is held.
- Distributed lock: the pinger removes pings that are four days old of processes it saw holding nothing (distlock.cpp:145-160). In the model any ping may be removed at any time; a holder that loses its ping has to ping again in time like one that did not ping.
- BsonMachine.ValidateBSON: for buffers of at most 2^31 - 1 bytes, and watched for a number of turns, since it need not return; lengths that leave the range of a 32-bit int are taken to wrap around.
- BsonBuilder.BuildValidateRead: for documents of at most 2^31 - 1 bytes; `BufBuilder` is a growable byte array without its 64 MB limit.
- BSON: element values are bytes; comparing, converting and printing them, `getFieldDotted`, `appendElementsUnique`, sorted iteration and array filling are not modelled.
- InitBuild.Execute: a `DBException` ends the run as a failed status does; other exceptions propagate and are not modelled.
- Merge: `woSortOrder` under a sort key is any total preorder; documents are never empty, since an empty one means "none". The per-shard `done` and `count` statistics are not kept.
- ShardInit: chunk managers and versions are identities with an arbitrary compatibility in which each is compatible with itself; reloading routing information is part of the next pass's routing; connections returned to or dropped from the pool are not counted.
- ClientCursor: tailable and exhaust cursors, error flags and lost connections; the server answers every request.
- ReplicaSelect: tags are documents; the exception for a tag that is none is not modelled.
- ReplicaMonitor.ReplicaSetMonitor.CheckHosts: every address is well formed, so that creating its node does not throw.
- ReplicaMonitor.ReplicaSetMonitor.Check: the lengths of the reported lists have some bound; otherwise one round need not end.
- ReplicaMonitor: other threads act between the methods, not inside them; the selection of slaves by `getSlave`, seed lists and the table of monitors are not modelled.
- ParseNumber: the instantiation for `double`, which wraps `strtod`.
- OpTime, OID text, string searches, GridFS chunking and connection pools: easy members.
