# f9: a verified model of its stateful engines

f9 is an SSH client. This project models the parts of its Go backend that keep
state under hard invariants, in the same imperative form, and proves what they
are for. Libraries (zstd, regular expressions, YAML, SSH) are parameters or
records; everything else follows the code branch by branch.

- **Scrollback** (`ByteLines`, `FlatLogs`, `Scrollback`, `Grep`, `GrepReport`,
  `ScrollbackRuns`): a chunked, background-compressed, evicting line buffer
  refines a flat log of lines. Every read is a slice of that log, a streaming
  grep is the naive grep of the lines there were when it began, and the
  `f9 grep` printer merges context windows exactly.
- **Multi-send** (`Multisend`, `MultisendLives`, `MultisendRace`): the
  per-target state machine, said outright for every life of a target and of
  each target of a job, and the sequential coordinator as a program and as a
  machine of racing threads, with safety over every run and a proof that jobs
  finish.
- **Connection manager** (`Connmgr`, `ConnmgrRace`, `ConnmgrHistory`): the
  critical sections, and the protocol of dials, settles, watchers and closes
  they form; which clients can be lost, and exactly when; what an entry says
  about the dials that led to it.
- **Session store** (`StoreNames`, `StoreIndex`, `StoreMove`, `StoreExact`,
  `DiskTree`, `DiskLoad`, `YamlStore`): the four index maps and the directory
  tree. Each operation keeps the index what a reload of the disk would build,
  and changes and refuses exactly what it should.
- **Import sources** (`StoreSources`, `SourceRuns`) and **reconcile** (`Prune`,
  `Reconcile`, `ReconcileExact`, `Converge`, `ConvergeIff`, `ReconcileAgain`,
  `ReconcileChains`, `ReconcileDuplicates`, `ReconcileRun`): one source per
  subtree; an import that converges to its records, conserves sessions and is
  idempotent.
- **Terminal output** (`Terminals`): credit-based flow control and timer-driven
  coalescing, over every run.
- **OS detector** (`OsDetect`, `OsStream`, `OsDetector`) and **ULIDs**
  (`Ulid`): a score ledger that does not depend on chunking, and an encoding
  that is faithful and order-preserving.

`Wrappers` holds Option and Result; `StoreExamples` small concrete stores.

How to read it: classes carry the program's fields and loops, and each method
is proved against a specification function on values (`FlatLog`, `JobVal`,
`Conns`, `Index`, `Flow`, `Out`, `Detection`). The lemmas then prove what those
functions are for. `Race`, `Sys` and `Term` are step machines whose steps are
the critical sections under a mutex, in any interleaving.

Properties that hold only under a condition come with the exact condition, as an
if-and-only-if over all inputs, and with inputs that fail it:

- no client is lost: `ConnmgrRace.NoneLostIff`, and the run `ReconnectLoses`;
- one import source per subtree: `StoreSources.PutFolderKeepsIff`, and the move
  `SourceRuns.MoveBreaks`;
- reconcile converges: `ConvergeIff.ConvergesIff`, and
  `ReconcileDuplicates.DuplicateKeysKept` and `GeneratedTwice`;
- the bounded prune completes and reconcile is idempotent: `Prune.CompleteIff`,
  `ReconcileAgain.AgainIff` and `AgainIffShallow`, and every chain of ten or more
  folders in `ReconcileChains.PruneStopsShort`;
- the detector's lines do not depend on chunking: `OsStream.CutsAgreeIff`, and
  every long line in `OsStream.LongLinesMatter`;
- scrollback lines are the stream's lines: `FlatLogs.LinesAreStreamIff` and
  `AnyCutIff`;
- bytes in flight are credits minus acknowledgements: `Terminals.ExactIff` and
  `CreditsExactIff`.

Where code and comments disagree the model follows the code. The comment on
`maybeSealLocked` (internal/scrollback/ring.go:143-146) says sealed chunks
always end at a newline; a forced split does not, and the flat log marks such
lines. The store's documentation speaks of one import source per subtree;
`PutFolder` does not look at sources when it moves a folder, hence the
condition above.

## Model

| member | source | states |
|---|---|---|
| `ByteLines.SplitLines` | internal/scrollback/ring.go:511-523 | the loop yields the newline-terminated lines in order and a non-empty unterminated rest as the last one |
| `ByteLines.CompleteConcat` | internal/scrollback/ring.go:125-134 | lines of a stream fed in two pieces are the lines of the whole: only the unterminated tail is carried over |
| `FlatLogs.AppendKeeps` | internal/scrollback/ring.go:116-177 | one append adds exactly its bytes to the stream, keeps every finished line at its number, and breaks a line other than at a newline only when it reached the limit |
| `FlatLogs.ReplayKeeps` | internal/scrollback/ring.go:116-177 | over any run of appends no byte is lost, added or reordered and finished lines never change |
| `FlatLogs.LinesAreStreamIff` | internal/scrollback/ring.go:116-177 | the lines are those of the bytes appended exactly when no unfinished line had reached the limit at the end of an append |
| `FlatLogs.AnyCutIff` | internal/scrollback/ring.go:147-177 | however a byte stream is cut into appends its lines come out whole, exactly when no stretch of it without a newline reaches the limit |
| `Scrollback.Ring.constructor` | internal/scrollback/ring.go:48-69 | an empty ring, defaults applied, representing the empty flat log |
| `Scrollback.Ring.Append` | internal/scrollback/ring.go:116-141 | the flat log grows by exactly the bytes given; the ring goes on representing it; its chunks come from the old ones and those bytes by at most two cuts, each of a full chunk at its last newline or forced, each loss an eviction; events carry exactly the lines they name; nothing happens once closed |
| `Scrollback.Ring.IndexNewlines` | internal/scrollback/ring.go:125-135 | newline positions of the new bytes extend the index so that active bytes and index still give the log |
| `Scrollback.Ring.MaybeSeal` | internal/scrollback/ring.go:147-177 | at most two cuts, each as described; afterwards less than a chunk is active, or one newline-free line below the forced limit; as many events as cuts the channel could not take, each carrying exactly the lines it names |
| `Scrollback.Ring.SealChunk` | internal/scrollback/ring.go:160-175 | the cut part becomes one chunk holding exactly its lines, queued for compression or, when the queue is full, compressed inline; then only the eviction takes chunks |
| `Scrollback.Ring.CompressLocked` | internal/scrollback/ring.go:181-194 | only the form of one chunk changes, and what is then kept is what eviction leaves; byte count, tiling and contents stay right |
| `Scrollback.Ring.CompressorTake` | internal/scrollback/ring.go:196-202 | the background compressor takes the oldest raw chunk; nothing else changes |
| `Scrollback.Ring.CompressorCommit` | internal/scrollback/ring.go:203-217 | the taken chunk is still there, is compressed and announced with exactly its lines, and what is then kept is what eviction leaves; the log does not change |
| `Scrollback.Ring.Evict` | internal/scrollback/ring.go:222-238 | drops a prefix of compressed chunks, each one only while a cap was exceeded without the ones before, and stops with both caps met, no chunk left or a raw chunk first |
| `Scrollback.Ring.SetMaxBytes` | internal/scrollback/ring.go:103-111 | a positive cap is stored and what is kept is what eviction leaves under it, all of it if the caps hold; any other cap changes nothing |
| `Scrollback.EvictionOnce` | internal/scrollback/ring.go:222-238 | an eviction has one outcome, and takes nothing when both caps hold |
| `Scrollback.Ring.Len` | internal/scrollback/ring.go:252-256 | number of retained lines of the flat log, and the accounted bytes |
| `Scrollback.Ring.Lines` | internal/scrollback/ring.go:270-311 | exactly the slice of the flat log, or precisely which bound was violated; the cache makes no difference |
| `Scrollback.Ring.RawOf` | internal/scrollback/ring.go:315-334 | the true bytes of a chunk whatever the four-entry cache holds; the cache stays truthful and within four entries |
| `Scrollback.Ring.Grep` | internal/scrollback/ring.go:343-368 | the new iterator will deliver the naive grep of the retained lines, numbered absolutely |
| `Scrollback.ChunkLinesAre` | internal/scrollback/ring.go:18-24 | the chunks tile the retained lines: their lines in order are a slice of the flat log |
| `Scrollback.WithinCaps` | internal/scrollback/ring.go:222-238 | lines that fit both caps, each weighed as if compressed on its own, are within the caps in whatever chunks they are |
| `Scrollback.OldestRaw` | internal/scrollback/ring.go:160-176 | the head of the compression queue names the oldest raw chunk and only that one |
| `Grep.GrepIter.constructor` | internal/scrollback/ring.go:360-367 | starts before the first line of the snapshot |
| `Grep.GrepIter.Next` | internal/scrollback/ring.go:389-435 | delivers the next match of the naive grep, or reports the end exactly when none is left; always terminates |
| `Grep.GrepIter.Examine` | internal/scrollback/ring.go:401-433 | one line: a match with exactly its context, or one more line to look back at |
| `Grep.GrepIter.FillLook` | internal/scrollback/ring.go:450-458 | looks ahead the lines asked for, or all there are, without disturbing the stream |
| `Grep.GrepIter.PullRaw` | internal/scrollback/ring.go:460-493 | the next line of the snapshot across chunk boundaries, or the end |
| `Grep.GrepIter.PushBefore` | internal/scrollback/ring.go:439-447 | the lookbehind is always the last lines before the position, at most as many as asked for |
| `Grep.HitsExact` | internal/scrollback/ring.go:406-435 | the hits are exactly the lines selected (inverted or not), each once, in ascending order |
| `Grep.GrepStep` | internal/scrollback/ring.go:396-434 | what remains to be delivered after examining one line |
| `Grep.GrepExact` | internal/scrollback/ring.go:389-435 | grep said outright: the matches are lines the pattern matches (with -v: does not), in ascending order with their context clipped at the ends, and such a line is missing only behind the last match the maximum allows |
| `Grep.CaseIgnored` | internal/scrollback/ring.go:347-351 | with -i the pattern searched for is blind to case if it can be compiled so; without -i, or if it cannot, it is the pattern given |
| `GrepReport.PrintMatches` | cmd/f9/main.go:349-384 | draining the iterator prints the ideal merged report of the naive grep and counts the matches |
| `GrepReport.PrintMatch` | cmd/f9/main.go:354-383 | one match extends the ideal report by exactly its window |
| `GrepReport.ReportRows` | cmd/f9/main.go:349-384 | the printed lines are exactly the union of the windows of all matches |
| `GrepReport.ReportSays` | cmd/f9/main.go:354-383 | a row is printed exactly for a line in the window of some match, numbered from one, marked as a match unless an earlier match had it as context |
| `GrepReport.ReportOrder` | cmd/f9/main.go:355-382 | printed numbers strictly increase, and the separator stands exactly at the gaps when context is on |
| `ScrollbackRuns.Perform` | internal/scrollback/ring.go:103-334 | each operation of a run keeps the ring valid; a read is answered from the flat log; chunks are lost only by an eviction over a cap, in a write, a commit or a cap change |
| `ScrollbackRuns.PerformAll` | internal/scrollback/ring.go:103-334 | after any run of operations the log is the flat log of the bytes written |
| `ScrollbackRuns.GrepMeanwhile` | internal/scrollback/ring.go:343-368 | a grep delivers the naive grep of the lines at its start whatever appends, compressions, cap changes, reads and evictions come between its matches |
| `ScrollbackRuns.Filled` | cmd/f9/main.go:322-334 | the ring holds the flat log of the recording, and all of it if there is room within the caps |
| `ScrollbackRuns.CmdGrep` | cmd/f9/main.go:322-384 | the whole command: recording read in pieces, the compressor at work in between, matches printed as the merged report; from the first line if the recording has room within the caps |
| `Multisend.FeedKeeps` | internal/multisend/multisend.go:87-121 | output moves a running target forward only; pending and final targets do not change |
| `Multisend.TailOfRun` | internal/multisend/multisend.go:87-121 | after any run of outputs the kept tail is the last bytes heard since the line was sent, however they were cut |
| `Multisend.TargetCell.Feed` | internal/multisend/multisend.go:87-121 | the state machine step of one output chunk, and whether the visible state changed; what such steps come to is MultisendLives.Life |
| `Multisend.TargetCell.BeginSend` | internal/multisend/multisend.go:74-84 | a begun target is sent, with a clean tail and its clock started |
| `Multisend.TargetCell.MarkTimeout` | internal/multisend/multisend.go:123-132 | only a running target times out |
| `Multisend.TargetCell.FailSend` | internal/multisend/multisend.go:134-140 | a send error overrides whatever state there was |
| `Multisend.Job.constructor` | internal/multisend/multisend.go:188-194 | targets in order, indexed by id, nothing started |
| `Multisend.Job.StartTarget` | internal/multisend/multisend.go:202-216 | begins a target; a failing send finishes it and passes the turn on |
| `Multisend.Job.AdvanceSeq` | internal/multisend/multisend.go:267-282 | the turn passes only from the current target, through failing sends to the next that can run |
| `Multisend.Job.Start` | internal/multisend/multisend.go:219-237 | starts once: the first target, or all of them |
| `Multisend.Job.Feed` | internal/multisend/multisend.go:240-251 | output reaches the target of that id; a finished one passes the turn on |
| `Multisend.Job.Sweep` | internal/multisend/multisend.go:254-263 | each overdue running target, in list order, times out and passes the turn on |
| `Multisend.Job.Done` | internal/multisend/multisend.go:294-301 | true exactly when every target is final |
| `Multisend.AdvanceKeeps` | internal/multisend/multisend.go:267-282 | after passing the turn everything before cur is final, everything after pending, cur itself running |
| `Multisend.SweepKeeps` | internal/multisend/multisend.go:254-282 | a sweep keeps that order, and moves on if the current target was overdue |
| `Multisend.DoneIffPastEnd` | internal/multisend/multisend.go:294-301 | a started sequential job is done exactly when cur equals the number of targets |
| `Multisend.SequentialFinishes` | internal/multisend/multisend.go:219-282 | k sweeps at least one timeout apart leave at least min(k, n) targets final, whatever output arrives in between |
| `Multisend.ParallelFinishes` | internal/multisend/multisend.go:219-263 | a parallel job is done after one sweep a timeout or more after the start |
| `Multisend.Routed` | internal/multisend/multisend.go:188-194 | output for an id goes to the last target of that id, and to none exactly when there is no such target |
| `MultisendLives.Life` | internal/multisend/multisend.go:74-132 | every life of a sent target: while there is no timeout and no prompt it is sent, or echoed exactly when some tail held the non-empty line; the first of these ends it, as timeout, or as error exactly when the error pattern had matched some tail by then in a line that is not blank, else ok; the error text is that of the first such match |
| `MultisendLives.FailedLife` | internal/multisend/multisend.go:134-140 | a failed send makes an error with its text, whatever came before or comes after |
| `MultisendLives.TailAtExact` | internal/multisend/multisend.go:95-98 | what is kept of the output is its end, all of it or the cap |
| `MultisendLives.LineAtExact` | internal/multisend/multisend.go:336-346 | the error line runs from the newline before the match, or the beginning, to the next newline or the end |
| `MultisendLives.ParallelSweep` | internal/multisend/multisend.go:254-263 | a sweep of a parallel job times out exactly the running targets that are overdue |
| `MultisendLives.ParallelLives` | internal/multisend/multisend.go:202-263 | in every run of a parallel job each target is sent its own line at the start and lives through exactly its own output and the sweeps that find it overdue |
| `MultisendLives.SequentialLives` | internal/multisend/multisend.go:202-282 | in every run of a sequential job each begun target was sent its own line at the start or at some event, and has since lived through exactly its own output and the sweeps that found it overdue |
| `MultisendRace.StepInv` | internal/multisend/multisend.go:202-282 | every step of every interleaving of start, feed, timeout and failing-send threads keeps the invariant |
| `MultisendRace.RunInv` | internal/multisend/multisend.go:202-282 | the invariant holds in every state of every run |
| `MultisendRace.StepSafe` | internal/multisend/multisend.go:63-140 | no step revives a final target; target i + 1 leaves pending only once target i is final |
| `MultisendRace.FinalStays` | internal/multisend/multisend.go:63-140 | in every run a final target stays final |
| `MultisendRace.BeginsInOrder` | internal/multisend/multisend.go:202-282 | in every run each target begins at most once and in list order |
| `MultisendRace.Quiescent` | internal/multisend/multisend.go:267-301 | whenever no call is in progress: before cur final, after it pending, cur running, done exactly at the end |
| `Connmgr.NewIdsExact` | internal/connmgr/connmgr.go:97-118 | a batch dials exactly the targets that are not live, each id once |
| `Connmgr.DialedExact` | internal/connmgr/connmgr.go:109-117 | exactly those ids get a fresh dialing entry, all others keep theirs |
| `Connmgr.Manager.StartOne` | internal/connmgr/connmgr.go:98-121 | one target: skipped if live, else a fresh dialing entry, the replaced client handed over for closing |
| `Connmgr.Manager.ConnectBatch` | internal/connmgr/connmgr.go:94-148 | the whole batch: entries made, dials to start, and the clients of the replaced entries, each once |
| `Connmgr.Manager.Settle` | internal/connmgr/connmgr.go:152-175 | a dial result lands in the entry and is watched, or is closed when the entry is gone; what an entry then says is ConnmgrHistory.EntryStep and CarefulEntries |
| `Connmgr.Manager.Watch` | internal/connmgr/connmgr.go:180-196 | a dead client removes its entry and is closed, only if the entry still holds that client |
| `Connmgr.Manager.Disconnect` | internal/connmgr/connmgr.go:221-235 | the entry goes and its client, if any, is to be closed |
| `Connmgr.Manager.DisconnectAll` | internal/connmgr/connmgr.go:238-252 | the table is emptied; one close for each entry that held a client |
| `Connmgr.Manager.ClientOf` | internal/connmgr/connmgr.go:255-263 | the client of a connected entry only |
| `ConnmgrRace.LedgerStep` | internal/connmgr/connmgr.go:94-252 | every step keeps each dialed client in exactly one place |
| `ConnmgrRace.SlotsStep` | internal/connmgr/connmgr.go:125-144 | every step keeps the semaphore equal to the dials that hold a slot, at most its capacity |
| `ConnmgrRace.RunKeeps` | internal/connmgr/connmgr.go:94-252 | both hold in every state of every interleaving |
| `ConnmgrRace.NeverClosedTwice` | internal/connmgr/connmgr.go:94-252 | in every run at most cap dials run at once and no client is closed or about to be closed twice |
| `ConnmgrRace.ConnectedRun` | internal/connmgr/connmgr.go:254-263 | in every run a connected entry holds a client, so asking for it succeeds exactly for connected sessions |
| `ConnmgrRace.NoneLostIff` | internal/connmgr/connmgr.go:152-175 | no client was lost exactly when no settle overwrote a client an entry already held |
| `ConnmgrRace.AllAccountedIff` | internal/connmgr/connmgr.go:94-252 | every client a dial returned is held once, on its way, or closed once, exactly under that condition |
| `ConnmgrRace.CarefulRun` | internal/connmgr/connmgr.go:94-252 | in every run where no session is reconnected while a dial of a removed entry is in flight, no client is lost and held clients belong to connected entries |
| `ConnmgrRace.ReconnectLoses` | internal/connmgr/connmgr.go:152-175 | a concrete run without that discipline in which a client is lost, since settle finds entries by id only |
| `ConnmgrHistory.EntryStep` | internal/connmgr/connmgr.go:94-252 | what each step does to the entry of an id: a failed dial leaves it failed with the error text, a successful one connected with the client, the rest leave it alone, remove it or make it anew |
| `ConnmgrHistory.AttendedRun` | internal/connmgr/connmgr.go:94-252 | in every run a dialing entry waits for a dial in flight, and a held client is watched |
| `ConnmgrHistory.CarefulEntries` | internal/connmgr/connmgr.go:94-252 | in every run of careful callers an entry is dialing exactly when a dial for it is in flight, connected exactly when it holds a client, and live exactly then |
| `ConnmgrHistory.ResultOfDial` | internal/connmgr/connmgr.go:125-146 | the result a goroutine settles with is the one its own dial, or the end of its context, gave for that id |
| `ConnmgrHistory.FailedWhy` | internal/connmgr/connmgr.go:162-164 | in every run a failed entry shows the error of a dial for it that settled since the entry was made |
| `ConnmgrHistory.ConnectedWhy` | internal/connmgr/connmgr.go:165-169 | in every run a held client came from a dial for its id that settled since the entry was made |
| `ConnmgrHistory.FailedSettles` | internal/connmgr/connmgr.go:152-175 | in a careful run a failed settle leaves the session not live with the error its dial reported, and the next connect dials it |
| `ConnmgrHistory.ConnectExact` | internal/connmgr/connmgr.go:98-121 | a dialing or connected session is not dialed again; any other is |
| `ConnmgrHistory.DiesExact` | internal/connmgr/connmgr.go:180-196 | the death of a client removes exactly the entry that holds it and closes it once |
| `ConnmgrHistory.DropExact` | internal/connmgr/connmgr.go:221-235 | a disconnect removes exactly that session and closes its client once |
| `StoreNames.SanitizeName` | internal/store/yamlstore.go:528-542 | the loop computes the sanitized name |
| `StoreNames.SanitizedIsClean` | internal/store/yamlstore.go:525-542 | only safe characters, no separator at either end, so never a dot name and never hidden |
| `StoreNames.CleanKept` | internal/store/yamlstore.go:525-542 | a name is kept exactly when it is clean already; sanitizing is idempotent |
| `StoreNames.SanitizedChars` | internal/store/yamlstore.go:525-542 | safe characters kept, spaces to underscores, others to hyphens, separators at the ends dropped and nothing else |
| `StoreNames.FileNameLoads` | internal/store/yamlstore.go:119-146 | every name a session or folder is stored under is one the loader picks up as that kind |
| `StoreNames.SameFileIff` | internal/store/yamlstore.go:513-523 | two session names share a file exactly when they sanitize to the same, or one to "folder" and the other to "s-folder" |
| `StoreNames.SplitSlashExact` | internal/store/reconcile.go:173 | no part holds a slash, and joining the parts gives the string back |
| `StoreNames.JoinedSplits` | internal/store/reconcile.go:173 | and only those parts do: joined parts are split again |
| `StoreNames.NonEmptyConcat` | internal/store/reconcile.go:172-182 | blank parts are dropped, all others stay in order, trimmed |
| `StoreNames.PathPartsExact` | internal/store/reconcile.go:172-185 | the names of a path are at most eight components, each trimmed, not blank, without slash and no dot name, and joined they stand for themselves |
| `StoreNames.ComponentsJoined` | internal/store/reconcile.go:172-185 | any such names are those of the path they make when joined, unless there are more than eight |
| `StoreNames.PathRefusedIff` | internal/store/reconcile.go:178-185 | a path is refused exactly when a trimmed part is a dot name or more than eight are not blank |
| `StoreIndex.FileFree` | internal/store/yamlstore.go:279-288 | without a clash in the folder the target file is nobody else's |
| `StoreIndex.PutSessionOk` | internal/store/yamlstore.go:261-317 | storing a session keeps the index consistent: paths injective and below their folder, names unique ignoring case |
| `StoreIndex.AddFolderOk` | internal/store/yamlstore.go:337-373 | creating a folder keeps the index consistent |
| `StoreExact.PutExact` | internal/store/yamlstore.go:261-317 | a put stores one session with every field given, the protocol defaulted to ssh, the revision bumped and the time taken, under its id or a new one, in the file of its name in its folder; nothing else changes |
| `StoreExact.PutRefused` | internal/store/yamlstore.go:265-288 | a put is refused for a blank name, an unknown folder, an unusable name, a name or file taken in the folder, or a directory of that name, and for nothing else |
| `StoreExact.DeleteExact` | internal/store/yamlstore.go:398-437 | exactly sessions, and folders below the root without children and sessions, are deleted, alone; every error has its one cause |
| `StoreExact.PutFolderExact` | internal/store/yamlstore.go:321-395 | a folder put changes one record as given, the root keeping its name, and moves exactly the paths at and below a folder whose directory changes |
| `StoreExact.PutFolderRefused` | internal/store/yamlstore.go:337-386 | a folder put is refused for exactly these reasons: blank name, unknown parent, unusable name, name or directory taken, unknown id, own subtree, file in the way |
| `StoreMove.DeleteOk` | internal/store/yamlstore.go:398-437 | deleting keeps the index consistent |
| `StoreMove.PrefixIsFolder` | internal/store/yamlstore.go:239-256 | every directory on the way to a folder is a folder |
| `StoreMove.NothingBelow` | internal/store/yamlstore.go:375-390 | nothing lies at or below the target of a permitted move |
| `StoreMove.MovedFoldersOk` | internal/store/yamlstore.go:382-394 | moving a folder carries its whole subtree and keeps folder paths injective and parent-extending |
| `StoreMove.MovedSessionsOk` | internal/store/yamlstore.go:382-394 | session files move along and stay in their folders' directories |
| `StoreMove.PutFolderOk` | internal/store/yamlstore.go:321-395 | creating, updating, renaming and moving folders keep the index consistent |
| `DiskTree.ReloadUnique` | internal/store/yamlstore.go:69-176 | two consistent indexes that agree with one disk are the same: a reload can only build one |
| `DiskTree.PutAgrees` | internal/store/yamlstore.go:305-315 | after a put the index is what the disk says, the old file of a renamed session being gone |
| `DiskTree.RenameAgrees` | internal/store/yamlstore.go:382-394 | after a directory rename the moved index is what the disk says |
| `DiskTree.UpdateAgrees` | internal/store/yamlstore.go:375-394 | after any folder update the index is what the disk says |
| `YamlStore.Store.constructor` | internal/store/yamlstore.go:47-60 | opening loads exactly the index the tree stands for |
| `YamlStore.Store.Reload` | internal/store/yamlstore.go:69-81 | rebuilding from the disk yields exactly the index that agrees with it |
| `YamlStore.Store.LoadDir` | internal/store/yamlstore.go:119-148 | loading a directory adds exactly the folders and sessions below it |
| `YamlStore.Store.LoadFolder` | internal/store/yamlstore.go:83-117 | one directory record under its parent, a second folder of the id refused |
| `YamlStore.Store.Put` | internal/store/yamlstore.go:261-317 | outcome, errors and new index as specified; index and disk still agree; on error nothing changed |
| `YamlStore.Store.PutFolder` | internal/store/yamlstore.go:321-395 | outcome, errors and new index as specified for create, update and move; index and disk still agree |
| `YamlStore.Store.Delete` | internal/store/yamlstore.go:398-437 | outcome, errors and new index as specified; index and disk still agree |
| `YamlStore.Store.LoadAll` | internal/store/yamlstore.go:62-66 | loading everything again changes nothing |
| `YamlStore.Store.IsDescendant` | internal/store/source.go:150-166 | the walk up the parents decides being below, and ends |
| `YamlStore.Store.SourceAbove` | internal/store/source.go:66-75 | finds a source above the folder exactly when there is one |
| `YamlStore.Store.SourceUnder` | internal/store/source.go:76-83 | finds a source below the folder exactly when there is one |
| `YamlStore.Store.SetFolderSource` | internal/store/source.go:53-98 | refused for the root, unknown folders and a source above or below; otherwise set, on index and disk |
| `YamlStore.Store.ClearFolderSource` | internal/store/source.go:101-123 | removes the source, idempotently |
| `StoreSources.SetSourceExact` | internal/store/source.go:53-98 | setting is refused exactly when it would put two sources on one branch |
| `StoreExact.SetSourceStores` | internal/store/source.go:53-98 | the configuration is stored with the time, and of the index only that record's source, revision and time change; each refusal has its one cause |
| `StoreExact.ClearSourceExact` | internal/store/source.go:101-123 | the folder is left without a source, and nothing changes if it had none |
| `StoreSources.ClearSourceKeeps` | internal/store/source.go:101-123 | clearing keeps one source per subtree |
| `StoreSources.AddKeeps` | internal/store/yamlstore.go:362-373 | creating a folder without a source keeps it |
| `StoreSources.DeleteKeeps` | internal/store/yamlstore.go:411-435 | deleting keeps it |
| `StoreSources.MoveKeepsIff` | internal/store/yamlstore.go:382-394 | a move to another directory keeps it exactly when it brings no source under another |
| `StoreSources.PutFolderKeepsIff` | internal/store/yamlstore.go:321-395 | whatever PutFolder accepts (creation, update in place, move, rewrite of the root) keeps it exactly when the record brings no source under another |
| `StoreSources.RenameKeeps` | internal/store/yamlstore.go:375-394 | renaming in place keeps it |
| `SourceRuns.RunKeeps` | internal/store/source.go:50-123 | in every run of set, clear, create, rename in place and delete no source lies above another and the root has none |
| `SourceRuns.MoveBreaks` | internal/store/yamlstore.go:375-394 | a concrete move that the store permits and that puts one source under another |
| `Prune.PrunedExact` | internal/store/reconcile.go:206-231 | after n passes exactly those folders are left that lead to a session or a foreign folder, or have something n or more levels below |
| `ReconcileExact.PrunedSays` | internal/store/reconcile.go:206-231 | the same in terms of records: a folder is gone exactly when all at and below it was created for this source, holds no session and is less than n levels deep |
| `Prune.PrunedKeeps` | internal/store/reconcile.go:206-231 | only owned folders are ever deleted; everything else, records and paths included, is untouched |
| `Prune.CompleteIff` | internal/store/reconcile.go:206-231 | the bounded passes reach the fixpoint exactly when no unsupported chain is longer than they are many |
| `Prune.DepthSuffices` | internal/store/reconcile.go:32-33 | with owned folders at most the depth limit below their source the passes suffice |
| `Prune.PrunedAgain` | internal/store/reconcile.go:226-228 | at the fixpoint a further prune changes nothing |
| `Reconcile.DescendOk` | internal/store/reconcile.go:186-201 | following a folder path ends where the path leads, and only adds folders owned by the source |
| `Reconcile.DescendExisting` | internal/store/reconcile.go:187-191 | where the path leads already nothing is created |
| `ReconcileExact.FolderPartsIs` | internal/store/reconcile.go:83 | trimming slashes off a record's path makes no difference |
| `ReconcileExact.ResolvesIff` | internal/store/reconcile.go:187-191 | a path leads to the end of the chain of child folders of its names, ignoring case |
| `ReconcileExact.KeyEqualIff` | internal/store/reconcile.go:47-52 | two keys are equal exactly when the attribute the mode goes by is |
| `ReconcileExact.LandsIff` | internal/store/reconcile.go:75-121 | landed, field by field: a missing port is 22 and a missing protocol ssh, given ones are kept |
| `ReconcileExact.PlaceExact` | internal/store/reconcile.go:87-136 | a record is skipped exactly when its name is taken in its leaf, refused for a bad name or a directory in the way, and otherwise stored, as an update exactly when its key was known, options kept |
| `ReconcileExact.CountsExact` | internal/store/reconcile.go:104-136 | the counts are the numbers of records added, updated and skipped |
| `Reconcile.PlaceOk` | internal/store/reconcile.go:75-148 | one record either lands, alone, in its leaf folder with normalized fields, or is skipped with no session changed |
| `Reconcile.PlaceAllOk` | internal/store/reconcile.go:75-148 | all records: sessions no record updated are untouched and every new one was added for one record |
| `Converge.Converges` | internal/store/reconcile.go:42-163 | with distinct generated keys, and records that share a key only where it was found and they agree: each record not skipped has exactly one generated session, landed; none is left without a record; all other sessions untouched; the counts add up |
| `ConvergeIff.ConvergesIff` | internal/store/reconcile.go:42-163 | a run that skipped nothing converges exactly when the generated sessions had distinct keys and records that share a key found it and agree in normalized fields and leaf |
| `Converge.SessionCount` | internal/store/reconcile.go:136-156 | final number of sessions is the initial one plus added minus removed, with or without distinct records |
| `Converge.LandsPruned` | internal/store/reconcile.go:159-161 | pruning never takes a folder on the path to a landed session |
| `ReconcileAgain.AgainIff` | internal/store/reconcile.go:42-231 | after a run that skipped nothing a second one reports only updates and changes only revisions and timestamps, exactly when the first kept the source folder and pruned to the fixpoint |
| `ReconcileAgain.AgainIffShallow` | internal/store/reconcile.go:159-231 | the same on the index before pruning: the source leads somewhere and no empty owned chain is longer than the passes are many |
| `ReconcileChains.PruneStopsShort` | internal/store/reconcile.go:206-231 | for every chain of ten or more empty owned folders: one reconcile leaves some, and a second one with nothing skipped removes more |
| `ReconcileAgain.ReconcileDepth` | internal/store/reconcile.go:32-33 | owned folders at most eight levels below their source stay so, and the prune is then complete |
| `ReconcileAgain.Idempotent` | internal/store/reconcile.go:42-231 | with the owned folders within that depth reconcile is idempotent |
| `ReconcileDuplicates.DuplicateKeysKept` | internal/store/reconcile.go:74-136 | a concrete pair of records with one key, both added: duplicate keys are not merged |
| `ReconcileDuplicates.GeneratedTwice` | internal/store/reconcile.go:54-59 | a concrete pair of generated sessions with one key, of which a reconcile without records leaves one |
| `ReconcileRun.FolderByName` | internal/store/yamlstore.go:486-495 | finds the child of that name ignoring case exactly when there is one |
| `ReconcileRun.SplitPath` | internal/store/reconcile.go:169-185 | the path's names, refused for dot names or too many; what they are is StoreNames.PathPartsExact |
| `ReconcileRun.EnsureFolderPath` | internal/store/reconcile.go:168-202 | the loop does what the descent specifies, error by error |
| `ReconcileRun.LeafFor` | internal/store/reconcile.go:61-72 | the leaf cache never changes the answer |
| `ReconcileRun.PlaceRecord` | internal/store/reconcile.go:88-136 | one record on the store does what its specification says |
| `ReconcileRun.PrunePass` | internal/store/reconcile.go:207-228 | one pass deletes exactly the folders empty and owned when it began, or fails at the root |
| `ReconcileRun.PruneGeneratedFolders` | internal/store/reconcile.go:206-231 | the pass loop does what the bounded prune specifies |
| `ReconcileRun.RemoveStale` | internal/store/reconcile.go:150-157 | exactly the sessions under unseen keys are deleted, one for each |
| `ReconcileRun.ReconcileFolderSessions` | internal/store/reconcile.go:42-163 | the whole reconcile on store and disk does exactly what the specification says, result counts included |
| `Terminals.Terminal.WaitCredit` | internal/app/terminal.go:119-136 | one turn of the wait: stays waiting, or is let in, by reset if the deadline passed; exactly when is Terminals.AdmittedIff |
| `Terminals.Terminal.Ack` | internal/app/terminal.go:138-149 | takes acknowledged bytes off, never below zero |
| `Terminals.Terminal.QueueOutput` | internal/app/terminal.go:151-167 | at once when idle, else batched, and out when the batch reaches the chunk size |
| `Terminals.Terminal.FlushOutput` | internal/app/terminal.go:172-182 | emits the batch and keeps the window open, or ends it when empty |
| `Terminals.Terminal.DrainOutput` | internal/app/terminal.go:186-193 | emits what is left |
| `Terminals.RunOk` | internal/app/terminal.go:119-193 | in every run: emitted then batched bytes are the queued ones, one timer exactly while pending, a non-empty batch has one, and the credit ledger balances |
| `Terminals.RunBounded` | internal/app/terminal.go:119-193 | in every run events are shorter than outChunk plus one read, and unacknowledged bytes at most the window plus one read until closing |
| `Terminals.IdleAtOnce` | internal/app/terminal.go:154-161 | the first read after idle goes out at once and opens a window |
| `Terminals.AdmittedIff` | internal/app/terminal.go:126-135 | a turn lets a read in exactly when at most the window is unacknowledged, the terminal closes or the deadline passed; what is in flight is forgiven exactly when it exceeded the window of an open terminal |
| `Terminals.HeldBack` | internal/app/terminal.go:154-166 | within a window a read that does not fill the chunk is batched and nothing is emitted, and only then |
| `Terminals.Coalesced` | internal/app/terminal.go:151-193 | in every run there is at most one event for each timer firing or drain, besides the first and those that carry a whole chunk |
| `Terminals.LedgerBound` | internal/app/terminal.go:119-149 | credited minus acknowledged never exceeds in flight plus forgiven |
| `Terminals.ExactIff` | internal/app/terminal.go:119-149 | in flight is exactly credited minus acknowledged minus forgiven if and only if no acknowledgement exceeded that |
| `Terminals.CreditsExactIff` | internal/app/terminal.go:119-149 | without a reset, in flight is exactly credited minus acknowledged if and only if acknowledgements never exceeded credits |
| `Terminals.HonestExact` | internal/app/terminal.go:119-149 | in particular for a frontend that acknowledges only bytes it was sent |
| `Terminals.NothingLeft` | internal/app/terminal.go:172-193 | after a drain or a firing nothing queued is unsent, and an idle second firing closes the window |
| `OsDetect.ObservedLedger` | internal/osdetect/osdetect.go:161-206 | whatever is observed, every score stays the sum of the weights of the rules that fired |
| `OsDetect.FreshLedger` | internal/osdetect/osdetect.go:71-78 | a new detector has no score |
| `OsDetect.TrimLine` | internal/osdetect/osdetect.go:145 | a line without its trailing carriage returns and spaces, nothing else cut |
| `OsDetect.TrimSpaces` | internal/osdetect/osdetect.go:153 | the tail without its trailing spaces, nothing else cut |
| `OsStream.LinesExact` | internal/osdetect/osdetect.go:161-181 | a line rule fired exactly when some line counting for it hit it; passed exactly when a marker line went by |
| `OsStream.PromptRulesExact` | internal/osdetect/osdetect.go:183-200 | a prompt rule has fired exactly when it had, or may fire now and matches the tail |
| `OsStream.PromptMeaning` | internal/osdetect/osdetect.go:152-153 | in every run a prompt rule has fired exactly when after some chunk looked at the last 512 bytes of the partial line, cleaned and without trailing spaces, were not empty, the rule might fire in that phase, and it matched |
| `OsStream.VersionRulesExact` | internal/osdetect/osdetect.go:111-122 | a version rule has fired exactly when it had or its hint is in the version |
| `OsStream.ScannedMeaning` | internal/osdetect/osdetect.go:128-181 | always, within the budget and past it: the line evidence is what the lines handed to the matcher say |
| `OsStream.CutsAgreeIff` | internal/osdetect/osdetect.go:128-159 | all ways of cutting a stream hand the matcher the same lines exactly when its finished lines are at most maxTail long and none is finished after the byte that exceeds the budget |
| `OsStream.StreamMeaning` | internal/osdetect/osdetect.go:128-159 | of such a stream the line evidence is what its finished lines say |
| `OsStream.ChunkingIrrelevant` | internal/osdetect/osdetect.go:128-159 | two ways of cutting such a stream leave the same line evidence |
| `OsStream.LongLinesMatter` | internal/osdetect/osdetect.go:148-151 | for every stream with a finished line whose text exceeds the tail cap: a hint that fires when it comes whole and not when it comes byte by byte |
| `OsStream.SilentBeforeMarker` | internal/osdetect/osdetect.go:161-189 | a marked relay gains no output evidence before its marker line |
| `OsStream.MarkerPasses` | internal/osdetect/osdetect.go:165-170 | after the marker line the rest is scanned as the target's |
| `OsDetector.Detector.ObserveOutput` | internal/osdetect/osdetect.go:128-159 | the scanning loop does what the specification says, which OsStream.ScannedMeaning and PromptMeaning say outright, and the ledger holds |
| `OsDetector.Detector.ObserveServerVersion` | internal/osdetect/osdetect.go:111-122 | each version rule fires at most once |
| `OsDetector.Detector.MatchLine` | internal/osdetect/osdetect.go:161-181 | one line against marker and rules |
| `OsDetector.Detector.MatchPrompt` | internal/osdetect/osdetect.go:183-200 | the tail against the prompt rules |
| `OsDetector.Detector.RearmRelay` | internal/osdetect/osdetect.go:99-106 | a marked relay is back in its hop phase; any other detector is unchanged |
| `OsDetector.Detector.GuessFamily` | internal/osdetect/osdetect.go:214-233 | the family with the highest score, ties by name, visited in any order; confidence in [0, 1] |
| `OsDetector.OneGuess` | internal/osdetect/osdetect.go:208-233 | the scores determine the guess |
| `Ulid.FiveBitsAt` | internal/store/ulid.go:35-46 | the five bits are (N / 2^start) mod 32 of the big-endian 128-bit number |
| `Ulid.NewULID` | internal/store/ulid.go:13-30 | the text encodes the low 48 bits of the time above the 80 random bits |
| `Ulid.Text` | internal/store/ulid.go:25-29 | the 26 digits of the number |
| `Ulid.RoundTrip` | internal/store/ulid.go:25-46 | decoding the text gives the number back |
| `Ulid.OrderIff` | internal/store/ulid.go:10-12 | the texts are ordered exactly as the numbers are |
| `Ulid.LaterSortsAfter` | internal/store/ulid.go:10-21 | ids of a later millisecond below 2^48 sort after |

## Left out

Abstractions that hold throughout:

- zstd is a pair of functions with `dec(enc(x)) == x`, a regular expression a text and a predicate on a line; the iterator's decode-error path is unreachable under that law.
- Sealed chunks and connection entries are values identified by their first line number and id; aliasing, and the reuse of a batch buffer after it was handed to the frontend, are not modelled.
- A mutex makes each critical section one step; the Go memory model below the mutexes, goroutine scheduling fairness, wait groups and the batch's `done` channel are not modelled.
- Go's `int` and `int64` counters are unbounded; times are integers that callers pass in or the store's clock supplies.
- Callbacks (`OnSeal`, `onChange`, wake-ups of waiting readers) are returned events or omitted.

Member by member:

- Scrollback.Ring.CompressorTake: compressing outside the lock is one value computed at commit, because the chunk's raw bytes do not change in between.
- Scrollback.Ring.Append: how many chunks were announced inline, and in which order, is given for the sealing step, not again for the whole append.
- ScrollbackRuns.CmdGrep: flags, files and session lookup are left out; for a recording beyond the caps the first line still retained is an output, since it depends on when the compressor ran.
- Multisend.Job.Feed: escape sequences are already stripped from the bytes given, since their stripping depends on where reads are cut.
- Multisend.Job.constructor: target objects are pairwise distinct (their ids need not be); the send function is a function of id and line, so its effect on a terminal is not modelled.
- MultisendRace.StepInv: a timeout may happen at any time, a superset of what the sweep's clock comparison permits; targets are pairwise distinct objects.
- MultisendLives.SequentialLives: for a positive timeout, as internal/app/multisend.go:113-116 makes sure of; with none a target would time out in the sweep that begins it.
- MultisendLives.Life: the patterns are functions of the bytes; an error line that is blank once trimmed counts as none, as in the code, and is looked for again.
- Connmgr.Manager.Settle: a dial returns a client or an error, never both and never neither.
- Connmgr.Manager.ConnectBatch: capacity, context cancellation and the dial goroutines are in `ConnmgrRace`; names, hosts, times, SOCKS fields and the sorted `Active` snapshot are not modelled.
- YamlStore.Store.constructor: the tree on disk is one a store wrote: healing a missing folder record, id or name, hidden entries and duplicate ids of hand-made trees are not modelled.
- YamlStore.Store.Reload: the same restriction; on a tree that agrees with no consistent index nothing is said.
- YamlStore.Store.LoadDir: the same restriction.
- YamlStore.Store.LoadFolder: every directory has a record with an id and a name.
- YamlStore.Store.Put: the only file error is a name in the way; YAML text, atomic replacement, permissions, the case of file systems that ignore it, and metadata sidecars are not modelled. Options are one opaque text. An id passed in is empty, a stored session's, or nobody's; an id that names a folder, which the code would store a second time, is excluded.
- YamlStore.Store.SetFolderSource: validation of the source's URL, format and key is left out; its two clock readings are one.
- Grep.CaseIgnored: what the compiler makes of a (?i) pattern is a law assumed of it.
- StoreNames.SanitizeName: strings are sequences of characters, case folding is an arbitrary function compared for equality.
- Reconcile.PlaceOk: attributes and raw data of a record are not stored by the code either and are not modelled; OS hints written to the sidecar are left out.
- ConvergeIff.ConvergesIff: for a run that skipped a record only the sufficient direction is stated, in Converge.Converges, since which records are skipped depends on the names in each leaf folder.
- ReconcileRun.ReconcileFolderSessions: on an error the store is only said to be consistent and in agreement with its disk; what was done before the error, and the partial counts, are not specified.
- Terminals.Terminal.WaitCredit: condition variable and ticker are abstracted to a reader looking again at any time, with its deadline passed or not.
- OsStream.ScannedMeaning: speaks of a detector that was not rearmed.
- OsStream.PromptMeaning: the same; prompt evidence does depend on where reads are cut, so it is stated chunk by chunk.
- OsDetect.ObservedLedger: the rule tables are arbitrary tables of positive weights; scores are exact real numbers, as the multiples of one half in the code's tables are in binary floating point.
- Ulid.NewULID: clock and random bytes are arguments.

Not modelled at all, because it would only add easy members or needs libraries that cannot be seen:

- The frontend, Wails bindings, themes, SSH transport, agent, SFTP, HTTP fetch, Lua, templates and secrets.
- Option overlay, variables, filter scoring, version comparison, SOCKS headers and memory budgets.
- Activity detection, prompt marks and last-output copying of terminals.
- Replay of pending data in internal/sshx/session.go:76-113, which runs outside its lock.
- Spill to disk, audit log, internal/grep and internal/luaext, which are declared but not implemented.
