# What sbnn promises, as a model

sbnn shows diffs to a reviewer in a browser and collects comments on them. This project models the parts of it that
other parts lean on, in Dafny, and proves what they promise.

**The session and its log** (`Session*`, `Codec`, `Recovery`, `Steps`, `Store`, `Restarts`, `OldFiles`, `Prune`). A
server holds its reviews in memory and keeps them in a snapshot followed by a log of records. The store is a class whose
methods change the session in place and save it; the disk is a class whose appends may stop at any byte, whose syncs may
fail and whose replacements are atomic. The invariant every method keeps says that the file always stands for some step
no older than the last one acknowledged, and for the session in memory exactly, unless the next save is bound to write a
snapshot. Most records say less than the change they stand for (a resolution logs one comment of the thread), so for
every change it is proved that replaying its record rebuilds all of it. What each change does to the session is also
said field by field (`SessionEffects`). The store also keeps what it had handed out at each of its steps, so that a stop
at any moment and a start on whatever file was left say which ids and round titles are still known. JSON is stood in for
by a small concrete codec, with its round trip, its self-delimitation and the absence of newlines proved.

**Notices, pages and waiters** (`Broker`, `EventRuns`, `DeliveryRuns`, `ReplayRuns`, `LoadOrder`, `PageRuns`,
`WaitRuns`). The broker is a class over bounded channels. The same delivery is also a machine of small steps, in which
the receiver may take events while the publisher makes room, and it is proved to do what the class does when nothing is
taken meanwhile. On that machine: a lost diff change is always owed to the page, a page at rest shows what the store
holds, review notices arrive once, a stream that is opened again replays the reviews it missed, and a wait misses no
review. Where a promise needs a hypothesis, a run without it is exhibited.

**Diffs** (`DiffModel`, `DiffParser`, `HunkFacts`, `HunkHeaders`, `DiffRoundTrip`, `PatchText`, `GitText`,
`ParsedDiffs`, `Worktree`). The parser is a class with a cursor, proved against a step function; then parsing is proved
to undo printing, and the facts about hunks to hold of any text at all; `GitText` does the same for what git writes
around hunks, and `PatchText` for signatures and merges. `Worktree` is the check of a working tree file against a diff,
and the rebuilding of its new side.

**Suggestions** (`Fences`, `FenceLines`, `FenceRoundTrip`), **threads** (`Threads`, `ThreadOrder`, `OpenCounts`), **the
port map** (`PortMap`, `PortRuns`) and **the two readers that work in pieces** (`HistoryLog`, `ExportedPage`) follow the
same plan: loops proved against functions, and the promises proved about the functions. `Prelude`, `Sequences`, `Text`,
`Decimal` and `Keys` are what they share.

## What the proofs found

- **An unclosed suggestion may swallow the next one.** When a body ends inside a suggestion, and inside a code block in
  it whose fence has the same character and length, the fence written to close the suggestion closes the code block
  instead. `SuggestionRoundTrip` shows that reading back fails for exactly these bodies, and `TwinBody` is one.
- **An id can be given twice across a restart.** `AddDiff` answers although neither the append nor the snapshot was
  written, and a server that then starts on the old file gives the same id, and the same default title, to another diff
  (`UnsavedIdComesAgain`; `UnsavedRun` shows that every first diff can meet this). An id comes again exactly when it was
  handed out after the step the file stands for (`LostIdsComeAgain`), so none does once its change was saved without an
  error (`RestartAfterSave`).
- **Which names may be given to a group is a precondition of the store.** `AddDiff` and `AddHook` take any name, and the
  two handlers that call them have checked it (`internal/server/server.go`, lines 727 and 1325). A start drops nothing
  exactly when every name is usable (`CleanedIsAll`), and every change keeps that when groups are only made under usable
  names.
- **The mark of a lost notice belongs to no group.** A full notice about another group clears it, and the page keeps
  showing diffs the store no longer holds (`OtherGroupHidesChange`); and eight unread reviews of another group keep this
  one's out (`OtherReviewsHideReview`). Without either the page converges, whatever the other groups do
  (`FairPageConverges`).
- **A ninth unread review notice is dropped while `deliver` answers that it was queued** (`NinthIsDropped`), and a
  receiver that takes part while the publisher makes room can receive an older notice after a newer one
  (`DisturbedOrder`).
- **A failed compaction leaves `dirty` unset.** What forces the next save to try again is then only the size of the log,
  so the invariant of the store needs that condition beside `dirty` and `snapBytes == 0` (`StaleMeansSnapshot`). A
  `save` without a record that failed would leave a file that takes appends and is behind; no caller makes one.
- **The lock of the port map is skipped where the file system has none** (`internal/filelock/lock_unix.go`), and there
  two repositories can be given one port (`WithoutLocksPortsCollide`).
- **A line that ends in a carriage return loses it** on the way through a diff, and nothing else is lost
  (`DiffRoundTrips`).

## Model

| member | source | states |
|---|---|---|
| Fences.BlockEnd | internal/model/model.go:302-335 | finds the line that closes a block by the fence grammar: an ordinary block by a fence of its character at least as long, a suggestion only outside the blocks nested in it |
| Fences.Suggestions | internal/model/model.go:269-292 | reads the replacements of all suggestion blocks, in order, one carriage return dropped from each of their lines |
| Fences.DanglingFence | internal/model/model.go:436-450 | answers the fence of the block a text leaves open, or nothing when every block is closed |
| Fences.WithSuggestion | internal/model/model.go:406-431 | appends a suggestion behind the trimmed body, its open block closed first, in the shortest fence that the suggestion does not hold; lengthening the fence ends |
| FenceLines.OpensUnlessBacktick | internal/model/model.go:367-378 | for every line of white space, a run of one fence character and text behind it: it opens a block if and only if the run has at least 3, and, for backticks, no backtick stands behind it |
| FenceLines.OtherLinesOpenNothing | internal/model/model.go:391-400 | a line that begins with anything else, or with nothing, opens no block and closes none |
| FenceLines.CodeSpanInFront | internal/model/model.go:367-378 | prose that begins with a code span, in front of any body, changes none of the suggestions read |
| FenceLines.SuggestionWord | internal/model/model.go:355-365 | a fence opens a suggestion if and only if the word behind it is that, letter by letter in either case |
| FenceLines.ClosesBlock | internal/model/model.go:380-387 | a line closes a block if and only if it is a run of its character, at least as long, with nothing behind it |
| FenceLines.CodeBlockIsSkipped | internal/model/model.go:302-320 | a block of anything else proposes nothing, whatever stands in it, and what follows it is read |
| FenceLines.NestedBlockStays | internal/model/model.go:337-352 | a suggestion may hold a block of code fenced like itself, and proposes it with the rest of its text |
| FenceLines.AppendedIs | internal/model/model.go:406-431 | what is written, character by character: the body, the fence of the block it leaves open, an empty line, and the suggestion between the shortest backticks it does not hold |
| FenceRoundTrip.SuggestionRoundTrip | internal/model/model.go:406-431 | for every body and every suggestion that is not blank, reading back gives the body's suggestions and then the new one, if and only if the body does not end inside a suggestion and a nested block opened by the twin of its fence |
| FenceRoundTrip.BlankSuggestionAddsNothing | internal/model/model.go:407-410 | a blank suggestion leaves the body as it was |
| FenceRoundTrip.BlockReadsBack | internal/model/model.go:269-292 | a suggestion block on its own proposes the text it was made of, whatever fences that text holds |
| FenceRoundTrip.CloseText | internal/model/model.go:436-450 | closing the block a text leaves open closes every block and changes no suggestion, unless a twin takes the fence |
| FenceRoundTrip.TwinLosesSuggestion | internal/model/model.go:418-431 | after a body that ends in a twin, what is read back is never what was meant |
| FenceRoundTrip.TwinBody | internal/model/model.go:302-335 | a body of two lines that the round trip fails on |
| Threads.Threads | internal/model/model.go:224-249 | gathers comments into threads in one pass over a map of the last root of each id |
| Threads.ThreadsConserve | internal/model/model.go:224-249 | the threads hold every comment of the list exactly once, even with ids repeated or roots missing |
| Threads.ThreadsGather | internal/model/model.go:224-249 | there is one thread for each comment that answers none of the list, in their order, and each reply is in a thread whose root it names |
| ThreadOrder.RepliesInOrder | internal/model/model.go:224-249 | for any list, the replies of a thread are the comments of the list that name it, as a subsequence of the list |
| ThreadOrder.RepliesNameTheirRoot | internal/model/model.go:224-249 | when ids are distinct, they are all the comments that name the root of the thread, in the order of the list |
| Threads.OpenThreads | internal/model/model.go:254-262 | counts the threads whose first comment is not resolved |
| Threads.OpenComments | internal/server/hook.go:61-69 | keeps the comments that are not resolved, in their order |
| Threads.UnresolvedInOrder | internal/server/hook.go:61-69 | the open comments are those not resolved, each as often as it is there, in the order of the list |
| Threads.OpenThreadsOfOpen | internal/server/hook.go:119-134 | in a session, as many threads are open among all the comments as among the open ones a hook is given |
| Threads.CommentedBlocksOnOpenThreads | internal/model/model.go:582-595 | a review that only commented blocks exactly when the number of open comments reported with it is positive, counted on all comments or on the open ones |
| Threads.Blocks | internal/model/model.go:582-595 | decides by the verdict, and for a review that only commented by its comments |
| OpenCounting.CountOpenComments | web/src/openCounts.ts:40-71 | counts by round and file, keeps the last count's object for each round that did not change, and answers the last count itself exactly when nothing changed; totals are right whenever the last ones added up |
| OpenCounting.SameCounts | web/src/openCounts.ts:73-77 | comparing sizes and one side's entries decides equality |
| OpenCounting.CountsAreOfFiles | web/src/openCounts.ts:47-56 | a file has its number of counted comments, and is absent exactly when that is zero |
| OpenCounting.TotalIsSumOfFiles | web/src/openCounts.ts:47-56 | the total of each round is the sum of its files |
| OpenCounting.TotalsAreOpenThreads | web/src/openCounts.ts:40-56 | the totals of a page add up to the server's count of open threads, for any list of comments |
| Codec.DecodeEncode | internal/server/store_log.go:90-144 | an encoded value followed by anything reads back as the value and what followed |
| Codec.EncodeHasNoNewline | internal/server/store_log.go:246-272 | an encoding holds no newline, so a record is one line |
| Codec.DecodeExtend | internal/server/store_log.go:90-144 | what a decoder read of a text it reads of any longer one |
| SessionCodec.RecordRoundTrip | internal/server/store_log.go:57-78 | every record of the log reads back as itself |
| SessionCodec.SnapshotRoundTrip | internal/server/store_log.go:276-315 | every snapshot reads back as itself |
| SessionFile.ParseSession | internal/server/store_log.go:90-144 | takes a file apart into its snapshot, its records, their sizes and whether a cut-off last line was dropped |
| SessionFile.TornReads | internal/server/store_log.go:90-144 | any part of a record's line, anything without a newline, or a line of something else reads as no record and marks the file as not to be appended to |
| SessionFile.ParseTail | internal/server/store_log.go:90-144 | what is appended to an appendable file is read after its records, and never glued to one of them |
| SessionFile.SizesAddUp | internal/server/store_log.go:90-144 | the sizes read of the snapshot and of the log add up to the file |
| SessionFile.ParseLoose | internal/server/store_log.go:90-144 | whatever holds no newline, also white space, leaves the records of the file before it as they were |
| Recovery.SnapshotLoads | internal/server/store_log.go:276-315 | the file that is written stands for the session it was taken of, before a start drops the groups that cannot be named |
| Recovery.AppendLoads | internal/server/store_log.go:246-272 | a whole record appended is one change more for whoever loads the file |
| Recovery.TornLoads | internal/server/store_log.go:90-144 | a record that was cut short, or something else left in its place, changes nothing for whoever loads the file |
| Recovery.CleanedKeeps | internal/server/store.go:233-254 | dropping the groups that cannot be named keeps the session's invariant and every id handed out |
| Recovery.CleanedIsAll | internal/server/store.go:233-254 | a start drops nothing if and only if every group has a name that can be used |
| Recovery.SnapshotNamesRepository | internal/server/store_log.go:276-315 | a snapshot names the repository it was written for |
| Recovery.AppendNamesRepository | internal/server/store_log.go:246-272 | a record, or any part of one, behind an appendable file leaves the repository it names |
| OldFiles.OldFileKeeps | internal/server/store.go:119-222 | a file of a build that shared one counter and counted no rounds loads to a session in which no id or round it holds can come again |
| OldFiles.GuessCovers | internal/server/store.go:325-340 | the rounds guessed of a group are the larger of its diffs and the highest number a default title of it carries |
| OldFiles.SharedSeqIsHighest | internal/server/store.go:378-390 | the one counter written for such builds is the highest of them |
| OldFiles.NonNullAre | internal/server/store.go:119-222 | of the groups of a file those that are not null are loaded, in their order |
| OldFiles.BrokenInTheMiddle | internal/server/store_log.go:90-144 | a record that cannot be read and is not the last line makes the file broken, whatever stands behind it |
| SessionIds.NextIdIsNew | internal/server/store.go:369-375 | the id a counter gives next was given to nothing before |
| SessionIds.CommentsDistinct | internal/server/store.go:369-375 | in a session no two comments share an id |
| Steps.StepsBump | internal/server/store.go:369-375 | an id that is handed out now was handed out at no earlier step of the store, and each step still knows exactly its own |
| Steps.StepIsKnown | internal/server/store.go:119-222 | a file that stands for a step keeps the invariant of a session, and knows exactly the ids handed out up to that step |
| Steps.LostIdsComeAgain | internal/server/store.go:369-375 | after a start on a file that stands for a step, an id can be given again if and only if it was handed out after that step |
| Steps.LostTitlesComeAgain | internal/server/store.go:343-349 | the title of a round comes again if and only if the counter of its group has not got to it |
| Steps.RoundTitlesDiffer | internal/server/store.go:501-508 | two default titles are one string if and only if their rounds are one |
| SessionOps.AddDiffKeeps | internal/server/store.go:493-512 | adding a diff keeps the session's invariant, and its record replays to the same session |
| SessionEffects.AddDiffDoes | internal/server/store.go:493-512 | the diff joins the end of its group, with its content, under the next id, with the time and the title it lacks; the other groups stay as they were |
| SessionOps.DeleteDiffKeeps | internal/server/store.go:515-544 | deleting a diff takes its comments and leaves no reply without its thread; its record replays |
| SessionEffects.DeleteDiffDoes | internal/server/store.go:515-544 | the diffs of the id go with every comment on them, and the others stay in their order |
| SessionOps.DeleteGroupKeeps | internal/server/store.go:547-566 | deleting a group takes its round counter; its record replays |
| SessionEffects.DeleteGroupDoes | internal/server/store.go:547-566 | the groups of the name and their round counter go, and the others stay in their order |
| SessionOps.DeleteAllKeeps | internal/server/store.go:711-724 | deleting everything keeps the id counters; its record replays |
| SessionOps.PutMetaKeeps | internal/server/store.go:589-601 | a group's verdict, note and hooks replay from one record |
| SessionEffects.PutMetaDoes | internal/server/store.go:589-601 | a verdict, a note or the run of a hook changes what its group says of its review, and nothing else of the session |
| SessionOps.AddHookKeeps | internal/server/store.go:604-633 | registering a hook, or the same one again, keeps the invariant; its record replays |
| SessionEffects.AddHookDoes | internal/server/store.go:604-633 | a hook is new if and only if none of the group has its command and URL; it joins the end as it was given, under the next id |
| SessionEffects.HookIsThere | internal/server/store.go:604-633 | the hook answered is one the group now has, with the command and the URL asked for |
| SessionEffects.HooksLeft | internal/server/store.go:679-702 | every hook goes, or the one of that id, and the others stay in their order |
| SessionOps.AddCommentKeeps | internal/server/store.go:759-788 | a comment or reply that is accepted keeps the thread invariant; its record replays |
| SessionEffects.AddCommentDoes | internal/server/store.go:750-788 | a comment that is accepted joins the end of its group with its text and author; a reply stands under the comment that opens the thread, with its anchor and state, and asks nothing |
| SessionEffects.RefusedFor | internal/server/store.go:759-788 | a comment is refused if and only if there is no such group, no comment to answer, or no diff it is about, and for that reason |
| SessionThreads.RootOpens | internal/server/store.go:804-813 | in a session the comment that threadRoot finds opens the thread of the comment asked for |
| SessionThreads.OrphanStandsAlone | internal/server/store.go:797-813 | a reply whose thread has gone stands for its own thread |
| SessionEdits.ResolveKeeps | internal/server/store.go:870-903 | resolving a thread logs its first comment alone, and replaying that rebuilds the state of every reply |
| SessionEdits.EditKeeps | internal/server/store.go:870-903 | editing the text of a comment keeps the invariant; its record replays |
| SessionEffects.UpdateCommentDoes | internal/server/store.go:856-903 | what an update makes of each comment of the group, field by field: the comment gets the text and the question of the patch, its thread the state; everything else of the session stays |
| SessionEffects.UpdateAnswers | internal/server/store.go:856-903 | the comment answered has the text, the question and the state of the patch where it gives them and its own where not, the time of the update, and its id, group, anchor, author, thread and creation as before |
| SessionEdits.DeleteCommentKeeps | internal/server/store.go:908-931 | deleting a comment takes its replies with it; the ids logged drop exactly those |
| SessionEffects.DeleteCommentDoes | internal/server/store.go:905-931 | the comment goes, and the replies to it when it opens a thread; all the others stay in their order |
| SessionEdits.ClearCommentsKeeps | internal/server/store.go:936-970 | clearing threads keeps the invariant; the ids logged drop exactly what went |
| SessionEffects.ClearCommentsDoes | internal/server/store.go:933-970 | every comment goes, or the resolved ones, the others stay in their order, and the number answered is that of the threads they opened |
| SessionEdits.ClearsByState | internal/server/store.go:936-970 | clearing takes every comment, or exactly the resolved ones, whole threads at a time |
| SessionEdits.OneState | internal/server/store.go:848-854 | each comment of a thread carries the state of its root |
| SessionEdits.NothingCleared | internal/server/store.go:936-970 | a clear that finds no thread changes nothing, so nothing has to be logged |
| SessionLoops.SetThreadResolved | internal/server/store.go:848-854 | every reply of the thread is given its root's state, and no other comment is touched |
| SessionLoops.ThreadRoot | internal/server/store.go:804-813 | finds the root that a reply names, or the comment itself |
| Stores.Disk.Append | internal/server/store_log.go:246-272 | what an append can leave: the file as it was, or with any part of the line behind it, or anything without a newline, or a line of something else |
| Stores.Store.AppendRecord | internal/server/store_log.go:246-272 | whether it fails or not, and wherever the process stops, the file stands for the session before or after the change |
| Stores.Store.Write | internal/server/store_log.go:276-315 | replaces the file by a snapshot of the session, or leaves it and the store as they were |
| Stores.Store.Save | internal/server/store_log.go:233-244 | appends or folds: a file fit for it is appended to, and written anew only when that fails; after a success the log is at most the larger of snapshot and minimum plus one record, and a log past that size is folded |
| Stores.Store.Persist | internal/server/store_log.go:210-229 | keeps durability through a failing disk: a change saved without an error is acknowledged, and every file a stop could leave stands for a step not older than the last acknowledged |
| Stores.Store.ApplyRecord | internal/server/store_log.go:149-201 | replays one record on the session, or refuses one it does not understand |
| Stores.Store.ReplayLog | internal/server/store_log.go:149-201 | replays a log, record by record |
| Stores.Store.Load | internal/server/store.go:119-222 | accepts any file whose session keeps the invariant, whatever was handed out before; starts with the session of the file less the groups that cannot be named and with its repository, and knows, of what was handed out, exactly what the file's counters know; a file of a newer version seals the store and a broken one is set aside, and then nothing handed out before is known |
| Stores.Store.DropUnnamed | internal/server/store.go:233-254 | starts with the groups that can be named and stands in the invariant although the file still holds the others, so no record may follow them |
| Stores.Store.SetAside | internal/server/store.go:258-279 | a broken file makes way for an empty session |
| Stores.Store.BindRepository | internal/server/store.go:303-323 | a session belongs to one repository once bound, and binding forces a snapshot; RestartAfterSave says that a saved binding is there after a restart |
| Stores.Store.NextID | internal/server/store.go:369-375 | gives the id after the last one of its prefix |
| Stores.Store.NextRound | internal/server/store.go:343-349 | gives the round after the last one of its group |
| Stores.Store.NewId | internal/server/store.go:369-375 | in one store, the next id is none of those handed out, and all of them are below the counters after |
| Stores.Store.AddDiff | internal/server/store.go:493-512 | the diff is added under an id that was not handed out before, as far as this store and the file it started on know, in a round its group has not had, and its default title differs as a string from that of each such round; acknowledged unless saving failed |
| Stores.Store.DeleteDiff | internal/server/store.go:515-544 | says whether the diff was there, removes it with its comments; keeps durability |
| Stores.Store.DeleteGroup | internal/server/store.go:547-566 | removes the group and ends the lifetime of its titles, and no other group's; keeps durability |
| Stores.Store.DeleteAllGroups | internal/server/store.go:711-724 | answers the names of all groups and removes them; keeps durability |
| Stores.Store.SubmitReview | internal/server/store.go:589-601 | records the verdict of a group that is there; keeps durability |
| Stores.Store.AddHook | internal/server/store.go:604-633 | refuses a hook that does nothing or cannot be delivered, gives a new one a new id, and the same one back; keeps durability |
| Stores.Store.SetHookRun | internal/server/store.go:648-662 | records a run of a hook that is still there; a hook that has gone does not come back |
| Stores.Store.DeleteHooks | internal/server/store.go:681-702 | removes one hook or all and says how many; keeps durability |
| Stores.Store.AddComment | internal/server/store.go:759-788 | accepts or refuses as the checks say, a reply taking its thread's anchor and state, under a new id; keeps durability |
| Stores.Store.UpdateComment | internal/server/store.go:870-903 | the session is updated as SessionEffects.UpdateCommentDoes says, and the comment answered is the one that it now holds under the id |
| Stores.Store.DeleteComment | internal/server/store.go:908-931 | removes the comment and its replies; keeps durability |
| Stores.Store.ClearComments | internal/server/store.go:936-970 | removes whole threads and counts them; keeps durability |
| Stores.Store.Prune | internal/server/prune.go:143-169 | closes exactly the reviews to be closed, answers their names, and the names and reasons of the kept; a dry run changes nothing, and when saving does not fail the deletions are acknowledged |
| Stores.AcknowledgedSurvives | internal/server/store_log.go:203-229 | once the last change is acknowledged, what a start makes of the file is what it would make of the session in memory, and that is the session itself when every group was created under a usable name |
| Restarts.FileStandsForStep | internal/server/store_log.go:210-229 | any file that a stop may leave stands for a step no older than the last one acknowledged, keeps the invariant that loading needs, and knows the ids and titles given up to that step |
| Restarts.Restart | internal/server/store.go:119-222 | a new store that loads any file a stop may leave takes up that step: the same session less what cannot be named, the same repository, and an id or title of the former store comes again if and only if it was handed out after it |
| Restarts.RestartAfterSave | internal/server/store_log.go:210-229 | after a save without an error the next store holds the same session, less what cannot be named, and the same repository; no id handed out comes again, nor a title of a group it holds |
| Restarts.UnsavedIdComesAgain | internal/server/store.go:493-512 | when nothing of AddDiff was written, a store that starts afterwards gives the same id and the same default title to another diff |
| Restarts.UnsavedRun | internal/server/store_log.go:210-229 | for every group, diff and time such a failing run exists: a failed append and a failed snapshot may leave no file, which stands for the step before, and the id and title answered can be given again |
| SessionEdits.EditStays | internal/server/store.go:870-903 | after an edit the comment that was asked for is there under its id, as it was edited |
| Stores.StaleMeansSnapshot | internal/server/store_log.go:203-244 | whenever the file does not stand for the session, dirty, an absent snapshot or the size of the log forces the next save to write one |
| Stores.CompactionCostsLess | internal/server/store_log.go:16-34 | the folds so far times the minimum are below the bytes appended, and if no snapshot outgrew what it replaced they cost less than twice those bytes |
| Stores.ReadSession | internal/server/prune.go:264-284 | reads the reviews a starting server would hold, without the counters, and leaves the file alone |
| Prune.LastActivity | internal/model/model.go:647-672 | computes the last activity over diffs, comments, review and hook runs |
| Prune.LastActivityIsLatest | internal/model/model.go:647-672 | it is the latest moment at which anything happened to the group |
| Prune.KeepReason | internal/server/prune.go:52-66 | of the reasons exactly one holds of a group, and it is the one given: a recent group, then one with open threads, then one with hooks is kept, and force overrides the last two |
| Prune.NothingOpenIsLost | internal/server/prune.go:52-66 | in a session a prune that is not forced loses no comment that is not resolved, replies included |
| Prune.PruneGroups | internal/server/prune.go:122-133 | the names that close and the names kept with their reasons, in the order of the groups |
| Prune.Narrow | internal/server/prune.go:143-158 | of the groups that would close, those that were listed still do, and the others are kept as not listed |
| Prune.KeptIsExplained | internal/server/prune.go:130-158 | a group is among those kept with a reason if and only if it is kept and that is the reason that holds of it |
| Prune.DeleteGroupsLeaves | internal/server/prune.go:143-169 | closing groups one at a time leaves the others as they were, in order, and the ids |
| Prune.PruneIsExact | internal/server/prune.go:143-169 | a prune closes every group it should and no other |
| Broker.Channel.TrySend | internal/server/server.go:1694-1712 | a full queue takes nothing |
| Broker.Deliver | internal/server/server.go:1749-1781 | a review notice makes room by throwing change notices away, keeps the other review notices in order, and says whether one was lost |
| Broker.Broker.Subscribe | internal/server/server.go:1634-1643 | a new subscriber has an empty queue and owes nothing; past the cap there is none |
| Broker.Broker.Unsubscribe | internal/server/server.go:1645-1650 | forgets the subscriber and what it was owed |
| Broker.Broker.MissedReviews | internal/server/server.go:1663-1674 | answers exactly the stored review notices after an id, in increasing order |
| Broker.Broker.ForgetReviews | internal/server/server.go:1679-1683 | forgets one group's notice |
| Broker.Broker.PublishChange | internal/server/server.go:1694-1712 | a subscriber with room gets the scoped notice behind what is queued if it missed nothing, and the full one otherwise, and has then missed nothing; one without room keeps its queue and has missed it |
| Broker.Broker.PublishReview | internal/server/server.go:1717-1735 | numbers the notice, stores it for its group, and sends it to every subscriber: behind what is queued, or in the room of the change notices, which are then missed, or not at all when 8 are unread |
| EventRuns.SettledIsReviewed | internal/server/server.go:1749-1781 | the small steps of a delivery, with nothing received between them, do what publishReview does |
| DeliveryRuns.LostChangeIsOwed | internal/server/server.go:1685-1712 | in every run, the last diff change is covered by a full notice received since, queued or in hand, or the subscriber is lagging or about to be |
| DeliveryRuns.ReviewsArriveOnce | internal/server/server.go:1717-1781 | while fewer than 8 are unread, each review notice is received, queued or in the publisher's hands exactly once, however the receiver interleaves |
| DeliveryRuns.ReviewsArriveInOrder | internal/server/server.go:1717-1781 | when nothing is taken during a delivery, the ids received increase, however many are unread |
| DeliveryRuns.NoneIsSkipped | internal/server/server.go:1717-1781 | when fewer than 8 are unread as well, what was received is the beginning of what was published |
| DeliveryRuns.NinthIsDropped | internal/server/server.go:1772-1780 | with 8 review notices unread the ninth is dropped, and deliver answers that it was queued |
| DeliveryRuns.QueuedOnlyWithRoom | internal/server/server.go:1749-1781 | a review notice gets into the queue if and only if fewer than 8 are unread, and deliver answers that it did either way |
| DeliveryRuns.DisturbedOrder | internal/server/server.go:1749-1781 | a run in which an older notice is received after a newer one |
| LoadOrders.LoadOrder.Begin | web/src/loadOrder.ts:19-32 | a reload gets the number of its turn |
| LoadOrders.LoadOrder.FreshComments | web/src/loadOrder.ts:19-32 | an answer's comments are news exactly when no reload has begun since |
| LoadOrders.LoadOrder.FreshDiffs | web/src/loadOrder.ts:19-32 | an answer's diffs are news exactly when its reload was full and no full one has begun since |
| PageRuns.ScopeIsMeant | web/src/api.ts:209-221 | what a page makes of an event is what the server meant by the notice |
| PageRuns.ScopeOfOthers | web/src/api.ts:209-221 | a message that cannot be read asks for a full reload, one that is neither a change nor a review for none |
| PageRuns.FairPageConverges | web/src/App.tsx:294-331 | with any number of groups, in any run of drops, overtaking answers and broken streams, a page at rest whose subscriber is not lagging shows the store, if no full notice of another group reaches a lagging subscriber and no queue is full of unread reviews of others |
| PageRuns.PageConverges | web/src/App.tsx:294-331 | with one group every run is fair, so a page at rest whose subscriber is not lagging always shows the diffs, the review and the comments of the store |
| PageRuns.OtherGroupHidesChange | internal/server/server.go:1702-1706 | a run with a second group that leaves a page at rest, not lagging, and showing diffs the store no longer holds |
| PageRuns.OtherReviewsHideReview | internal/server/server.go:1772-1780 | for any second group, a run in which 8 unread reviews of it keep this group's review from the page for good |
| ReplayRuns.LatestReviewsReach | internal/server/server.go:1388-1407 | while fewer than 8 are unread: however often the stream broke and whatever was published meanwhile, the latest review notice of every group past the id the client reported is replayed, sent or on its way |
| WaitRuns.WaitMissesNothing | cmd/wait.go:101-131 | a wait that subscribed before it read is never blocked on a review submitted since without its notice unread, in hand or about to be published |
| WaitRuns.ReadingFirstMisses | internal/client/client.go:344-393 | in the other order a review is stored and published between the two steps, and nothing ever ends the wait |
| WaitRuns.PublisherStepKeeps | internal/server/server.go:1717-1781 | a review that is stored before its notice is published is on its way after each step of the publisher: to be published, in hand, or unread |
| WaitRuns.ScanKeeps | internal/client/client.go:368-393 | a line the scanner skips is none of the group's review notices |
| DiffParser.Parse | internal/diff/parse.go:68-75 | the method gives what the step function gives, run over the lines with every file finished at the end; DiffRoundTrip and ParsedDiffs say what that is |
| DiffParser.Parser.Run | internal/diff/parse.go:107-137 | the cursor's loop is the step function taken to the end, and it ends |
| DiffParser.Parser.Turn | internal/diff/parse.go:107-137 | each turn of the loop, whichever branch its line takes, is one application of the step function, and moves the cursor on |
| DiffParser.Parser.ReadExtendedHeader | internal/diff/parse.go:175-234 | an extended header changes the last file, if there is one, and is consumed |
| DiffParser.Parser.ReadHunk | internal/diff/parse.go:266-342 | a hunk is added to the last file, which is made if there is none; a header that cannot be read is skipped |
| DiffParser.Parser.ReadHunkLines | internal/diff/parse.go:282-340 | the loop ends, though one branch of it reads nothing, and gives the body that the counts and the surplus say |
| DiffParser.Parser.FindSurplusEnd | internal/diff/parse.go:366-383 | scans for the end of the surplus |
| DiffParser.Parser.ReadCombinedHunk | internal/diff/parse.go:394-413 | a combined hunk takes lines up to the next header and numbers none |
| PatchText.CombinedHunkReads | internal/diff/parse.go:394-460 | a hunk of a merge reads back: each line once, in order, gone if any parent lost it and else new if any had it not, without its marks and without numbers |
| PatchText.CombinedFileNamed | internal/diff/parse.go:107-137 | the file of a merge has one name on both sides |
| HunkFacts.EveryLineIsShown | internal/diff/parse.go:266-342 | for any text, every line a hunk takes is in it once, in order, as what it is, and a no-newline marker marks the line before it |
| HunkFacts.NumbersAreContiguous | internal/diff/parse.go:321-339 | for any text and any counts, each side of a hunk is numbered without a gap from its start, and a line has no number on the side it is not on |
| HunkFacts.NoChangeIsLeftOut | internal/diff/parse.go:344-383 | for any text and any counts, no line that is a change, in characters, follows the end of a hunk but behind a line that no body could hold |
| HunkFacts.SurplusEndsInChange | internal/diff/parse.go:354-383 | past its counts a hunk ends in a change, in characters, so trailing context, blank lines and signatures stay out of it |
| HunkFacts.DashesAreDashRun | internal/diff/parse.go:385-392 | what is taken for a run of dashes is dashes and then spaces, and nothing else |
| HunkHeaders.HeaderReads | internal/diff/parse.go:462-542 | a hunk header, with or without counts of 1 and section, reads back as the ranges and section it was written from |
| DiffRoundTrip.PrintedFilesParse | internal/diff/parse.go:68-137 | parsing the printed form of any list of files gives the list back but for one carriage return at the end of each line |
| DiffRoundTrip.DiffRoundTrips | internal/diff/parse.go:68-137 | the list comes back unchanged if and only if no line ends in a carriage return, whatever else its lines look like, in git's style or that of diff -u |
| PatchText.SignedPatchParses | internal/diff/parse.go:344-383 | the printed form of any list of files, and behind it a line of dashes and a version, parses to the same files |
| GitText.GitDiffParses | internal/diff/parse.go:107-264 | a diff as git writes it, of files added, deleted, changed, renamed or copied, with modes and index and with or without a signature, parses to those files |
| PatchText.BareHunksParse | internal/diff/parse.go:145-155 | hunks without any header belong to one file without a name |
| PatchText.BinaryLines | internal/diff/parse.go:175-234 | what git and diff say of a file they do not show marks it as binary and changes nothing else of it |
| PatchText.BrokenHeaderIsSkipped | internal/diff/parse.go:462-470 | a hunk header without its second mark is passed over |
| PatchText.StatusOfNames | internal/diff/parse.go:545-590 | a file whose status nothing said was added, deleted or changed by the names it has, and only its mode was if it has modes and no hunk |
| DiffRoundTrip.BodyReads | internal/diff/parse.go:282-340 | the printed body of a hunk with exact counts reads back line for line and stops where it ends |
| DiffRoundTrip.HeadersRead | internal/diff/parse.go:236-264 | a pair of printed headers, prefixed or bare, with a stamp behind a tab, spaces or nothing, names the file it was printed from |
| DiffRoundTrip.BodyMayLookLikeAPair | internal/diff/parse.go:123-128 | the lines of a hunk that can be printed may look like the headers of another file |
| ParsedDiffs.EveryParsedFile | internal/diff/parse.go:545-590 | of any text at all: every file parsed has a name and a status, the counts of its lines, and hunks that are numbered from their starts |
| Worktree.WorktreeMatchesNewSide | internal/server/preview.go:344-376 | decides exactly whether the lines of every hunk with a place stand there in the file, up to carriage returns |
| Worktree.MatchIsLineByLine | internal/server/preview.go:344-376 | for numbered hunks the check holds if and only if every rebuilt line is the working file's line of that number |
| Worktree.SameButForCRs | internal/server/preview.go:378-382 | two lines are the same if and only if they differ in no more than the carriage returns at their ends |
| ParsedDiffs.ParsedMatchIsLineByLine | internal/server/preview.go:344-376 | the same for every file of every text that is parsed |
| Worktree.AppliedFileMatches | internal/server/preview.go:328-334 | a working tree that the diff was applied to, with any line endings, is never taken for another |
| Worktree.WrittenFileMatches | internal/server/preview.go:328-334 | in particular one written from the lines the diff gives, with a newline at its end or without, and with carriage returns at its line ends or without |
| Worktree.AppliesOnce | internal/server/preview.go:328-334 | applying hunks to a file has at most one outcome |
| Worktree.AppliedAscends | internal/diff/reconstruct.go:39-55 | the hunks of a diff that applies to some file ascend |
| Worktree.Reconstruct | internal/diff/reconstruct.go:33-61 | writes the lines of the new side in order and says whether a hunk began past the line expected |
| Worktree.TerminatedReads | internal/diff/reconstruct.go:33-61 | what is rebuilt splits into the lines written and no other, each ended by a newline |
| Worktree.CompleteMeans | internal/diff/reconstruct.go:28-61 | a rebuild is complete if and only if the file was added or every hunk begins no later than behind the lines rebuilt before it |
| Worktree.CompleteIsPrefix | internal/diff/reconstruct.go:28-32 | a file that is not new and is rebuilt as complete is a line prefix of a working file that matches |
| Worktree.BelievedNewSide | internal/server/preview.go:316-326 | a working file is handed back only if it matches, and otherwise what the diff rebuilds |
| PortMap.Map.Port | internal/servermap/servermap.go:51-58 | finds the first entry of a repository |
| PortMap.Map.Owner | internal/servermap/servermap.go:61-68 | finds the first entry of a port |
| PortMap.Map.Remove | internal/servermap/servermap.go:71-73 | removes every entry of a repository and no other, and leaves the others in their order |
| PortMap.Map.GivePort | internal/servermap/servermap.go:147-164 | the search finds the repository's port or the lowest free one, and changes nothing when there is none |
| PortMap.Place.Assign | internal/servermap/servermap.go:145-166 | an assignment that fails, at the lock, the read or the write, leaves the file as it was; a map that cannot be read is never written over, and one that is missing begins with the new entry |
| PortMap.AssignGives | internal/servermap/servermap.go:140-164 | the port given is the repository's own, or the lowest from the base up that is untaken and usable; there is an error if and only if there is none |
| PortMap.ApplyKeepsGood | internal/servermap/servermap.go:140-164 | no change makes two repositories share a port or gives one two |
| PortMap.TellingIs | internal/servermap/servermap.go:44-47 | being told of a port remembers it, once, and moves nobody's |
| PortRuns.NoPortIsShared | internal/servermap/servermap.go:98-138 | under any interleaving of processes that may die anywhere, no two repositories share a port, and a reader without the lock sees only maps that were committed |
| PortRuns.PortIsKept | internal/servermap/servermap.go:98-138 | over any run a repository keeps its port until somebody asks for the entry to be removed |
| PortRuns.GivenPortIsLowest | internal/servermap/servermap.go:140-164 | when a process comes to have a port, it is the lowest free one in the map as it is at that moment, and the map has it |
| PortRuns.NoFreePort | internal/servermap/servermap.go:163 | a process is refused exactly when its repository has no port and none is free |
| PortRuns.PortsGivenAreApart | internal/servermap/servermap.go:98-103 | while nothing is removed, two processes have come back with one port exactly when they asked for one repository |
| PortRuns.WithoutLocksPortsCollide | internal/filelock/lock_unix.go:24-27 | a run without locks in which two repositories are given one port |
| HistoryLog.ReadLine | internal/history/history.go:306-335 | however its buffer fills, the reader gives the next line whole, or drains one past the limit and says so |
| HistoryLog.ReadSkipped | internal/history/history.go:257-287 | however the input is cut, the records and what was skipped are those of the whole text split at its newlines, also when reading fails |
| HistoryLog.EachLongLineOnce | internal/history/history.go:254-266 | each line past the limit is counted once |
| HistoryLog.LinesKept | internal/history/history.go:257-302 | the records are those of the lines that hold one the filter lets in, in their order; the lines that are too long and those that hold no record are counted |
| HistoryLog.NewestAre | internal/history/history.go:275-287 | a limit keeps the last records, in their order |
| ExportedPage.IsExportedPage | cmd/export.go:187-213 | the answer is whether the marker is in the bytes read, which are the whole file up to the limit, however the reads cut it |
| ExportedPage.Straddling | cmd/export.go:184-186 | one byte fewer than the marker has is enough to carry over |

## Left out

- Stores.Store.Load: the session of the file is taken to keep the invariant of a session (threads, ids below their counters), which Restarts.FileStandsForStep proves of every file that a store leaves; files edited by hand or written before that invariant are covered only by the branches for broken, newer and uncounted files.
- Stores.Store.Save: agreement after a failure is stated for a save of a record; a failed save without one would not have it, and no caller makes it.
- Stores.Store.AddHook: whether a URL can be delivered to is a parameter.
- Stores.Store.AddDiff: a title that is given is taken as it was cleaned by the caller.
- Threads.OpenThreadsOfOpen: needs replies to have the root and state of their thread, which every session keeps.
- PageRuns.FairPageConverges: fair runs, because each half of the condition is needed, as OtherGroupHidesChange and OtherReviewsHideReview show; a reload that fails and is never repeated is not part of the run.
- ReplayRuns.LatestReviewsReach: fewer than 8 unread, as in NinthIsDropped; the id that a client reports is a parameter of the connection, and one that is not a number is none.
- DeliveryRuns.ReviewsArriveOnce: fewer than 8 unread, because with more it is false, as QueuedOnlyWithRoom and NinthIsDropped show.
- WaitRuns.WaitMissesNothing: under the same bound; the scanner, the stream and the broker are steps of the protocol, without the text of server sent events.
- PortRuns.NoPortIsShared: needs a file system with locks, as WithoutLocksPortsCollide shows, and a first map in which no port is shared.
- DiffRoundTrip.DiffRoundTrips: plain pairs of headers; C quoting of names and a bare name with a leading or trailing space are outside it.
- GitText.GitDiffParses: files with hunks, or that were moved; of a file that only changed its mode or is binary the names stand in the "diff --git" line alone, which is not read.
- DiffParser.Parser.Turn: the two paths in a "diff --git" line and the quoting of paths are not read, and a file's id, language flags and image flag are not computed.
- DiffParser.Parser.ReadExtendedHeader: the quoting of paths in extended headers is not read.
- DiffParser.Parse: as for Turn, a file's id, language flags, image flag and quoted names are not computed.
- Worktree.Reconstruct: files that are not Markdown, into which nothing is inserted; the gap markers and the tracking of fences around them.
- HistoryLog.ReadSkipped: what a line decodes to is a parameter, and a record is its group and time.
- JSON text: a small codec stands for it, with the laws the log needs proved; the order of keys and what an unknown field does are not in it.
- Strings are sequences of characters; bytes that are not UTF-8 and case folding beyond what the word "suggestion" needs are not told apart.
- Numbers are unbounded and times are natural numbers, 0 being the zero time; only the numbers of a hunk header and of a round title are held to the largest int.
- File systems: an append leaves any part of its line, text without a newline or one line of something else that begins with no white space; a sync fails, a rename is atomic; permissions, links and paths are not there.
- Cleaning of titles, reading of settings, the HTTP handlers, the client, the commands, the pages' components, Markdown and notebook rendering, the mo proxy, self update and labels: wrappers, or code with no state of its own.
