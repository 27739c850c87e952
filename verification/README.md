# A model of the wiki server's write path, search index, page locks and text algorithms

Projects of the wiki are Git repositories. This project models, in Dafny, what the server does to
them and beside them:

- **Changesets and reverts** as a protocol: a request reads HEAD, checks out the *branch name*, applies
  its changes in a worktree, builds a commit on the revision it read and moves the branch by
  compare-and-swap. Any number of requests interleave statement by statement, with or without the
  project lock, and each may fail anywhere (`Protocol`, `Races`). One request by itself is the class
  `Changesets.Repository`.
- **The idempotency layer** around them: lookup, run and store are separate statements that may fail or
  never happen (`Idempotency`, `KeyRaces`; the class `Idempotency.Server` serves one request at a time).
- **The worktree** as a forest of files and directories (`Worktree`), **lexical path cleaning and
  confinement** (`Paths`), **commits and reverse patches** (`Commits`); and which answers requests get, said
  from the trees alone (`Outcomes`).
- **The incremental search index** over a recursive tree walk (`GitTrees`, `SearchIndex`, `WikiLinks`) and
  the reindex pass as it runs, any statement of which may fail (`Indexer`).
- **Page locks**, handler by handler and statement by statement under a monotone clock (`Locks`, `LockCalls`).
- **Text algorithms**: the unified-patch parser (`PatchText`, `PatchParser`, `PatchPrinting`,
  `PatchStability`, and for patches of any origin `PatchSections`, `PatchBodies`, `PatchHeadings`), shell
  quoting (`Quoting`), LIKE and full-text queries (`Matching`), commit paging (`CommitLog`), export and
  import (`Transfer`), and what the two size limits mean together (`Limits`).

A commit is a structural value: `Root(tree)` or `Child(parent, tree)`. Two commits are equal when all they
contain is equal, which is what a collision-free commit id gives. A `char` stands for a byte where the Go
code measures or scans bytes.

## Where the code and its own words differ

The model follows the code. The lemmas that show each point, and say exactly when it happens, are named.

- `ApplyChangeset` and `RevertCommit` ask whether the project is archived before they take the lock, so a
  commit may land on an archived project (`Races.CommitLandsOnArchived`). It does exactly when the project
  was archived after the request's admission and not reopened before its swap, which under the lock means
  archived as the request reads HEAD (`Protocol.LandsOnArchivedExactly`, `LandsOnArchivedUnderLock`).
- A repeated idempotency key is said to give 409 for another body (`doc/api.md:206`). Two bodies whose lookups
  both come before the first store both commit; the second is then answered 409 although its commit stays
  (`KeyRaces.TwoBodiesBothCommit`). A lookup runs exactly when the key is empty, the lookup fails or no store
  under the key has taken effect (`Idempotency.LookupRunsExactly`). The design document gives the scope as
  token, project and key; the code uses project and key.
- The `dry_run` query parameter changes what runs but is not part of the hashed body: a dry run under a key
  answers the real request that follows, and nothing is committed (`KeyRaces.DryRunAnswersRealRequest`,
  `Idempotency.ReplayKind`).
- A heartbeat held up between reading the clock and its UPDATE can move the expiry back, also of a lease the
  same user acquired since (`Locks.LateHeartbeatEndsFreshLease`). It does exactly when its clock reading is
  older than the one the row was last written with (`Locks.ExpiryBackExactly`, `LeaseKeptExactly`).
- `ImportZip` admits 500 files and then hands them to a changeset, which admits 100
  (`Transfer.ImportValidExactly`).
- A path whose blob becomes binary or oversized, or cannot be read in a pass, keeps the row of its last
  blob that was taken as long as the path exists, and the pass still reports a clean index
  (`SearchIndex.RowsExactly`, `Indexer.Index.Reindex`).
- `RevertCommit` documents `ErrConflict` for conflicts; the preflight check fails with another error
  (`PatchRefused` in `Changesets.RevertVerdict`). A commit without changes cannot be reverted
  (`Changesets.RevertNewest`).
- `MaxDocBlobBytes` (2 MiB) is documented as the limit for reads and writes; writes are checked against 5 MiB,
  so there are accepted writes the index never shows (`Limits.LargeTextAccepted`, `WriteIndexedExactly`).
- In the change viewer a line inside a hunk with an unknown first character can replace the hunk's heading
  (`PatchStability.StrayReplacesHeading`, `ReparseIsStable`).

A dry run is said to show what the write would do. Every writer of the source takes the project lock, and
under it that is so (`Protocol.PreviewUnderLock`). The compare-and-swap alone would not be enough: in the
variant without the lock a preview may show the changes on top of another request's commit, because the
worktree is checked out from the branch name after HEAD was read (`Races.PreviewOfAnotherTree`).

## Model

| member | source | states |
|---|---|---|
| Paths.Clean | internal/project/changeset.go:277 | Go's `path.Clean`, written out as its buffer-and-backtrack loop, returns the canonical text of the walk over the segments |
| Paths.ValidateDocPath | internal/project/changeset.go:273-279 | a non-empty, relative path without backslash is accepted exactly when no prefix of its segments goes above the root |
| Paths.AcceptedIffInside | internal/project/changeset.go:273-279 | the test on the cleaned text and the walk that never leaves the root accept the same paths |
| Paths.JoinedUnderWorktree | internal/project/changeset.go:283 | joining an absolute worktree directory and an accepted path gives that directory followed by the path's own segments |
| Paths.CleanEqualIffSamePlace | internal/project/changeset.go:263 | two accepted paths clean to the same text exactly when they name the same place |
| Paths.LocateNames | internal/project/changeset.go:283 | the segments of a located path are real names: not empty, not `.` or `..`, without slash |
| Paths.LocateNext | internal/project/changeset.go:283 | one more segment of a path: nothing and `.` stay, `..` goes back one name, a name goes on |
| Paths.LocateOne | internal/project/changeset.go:283 | a path of one segment is that name, or the root for nothing, `.` and `..` |
| Worktree.Checkout.constructor | internal/project/changeset.go:152 | a fresh worktree holds exactly the files of the tree and the directories above them |
| Worktree.CheckoutEntries | internal/project/changeset.go:152 | an entry exists after checkout exactly when it lies on the way to a file |
| Worktree.Checkout.MkdirAll | internal/project/changeset.go:286 | creating level by level either makes all directories or, below a file, changes nothing |
| Worktree.Checkout.Apply | internal/project/changeset.go:282-325 | one change, in the source's order of calls: what it answers, and what is then at every path, both from what was in the worktree before; the forest stays well formed also on failure |
| Worktree.Checkout.ApplyChanges | internal/project/changeset.go:171-186 | the loop stops at the first failure with what the earlier changes left, and reports one outcome for each change otherwise |
| Worktree.Checkout.WriteTree | internal/project/changeset.go:190-194 | git sees the files of the forest only, no file under another |
| Worktree.ApplyOneSound | internal/project/changeset.go:282-325 | every operation keeps the forest well formed; a failed one is invisible to git, a successful one is exactly its meaning on the flat tree |
| Worktree.ApplyAllSound | internal/project/changeset.go:171-186 | the same for any list of changes, also one that stops partway |
| Worktree.ApplyOneExactly | internal/project/changeset.go:282-325 | when each operation succeeds, with which status or failure, and what it leaves at every path, from the entries alone: a create or update needs no file above the path and no directory at it; a delete must not name the root and needs no file above; a move needs its source, no file above its target, and a target that neither exists nor lies under the source |
| Worktree.ChangeFraming | internal/project/changeset.go:282-325 | no file outside a change's own path or paths appears, goes or changes |
| Worktree.MoveConserves | internal/project/changeset.go:302-322 | a move carries each file to its place under the target, makes no file up and keeps the multiset of contents |
| Worktree.MovesConserve | internal/project/changeset.go:302-322 | any sequence of successful moves carries every file along its journey and keeps the multiset of contents |
| Worktree.MoveTargetWasFree | internal/project/changeset.go:313-318 | a move that succeeds found nothing at or under its target |
| Worktree.MoveAndBack | internal/project/changeset.go:302-322 | the move back always succeeds and git sees the old tree again |
| Commits.ReverseExactly | internal/project/history.go:313-325 | where a reverse patch applies, the touched paths return to what they were before the commit and all others keep what they have now |
| Commits.ReverseNewest | internal/project/history.go:313-325 | on the commit's own tree the reverse applies exactly when the commit changed something, and gives the tree before it |
| Commits.ReverseAppliesExactly | internal/project/history.go:313-325 | on any tree a commit can be reversed exactly if it changed something, the tree has at each path it changed what it left there, and the tree with just those paths set back has no file under another; that tree is then the result |
| Commits.ReverseOlder | internal/project/history.go:313-325 | an older commit whose paths no later commit changed can be reversed whenever the restored files fit |
| Changesets.CheckChange | internal/project/changeset.go:238-269 | one change is accepted by path, operation, encoding, size and distinct move target |
| Changesets.ValidateChangeset | internal/project/changeset.go:234-271 | 1 to 100 changes, each of them valid, and nothing else |
| Changesets.DecodeInPlace | internal/project/changeset.go:157-169 | the array of changes is decoded in place or some payload is invalid |
| Changesets.BuildMeaning | internal/project/changeset.go:152-194 | a successful build is the decoded changes folded over the checked-out tree |
| Changesets.Repository.ApplyChangeset | internal/project/changeset.go:104-220 | the answer for every input, in the order of the checks; the branch moves exactly when a commit is reported, to a child of the base whose tree is the folded changes (which answer that is: the `Outcomes` rows) |
| Changesets.Repository.RevertCommit | internal/project/history.go:248-344 | the answer for every input; the branch moves exactly when a commit is reported (which answer that is: `Outcomes.RevertExactly`) |
| Changesets.RevertNewest | internal/project/history.go:267-343 | reverting the newest commit restores the tree before it on top of both commits, and is refused exactly when that commit changed nothing |
| Changesets.ChangesetThenRevert | internal/project/history.go:267-343 | a changeset with an effect followed by its revert gives the tree before, both commits staying in the history |
| Changesets.RevertOfRevert | internal/project/history.go:267-343 | reverting a revert brings the reverted tree back |
| Outcomes.ValidExactly | internal/project/changeset.go:234-271 | which changes pass validation, operation by operation: a path that stays inside; for create and update plain text of at most 5 MiB or valid base64 within the decoder's bound; for a move another place inside |
| Outcomes.DecodedExactly | internal/project/changeset.go:157-169 | decoding succeeds exactly when every base64 payload is one, and replaces those payloads and nothing else |
| Outcomes.RefusedExactly | internal/project/changeset.go:104-141 | invalid, archived and conflict are answered exactly in their cases and in that order; otherwise the request is rejected, previewed if a dry run, or committed on HEAD under its own message |
| Outcomes.ApplyAllExactly | internal/project/changeset.go:171-186 | a list of changes succeeds exactly when each succeeds on what the earlier ones left, with the status of each; otherwise it answers the first failure |
| Outcomes.BuildExactly | internal/project/changeset.go:152-194 | the tree that a build writes, its statuses or its failure, from the worktrees the decoded changes go through |
| Outcomes.OneChangeExactly | internal/project/changeset.go:282-325 | one change on the checkout of a prefix-free tree: its answer from the tree alone, and the text git then sees at every path |
| Outcomes.OneChangeVerdict | internal/project/changeset.go:104-220 | a valid request of one change on the present base commits, or previews a dry run, exactly when the change goes through on the tree; otherwise it is rejected with that failure |
| Outcomes.RevertExactly | internal/project/history.go:248-344 | the answer to a revert of any commit at any head: archived, not found, and committed or refused exactly by what the commit changed and what the head has at those paths |
| Outcomes.RevertOlder | internal/project/history.go:267-343 | an older commit is reverted whenever no later commit changed its paths and its files fit beside the others |
| Protocol.StepKeepsInv | internal/project/changeset.go:135-218 | each statement of each request keeps the protocol's invariant, and HEAD before is an ancestor of HEAD after |
| Protocol.Reachable | internal/project/changeset.go:135-218 | every reachable state of every interleaving satisfies the invariant |
| Protocol.SwapSawItsBase | internal/project/changeset.go:213-217 | when the compare-and-swap succeeds, the worktree was checked out from the very commit the request was based on |
| Protocol.Serialisable | internal/project/changeset.go:135-218 | a changeset that lands, in any interleaving and without any lock, lands what it would have landed alone on its base |
| Protocol.LandedTreeIsFold | internal/project/changeset.go:171-219 | the tree that lands is the decoded changes folded over the base's tree |
| Protocol.HistoryStaysClean | internal/project/changeset.go:190-219 | every commit of the history has a tree in which no file lies under another |
| Protocol.RevertSerialisable | internal/project/history.go:272-341 | a revert that lands undoes exactly its target's paths on the commit it is built on and overwrites nothing that came between |
| Protocol.BranchOnlyGrows | internal/project/changeset.go:213-217 | every value the branch ever had stays an ancestor of HEAD |
| Protocol.NeverReturns | internal/project/changeset.go:213-217 | the branch never takes a value again that it has left |
| Protocol.OneCommitPerBase | internal/project/changeset.go:139-217 | at most one request ever commits on a given revision |
| Protocol.HistoryIsWhatLanded | internal/project/history.go:333-341 | the commits added to the history are exactly those that landed requests made: no update is lost or made up |
| Protocol.PreviewUnderLock | internal/project/changeset.go:127-206 | under the project lock a dry run previews exactly what the request would commit on that base |
| Protocol.PreviewWithoutLock | internal/project/changeset.go:152-206 | by compare-and-swap alone it previews the changes on some commit between base and HEAD, and on the base when HEAD has not moved |
| Protocol.AdmittedWhileOpen | internal/project/changeset.go:117-123 | a request past its admission was admitted at a moment when the project was not archived |
| Protocol.LandsOnArchivedExactly | internal/project/changeset.go:117-217 | a commit lands on an archived project exactly when the project was archived after the request was admitted and not reopened before its swap |
| Protocol.LandsOnArchivedUnderLock | internal/project/history.go:259-272 | under the lock, exactly when the project is archived as the request reads HEAD |
| Protocol.DryRunFacts | internal/project/changeset.go:200-206 | a dry run never lands, and only dry runs are previewed |
| Races.UndisturbedRun | internal/project/changeset.go:104-220 | after any execution that leaves the lock free, a fresh changeset let run by itself answers, and leaves HEAD, as the sequential reading says, for every input and every outcome |
| Races.UndisturbedRevert | internal/project/history.go:248-344 | the same for a fresh revert |
| Races.CommitLandsOnArchived | internal/project/changeset.go:117-128 | an execution in which a commit lands on an archived project, with or without the lock |
| Races.PreviewOfAnotherTree | internal/project/changeset.go:135-152 | in the variant without the project lock, an execution in which a dry run previews its changes on top of another request's commit |
| Races.PreviewCanBeWrong | internal/project/changeset.go:135-206 | in that variant, a concrete preview that the changes alone never give |
| Idempotency.HandleKeepsInv | internal/agent/service.go:110-132 | each event keeps the link between requests, runs and stored records: failures, deaths and an insert that takes effect while its answer is lost included |
| Idempotency.AlwaysInv | internal/agent/service.go:110-132 | that link holds in every reachable state |
| Idempotency.OneEffectPerBody | internal/agent/service.go:110-132 | of all requests with one body, in any interleaving and with any failures, at most one ever commits |
| Idempotency.CommitIsOfRequest | internal/httpapi/handlers/changesets.go:78-92 | the commit that a request makes, whether or not it is told, is on its body's base, has the tree its body's changes build there, its message and its caller's name, and neither body nor query parameter asked for a dry run |
| Idempotency.ReplayIsEarlierResult | internal/agent/service.go:115-119 | a replayed answer has no effect of its own and is the stored result of a request with the same key and body whose run succeeded |
| Idempotency.ReplayedCommitIsReal | internal/agent/service.go:115-119 | a replayed commit is in the history and is what the body commits on its base |
| Idempotency.ReplayKind | internal/httpapi/handlers/changesets.go:67-95 | a replay shows a commit exactly when the request that stored it was not a dry run, whatever the asking request is |
| Idempotency.AnsweredMeansStored | internal/agent/service.go:125-131 | after an own answer under a key, the key is taken by that body |
| Idempotency.TableExactly | internal/agent/store.go:215-232 | in every execution a key is in the table exactly when the store of some earlier request with it took effect |
| Idempotency.LookupRunsExactly | internal/agent/service.go:115-121 | a lookup starts a run exactly when the key is empty, the lookup failed, or no store under the key has taken effect before |
| Idempotency.TakenKeyNeverRuns | internal/agent/service.go:115-120 | after such a store, in any execution, a working lookup replays an equal body and refuses another, without touching the repository |
| Idempotency.OwnAnswersAgree | internal/agent/service.go:125-131 | two requests with one key that are both answered with their own result have equal bodies |
| Idempotency.RetryIsConflict | internal/project/changeset.go:139-141 | the retry of a request that committed without its answer being stored is a conflict, however far the branch has gone on since |
| Idempotency.Server.Put | internal/agent/store.go:215-232 | the first record under a key stays; an equal body is fine, another is a conflict; a statement that fails leaves the table, one whose answer is lost does not |
| Idempotency.Server.Apply | internal/agent/service.go:110-132 | answer, records and branch for every case of lookup, run and store |
| KeyRaces.DryRunAnswersRealRequest | internal/httpapi/handlers/changesets.go:57-95 | an execution in which a dry run's preview answers the real request and nothing is committed |
| KeyRaces.TwoBodiesBothCommit | internal/agent/service.go:115-131 | an execution in which a second body, based on the first one's commit, is looked up before the first is stored: both commit, the first is answered with its commit and the second with a conflict |
| Locks.LockTable.Status | internal/httpapi/handlers/locks.go:108-125 | the page's lock is shown exactly if it has not expired before the clock reading; every expired row of the table is gone, every other unchanged |
| Locks.LockTable.Acquire | internal/httpapi/handlers/locks.go:129-172 | granted, for five minutes from the second reading, exactly when the page has no row that reaches the first reading and no rival inserts first; otherwise that row is reported; expired rows are gone, the others unchanged |
| Locks.LockTable.Release | internal/httpapi/handlers/locks.go:176-208 | only the holder of an unexpired row removes it; expired rows are gone, the others unchanged |
| Locks.LockTable.Heartbeat | internal/httpapi/handlers/locks.go:213-248 | only the holder of an unexpired row extends it, to five minutes from the second reading; its acquisition time stays; expired rows are gone, the others unchanged |
| Locks.LockTable.ForceRelease | internal/httpapi/handlers/locks.go:253-270 | the row goes whoever holds it, and no other row does |
| Locks.LockPathExactly | internal/httpapi/handlers/locks.go:48-50 | a lock path is refused exactly if it is empty, begins with a slash or has two dots in a row |
| Locks.HappenKeepsInv | internal/httpapi/handlers/locks.go:61-248 | after each statement no row expires later than one lease from now, and the clock has not gone back |
| Locks.EveryChangeIsJustified | internal/httpapi/handlers/locks.go:61-270 | a statement leaves a page's row alone, or it is an acquire's insert, a renewal by the present owner, a purge after expiry, the owner's release or a forced release |
| Locks.RowExactly | internal/httpapi/handlers/locks.go:61-270 | what every statement makes of every page's row: a purge removes exactly the rows that expired before its reading, the owner's release and a forced release remove the row, an acquire fills a free page and the owner's heartbeat extends his row for five minutes from the reading, anything else changes nothing |
| Locks.OwnerChangesThroughAbsence | internal/httpapi/handlers/locks.go:129-270 | in every interleaving the owner of a page changes only through a moment in which nobody holds it |
| Locks.LastWrite | internal/httpapi/handlers/locks.go:153-158 | a row stands as its own owner's last acquire or heartbeat wrote it, and expires at most one lease after that statement |
| Locks.ReadingDates | internal/httpapi/handlers/locks.go:153-158 | a row expires one lease after the clock reading it was last written with |
| Locks.ExpiryBackExactly | internal/httpapi/handlers/locks.go:239-242 | a statement moves a row's expiry back exactly when it renews the row with a clock reading older than that of the row's last write |
| Locks.LeaseKeptExactly | internal/httpapi/handlers/locks.go:213-248 | until its expiry, unless released by its owner or forced, a lock stays with its owner and its expiry never goes back, exactly when no renewal of that page uses an older clock reading than the last write |
| Locks.PunctualIsFresh | internal/httpapi/handlers/locks.go:239-242 | a heartbeat that reads the clock and writes in one step is never such a renewal |
| Locks.LateHeartbeatEndsFreshLease | internal/httpapi/handlers/locks.go:239-242 | an execution in which a delayed heartbeat ends a lease granted in the same millisecond |
| LockCalls.CallOnExpiredPage | internal/httpapi/handlers/locks.go:108-270 | a call begun when the page has no row or an expired one, while nobody else works on the page and its purge works, is answered after at most six statements as if there were no row: an acquire is granted, for five minutes from a reading since its start |
| LockCalls.CallOnLockedPage | internal/httpapi/handlers/locks.go:108-270 | a call begun on a locked page, during which the clock does not pass the expiry and nobody else works on the page: the row is shown or refuses the acquire, only its owner releases or extends it, force removes it |
| GitTrees.WalkFindsExactly | internal/project/repo.go:312-345 | the recursive walk meets a path with a blob exactly when looking the path up finds that blob |
| GitTrees.WalkMeetsEachOnce | internal/project/repo.go:312-345 | the walk meets no path twice |
| GitTrees.LookupExactly | internal/project/repo.go:312-345 | looking a path up finds exactly the blob in which a chain of entries, one for each name, ends |
| WikiLinks.MatchExactly | internal/search/service.go:16 | at one position the link pattern matches exactly the texts that are a link, with that target |
| WikiLinks.FoundIsLink | internal/search/service.go:224 | every target found is that of a link in the text |
| WikiLinks.LinkFoundOrCovered | internal/search/service.go:224 | every link of the text is found unless it begins inside a link found before it |
| WikiLinks.SingleLink | internal/search/service.go:224 | in text whose only opening brackets are those of one link, exactly that link is found |
| WikiLinks.LinkTargets | internal/search/service.go:222-231 | the targets of one file, each once |
| SearchIndex.FindTitle | internal/search/service.go:26-34 | the loop over the lines finds what follows `# ` in the first line that, trimmed, begins with it, or nothing |
| SearchIndex.TitleExactly | internal/search/service.go:26-34 | every text has exactly one title in that sense, and it is the one extracted |
| SearchIndex.TextExactly | internal/project/repo.go:167 | what is read of a blob is its data without the white space around it, and nothing else is cut |
| SearchIndex.FitExactly | internal/search/service.go:131-137 | the index takes exactly the readable blobs whose trimmed text is at most 2097152 long and has no NUL |
| SearchIndex.RowDescribes | internal/search/service.go:138-142 | the row kept for a blob is the one with the blob's id, its trimmed text as content and that text's title |
| SearchIndex.VisitedOnce | internal/search/service.go:119-148 | a path the walk meets ends as one visit from the rows before the pass would leave it |
| SearchIndex.UpsertsExactly | internal/search/service.go:146-148 | the number of writes is the number of listed blobs that are read, indexable and whose id the rows lacked |
| SearchIndex.FreshExactly | internal/search/service.go:119-148 | those are the fit blobs read in the pass whose path has no row or one with another id |
| SearchIndex.PassExactly | internal/search/service.go:85-179 | what a pass leaves at a path: nothing outside the tree, the blob's own row if it was read and is indexable, otherwise the row from before |
| SearchIndex.PassDescribes | internal/search/service.go:119-148 | after a pass that takes a blob at a path, the row there has the blob's id, its trimmed data as content and, as title, what follows `# ` in the first line that begins so |
| SearchIndex.PassKeepsSound | internal/search/store.go:75-100 | every row pairs a blob id with that blob's own trimmed content and title |
| SearchIndex.SoundExactly | internal/search/service.go:131-142 | an index is sound exactly if every row describes, in that sense, a blob that is fit for the index |
| SearchIndex.SecondPassIsIdle | internal/search/service.go:120-130 | a second pass over the same tree that reads no more than the first writes nothing, removes nothing and changes no row |
| SearchIndex.IncrementalEqualsRebuild | internal/search/service.go:83-179 | after any sequence of revisions, with any reads lost in any pass, an indexable path read in the last pass has the row a rebuild gives it, nothing outside the tree has one, and other paths keep theirs |
| SearchIndex.AllIndexableMeansRebuilt | internal/search/service.go:83-179 | when every blob of the latest tree is indexable and was read, the index is the rebuilt one |
| SearchIndex.RowsExactly | internal/search/service.go:119-137 | an index grown from nothing holds a row exactly when it is that of the last blob taken at a path present ever since, which says which rows are stale |
| SearchIndex.RetryHeals | internal/search/service.go:85-179 | an interrupted pass leaves a sound cache, and a complete pass that reads everything then ends where it would have ended without the interruption |
| SearchIndex.LinksExactly | internal/search/service.go:200-238 | a link is stored exactly when its source is a markdown file of the tree, read in the pass and within the size limit, whose text has it |
| SearchIndex.LinksToExactly | internal/search/service.go:215-226 | that is: the path ends in `.md` or `.markdown`, the blob is read and at most 2097152 long when trimmed, and a link to the target is found in it |
| SearchIndex.MarkdownExactly | internal/search/service.go:215 | the markdown files are those whose path ends so |
| Indexer.Index.Upsert | internal/search/store.go:75-100 | nothing is written for a known blob id; otherwise the row is replaced, or the statement fails and it stays |
| Indexer.Index.VisitBlob | internal/search/service.go:119-148 | one blob of the walk: it is written exactly if it is fit, read and not the one the row has, and then the row has its id, trimmed text and title |
| Indexer.Index.Walk | internal/search/service.go:106-151 | the recursive walk visits exactly the listing in order; a failure leaves the rows as some of the visits left them |
| Indexer.Index.RemoveVanished | internal/search/service.go:160-171 | exactly the rows of unseen paths go and are counted; a failure leaves all rows of seen paths |
| Indexer.Index.CollectLinks | internal/search/service.go:200-236 | the second walk gathers exactly the links of the listing and writes nothing |
| Indexer.Index.ReplaceLinks | internal/search/store.go:130-149 | the stored links are all the new ones or all the old ones |
| Indexer.Index.Sync | internal/search/service.go:94-171 | the pass without its state rows, whatever statement fails |
| Indexer.Index.Reindex | internal/search/service.go:85-179 | whatever statement fails and whatever reads are lost, every row has its own blob's id, trimmed text and title; success gives the pass, in which every fit blob that was read has its row, its links and counts and status clean; failure leaves an interrupted pass, never a clean status unless no state row could be written |
| Indexer.Index.Backlinks | internal/search/store.go:153-175 | exactly the sources of the stored links to the target, each once; after a pass, exactly the files of its tree that link to it |
| PatchText.HeaderPrinted | web/src/components/editor/project-changes-parser.ts:46-48 | the header pattern reads a printed header back with its heading trimmed |
| PatchText.HeaderFacts | web/src/components/editor/project-changes-parser.ts:46-58 | the heading of a header is trimmed and on one line |
| PatchText.HeadingText | web/src/components/editor/project-changes-parser.ts:65 | a markdown heading of one to six hashes, indented by at most three, has the text between hashes and closing as its title |
| PatchHeadings.HeadingExactly | web/src/components/editor/project-changes-parser.ts:65-71 | the heading pattern matches exactly the lines that can be read as indentation, hashes, white space, title and closing, and of all such readings it takes the one with the widest gap and then the shortest title |
| PatchParser.AddLine | web/src/components/editor/project-changes-parser.ts:67-84 | one line inside a hunk: heading, line and running numbers |
| PatchParser.ParseDocumentPatch | web/src/components/editor/project-changes-parser.ts:21-88 | the loop over the lines computes the parse |
| PatchParser.ParsedIsWellFormed | web/src/components/editor/project-changes-parser.ts:21-88 | for every text, each line carries exactly the numbers its hunk's starts give it over the lines before it, every file has a path and a hunk, no content spans lines |
| PatchSections.SectionPath | web/src/components/editor/project-changes-parser.ts:36-45 | the path a section gets from any lines: the name on its last line for the new side that is not /dev/null, without `b/`; failing that, the name on its first such line for the old side, without `a/` |
| PatchSections.HeaderExactly | web/src/components/editor/project-changes-parser.ts:46-48 | which lines are hunk headers and what they say: numbers with or without counts, and the trimmed rest as heading |
| PatchSections.CountlessHeader | web/src/components/editor/project-changes-parser.ts:46-48 | a header of two bare numbers is one, and says them |
| PatchSections.TextRead | web/src/components/editor/project-changes-parser.ts:21-88 | any text is lines before the first section, then sections; the files are exactly those of the sections that have a path and a hunk, one hunk for each header with its numbers |
| PatchSections.OneHunkRead | web/src/components/editor/project-changes-parser.ts:29-84 | a section with any two sides and any header form adds one file of that name and hunk, whatever came before |
| PatchSections.RenamedAddedDeleted | web/src/components/editor/project-changes-parser.ts:36-45 | a renamed file is shown under its new name, an added one under its only name, a deleted one under the name it had |
| PatchBodies.BodyRead | web/src/components/editor/project-changes-parser.ts:61-84 | a hunk keeps exactly the lines marked `+`, `-` or space, each once, in order and without the mark; its heading is that of the last heading line that is not deleted and has only unchanged lines before it, or else the header's |
| PatchBodies.NumbersExactly | web/src/components/editor/project-changes-parser.ts:74-84 | the numbers on a line are the start of the hunk and how many lines before it are in that file; an added line has none in the old file, a deleted one none in the new |
| PatchPrinting.ParsePrint | web/src/components/editor/project-changes-parser.ts:21-88 | parsing a printed patch gives it back with each heading settled by its own lines, for all files a parse can produce |
| PatchPrinting.RoundTripExactly | web/src/components/editor/project-changes-parser.ts:67-77 | it gives the patch itself exactly when every heading is what its header, read back, and its lines make it |
| PatchStability.SettledExactly | web/src/components/editor/project-changes-parser.ts:67-77 | a hunk's heading survives exactly when the lines of the text that decided it are steady: the last is one of the hunk's own, or agrees with them, or has a trimmed title |
| PatchStability.ReparseIsStable | web/src/components/editor/project-changes-parser.ts:21-88 | for every text, parse, print and parse gives what the first parse gave exactly when the deciding lines of every kept hunk are steady |
| PatchStability.StrayReplacesHeading | web/src/components/editor/project-changes-parser.ts:67-77 | a text whose stray line replaces a heading that does not survive the round trip |
| Quoting.BuildFilter | internal/project/repo.go:231-236 | the loop writes one removal for each path |
| Quoting.QuoteReads | internal/project/repo.go:306-308 | by the shell's rules a quoted text is one word, and that word is the text |
| Quoting.ScriptReadsAsPaths | internal/project/repo.go:229-236 | by the shell's rules the script is exactly one removal command for each path, the path its one operand, whatever its characters |
| Matching.EscapeIsCharwise | internal/search/store.go:279-284 | the three ordered replacements escape each character once |
| Matching.LikeIsLiteral | internal/search/store.go:251-284 | the pattern of a term matches exactly the contents that hold the term up to ASCII case |
| Matching.BuildMatchExpr | internal/search/store.go:337-345 | the loop quotes and joins the fields |
| Matching.ExprReadsAsWords | internal/search/store.go:337-345 | read as doubled-quote phrases, the expression is exactly the words, one phrase each |
| Matching.FieldsExactly | internal/search/store.go:338 | the words are exactly those that white space sets apart |
| CommitLog.SearchCommits | internal/project/history.go:64-128 | for every log, query, limit and offset the early-stopping loop returns that slice of all matches, limit clamped to 1..100, and has-more exactly when matches remain; it fails exactly when it comes to a line too long for the scanner first |
| CommitLog.FilteredExactly | internal/project/history.go:90-104 | a summary is among the matches as often as the log has matching lines for it |
| CommitLog.FilteredInOrder | internal/project/history.go:90-104 | the matches are those of the wanted lines, each once and in the order of the log |
| CommitLog.LineExactly | internal/project/history.go:90-94 | a line gives a summary exactly if it is four or more pieces joined by the unit separator, and then its first four |
| CommitLog.WantedExactly | internal/project/history.go:95-99 | a line is wanted exactly if it gives a summary with the term in subject or author, or at the front of the id, all in lower case; or the term is empty |
| CommitLog.PageExactly | internal/project/history.go:64-70 | a page is the matches from the offset on, at most the limit, which is 20 if not positive and 100 at most; there is more exactly when matches are left |
| CommitLog.FetchAll | web/src/routes/project-detail.tsx:138-150 | pages fetched at accumulated lengths concatenate to all matches in order, exactly when no line is too long |
| CommitLog.PagesAbut | web/src/routes/project-detail.tsx:142-145 | a page says there is more exactly when the next one is not empty, and pages neither overlap nor leave gaps |
| Transfer.WriteTree | internal/project/transfer.go:52-78 | the recursive walk writes exactly the entries of the listing, or stops at an unreadable blob |
| Transfer.ExportZip | internal/project/transfer.go:41-87 | the archive is the listing with trimmed contents, or an error |
| Transfer.ExportNamesDistinct | internal/project/transfer.go:66-73 | no two entries of an archive have the same name |
| Transfer.ImportZip | internal/project/transfer.go:90-123 | the answer for every request; the branch moves exactly when a commit is reported |
| Transfer.ImportValidExactly | internal/project/transfer.go:91-106 | a request gets past validation exactly with 1 to 100 files, each with a path that stays inside and valid base64 of at most 5 MiB |
| Transfer.LargeImportRefused | internal/project/transfer.go:91-93 | 101 to 500 files, which the import's own check admits, are always refused |
| Transfer.JoinedLocates | internal/project/transfer.go:96-107 | a path of the exported tree leads an import back to the same place |
| Transfer.ImportAgrees | internal/project/transfer.go:90-123 | after importing an export each exported path holds the exported text and every other path what it held |
| Transfer.ExportImportExport | internal/project/transfer.go:41-123 | exporting the target afterwards gives the source's entry at each exported path and the target's own old entry elsewhere |
| Transfer.DirectoryExists | internal/project/repo.go:312-345 | every tree of real names in which no file lies under another is that of a directory |
| Transfer.ImportedDirectories | internal/project/transfer.go:90-123 | so the trees before and after an import have directories, whose exports are related at every path |
| Limits.WriteIndexedExactly | internal/search/service.go:135-142 | a committed plain write has its row, with its trimmed text and title, exactly when it is, trimmed, at most 2 MiB and has no NUL; otherwise the old row stays |
| Limits.LargeTextAccepted | internal/project/changeset.go:254-256 | text between 2 MiB and 5 MiB is accepted by the request check and taken by no pass |

## Left out

- Git subprocesses, object storage, SHA-1, SHA-256 and base64: commits, trees, blobs and request bodies are structural values, decoding is a parameter, `update-ref` is an atomic compare-and-swap.
- Worktree.Checkout.Apply: not for paths with a segment `.git`, which git keeps for itself (`Worktree.Proper`); deleting the worktree's own directory fails at once, in the code it fails when the changes are staged.
- Worktree.Checkout.ApplyChanges: not for `.git` paths, as for `Worktree.Checkout.Apply`.
- Worktree.ApplyOneSound: not for `.git` paths, as for `Worktree.Checkout.Apply`.
- Worktree.ApplyAllSound: not for `.git` paths, as for `Worktree.Checkout.Apply`.
- Worktree.ChangeFraming: not for `.git` paths, as for `Worktree.Checkout.Apply`.
- Changesets.BuildMeaning: not for `.git` paths, as for `Worktree.Checkout.Apply`.
- Changesets.Repository.ApplyChangeset: not for `.git` paths, as for `Worktree.Checkout.Apply`.
- Outcomes.ApplyAllExactly: not for `.git` paths, as for `Worktree.Checkout.Apply`.
- Outcomes.BuildExactly: not for `.git` paths, as for `Worktree.Checkout.Apply`.
- Outcomes.OneChangeExactly: not for `.git` paths, as for `Worktree.Checkout.Apply`.
- Outcomes.OneChangeVerdict: not for `.git` paths, as for `Worktree.Checkout.Apply`.
- Changesets.ChangesetThenRevert: not for `.git` paths, as for `Worktree.Checkout.Apply`.
- Idempotency.Server.Apply: not for `.git` paths, as for `Worktree.Checkout.Apply`.
- Transfer.ImportZip: not for `.git` paths, as for `Worktree.Checkout.Apply`.
- Commits.ReverseExactly: the reverse patch is a file-level delta, so a revert that git could apply hunk by hunk beside a later change of the same file counts as refused.
- Commits.ReverseAppliesExactly: file-level patches, as for `Commits.ReverseExactly`.
- Commits.ReverseOlder: file-level patches, as for `Commits.ReverseExactly`.
- Outcomes.RevertExactly: file-level patches, as for `Commits.ReverseExactly`.
- Outcomes.RevertOlder: file-level patches, as for `Commits.ReverseExactly`.
- Changesets.Repository.RevertCommit: file-level patches, as for `Commits.ReverseExactly`.
- Protocol.RevertSerialisable: file-level patches, as for `Commits.ReverseExactly`.
- Races.UndisturbedRevert: file-level patches, as for `Commits.ReverseExactly`.
- Races.PreviewOfAnotherTree: about a variant of the protocol without the project lock, which the code always takes.
- Races.PreviewCanBeWrong: about the same variant.
- Indexer.Index.Backlinks: without the snippet and without the order by source path.
- Indexer.Index.Reindex: two passes at once over one project; the code takes no lock and the claims are for each pass.
- PatchParser.ParseDocumentPatch: line numbers are unbounded, JavaScript's lose precision above 2^53; the file and hunk that grow are kept beside the lists before them instead of being shared with them.
- No .gitignore, attributes, symlinks, submodules, file modes or case-folding file system; no worktree clean-up, default commit message or default author.
- The striped mutex pool: one project has one lock; that two projects may share one is not modelled.
- `Rename`, `PurgePaths`' history rewriting and pushes through `git http-backend`: work done by git, the last two not append-only.
- Byte-level strings: multi-byte characters, invalid UTF-8 and Unicode case mapping; `CommitLog` takes lower-casing as a parameter.
- Full-text ranking, snippets, the choice between LIKE and full-text search, and result limits.
- User names in lock rows and authorisation of the lock handlers; the methods of `Locks.LockTable` leave failing statements to the event machine beside them.
- Idempotency across projects: one project is modelled; audit rows and the reindex after a write are not.
- Sessions, tokens, users, shares, audit, backup and restore, HTTP routing, the command line and all UI code other than the patch parser and the page fetching: their properties are easy or belong to libraries.
