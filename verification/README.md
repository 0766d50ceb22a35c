# Kortex, verified

A Dafny model of the parts of Kortex — a multi-tenant memory service for agents — whose correctness depends on
whole histories rather than on single calls, with proofs about every run, every input or every reachable state.

- **Audit log** (`AuditChain`, `AuditTamper`, `AuditTable`, `AuditRuns`, `AuditStamps`, `AuditExport`, `AuditWalk`,
  `AuditSchedules`, `AuditOvertaken`): one table holding every organisation's hash chain; append, retention, paged verification, the recorded head, and
  the streaming export, the last two also beside concurrent writers. SHA-256 is a free constructor, so equal digests
  mean equal digested fields.
- **Chunker** (`Chunker`, `ChunkerSentences`, `ChunkerGreedy`, `ChunkerProofs`, `ChunkerLimits`): greedy packing of sentences with a carried tail, hard
  splits, and its separate length count.
- **Memory tool** (`ToolPaths`, `ToolViews`, `MemoryTool`, `MemoryToolFiles`, `MemoryToolRuns`, `MemoryToolLimits`,
  `MemoryToolScope`, `MemoryToolSecrecy`, `MemoryToolGuesses`): six file commands over rows of the memories table, proved against a
  machine over a finite map from path to file.
- **Idempotency-Key** (`Idempotency`) and **single-flight token refresh** (`TokenRefresh`): interleaving protocols,
  as steps of any number of requests over shared state.
- **Retrieval** (`HybridSearch`, `PinnedSearch`, `SearchLimits`, `AttachmentSearch`) and **embedding maintenance**
  (`EmbedRetry`).
- `Sequences.dfy` (with `Options`), `Text.dfy` and `Whitespace.dfy` hold what these share: filters, `split` and
  `join`, `strip` and the text without its whitespace ("ink").

Objects the source updates in place are classes (`AuditRepository`, `Packer`, `MemoryToolBackend`,
`MemoryRepository`) whose methods are proved against functions of the old state; the theorems are about those
functions. Loops that only compute are methods with invariants.

`dafny verify dfyconfig.toml` checks everything.

## Where the code does less than its comments say

Each of these is stated as an exact condition, and a lemma gives an input, or a family of inputs, that fails it.

- Deleting audit rows "from the middle or the end still breaks" (`audit_repo.py`, lines 221-222): only the middle.
  `AuditTamper.DeletionDetectedIff`; for the end, `AuditChain.TruncationChangesHead` shows that it is accepted and
  what the recorded head adds.
- The retention docstring says the earliest survivor is reported as unchained (`audit_repo.py`, lines 325-327); the
  code anchors on its `prev_hash`. The model follows the code: `AuditRuns.EveryRunVerifies`.
- Retention selects by stamp, and stamps are taken before the head is locked. When one goes backwards a purge can
  remove a row from between two that stay, and the verifier then reports tampering: `AuditRuns.IntactThroughoutIff`,
  with the input in `AuditStamps.BackwardStampBreaks`.
- Each page of the verifier is a separate read. A purge that overtakes it between two pages, or that empties the log
  before the org appends again, is reported as tampering though the log is intact. `AuditSchedules.WalkInRunIff` is
  exact for every schedule of steps and reads, `AuditOvertaken.BreakCausesIff` and `AuditOvertaken.OvertakenIff` say it
  by purges and cursors; the inputs are in `AuditOvertaken.OvertakenWalkBreaks` and `AuditOvertaken.EmptiedWalkBreaks`. With no purge of the org between
  the first read and the last the verdict is right: `AuditOvertaken.QuietWalkIsExact`.
- Chunks "greedily fitting" the budget exceed it whenever there is overlap (`ChunkerLimits.WithinBudgetIff`,
  `ChunkerLimits.OverBudget`; `ChunkerLimits.FittingTextIsWithinBudget` says of which texts it does not), and an empty chunk can be yielded whenever there is none (`ChunkerLimits.NonemptyIff`,
  `ChunkerLimits.EmptyChunk`).
- `str_replace` counts occurrences that do not overlap, so an edit can go ahead on a text that occurs twice
  (`ToolViews.ReplacedWasUniqueIff`, `ToolViews.CountedOnceOccursTwice`).
- Canonical paths can end in whitespace, and are then no longer fixed points (`ToolPaths.IdempotentIff`; for
  `/memories/a /`, `ToolPaths.SpaceEndedKey`).
- Directory listing and deletion see the first thousand tool rows (`MemoryToolFiles.DirectoryDeleteIff`,
  `MemoryToolRuns.ListsIff`; a directory of 1001 files in `MemoryToolLimits.CrowdIsNotDeleted`).
- A file keeps the content fingerprint of its first text through edits and renames. Creating that text again at the
  old path folds into the renamed row and moves it: the renamed file is gone
  (`MemoryToolLimits.RecreateLosesRenamedFile`, with the exact condition in `MemoryToolFiles.CreateIff`).
- A held file's text can be guessed: with deduplication on, as it is by default, creating the right text at the path
  the file was first created at folds into it and is answered plainly, where a wrong one is reported as held
  (`MemoryToolGuesses.GuessIsAnswered`). `MemoryToolGuesses.HiddenIff` says exactly when two tables cannot be told
  apart by the creates the tool makes, whose titles are their paths; without deduplication they never can
  (`MemoryToolSecrecy.HeldTextsStayHidden`).
- `rename` does not forbid `/memories` as the destination. The root is then a file that no command deletes, renames or
  creates over, and only a create that folds into it moves it away (`MemoryToolLimits.RootStaysDirectoryIff`,
  `MemoryToolLimits.RootIsFreedIff`).
- "Pinned memories always rise to the top" holds exactly for fusion constants of at least 3, so for the default of 60
  (`PinnedSearch.PinnedFirstIff`, `PinnedSearch.SmallKDisplacesPinned`).
- A handler slower than the 60-second reservation can run beside another one and delete its reservation
  (`Idempotency.ExclusionIff`, `Idempotency.OwnershipIff`, `Idempotency.SlowFailureHappens`).
- A refresh still unanswered at logout stores a new pair when it is answered (`TokenRefresh.LogoutLastsIff`,
  `TokenRefresh.LogoutIsUndone`).
- The name an embedder stores and the configured model name are two settings; the OpenAI embedder
  (`embeddings/openai.py`, line 21) always uses its own. Where they differ, embedded memories are in none of the status
  counts and are listed to be embedded again (`EmbedRetry.CountsAlwaysAddUpIff`, `EmbedRetry.OtherNameIsNeverOk`).

## Model

| member | source | states |
|---|---|---|
| `AuditChain.VerifiedMeaning` | packages/kortex-core/src/kortex_core/repositories/audit_repo.py:215-283 | The verifier accepts a log if and only if its chained rows are linked, each to its predecessor's digest, and carry their own digest; on acceptance the entry count, the unchained count and the anchor are what they claim |
| `AuditChain.FirstBreak` | packages/kortex-core/src/kortex_core/repositories/audit_repo.py:252-275 | The reported break is the first row whose prefix is not linked, with the number of rows read so far, how many of them were unchained, the anchor of the chain up to it, and the right one of the two messages |
| `AuditChain.EndsCanGo` | packages/kortex-core/src/kortex_core/repositories/audit_repo.py:215-228 | Any prefix and any suffix of an accepted log is linked, and the anchor of the suffix is the last chained digest of the prefix |
| `AuditChain.HeadBindsHistory` | packages/kortex-core/src/kortex_core/repositories/audit_repo.py:197-283 | Two accepted logs with the same head other than GENESIS agree on every digested field and both hashes, entry by entry from the end |
| `AuditChain.HeadAndAnchorBindHistory` | packages/kortex-core/src/kortex_core/repositories/audit_repo.py:197-283 | With the anchor equal too, they hold the same sequence of chained records |
| `AuditChain.TruncationChangesHead` | packages/kortex-core/src/kortex_core/repositories/audit_repo.py:197-204 | Cutting rows off the end of an accepted log is accepted, and changes the head unless the head is GENESIS |
| `AuditTamper.EditIsLocated` | packages/kortex-core/src/kortex_core/repositories/audit_repo.py:239-283 | Changing a digested field of a chained row is reported at that row as a digest mismatch |
| `AuditTamper.ResealIsLocated` | packages/kortex-core/src/kortex_core/repositories/audit_repo.py:239-283 | Changing it and recomputing its hash is reported at the next chained row |
| `AuditTamper.ResealAtTheEnd` | packages/kortex-core/src/kortex_core/repositories/audit_repo.py:197-283 | Doing so to the newest row is accepted by the verifier and changes the head |
| `AuditTamper.DeletionIsLocated` | packages/kortex-core/src/kortex_core/repositories/audit_repo.py:239-283 | Deleting rows from the inside is reported at the first chained survivor after the gap |
| `AuditTamper.DeletionDetectedIff` | packages/kortex-core/src/kortex_core/repositories/audit_repo.py:218-222 | Deleting a run of rows is detected if and only if chained rows go and chained rows stay on both sides |
| `AuditTamper.SurvivorsVerifyIff` | packages/kortex-core/src/kortex_core/repositories/audit_repo.py:239-283 | Whatever rows are removed from an intact log, the rest verifies if and only if no chained row went from between two that stayed |
| `AuditTable.AuditRepository.constructor` | packages/kortex-core/src/kortex_core/repositories/audit_repo.py:97-98 | An empty, well-numbered table |
| `AuditTable.AuditRepository.Append` | packages/kortex-core/src/kortex_core/repositories/audit_repo.py:100-169 | Fails without a tenant and changes nothing. Otherwise adds one row with the next id, filed under the named org, else the principal's; actor, action, target and metadata as given, ip and user agent as given if not empty, else the request's, the stamp as taken; chained to the org's head and sealed with its own digest |
| `AuditTable.AuditRepository.ReadHead` | packages/kortex-core/src/kortex_core/repositories/audit_repo.py:184-213 | The digest of the org's row with the largest id; GENESIS if the org has no row or that row is unchained |
| `AuditTable.AuditRepository.PurgeBefore` | packages/kortex-core/src/kortex_core/repositories/audit_repo.py:318-339 | A row stays if and only if it is of another org or not older than the cutoff; the others keep their order and are counted |
| `AuditTable.PageIsSlice` | packages/kortex-core/src/kortex_core/repositories/audit_repo.py:285-306 | Reading after the id of the n-th entry resumes exactly at entry n + 1 |
| `AuditTable.AuditRepository.NextPage` | packages/kortex-core/src/kortex_core/repositories/audit_repo.py:240-243 | One read of the walk: the next slice of the org's log, empty only at its end |
| `AuditTable.WalkPage` | packages/kortex-core/src/kortex_core/repositories/audit_repo.py:244-276 | The inner loop continues the one-pass walk, and stops where that stops |
| `AuditTable.AuditRepository.Verify` | packages/kortex-core/src/kortex_core/repositories/audit_repo.py:215-283 | For every page size the paged walk of a table at rest ends and equals a one-pass walk over the org's rows |
| `AuditRuns.OtherOrgsUntouched` | packages/kortex-core/src/kortex_core/repositories/audit_repo.py:100-339 | A step on one org leaves every other org's rows, hence its verification and head, as they were |
| `AuditRuns.RunIsSound` | packages/kortex-core/src/kortex_core/repositories/audit_repo.py:100-339 | The invariant of every run whose purges leave no gap in the org's chain: legacy rows first, and a chain linked from the anchor that history predicts |
| `AuditRuns.UnchainedAreLegacy` | packages/kortex-core/src/kortex_core/repositories/audit_repo.py:246-248 | The unchained rows after any run, with any stamps, are exactly the legacy rows that every purge of the org spared |
| `AuditRuns.EveryRunVerifies` | packages/kortex-core/src/kortex_core/repositories/audit_repo.py:100-339 | After every run of appends and purges from a legacy or empty table, with any stamps, in which no purge removes a chained row of the org from between two that stay: the org's chain verifies intact, with the surviving legacy rows as unchained and, as anchor, the digest of the last chained row purged ahead of the survivors |
| `AuditRuns.IntactThroughoutIff` | packages/kortex-core/src/kortex_core/repositories/audit_repo.py:132-143 | With any stamps, an org's chain verifies at every point of a run if and only if no purge removes a chained row from between two that stay |
| `AuditStamps.BackwardStampBreaks` | packages/kortex-core/src/kortex_core/repositories/audit_repo.py:318-339 | Three entries, the middle one stamped before the first: a purge that takes it alone turns an intact log into a reported break |
| `AuditStamps.StampedRunIsGapless` | packages/kortex-core/src/kortex_core/repositories/audit_repo.py:318-339 | When stamps do not go backwards within the org, no purge of any run leaves a gap |
| `AuditStamps.StampedRunVerifies` | packages/kortex-core/src/kortex_core/repositories/audit_repo.py:100-339 | Then every run verifies intact, with the surviving legacy rows as unchained and, as anchor, the last chained digest purged since the org's log was last empty, else GENESIS |
| `AuditExport.RunsAreLater` | packages/kortex-core/src/kortex_core/repositories/audit_repo.py:100-339 | Any appends and purges between two reads only remove rows and only add larger ids |
| `AuditExport.PageIsFull` | packages/kortex-core/src/kortex_core/repositories/audit_repo.py:285-306 | A page holds everything readable between the cursor and its own last id, and no more rows than its limit; an empty page means nothing is left |
| `AuditExport.Export` | packages/kortex-api/src/kortex_api/routers/audit.py:94-104 | While others append and purge, the export emits rows of the org stamped at or after `since` and before `until`, in increasing ids, so none twice; each read has emitted all it can see up to its cursor; a finished export holds every such row present at its last read |
| `AuditWalk.VerifyAcross` | packages/kortex-core/src/kortex_core/repositories/audit_repo.py:235-283 | While others append and purge between its pages, the walk ends with the one-pass verdict on the rows it was shown, which are in id order, none twice, and all that each read could see |
| `AuditWalk.NoBreakIff` | packages/kortex-core/src/kortex_core/repositories/audit_repo.py:239-283 | It reports no break if and only if no chained row of the org's history is missing between two it was shown |
| `AuditSchedules.SnapsAreSuccessive` | packages/kortex-core/src/kortex_core/repositories/audit_repo.py:239-243 | The tables at any read positions of a run are the successive snapshots that the walk and the export ask for |
| `AuditSchedules.WalkInRunIff` | packages/kortex-core/src/kortex_core/repositories/audit_repo.py:215-283 | For every run and every placing of the reads in it, the walk reports no break if and only if the digest of each chained row shown was the org's head when the next one shown was appended; where no two rows have one digest, if and only if that row was then the org's newest |
| `AuditSchedules.EmptiedLogBreaks` | packages/kortex-core/src/kortex_core/repositories/audit_repo.py:249-265 | If the org's log was empty at some point, a walk that was shown chained rows from before and from after reports a break |
| `AuditOvertaken.MissedWasOvertaken` | packages/kortex-core/src/kortex_core/repositories/audit_repo.py:239-243 | A chained row the walk was not shown, though it was shown a later one, was removed by a purge of the org while ahead of the cursor |
| `AuditOvertaken.OvertakenIsMissed` | packages/kortex-core/src/kortex_core/repositories/audit_repo.py:239-243 | A row removed while ahead of the cursor is never shown |
| `AuditOvertaken.HistoryIsIntact` | packages/kortex-core/src/kortex_core/repositories/audit_repo.py:100-147 | All the rows an org ever wrote are one intact log, as long as its newest row was there whenever it appended |
| `AuditOvertaken.OvertakenIff` | packages/kortex-core/src/kortex_core/repositories/audit_repo.py:215-283 | In such a run the walk reports no break if and only if no purge of the org removes a chained row ahead of the cursor while chained rows before and after it are shown |
| `AuditOvertaken.BreakCausesIff` | packages/kortex-core/src/kortex_core/repositories/audit_repo.py:215-283 | In every run in which no two rows of the org have one digest, the walk reports a break if and only if, of two chained rows shown one after the other, the first was purged before the second was appended, or a purge removed a chained row between them that was there at that append, while it was ahead of the cursor |
| `AuditOvertaken.QuietWalkIsExact` | packages/kortex-core/src/kortex_core/repositories/audit_repo.py:215-283 | With no purge of the org between its first and its last read, a walk that reached the end was shown exactly the org's rows as last read |
| `AuditOvertaken.QuietBreakIsReal` | packages/kortex-core/src/kortex_core/repositories/audit_repo.py:252-275 | And one that stopped at a break reports what a walk of the table as last read reports |
| `AuditOvertaken.OvertakenWalkBreaks` | packages/kortex-core/src/kortex_core/repositories/audit_repo.py:239-265 | Three entries read one to a page: a purge of the first two after the first page leaves an intact log on which the walk reports a break |
| `AuditOvertaken.EmptiedWalkBreaks` | packages/kortex-core/src/kortex_core/repositories/audit_repo.py:239-265 | One entry is read, retention takes it, and the org appends again: the log is intact and the walk reports a break |
| `Chunker.Packer.Flush` | packages/kortex-core/src/kortex_core/attachments/chunker.py:55-68 | Emits the stripped buffer under the next index and keeps the tail; nothing on an empty buffer |
| `Chunker.Packer.Push` | packages/kortex-core/src/kortex_core/attachments/chunker.py:76-93 | Makes room if needed, appends and counts |
| `Chunker.Packer.PushLong` | packages/kortex-core/src/kortex_core/attachments/chunker.py:72-86 | The hard-split loop equals packing the pieces of the sentence one by one |
| `Chunker.Packer.PushAll` | packages/kortex-core/src/kortex_core/attachments/chunker.py:70-93 | The two loops equal one fold over all pieces and sentences |
| `Chunker.ChunkText` | packages/kortex-core/src/kortex_core/attachments/chunker.py:32-97 | The generator yields the chunks of the packing function, with indices 0 to n - 1; `ChunkerGreedy` says what that function computes |
| `ChunkerSentences.SentencesArePlaced` | packages/kortex-core/src/kortex_core/attachments/chunker.py:14-29 | Every sentence stands in the text, in order; neighbours are separated by whitespace in which a boundary begins, whitespace after `.`, `!` or `?` or two newlines; none contains one; and only whitespace precedes the first and follows the last |
| `ChunkerGreedy.TokensOfIs` | packages/kortex-core/src/kortex_core/attachments/chunker.py:71-86 | A sentence within the budget stays whole; a longer one is cut every `max_chars` characters and nothing of it is lost |
| `ChunkerGreedy.ChunksAreGreedy` | packages/kortex-core/src/kortex_core/attachments/chunker.py:55-97 | Every chunk is the last `overlap_chars` characters of the one before and a run of sentences or pieces, joined by spaces and stripped; a run ends only at the end of the text, where its count with the next one exceeds `max_chars`, or where a piece has filled it, and goes on otherwise |
| `ChunkerGreedy.FittingTextIsOneChunk` | packages/kortex-core/src/kortex_core/attachments/chunker.py:88-97 | A text whose sentences, each with a space, fit the budget is one chunk: its sentences joined by spaces |
| `ChunkerProofs.SentencesKeepInk` | packages/kortex-core/src/kortex_core/attachments/chunker.py:27-29 | Splitting loses only whitespace; sentences are nonempty and stripped, and there is one unless the text is blank |
| `ChunkerProofs.UnchunkRestoresText` | packages/kortex-core/src/kortex_core/attachments/chunker.py:27-97 | Dropping each later chunk's carried tail, concatenating and ignoring whitespace gives the text back, for every text and setting |
| `ChunkerProofs.ChunksOverlap` | packages/kortex-core/src/kortex_core/attachments/chunker.py:55-97 | Each chunk after the first begins with the last `overlap_chars` characters of the previous one, or all of it, less leading whitespace |
| `ChunkerProofs.ChunksBounded` | packages/kortex-core/src/kortex_core/attachments/chunker.py:46-97 | Chunks have at most `max_chars` characters without overlap, and `max_chars + overlap_chars + 1` with it |
| `ChunkerProofs.OverlapMakesChunksNonempty` | packages/kortex-core/src/kortex_core/attachments/chunker.py:55-97 | With overlap no chunk is empty |
| `ChunkerLimits.WithinBudgetIff` | packages/kortex-core/src/kortex_core/attachments/chunker.py:38-97 | Every chunk of every text is within the budget if and only if there is no overlap |
| `ChunkerLimits.OverBudget` | packages/kortex-core/src/kortex_core/attachments/chunker.py:72-86 | With overlap, a word of twice the budget yields a chunk over it |
| `ChunkerLimits.FittingTextIsWithinBudget` | packages/kortex-core/src/kortex_core/attachments/chunker.py:46-97 | If every sentence leaves room for a full tail and a space, no chunk of the text exceeds the budget |
| `ChunkerLimits.NonemptyIff` | packages/kortex-core/src/kortex_core/attachments/chunker.py:55-97 | Every chunk of every text is nonempty if and only if there is overlap |
| `ChunkerLimits.EmptyChunk` | packages/kortex-core/src/kortex_core/attachments/chunker.py:72-86 | Without overlap, a hard-split piece that is all whitespace is yielded as an empty chunk |
| `ToolPaths.TraversalIsDotDot` | packages/kortex-core/src/kortex_core/memory_tool.py:51-92 | On a stripped path the traversal pattern matches exactly when some component is `..` |
| `ToolPaths.AcceptedIff` | packages/kortex-core/src/kortex_core/memory_tool.py:87-101 | A path is accepted if and only if, stripped, it is not empty, holds no `%2e`, `%2f` or `%5c` in either case and no backslash, starts with one slash or more than two, has no `..` component, and its first other component is `memories` |
| `ToolPaths.RefusedFor` | packages/kortex-core/src/kortex_core/memory_tool.py:87-100 | Which of the three refusals a path gets |
| `ToolPaths.NormalisationCollapses` | packages/kortex-core/src/kortex_core/memory_tool.py:74-101 | On every accepted path the stack algorithm of `normpath` is: drop empty and `.` components; exactly one leading slash, no `..` left |
| `ToolPaths.SameKeyIff` | packages/kortex-core/src/kortex_core/memory_tool.py:74-101 | Two accepted paths share a key if and only if their remaining components are equal |
| `ToolPaths.KeyIsReached` | packages/kortex-core/src/kortex_core/memory_tool.py:74-101 | Every path under the root without empty, `.`, `..`, encoded or backslashed components is the key of an accepted path |
| `ToolPaths.UnderIff` | packages/kortex-core/src/kortex_core/memory_tool.py:245-246 | One key continues another with a slash exactly when its components continue the other's |
| `ToolPaths.IdempotentIff` | packages/kortex-core/src/kortex_core/memory_tool.py:87-101 | Canonicalising twice changes nothing if and only if the key does not end in whitespace |
| `ToolPaths.SpaceEndedKey` | packages/kortex-core/src/kortex_core/memory_tool.py:87-101 | `/memories/a /` is accepted with the key `/memories/a `, which is not a fixed point |
| `ToolViews.RowReadsBack` | packages/kortex-core/src/kortex_core/memory_tool.py:114-122 | A numbered row decodes to its number and its line, for numbers of any width and lines with tabs; up to a million the number takes six places |
| `ToolViews.ViewReadsBack` | packages/kortex-core/src/kortex_core/memory_tool.py:114-122 | Row i of a view decodes to the absolute line number and line i of the text shown, and there is one row per line |
| `ToolViews.WindowIsAbsolute` | packages/kortex-core/src/kortex_core/memory_tool.py:413-431 | A windowed view is exactly rows start to end of the full numbered view; an empty window shows the whole file |
| `ToolViews.InsertShiftsLines` | packages/kortex-core/src/kortex_core/memory_tool.py:315-327 | Inserting at n puts the lines of the text, less trailing newlines, after line n and keeps all others |
| `ToolViews.InsertSeenThroughViews` | packages/kortex-core/src/kortex_core/memory_tool.py:315-327 | After an insert at n, rows 1 to n of the view are unchanged, and later rows are renumbered by the number of lines added |
| `ToolViews.RStripNewlinesFacts` | packages/kortex-core/src/kortex_core/memory_tool.py:326-326 | Of the text to insert only the newlines at its end go, all of them |
| `ToolViews.ReplacedText` | packages/kortex-core/src/kortex_core/memory_tool.py:304-304 | A replacement is the text before the first occurrence, the new text, and the text after it |
| `ToolViews.ReplaceShiftsLines` | packages/kortex-core/src/kortex_core/memory_tool.py:304-306 | Lines before the replaced text stay, lines after it stay and shift by what the edited lines gained; only the lines it touches change |
| `ToolViews.CountIsOneIff` | packages/kortex-core/src/kortex_core/memory_tool.py:288-304 | A replacement goes ahead if and only if the text occurs and does not occur again past its first occurrence; a unique text always does |
| `ToolViews.ReplacedWasUniqueIff` | packages/kortex-core/src/kortex_core/memory_tool.py:288-304 | A replacement that goes ahead replaced the only occurrence, in every file, if and only if the text cannot overlap itself |
| `ToolViews.CountedOnceOccursTwice` | packages/kortex-core/src/kortex_core/memory_tool.py:288-304 | For every text that overlaps itself, a file in which it occurs twice and is counted once |
| `MemoryTool.ReplacementIs` | packages/kortex-core/src/kortex_core/memory_tool.py:279-306 | A replacement case by case: no text given, no occurrence, none past the first, which is replaced (by nothing if no new text is given), or several, reported |
| `MemoryTool.LinesWithIs` | packages/kortex-core/src/kortex_core/memory_tool.py:294-302 | The lines reported are those that contain the text |
| `MemoryTool.LinesWithInOrder` | packages/kortex-core/src/kortex_core/memory_tool.py:294-302 | In order, none twice |
| `MemoryTool.MemoryToolBackend.Execute` | packages/kortex-core/src/kortex_core/memory_tool.py:148-166 | Dispatch: bad paths and unknown commands change nothing and are reported; every other command does what its handler's function says |
| `MemoryTool.MemoryToolBackend.CreateFile` | packages/kortex-core/src/kortex_core/memory_tool.py:258-277 | Overwrites an existing file in place, otherwise stores a new one, folding into a row with the same fingerprint if deduplication finds one |
| `MemoryTool.MemoryToolBackend.ReplaceText` | packages/kortex-core/src/kortex_core/memory_tool.py:279-306 | Edits if and only if the file is there, not held, and the text is counted once; then the first occurrence, and nothing else of that row or any other, is replaced, and the answer shows the new body numbered; otherwise nothing changes |
| `MemoryTool.MemoryToolBackend.InsertLines` | packages/kortex-core/src/kortex_core/memory_tool.py:308-328 | Edits if and only if the file is there, not held, and the line is within 0 and the number of lines; then the text's lines follow that line and nothing else changes; otherwise nothing changes |
| `MemoryTool.MemoryToolBackend.DeletePath` | packages/kortex-core/src/kortex_core/memory_tool.py:330-347 | Deletes the file, else all rows under the directory that the tree query returns, else reports a missing path |
| `MemoryTool.MemoryToolBackend.RenamePath` | packages/kortex-core/src/kortex_core/memory_tool.py:349-364 | Moves the one row to a free path, or refuses and changes nothing |
| `MemoryToolFiles.DirectoryDeleteIff` | packages/kortex-core/src/kortex_core/memory_tool.py:340-347 | Deleting a directory removes exactly the files under it if and only if none lies beyond the first thousand tool rows |
| `MemoryToolFiles.StoredFiles` | packages/kortex-core/src/kortex_core/services/memory_service.py:306-360 | What a write to a free path does to the map: insert, or take over the row it folds into |
| `MemoryToolFiles.CreateIff` | packages/kortex-core/src/kortex_core/services/memory_service.py:306-320 | A create at a free path is the map update if and only if it does not fold, or folds into a row that was no file and held that text under that status |
| `MemoryToolRuns.ListsIff` | packages/kortex-core/src/kortex_core/memory_tool.py:236-256 | A listing names every file under the directory once, in order, with its size, if and only if the tree query reaches them all |
| `MemoryToolRuns.StepRefinesIff` | packages/kortex-core/src/kortex_core/memory_tool.py:148-364 | Every command keeps paths unique, and is a step of the map machine, in state and answer, if and only if it is faithful: directories within the thousand rows, writes that fold unnoticed |
| `MemoryToolRuns.PathsStayUnique` | packages/kortex-core/src/kortex_core/memory_tool.py:170-183 | No command sequence ever gives two live files one path |
| `MemoryToolRuns.RunRefines` | packages/kortex-core/src/kortex_core/memory_tool.py:148-364 | Every sequence of faithful commands is a run of the map machine, answer by answer |
| `MemoryToolRuns.SmallScopeSeesAll` | packages/kortex-core/src/kortex_core/repositories/memory_repo.py:654-679 | With at most a thousand tool rows directory operations see everything |
| `MemoryToolRuns.SmallScopeRunRefines` | packages/kortex-core/src/kortex_core/memory_tool.py:148-364 | With writes that insert, every command sequence in a scope that never has more than a thousand files before a command is a run of the map machine |
| `MemoryToolRuns.FewCreatesStaySmall` | packages/kortex-core/src/kortex_core/repositories/memory_repo.py:654-679 | The scope stays so if its files and the creates of the sequence together are at most a thousand |
| `MemoryToolLimits.CrowdIsSeenIff` | packages/kortex-core/src/kortex_core/repositories/memory_repo.py:654-679 | Directory operations see any directory of n files, alone in its scope, if and only if n is at most 1000 |
| `MemoryToolLimits.CrowdIsNotDeleted` | packages/kortex-core/src/kortex_core/memory_tool.py:340-347 | With more than 1000 the `delete` command leaves files behind and the `view` command leaves files out |
| `MemoryToolLimits.RecreateLosesRenamedFile` | packages/kortex-core/src/kortex_core/repositories/memory_repo.py:683-721 | The commands create, insert, rename, create, from an empty table: all succeed, the renamed file is gone, and its edited text is back at the old path |
| `MemoryToolLimits.RecreateHappens` | packages/kortex-core/src/kortex_core/repositories/memory_repo.py:683-721 | It happens to `/memories/a`, renamed to `/memories/aa` |
| `MemoryToolLimits.RootIsTakenIff` | packages/kortex-core/src/kortex_core/memory_tool.py:349-364 | The root turns from a directory into a file by a rename of an existing file onto it, and by no other command |
| `MemoryToolLimits.RootIsFreedIff` | packages/kortex-core/src/kortex_core/memory_tool.py:258-364 | A file at the root leaves it if and only if a create folds into it |
| `MemoryToolLimits.RootStaysDirectoryIff` | packages/kortex-core/src/kortex_core/memory_tool.py:148-364 | The root is a directory all through a run if and only if no existing file is renamed onto it |
| `MemoryToolScope.ForeignIsUnchanged` | packages/kortex-core/src/kortex_core/repositories/memory_repo.py:625-679 | No command changes a row that is deleted, of another org (unless the caller is a superuser) or of another scope |
| `MemoryToolScope.ForeignRowsDoNotShow` | packages/kortex-core/src/kortex_core/repositories/memory_repo.py:625-705 | Two tables that agree on the live rows of the caller's org and scope answer every command sequence alike |
| `MemoryToolScope.UnderMeans` | packages/kortex-core/src/kortex_core/memory_tool.py:245-246 | A file lies under a directory exactly when its components continue the directory's |
| `MemoryToolScope.LessIff` | packages/kortex-core/src/kortex_core/memory_tool.py:251-252 | The listing's order is by the first character that differs, a prefix first |
| `MemoryToolScope.SizesAddUp` | packages/kortex-core/src/kortex_core/memory_tool.py:104-111 | Sizes add up over concatenation, and a text's size is its length exactly when it is ASCII |
| `MemoryToolScope.CharacterSizes` | packages/kortex-core/src/kortex_core/memory_tool.py:104-111 | Each character counts the bytes of its UTF-8 encoding |
| `MemoryToolScope.ShowsIs` | packages/kortex-core/src/kortex_core/memory_tool.py:221-234 | Of a file with more than 999,999 lines nothing is shown; of any other its numbered view, or the rows of the window |
| `MemoryToolScope.ViewOfHeld` | packages/kortex-core/src/kortex_core/memory_tool.py:211-219 | Of a held file the path and the recorded reason are shown, `awaiting review` if there is none |
| `MemoryToolScope.NoteIs` | packages/kortex-core/src/kortex_core/memory_tool.py:403-410 | A new file's answer says that it is held and why, or that it was redacted, or neither |
| `MemoryToolSecrecy.StepIsSecretIff` | packages/kortex-core/src/kortex_core/memory_tool.py:198-256 | On tables that differ only in held texts of equal size and their fingerprints, a command answers alike and keeps them alike if and only if it is not a create that folds differently |
| `MemoryToolSecrecy.AlikeUnlessFolded` | packages/kortex-core/src/kortex_core/memory_tool.py:198-379 | Such tables answer every command sequence alike as long as no create folds differently |
| `MemoryToolSecrecy.HeldTextsStayHidden` | packages/kortex-core/src/kortex_core/memory_tool.py:198-410 | Tables that differ only in held texts of equal size and their fingerprints, and into whose rows the same texts fold when written to the same paths, answer every command sequence alike, whatever function of path and text the service's verdict is; without deduplication the folding condition is void |
| `MemoryToolGuesses.GuessIsAnswered` | packages/kortex-core/src/kortex_core/services/memory_service.py:306-368 | Two held files of one size and different fingerprints, made by create and rename: creating the text of one at the old path is answered differently |
| `MemoryToolGuesses.HideIsHonest` | packages/kortex-core/src/kortex_core/memory_tool.py:388-402 | The commands of the guess carry the verdicts of a service that holds every write, with the path as title and the text as body |
| `MemoryToolGuesses.HiddenIff` | packages/kortex-core/src/kortex_core/memory_tool.py:198-410 | With deduplication, tables of files that differ only in held texts of equal size and their fingerprints answer alike every command sequence whose creates carry the service's verdict on their path and text, if and only if the same texts, written to the same paths, fold into each row |
| `MemoryToolGuesses.OtherTitlesStayHidden` | packages/kortex-core/src/kortex_core/memory_tool.py:388-402 | A held row whose fingerprint no write of the tool can have, such as one taken under a title that is no path, stays hidden altogether |
| `Idempotency.SettleTouchesOwnReservation` | packages/kortex-api/src/kortex_api/middleware/idempotency.py:118-161 | In every interleaving with handlers that settle in time, a request that deletes or overwrites the key finds its own live reservation there |
| `Idempotency.StoredResponseIsReplayed` | packages/kortex-api/src/kortex_api/middleware/idempotency.py:90-187 | After a response with a status of 200 to 299 is stored, for 24 hours no handler runs, the cached response stays, and every request answered meanwhile gets exactly that response; other handlers may fail, be cancelled or break off while their body is collected |
| `Idempotency.SettleKeepsOnlySuccess` | packages/kortex-api/src/kortex_api/middleware/idempotency.py:118-161 | A status of 200 to 299 is cached for 24 hours; after any other, and after an exception, the key is free at once; a request that is cancelled leaves its reservation |
| `Idempotency.FreeKeyRuns` | packages/kortex-api/src/kortex_api/middleware/idempotency.py:90-119 | On a key that is free or has expired a request reserves it for 60 seconds and runs its handler |
| `Idempotency.TakenKeyAnswers` | packages/kortex-api/src/kortex_api/middleware/idempotency.py:90-116 | On a key that is taken a request gets the cached response, or a conflict while there is none |
| `Idempotency.RetryAfterFailureRuns` | packages/kortex-api/src/kortex_api/middleware/idempotency.py:120-161 | A new request after an exception or a status outside 200 to 299 runs its handler |
| `Idempotency.ReplaysAreGenuine` | packages/kortex-api/src/kortex_api/middleware/idempotency.py:130-187 | In every run, what is cached and what is replayed has a status of 200 to 299 and was returned by a handler of that run |
| `Idempotency.ExclusionIff` | packages/kortex-api/src/kortex_api/middleware/idempotency.py:94-161 | Handlers exclude each other in every interleaving if and only if they settle within the 60-second reservation |
| `Idempotency.OwnershipIff` | packages/kortex-api/src/kortex_api/middleware/idempotency.py:118-161 | Requests touch only their own reservation in every interleaving if and only if handlers settle within those 60 seconds |
| `Idempotency.SlowRunHappens` | packages/kortex-api/src/kortex_api/middleware/idempotency.py:94-119 | The interleaving in which a second handler starts after the first one's reservation has lapsed |
| `Idempotency.SlowFailureHappens` | packages/kortex-api/src/kortex_api/middleware/idempotency.py:118-126 | A slow handler that then fails is about to delete the other request's reservation |
| `TokenRefresh.OneRefreshTwoRequests` | packages/kortex-web/src/lib/api.ts:55-96 | In every interleaving of calls, logins and logouts, at most one refresh is in flight and each call sends its request at most twice |
| `TokenRefresh.RetriesIffStored` | packages/kortex-web/src/lib/api.ts:79-83 | A call that waited for a refresh sends its request a second time if that refresh stored a new pair, and gives up otherwise |
| `TokenRefresh.RefreshSendsStored` | packages/kortex-web/src/lib/api.ts:58-77 | On a 401 a call with a stored refresh token joins the refresh under way, or sends the stored token |
| `TokenRefresh.NoRefreshNoRetry` | packages/kortex-web/src/lib/api.ts:79-83 | Any other answer, or a 401 without a stored refresh token, ends the call after one request |
| `TokenRefresh.RefreshTokensAreSingleUse` | packages/kortex-web/src/lib/api.ts:55-77 | A refresh token whose replacement pair was stored is never sent again |
| `TokenRefresh.LogoutLastsIff` | packages/kortex-web/src/lib/api.ts:58-148 | A logout lasts until the next login if and only if no refresh was still to be answered or read when the tokens were cleared |
| `TokenRefresh.LogoutIsUndone` | packages/kortex-web/src/lib/api.ts:58-148 | From any fresh tab with a session: a call, a 401, a logout, and a late reply leave a stored session |
| `HybridSearch.FuseOne` | packages/kortex-core/src/kortex_core/retrieval/hybrid.py:55-56 | One ranking adds its reciprocal ranks to every id's score and its new ids, in order, to the dict |
| `HybridSearch.RrfFuse` | packages/kortex-core/src/kortex_core/retrieval/hybrid.py:40-61 | The loops compute, for each candidate in first-seen order, the sum of reciprocal ranks over all rankings, lifted to the floor if pinned |
| `PinnedSearch.FusedScoreIsRrf` | packages/kortex-core/src/kortex_core/retrieval/hybrid.py:40-61 | A candidate's fused score is the sum of 1 / (k + rank) over the rankings that have it, lifted to 1 if it is pinned |
| `HybridSearch.Rerank` | packages/kortex-core/src/kortex_core/repositories/memory_repo.py:959-999 | The hits are the best 2 * limit by fused score, weighted by decay, sorted and cut to limit |
| `HybridSearch.HitIsVisible` | packages/kortex-core/src/kortex_core/repositories/memory_repo.py:858-999 | Every hit is live, approved, of the caller's org unless a superuser asks, in the scopes if any are given, within the sensitivity, of an allowed trust if any are given, and matches the words or has a vector while the query has one |
| `HybridSearch.HitIsWeighted` | packages/kortex-core/src/kortex_core/repositories/memory_repo.py:977-994 | Its score is its fused score times a half plus half its decay |
| `HybridSearch.VisibleIsCandidate` | packages/kortex-core/src/kortex_core/repositories/memory_repo.py:900-949 | Every row with those columns that has a vector, or matches, is a candidate, unless as many such rows as that ranking's limit rank no lower |
| `HybridSearch.RankingsAreLimited` | packages/kortex-core/src/kortex_core/repositories/memory_repo.py:902-943 | Neither ranking is longer than its limit, and both are best first |
| `HybridSearch.SearchFillsLimit` | packages/kortex-core/src/kortex_core/repositories/memory_repo.py:959-999 | A search returns as many hits as the limit and the candidates allow, best first |
| `HybridSearch.SearchIsNonInterfering` | packages/kortex-core/src/kortex_core/repositories/memory_repo.py:858-999 | Two databases with the same live, approved rows of the caller's org, scopes, sensitivity and trust give the same hits |
| `HybridSearch.LeftOutAtMostTwice` | packages/kortex-core/src/kortex_core/repositories/memory_repo.py:959-999 | For any nonnegative fused scores and decay in [0, 1], a candidate left out by either cut scores at most twice any hit |
| `HybridSearch.SearchLosesAtMostHalf` | packages/kortex-core/src/kortex_core/repositories/memory_repo.py:945-999 | The same of a whole search, from filters to hits |
| `SearchLimits.TwiceIsReached` | packages/kortex-core/src/kortex_core/repositories/memory_repo.py:945-999 | For every limit and fusion constant, a search in which a candidate left out scores exactly twice a hit |
| `AttachmentSearch.RerankChunks` | packages/kortex-core/src/kortex_core/repositories/attachment_repo.py:319-356 | The loop, the sort and the cut give the best 2 * limit that are still stored, sorted and cut to limit |
| `AttachmentSearch.ChunkSearchIsExact` | packages/kortex-core/src/kortex_core/repositories/attachment_repo.py:248-356 | A whole search for attachment chunks, which has no multiplier, returns exactly the top of the full fused ranking |
| `AttachmentSearch.ChunkHitIsVisible` | packages/kortex-core/src/kortex_core/repositories/attachment_repo.py:248-356 | Every hit is a chunk of a live attachment of the caller's org, in the scopes if any are given, within the sensitivity, that matches the words or has a vector while the query has one |
| `AttachmentSearch.VisibleChunkIsRanked` | packages/kortex-core/src/kortex_core/repositories/attachment_repo.py:277-314 | Every chunk with those columns is in its ranking, unless as many such chunks as its limit rank no lower |
| `AttachmentSearch.ChunkRankingsAreLimited` | packages/kortex-core/src/kortex_core/repositories/attachment_repo.py:277-314 | Neither ranking is longer than its limit, and both are best first |
| `AttachmentSearch.ChunkSearchIsNonInterfering` | packages/kortex-core/src/kortex_core/repositories/attachment_repo.py:248-356 | Two databases with the same chunks of live attachments of the caller's org, scopes and sensitivity give the same hits |
| `PinnedSearch.SortIsStable` | packages/kortex-core/src/kortex_core/repositories/memory_repo.py:998-999 | Sorting by descending score keeps an earlier hit with no smaller score earlier |
| `PinnedSearch.PinnedPrecedes` | packages/kortex-core/src/kortex_core/repositories/memory_repo.py:951-999 | With a fusion constant of at least 3, a pinned candidate is returned before any unpinned hit, through both cuts and the decay rerank |
| `PinnedSearch.SmallKDisplacesPinned` | packages/kortex-core/src/kortex_core/repositories/memory_repo.py:951-999 | Below 3, a fresh memory that is first in both rankings displaces a faded pinned one |
| `PinnedSearch.PinnedFirstIff` | packages/kortex-core/src/kortex_core/retrieval/hybrid.py:47-61 | Pinned memories come first in every search if and only if the fusion constant is at least 3 |
| `EmbedRetry.MemoryRepository.ListPendingEmbedding` | packages/kortex-core/src/kortex_core/repositories/memory_repo.py:303-321 | The oldest rows that are live, not embedded by this model, not parked and past their waiting time, oldest first and none twice, at most `limit`; such a row is left out only when the batch is full and no younger one is in it |
| `EmbedRetry.MemoryRepository.SetEmbedding` | packages/kortex-core/src/kortex_core/repositories/memory_repo.py:323-336 | Stores the model and clears the failure state of that row alone |
| `EmbedRetry.MemoryRepository.RecordEmbedFailure` | packages/kortex-core/src/kortex_core/repositories/memory_repo.py:338-375 | Every named row, and no other, gets the retry rule's outcome; the result is the number of rows whose budget this failure spends |
| `EmbedRetry.MemoryRepository.FailOne` | packages/kortex-core/src/kortex_core/repositories/memory_repo.py:357-374 | One row of that loop |
| `EmbedRetry.MemoryRepository.ResetEmbedFailures` | packages/kortex-core/src/kortex_core/repositories/memory_repo.py:377-404 | Live parked rows of the org, or of all if none is named, are released; every other row stays as it is; the result is how many were released |
| `EmbedRetry.MemoryRepository.EmbedStatusCounts` | packages/kortex-core/src/kortex_core/repositories/memory_repo.py:406-449 | One pass over the rows counts the sizes of the pending, failed and ok sets |
| `EmbedRetry.WaitsDouble` | packages/kortex-core/src/kortex_core/embeddings/retry.py:41-49 | The first wait is the base, each later one twice the last, and none longer than an hour |
| `EmbedRetry.FailureSchedules` | packages/kortex-core/src/kortex_core/embeddings/retry.py:28-49 | A failure within the budget schedules the next attempt after that wait, the last one parks the memory, and nothing else of it changes |
| `EmbedRetry.FailuresAreBounded` | packages/kortex-core/src/kortex_core/embeddings/retry.py:28-49 | Over every run, between successes and resets, a row's attempt count is its number of failures and at most `max_attempts` (at least one) |
| `EmbedRetry.ParkingIsLate` | packages/kortex-core/src/kortex_core/embeddings/retry.py:28-49 | A parked row failed exactly `max_attempts` times, the last no sooner than the sum of all capped backoff waits after the first; it is neither listed nor being tried |
| `EmbedRetry.CountsAddUpIff` | packages/kortex-core/src/kortex_core/repositories/memory_repo.py:419-449 | On any table, pending + failed + ok equals the live rows if and only if as many rows are stale and unparked as are both parked and embedded |
| `EmbedRetry.CountsAddUp` | packages/kortex-core/src/kortex_core/repositories/memory_repo.py:303-449 | On every run of one worker whose embedder goes by the configured name, the three counts add up to the live rows |
| `EmbedRetry.CountsAlwaysAddUpIff` | packages/kortex-core/src/kortex_core/repositories/memory_repo.py:303-449 | The counts add up on every run if and only if the loaded embedder goes by the configured model name |
| `EmbedRetry.OtherNameIsNeverOk` | packages/kortex-core/src/kortex_core/repositories/memory_repo.py:312-331 | Otherwise a memory embedded on write is in none of the counts and is listed to be embedded again |

## Left out

- PostgreSQL: row locks, isolation, triggers and the order in which ids commit. Each repository operation is one
  atomic step and ids grow in commit order; that `FOR UPDATE` prevents forked chains, above all on an empty log, is
  not claimed.
- SHA-256, JSON canonicalisation, NFKC and the content fingerprint: a free constructor for the chain digest, an
  arbitrary function of title and body for the fingerprint. The digest reads an empty `ip` as a missing one, which the
  model does not; the column's type admits no empty address.
- AuditTable.AuditRepository.Verify: reads all its pages from a table at rest, because `AuditWalk.VerifyAcross` is the
  same walk with a separate read per page.
- AuditOvertaken.OvertakenIff: is about runs in which the org's newest row is there whenever it appends, because in others
  a break has another cause too; `AuditOvertaken.BreakCausesIff` has both, and `AuditSchedules.WalkInRunIff` is about all
  runs, even those in which two rows of one org share every field, their stamp and what they are chained to.
- `ChainStatus.summary`, the ECS rendering of exported entries, `orgs_with_entries`: formatting and a plain query.
- Chunker.ChunkText: `max_tokens` below 1 is not modelled, because the source's `range` step is then invalid or the
  budget meaningless.
- Real-number arithmetic stands in for floating point in search scores.
- HybridSearch.Rerank: the database's choice among equal ranks and approximate vector indexes are not modelled; each
  row is ranked by that row alone and ties keep table order. A search with no vector counts as an empty vector
  ranking, which contributes nothing.
- MemoryTool.MemoryToolBackend.Execute: answers are structured values, not the message texts; sizes are exact bytes where the
  source rounds them to one decimal of K or M; a `view_range` that is not two numbers is no window.
- MemoryTool.MemoryToolBackend.CreateFile: what scanning, redaction and review make of a text arrives as a `Verdict`, free
  for each command, and where secrecy depends on it the same function of path and text throughout;
  access-control and quota exceptions, access counts and audit entries of deletions are not modelled. Among rows with
  one fingerprint the oldest by creation time is the first by id.
- MemoryToolGuesses.HiddenIff: is about tables whose visible rows all have paths that commands can name, because two
  held rows without a path can swap fingerprints without any answer changing. `MemoryToolSecrecy.HeldTextsStayHidden`,
  its other half, is about all tables.
- Idempotency: Redis outages and the fail-open paths, corrupted entries, response headers and media types, bodies that
  are not UTF-8, how the cache key is built, and requests without a key.
- TokenRefresh: several tabs sharing one token store; the access token, which no decision reads. The server hands out
  every refresh token once.
- EmbedRetry.MemoryRepository.EmbedStatusCounts: does not model the age of the oldest pending row; the worker's
  principal sees every tenant, so the tenant filter on these queries is not modelled.
- Error texts stored with a failed embedding, and more than one embedding worker at a time.
- The decay policy, consolidation, conflict detection, importers, billing, other routers, the CLI, the SDK and the web
  pages: input and output, thin wrappers, or easy members beside these.
