# Verified models of the patch engine, the runtime protocols and the config tree

Three parts of the `codex-rs` workspace are modelled in Dafny, each in the form the source has: loops and
objects that change state are methods and classes proved against specification functions, and the laws are
lemmas about those functions.

**The patch engine** (`codex-rs/apply-patch`, and the turn diff in `codex-rs/core`).

| module | what it holds |
|---|---|
| `Text`, `PatchSyntax` | lines, trimming, splitting; hunks and chunks |
| `SeekSequence` | the search for a block of lines under four comparisons |
| `Replacements`, `FileUpdate` | planning, sorting and in-place application of replacements; file text to file text |
| `StreamingParser`, `ParserInvariants`, `PatchParser`, `PatchText`, `PatchBoundaries` | the parser as a fold, its invariants, the parser object, `parse_patch_text` and its boundary checks |
| `PatchDocument`, `PatchRoundTrip`, `PatchReparse` | the written format, and both round trips with the parser |
| `FileSystem`, `PatchedFiles`, `PatchApplier` | a file system whose calls may fail, replay and undo of recorded changes, the applier |
| `DryRun`, `ApplyPatch` | verification against the run, and the pipeline from patch text to files |
| `TurnDiff` | the tracker of a turn's net changes |

**The runtime protocols** (`codex-rs/cli-runtime`, `codex-rs/cli-runtime-client`): `EventForwarding`,
`TwoStageDelivery`, `RuntimeRouter`, `RpcGate`, `FsWatch`, `OutputPump`.

**Config editing** (`config_manager_service.rs`, `codex-rs/config/src/merge.rs`): `KeyPath`, `KeyPathGrammar`,
`ConfigTree`, `ConfigMerge`, `ConfigEdit`.

`FileSystem` stands for the environment. Reads and metadata are accurate or fail; a failing write or removal may
leave anything at its own path. The ghost field `faults` counts the calls that failed, so that a contract can say
none did. Finding nothing is not a failure, nor is a read that fails because its path holds no text. A path is
*plain* when it is absent or a regular file. Path resolution is a parameter.

## Where the code and what is said of it differ

- The documentation of the line search promises that an end-of-file search falls back to the start line. The code
  looks at the last window only. The model follows the code (`SeekFindsBest`, `EofChunkMayOverlap`).
- An exact delta is meant to replay to the final files. It does after every failure but one: a file moved onto
  itself, where the failed removal leaves the old text and so looks clean. The ghost result `phantom` of
  `ApplyHunksToFiles` is true exactly when that happened. Undoing the delta works even then.
- The turn diff is accurate exactly as long as no change moves a file onto itself. Such a move deletes the file, and
  the tracker goes on showing its new text (`TrackChangeAccurateIff`).
- The diff of a turn lists a renamed file once, and not at all when its text stayed the same. `MentionedIff` says
  exactly which changed paths it leaves out.
- Verification refuses to delete a file that is not text, and applying the same patch deletes it
  (`AcceptsTheSamePatches`, `UnreadableDeleteIsRefused`). Verification accepts an empty patch, and applying it is an
  error.
- An update that changes no line still adds a missing final newline, and drops one of several
  (`UnchangedLinesKeepTextIff`).
- Regions of one update may overlap, and text may be lost then. `DisjointIffNoClash` says exactly when and `ClashCauses`
  from what.
- The end of input accepts an unterminated end marker in any mode, begun or not (`EndMarkerInAnyMode`). An accepted
  text that was never begun is the end marker alone (`AcceptedIsBegunIff`). The boundary checks of `parse_patch_text`
  turn that one away, and nothing else that parses (`BoundaryChecks`).
- The documented grammar lets an update go without changes and a change without lines. The parser rejects both,
  and no other document whose names carry no white space at the end (`ParseUndoesWrite`).
- A line read by `parse_patch_text` loses up to two carriage returns, one when the text is split into lines and one
  in the parser (`CarriageReturnsDropped`). A third is stored (`ThirdCarriageReturnStays`), and a patch that stores
  one does not survive being written and parsed again (`WriteUndoesParse`).
- An upsert looks for its table through array indices, and merging replaces an array it meets. It merges with the
  table it found if and only if a chain of tables leads there (`UpsertMergesOnlyThroughTables`).

## Model

| member | source | states |
|---|---|---|
| `SeekSequence.TiersWeaken` | codex-rs/apply-patch/src/seek_sequence.rs:35-107 | A window that matches under one of the four comparisons matches under every laxer one: exact, then ignoring trailing space, then ignoring surrounding space, then after normalising punctuation. |
| `SeekSequence.TrailingPassMeans` | codex-rs/apply-patch/src/seek_sequence.rs:40-52 | Two lines are the same to the second comparison exactly when they share a text that nothing but white space follows in either. |
| `SeekSequence.AroundPassMeans` | codex-rs/apply-patch/src/seek_sequence.rs:53-65 | They are the same to the third exactly when they share a text with nothing but white space around it in either. |
| `SeekSequence.LastPassMeans` | codex-rs/apply-patch/src/seek_sequence.rs:76-95 | They are the same to the last exactly when, without the white space around them, they have the same length and each two characters are equal or two of the listed dashes, single quotes, double quotes or spaces. |
| `SeekSequence.SeekFindsBest` | codex-rs/apply-patch/src/seek_sequence.rs:12-110 | For every non-empty block: a block longer than the file is never found; otherwise the answer is the earliest window, from the start line or, at end of file, only the last window, of the strictest comparison that has any; no answer exactly when no window matches even normalised. |
| `SeekSequence.BestMatchUnique` | codex-rs/apply-patch/src/seek_sequence.rs:35-107 | There is at most one such window and comparison, so the previous row fixes the answer. |
| `SeekSequence.FirstMatchIsEarliest` | codex-rs/apply-patch/src/seek_sequence.rs:35-53 | One pass answers a window in range that matches with no matching window before it, and answers nothing exactly when there is none. |
| `SeekSequence.WindowMatches` | codex-rs/apply-patch/src/seek_sequence.rs:43-49 | The line-by-line comparison with early exit decides whether the whole window matches. |
| `SeekSequence.SlideWindow` | codex-rs/apply-patch/src/seek_sequence.rs:42-53 | Sliding the window in a loop finds the earliest match of the pass. |
| `SeekSequence.SeekSequence` | codex-rs/apply-patch/src/seek_sequence.rs:12-110 | The nested loops with early returns compute the search that `SeekFindsBest` characterises, for every block, start and end-of-file flag. |
| `Replacements.PlanInBounds` | codex-rs/apply-patch/src/lib.rs:715-801 | Whatever the chunks and their order, every region planned lies inside the file. |
| `Replacements.PlanIsPlannedBy` | codex-rs/apply-patch/src/lib.rs:715-801 | Planning yields a plan if and only if each region is the one best match of its chunk: behind the best match of the context line if there is one, from where the chunk before ended, with the trailing empty line given up only where the full block is found nowhere, and a pure addition at the end, before a blank last line. |
| `Replacements.PlanFailsBy` | codex-rs/apply-patch/src/lib.rs:724-795 | Planning fails with an error if and only if the first chunk that cannot be placed has a context line found nowhere behind the chunk before, or old lines found nowhere behind that, and the error names it. |
| `Replacements.SortOrders` | codex-rs/apply-patch/src/lib.rs:798-798 | Sorting orders the plan by start line and is a permutation of it. |
| `Replacements.SortIsStable` | codex-rs/apply-patch/src/lib.rs:798-798 | Replacements with the same start line keep the order of their chunks. |
| `Replacements.Applied` | codex-rs/apply-patch/src/lib.rs:805-829 | Replacing last region first leaves the lines before the first region as they were. |
| `Replacements.AnyUpdateIsSafe` | codex-rs/apply-patch/src/lib.rs:720-829 | With no side condition, end-of-file overlaps included: every plan that can be computed is in bounds, leaves each insertion index within the current length, and touches no line before the smallest start. |
| `Replacements.AppliedIsSplice` | codex-rs/apply-patch/src/lib.rs:805-829 | For disjoint regions the reverse-order in-place edits equal one left-to-right splice. |
| `Replacements.SpliceLength` | codex-rs/apply-patch/src/lib.rs:805-829 | The spliced file has the original number of lines, less those replaced, plus the new ones. |
| `Replacements.KeptLineSurvives` | codex-rs/apply-patch/src/lib.rs:805-829 | Each line outside every region is in the result, displaced by exactly what the regions before it added or removed. |
| `Replacements.DisjointIffNoClash` | codex-rs/apply-patch/src/lib.rs:715-801 | The regions computed are disjoint if and only if no region clashes with that of a later chunk: sorting leaves one of the two first and it reaches past the start of the other. |
| `Replacements.ClashCauses` | codex-rs/apply-patch/src/lib.rs:741-795 | A clash has no other cause than these two: the later chunk searches for its lines at the end of the file, or one of the two is a pure addition in a file whose last line is blank. |
| `Replacements.OrderlyPlanDisjoint` | codex-rs/apply-patch/src/lib.rs:715-801 | So with no end-of-file chunk, and no pure addition or a last line that is not blank, the regions are disjoint. |
| `Replacements.ClashFreeUpdateIsSplice` | codex-rs/apply-patch/src/lib.rs:715-829 | Without a clash the whole update is one left-to-right splice, and the number of lines is accounted for. |
| `Replacements.OrderlyUpdateIsSplice` | codex-rs/apply-patch/src/lib.rs:715-829 | The same for the chunks of the row on `OrderlyPlanDisjoint`, which a caller can tell by looking at the chunks and the last line. |
| `Replacements.EofChunkMayOverlap` | codex-rs/apply-patch/src/seek_sequence.rs:29-33 | Without it the regions can overlap: an end-of-file chunk ignores where the previous one ended and its region is lost in the result. |
| `Replacements.AdditionMayLandInsideRegion` | codex-rs/apply-patch/src/lib.rs:741-751 | A pure addition placed before a final blank line can land inside another region, and its text is lost. |
| `Replacements.FindOldLines` | codex-rs/apply-patch/src/lib.rs:764-795 | The search with the retry that forgives a trailing empty line finds the region that `LocateChunk` defines. |
| `Replacements.ComputeReplacements` | codex-rs/apply-patch/src/lib.rs:715-801 | The loop over the chunks computes the sorted plan or the first error, as `PlanIsPlannedBy` and `PlanFailsBy` say, and what it returns always fits the file. |
| `Replacements.RemoveLines` | codex-rs/apply-patch/src/lib.rs:816-820 | Removing one line at a time drops the region, or what is left of it when the file ends sooner. |
| `Replacements.InsertLines` | codex-rs/apply-patch/src/lib.rs:823-825 | Inserting one line at a time puts the new lines in their order at the start, every index within the current length. |
| `Replacements.ApplyReplacements` | codex-rs/apply-patch/src/lib.rs:805-829 | The nested in-place loops compute `Applied` without an index out of range, for every plan that leaves room, overlapping or not. |
| `FileUpdate.DeriveNewContents` | codex-rs/apply-patch/src/lib.rs:674-710 | Split, plan, edit and re-join compute the new text of the file or the first error, which the next rows characterise. |
| `FileUpdate.UpdateFailsIff` | codex-rs/apply-patch/src/lib.rs:674-710 | An update of a text fails with an error if and only if planning on its lines does, as said above. |
| `FileUpdate.UpdateSplicesText` | codex-rs/apply-patch/src/lib.rs:674-710 | For every text and every chunks whose regions do not clash, the new text is the kept lines with the regions replaced, ended by a newline unless the last line is blank already. |
| `FileUpdate.UpdatedFileEndsInNewline` | codex-rs/apply-patch/src/lib.rs:690-705 | Every updated file is empty or ends with a newline. |
| `FileUpdate.NextUpdateSeesTheseLines` | codex-rs/apply-patch/src/lib.rs:690-705 | A later update of the written file sees the same lines, less one blank last line. |
| `FileUpdate.UnchangedLinesKeepTextIff` | codex-rs/apply-patch/src/lib.rs:690-705 | Every update whose chunks are found and leave all lines as they were keeps the text if and only if it is empty, or ends with exactly one newline and is more than that newline. |
| `FileUpdate.UnambiguousDiffApplies` | codex-rs/apply-patch/src/lib.rs:674-829 | Edits taken from a file, each with or without a context line and each a replaced region or a pure addition, whose context line and old lines first occur where they were taken from, are planned exactly there; if the regions do not clash, applying them replaces those regions and nothing else. |
| `FileUpdate.DiffAppliesToText` | codex-rs/apply-patch/src/lib.rs:674-829 | The same from text to text: such a diff, applied to the text of the lines with or without a final newline, gives the text of the lines with those regions replaced, ended by a newline. |
| `StreamingParser.FeedConcat` | codex-rs/apply-patch/src/streaming_parser.rs:139-152 | Feeding two pieces is feeding the first and, if it was accepted, the second. |
| `StreamingParser.DeltaBoundariesDoNotMatter` | codex-rs/apply-patch/src/streaming_parser.rs:139-152 | For every text and every way of cutting it into deltas, state, hunks and first error are those of feeding it whole. |
| `StreamingParser.FeedIsFoldOfLines` | codex-rs/apply-patch/src/streaming_parser.rs:139-152 | Feeding text character by character is folding the line step over its complete lines, each rid of one carriage return, the unfinished rest staying in the buffer. |
| `ParserInvariants.StepKeeps` | codex-rs/apply-patch/src/streaming_parser.rs:175-408 | Each accepted line keeps the mode in agreement with the kind of the last hunk and every earlier hunk complete; earlier hunks do not change, the last one only grows, and an environment id once read stays. |
| `ParserInvariants.LineRefusedIff` | codex-rs/apply-patch/src/streaming_parser.rs:175-408 | In every state the parser can reach a line is refused if and only if it does not fit there: anything but the begin marker first, anything but blank lines after the end; anything but a header, and an environment id once and not empty, before the first hunk; a line without a plus in an added file; in an update hunk a header before a chunk has lines, a move that is not first, a marker behind a chunk without lines, a line that starts with none of the three signs, and after an end-of-file marker all but blank lines and contexts. The error names that line, or the header of an update hunk left empty. |
| `ParserInvariants.BlanksInUpdate` | codex-rs/apply-patch/src/streaming_parser.rs:227-397 | In an update hunk an empty line means what a single space means, a blank line after an end-of-file marker means nothing, and white space behind a marker changes nothing. |
| `ParserInvariants.UpdateKnowsItsLine` | codex-rs/apply-patch/src/streaming_parser.rs:124-134 | The line number an update hunk carries is that of the header that opened it, as long as it is read. |
| `ParserInvariants.FeedKeeps` | codex-rs/apply-patch/src/streaming_parser.rs:139-152 | The same over any text, up to and including the first rejected line. |
| `ParserInvariants.FinishKeeps` | codex-rs/apply-patch/src/streaming_parser.rs:154-173 | The same for the end of input; when it is accepted, the answer is the list of hunks and every one is complete. |
| `ParserInvariants.AcceptedPatchIsComplete` | codex-rs/apply-patch/src/streaming_parser.rs:53-408 | For every sequence of deltas: what was shown early only grows into the final patch, in which each update hunk has a chunk and each chunk a line. |
| `ParserInvariants.LeavingIsComplete` | codex-rs/apply-patch/src/streaming_parser.rs:53-82 | A hunk can only be left when it is complete. |
| `ParserInvariants.EndMarkerInAnyMode` | codex-rs/apply-patch/src/streaming_parser.rs:154-173 | In every mode, begun or not and ended or not, an unterminated end marker is accepted if and only if no hunk is left incomplete; ended by a newline it is rejected before the begin marker and after the end marker. |
| `ParserInvariants.AcceptedIsBegunIff` | codex-rs/apply-patch/src/streaming_parser.rs:154-173 | For every text: without a newline it is accepted if and only if it is the end marker alone; an accepted text begins with the begin marker if and only if it contains a newline. |
| `PatchParser.StreamingPatchParser.constructor` | codex-rs/apply-patch/src/streaming_parser.rs:21-47 | A new parser is in the fresh state. |
| `PatchParser.StreamingPatchParser.EnsureUpdateHunkIsNotEmpty` | codex-rs/apply-patch/src/streaming_parser.rs:53-82 | The checks on the hunk being left report exactly the problem the line step defines, and change nothing. |
| `PatchParser.StreamingPatchParser.HandleHunkHeadersAndEndPatch` | codex-rs/apply-patch/src/streaming_parser.rs:84-137 | A recognised header moves the state by the header step; any other line and any error leaves mode, hunks and environment id as they were. |
| `PatchParser.StreamingPatchParser.ProcessUpdateLine` | codex-rs/apply-patch/src/streaming_parser.rs:227-397 | The tests of an update line, in source order on the raw text, extend only the last hunk, or report the error and change nothing. |
| `PatchParser.StreamingPatchParser.ProcessLine` | codex-rs/apply-patch/src/streaming_parser.rs:175-408 | An accepted line moves the object by the line step; a rejected one leaves mode, hunks and environment id unchanged. |
| `PatchParser.StreamingPatchParser.PushDelta` | codex-rs/apply-patch/src/streaming_parser.rs:139-152 | The character loop over a delta leaves the object in the state, and gives the hunks or error, of feeding that text. |
| `PatchParser.StreamingPatchParser.Finish` | codex-rs/apply-patch/src/streaming_parser.rs:154-173 | The end of input processes the buffered line and requires the end marker, as the specification says. |
| `PatchText.ParsePatchText` | codex-rs/apply-patch/src/parser.rs:178-259 | Trimming, boundary checks, heredoc unwrapping and driving a fresh parser object give the hunks and environment id, or the error, that `Parsed` defines. |
| `PatchBoundaries.BoundaryChecks` | codex-rs/apply-patch/src/parser.rs:178-259 | For every text: strict mode accepts if and only if the streaming parser accepts the lines and there is more than one, so the boundary check turns away nothing but a bare end marker; lenient mode accepts besides exactly the bounded patches in a heredoc that parse; the result is that of the lines themselves. |
| `PatchDocument.DiffLineReadBack` | codex-rs/apply-patch/src/streaming_parser.rs:227-397 | Each written diff line, whatever its text, is read as that line and never as a header or marker. |
| `PatchDocument.ChunkRuns` | codex-rs/apply-patch/src/streaming_parser.rs:227-397 | The lines of a written chunk append that chunk and nothing else, with a marker or, as the first of its hunk, without one. |
| `PatchDocument.HunkRuns` | codex-rs/apply-patch/src/streaming_parser.rs:84-408 | The lines of a written hunk, read where a hunk may begin, append that hunk, leave the earlier ones alone and leave the parser where another may begin. |
| `PatchDocument.HunksStick` | codex-rs/apply-patch/src/streaming_parser.rs:53-82 | Hunks among which an update has no chunk, or a chunk no line, are rejected or leave the parser in a hunk it cannot leave. |
| `PatchRoundTrip.ParseUndoesWrite` | codex-rs/apply-patch/src/parser.rs:4-25 | Every text of a document in the documented grammar whose names carry no white space at the end, with any interleaving of kept, added and removed lines, with carriage returns as in the next row and white space behind it, parses in both modes to the hunks and environment id of the document if each update has a chunk and each chunk a line, and is rejected otherwise. |
| `PatchRoundTrip.CarriageReturnsDropped` | codex-rs/apply-patch/src/parser.rs:178-198 | Zero, one or two carriage returns before each newline make no difference; a line that ends with one itself needs exactly two. |
| `PatchRoundTrip.ThirdCarriageReturnStays` | codex-rs/apply-patch/src/parser.rs:178-198 | An added line followed by three is stored with one. |
| `PatchRoundTrip.ParseUndoesHeredoc` | codex-rs/apply-patch/src/parser.rs:217-239 | The same lines wrapped in a heredoc mean the same in lenient mode, with or without a final newline and with or without a carriage return after the opening. |
| `PatchRoundTrip.ParseUndoesWritePatch` | codex-rs/apply-patch/src/parser.rs:4-25 | Every list of well-formed hunks and every environment id, written out and parsed, come back with up to two carriage returns less at the end of each stored line; so they come back as they were if and only if no stored line ends with one. |
| `PatchReparse.FinishStoresNothing` | codex-rs/apply-patch/src/streaming_parser.rs:154-173 | The last line of an accepted input adds nothing to the hunks. |
| `PatchReparse.ParsedLinesWellFormed` | codex-rs/apply-patch/src/streaming_parser.rs:84-408 | Whatever is accepted is well-formed in the sense of `ParseUndoesWritePatch`, and stores no carriage return at the end of a line when no complete line it was given ends with two. |
| `PatchReparse.WriteUndoesParse` | codex-rs/apply-patch/src/parser.rs:178-259 | For every text that parses: writing the result and parsing that, in either mode, gives the same patch if and only if no stored line ends with a carriage return, which none does when no line of the split text ends with two. |
| `PatchedFiles.UndoOneInverts` | codex-rs/apply-patch/src/lib.rs:222-245 | A change recorded truthfully can be undone: a file added, deleted, updated or moved, with what it overwrote. |
| `PatchedFiles.UndoInvertsReplay` | codex-rs/apply-patch/src/lib.rs:182-245 | A whole list of truthful changes, undone in reverse order, restores the files it started from. |
| `PatchedFiles.RecordOneMore` | codex-rs/apply-patch/src/lib.rs:222-245 | Recording one more change continues the replay, and keeps the list truthful exactly when the new change is truthful where the others led. |
| `PatchApplier.AppliedPatchDelta.constructor` | codex-rs/apply-patch/src/lib.rs:189-196 | A new delta is empty and exact. |
| `PatchApplier.NoteExistingPathDeltaSupport` | codex-rs/apply-patch/src/lib.rs:615-627 | The delta stays exact only if it was and the path is absent or a plain file, and always does then unless a call failed. |
| `PatchApplier.ReadOptionalFileTextForDelta` | codex-rs/apply-patch/src/lib.rs:598-613 | If the delta is still exact, the text read is what the path held, or nothing was there; it stays exact when nothing or text was there and no call failed. |
| `PatchApplier.EnsureNotDirectory` | codex-rs/apply-patch/src/lib.rs:568-581 | Passes only for an existing path that is no directory; refuses only for a failing call or a path that is no file. |
| `PatchApplier.RemoveFailureWasSideEffectFree` | codex-rs/apply-patch/src/lib.rs:583-596 | A failed removal is called clean only when the file is still there with the text it had, and always then unless a call failed. |
| `PatchApplier.WriteFileWithMissingParentRetry` | codex-rs/apply-patch/src/lib.rs:629-665 | A write that reports success put the text there, whichever attempt did it; a failed one changed no other file. |
| `PatchApplier.ApplyAdd` | codex-rs/apply-patch/src/lib.rs:394-415 | Under every failure: if the delta is still exact it replays to and undoes from the real files; no other file changes; success means the file holds the new text. |
| `PatchApplier.ApplyDelete` | codex-rs/apply-patch/src/lib.rs:416-463 | The same for a deletion, which succeeds, without a failing call, exactly when the file was there. |
| `PatchApplier.ApplyMove` | codex-rs/apply-patch/src/lib.rs:472-537 | The same for a move, including the write recorded as an addition when the removal of the source fails; the only exact delta that does not replay is that of a file moved onto itself whose failed removal left its old text. |
| `PatchApplier.PhantomMove` | codex-rs/apply-patch/src/lib.rs:502-527 | In that case the recorded addition does not replay to the real files, and undoing it still restores the original ones. |
| `PatchApplier.ApplyInPlace` | codex-rs/apply-patch/src/lib.rs:538-557 | The same for an update in place: the file holds the new text on success, no other file changes, and success keeps an exact delta exact. |
| `PatchApplier.ApplyUpdate` | codex-rs/apply-patch/src/lib.rs:464-558 | The same for an update in place or with a move, error cases included. |
| `PatchApplier.ApplyHunk` | codex-rs/apply-patch/src/lib.rs:390-560 | The same for any hunk; without a failing call it does what the hunk says or is refused and changes nothing. |
| `PatchApplier.HunkEffectMeans` | codex-rs/apply-patch/src/lib.rs:390-560 | Which hunks are accepted and what they leave: an addition always, holding its contents; a deletion exactly of what is there, then gone; an update exactly of a text its chunks apply to, holding the new text, at its destination if it moves, its source then gone; no other path changes. |
| `PatchApplier.AffectedByKind` | codex-rs/apply-patch/src/lib.rs:414-564 | The paths reported as added, modified and deleted are those of the add, update and delete hunks as the patch spells them, in order. |
| `PatchApplier.ApplyHunksToFiles` | codex-rs/apply-patch/src/lib.rs:361-566 | For every hunk list and every pattern of failing calls, successful run or not: while the delta is exact, undoing it restores the initial files, and replaying it gives the final ones except after the failure above; a successful run over text files and absent paths without a failing call leaves it exact; files not named never change; without a failing call the run has the effect the hunks say, and a run that fails stops at a hunk that has none; an empty list is an error that touches nothing; the paths reported on success are those of the row above. |
| `DryRun.TryVerifyApplyPatchArgs` | codex-rs/apply-patch/src/invocation.rs:157-216 | The loop that fills the change map reads only, and without a failing call yields the verified changes or the first refusal. |
| `DryRun.HunkPredicted` | codex-rs/apply-patch/src/invocation.rs:170-206 | One verified hunk applied to files changed by earlier hunks elsewhere has the effect its entry predicts. |
| `DryRun.DryRunAgrees` | codex-rs/apply-patch/src/invocation.rs:157-216 | For hunks whose paths are all distinct: if verification accepts, the run succeeds and leaves exactly the predicted contents, deletions and moves, everything else as before. |
| `DryRun.AcceptsTheSamePatches` | codex-rs/apply-patch/src/invocation.rs:157-216 | For distinct paths, verification accepts if and only if the run does and no file that is not text is deleted. |
| `DryRun.UnreadableDeleteIsRefused` | codex-rs/apply-patch/src/invocation.rs:179-187 | A patch that deletes a file that is not text is always refused by verification, while applying that deletion succeeds. |
| `DryRun.VerifyThenApply` | codex-rs/apply-patch/src/invocation.rs:157-216 | Verifying and then applying a non-empty patch over distinct plain paths with no failing call ends in exactly the verified state; a refused patch touches nothing. |
| `ApplyPatch.ApplyPatchText` | codex-rs/apply-patch/src/lib.rs:276-347 | Text that does not parse touches nothing and commits nothing; otherwise the guarantees of the run hold for the hunks parsed: undo, replay but for a failed move onto itself, exactness on text files without a failing call, files not named left alone, and without a failing call the effect the hunks say. |
| `ApplyPatch.WrittenPatchDoesWhatItSays` | codex-rs/apply-patch/src/lib.rs:276-347 | End to end: well-formed hunks without stored carriage returns, over distinct paths, that verify, written as text, parsed and applied without a failing call, leave exactly the predicted files. |
| `TurnDiff.TrackChangeAccurateIff` | codex-rs/core/src/turn_diff_tracker.rs:184-279 | A truthful change keeps the tracked baseline and current texts accurate if and only if it does not move a file onto itself. |
| `TurnDiff.TrackAllAccurate` | codex-rs/core/src/turn_diff_tracker.rs:92-106 | Any number of truthful changes without such a move keeps them accurate. |
| `TurnDiff.OriginsFollowMoves` | codex-rs/core/src/turn_diff_tracker.rs:212-279 | For every sequence of changes the recorded origin of a path is where its file came from, found by following the moves of the turn back. |
| `TurnDiff.ListedIsTrue` | codex-rs/core/src/turn_diff_tracker.rs:122-182 | With an accurate tracker every entry of the diff carries the true text of its left path at the start of the turn and the true text of its right path now, which differ; where the two paths differ, the left one is gone and the right one is new. |
| `TurnDiff.MentionedIff` | codex-rs/core/src/turn_diff_tracker.rs:122-182 | The diff mentions a path if and only if what it holds changed over the turn and it is not an end of a rename that left the text alone, whichever destination is paired with an origin that has several. |
| `TurnDiff.PureRenameShowsNothing` | codex-rs/core/src/turn_diff_tracker.rs:290-317 | A file moved and otherwise left alone: two paths changed and the diff shows nothing. |
| `TurnDiff.TurnDiffTracker.ApplyChange` | codex-rs/core/src/turn_diff_tracker.rs:184-210 | The in-place updates of the three maps are the tracking step. |
| `TurnDiff.TurnDiffTracker.ApplyUpdate` | codex-rs/core/src/turn_diff_tracker.rs:236-279 | The same for an update: the baselines of source and destination, the current text, and the origin handed on or dropped. |
| `TurnDiff.TurnDiffTracker.RenamePairs` | codex-rs/core/src/turn_diff_tracker.rs:290-306 | The loop over the origins pairs each origin that is gone and has a new destination with one such destination, and no other path. |
| `TurnDiff.TurnDiffTracker.RefreshUnifiedDiff` | codex-rs/core/src/turn_diff_tracker.rs:122-182 | The loop over all seen paths, in any order, yields each entry of the diff once and nothing else. |
| `TurnDiff.TurnDiffTracker.TrackDelta` | codex-rs/core/src/turn_diff_tracker.rs:92-112 | An inexact delta withdraws the diff for good; an exact one is tracked change by change and the diff listed anew. |
| `TurnDiff.ApplyAndTrack` | codex-rs/core/src/turn_diff_tracker.rs:92-106 | Across the applier and the tracker, whatever calls fail: unless a hunk moves a file onto itself, the tracker is accurate about the whole turn and its diff mentions exactly the paths that changed, pure renames apart, or it has withdrawn the diff; a successful run over text files and absent paths without a failing call never withdraws it. |
| `EventForwarding.ForwardAccounts` | codex-rs/cli-runtime-client/src/lib.rs:164-230 | Expanding each lag marker into that many gaps and appending the gaps not yet announced matches the forwarded events one by one; every gap is the place of a server request or of a notification outside the six that must arrive; the reject callback has run once for each dropped server request, in order, and for no other. |
| `EventForwarding.DroppedOnlyWhenFull` | codex-rs/cli-runtime-client/src/lib.rs:109-230 | An event is put out, behind the marker for what is owed, whenever there is room for both or it is one of the six notifications that must arrive; otherwise it is counted as owed, and rejected if it is a server request. |
| `EventForwarding.ConsumerQueue.Consume` | codex-rs/cli-runtime-client/src/lib.rs:164-230 | Beside the producer the consumer may take any number of waiting events, or go away for good. |
| `EventForwarding.ConsumerQueue.TrySend` | codex-rs/cli-runtime-client/src/lib.rs:164-230 | A send that does not wait succeeds exactly when the consumer listens and there is room, and otherwise leaves the queue alone. |
| `EventForwarding.ConsumerQueue.Send` | codex-rs/cli-runtime-client/src/lib.rs:164-230 | A waiting send succeeds exactly when the consumer still listens afterwards. |
| `EventForwarding.EventForwarder.ForwardInProcessEvent` | codex-rs/cli-runtime-client/src/lib.rs:164-230 | While the consumer listens the outcome is the forwarding step for the room there really was, so an event is dropped only while the queue is full and is otherwise the last one sent; the stream is disabled exactly when the consumer is gone, and then the event was neither delivered nor rejected. |
| `EventForwarding.EventForwarder.SurfaceLag` | codex-rs/cli-runtime-client/src/lib.rs:174-206 | The lag marker goes out with the whole count, waiting for room only before a lossless event; without it the count stays. |
| `EventForwarding.EventForwarder.ForwardAll` | codex-rs/cli-runtime-client/src/lib.rs:691-738 | Any number of events, whatever the consumer takes before, between and during the sends: those handled are accounted for as above, and handling stops early only when the consumer is gone. |
| `TwoStageDelivery.EmitKeeps` | codex-rs/cli-runtime/src/in_process.rs:873-931 | Putting an event on the runtime queue keeps order and loses none of the doubly lossless class. |
| `TwoStageDelivery.TakeKeeps` | codex-rs/cli-runtime-client/src/lib.rs:691-738 | Taking an event from the runtime queue and forwarding it does too. |
| `TwoStageDelivery.EmitConserves` | codex-rs/cli-runtime/src/in_process.rs:873-904 | Emitting a server request queues it or fails it back, once. |
| `TwoStageDelivery.TakeConserves` | codex-rs/cli-runtime-client/src/lib.rs:164-230 | Forwarding a server request delivers it or rejects it, once. |
| `TwoStageDelivery.TwoStageDeliveryHolds` | codex-rs/cli-runtime/src/in_process.rs:103-108 | In every run with both consumers listening: what reaches the client is an order-preserving subsequence of what was emitted; every completion and settings update emitted has arrived or is still queued, in order; every server request was delivered, rejected, failed back or is still queued, exactly once. |
| `TwoStageDelivery.RoomyRunLosesNothing` | codex-rs/cli-runtime-client/src/lib.rs:691-738 | In every run that always finds room, everything emitted but token refreshes has been delivered in order or is still queued; nothing is announced as lag and no request is rejected. |
| `RuntimeRouter.RequestKeeps` | codex-rs/cli-runtime/src/in_process.rs:713-757 | A request becomes pending, or is answered at once; one already pending under the same id is undisturbed. |
| `RuntimeRouter.SettleKeeps` | codex-rs/cli-runtime/src/in_process.rs:849-872 | Answering a pending request removes it and answers its caller once; an unmatched response answers no one. |
| `RuntimeRouter.HandleKeeps` | codex-rs/cli-runtime/src/in_process.rs:713-931 | Each message keeps every dequeued caller either waiting or answered once under its own id; the server requests queued are those the client queue accepted and those failed back are the others, each in order. |
| `RuntimeRouter.HandleJustifies` | codex-rs/cli-runtime/src/in_process.rs:713-872 | Each reply is called for by the messages so far: the first response to the id since the request was handed on, or the request itself, refused by the processor or come while another waited under its id. |
| `RuntimeRouter.LoopKeeps` | codex-rs/cli-runtime/src/in_process.rs:713-931 | The loop keeps this over every sequence of messages, up to where it stops. |
| `RuntimeRouter.LoopStops` | codex-rs/cli-runtime/src/in_process.rs:713-931 | The loop takes every message up to the first that ends it and no more: a shutdown, a notification that finds its queue closed, or a request that does, unless somebody waits under its id and it is not sent. |
| `RuntimeRouter.EachServerRequestOnce` | codex-rs/cli-runtime/src/in_process.rs:873-904 | Those accepted and those failed back are together the server requests taken, each once. |
| `RuntimeRouter.Runtime.Respond` | codex-rs/cli-runtime/src/in_process.rs:849-872 | Removing the pending entry and answering it happens only if there still is one. |
| `RuntimeRouter.Runtime.HandleMessage` | codex-rs/cli-runtime/src/in_process.rs:713-931 | One arm of the select loop, in place, is the step above. |
| `RuntimeRouter.Runtime.Drain` | codex-rs/cli-runtime/src/in_process.rs:950-954 | In whatever order the map is drained, nothing stays pending, earlier replies stay, and the shutdown reply goes only to requests handed on and not responded to since. |
| `RuntimeRouter.Runtime.Run` | codex-rs/cli-runtime/src/in_process.rs:713-954 | A whole life of the loop, shutdown included: it runs to the first message that ends it; every dequeued request is answered exactly once, under its id and with a justified reply, nobody else is answered, and each server request is queued if the queue accepted it and failed back if not, exactly once. |
| `RpcGate.NextKeeps` | codex-rs/cli-runtime/src/connection_rpc_gate.rs:25-50 | Each step keeps the gate invariant: as many tracker tokens as running handlers, accepting exactly while the tracker is open, closed once a shutdown began, and nothing running once one has returned; a shutdown that returned stays so. |
| `RpcGate.ClosedStays` | codex-rs/cli-runtime/src/connection_rpc_gate.rs:25-50 | A closed gate stays closed and no handler starts. |
| `RpcGate.ClosedGateStartsNothing` | codex-rs/cli-runtime/src/connection_rpc_gate.rs:25-50 | Under every interleaving of runs, closes and shutdowns: after a close no handler starts, after a shutdown returned none is running or ever will be, and a running handler can always finish. |
| `RpcGate.RunHistory` | codex-rs/cli-runtime/src/connection_rpc_gate.rs:25-50 | In every run the gate accepts exactly until the first close or shutdown, and the handlers that started are those that took a token. |
| `RpcGate.OpenGateServes` | codex-rs/cli-runtime/src/connection_rpc_gate.rs:25-50 | Under every interleaving: a call that has arrived may start as long as nothing closed the gate, and is refused only after; a shutdown may return exactly when no handler runs. |
| `FsWatch.WatchKeeps` | codex-rs/cli-runtime/src/fs_watch.rs:76-144 | Registering a watch keeps the invariant: each entry owns a task that was told nothing yet or has ended by itself; each unwatch owns the watch task it took out, alone; and the watch task of an unwatch that has returned is gone. |
| `FsWatch.RemoveKeeps` | codex-rs/cli-runtime/src/fs_watch.rs:146-164 | Taking an entry out for an unwatch keeps it. |
| `FsWatch.ConnectionClosedKeeps` | codex-rs/cli-runtime/src/fs_watch.rs:166-172 | Dropping the entries of a closed connection keeps it. |
| `FsWatch.ConnectionClosedStopsAll` | codex-rs/cli-runtime/src/fs_watch.rs:166-172 | After a connection closes, none of its entries is left, each watch task they had has been told to stop and in every later run sends at most the notification it had picked, and no other entry, task or call is touched. |
| `FsWatch.NextKeeps` | codex-rs/cli-runtime/src/fs_watch.rs:76-172 | Every step keeps it, with an unwatch free to signal between picking an event and sending it; an exited task never comes back, and only a send of a task still in its loop adds a notification, its own. |
| `FsWatch.NoNotificationAfterUnwatch` | codex-rs/cli-runtime/src/fs_watch.rs:111-164 | Under every interleaving: once an unwatch that removed an entry has returned, that task is gone for good and no later notification is its, whether it had not started, was in a send, or had ended. |
| `FsWatch.SignalAloneIsNotEnough` | codex-rs/cli-runtime/src/fs_watch.rs:111-164 | The wait is needed: in this run the signal is given while the watch task holds an event it picked, the notification follows it, and the unwatch cannot return before. |
| `FsWatch.AtMostOneAfterSignal` | codex-rs/cli-runtime/src/fs_watch.rs:111-141 | In every run a watch task told to stop sends at most one more notification, and only one it had picked before. |
| `FsWatch.EntryStaysWithItsConnection` | codex-rs/cli-runtime/src/fs_watch.rs:76-172 | An entry is in the table after a step if and only if the step registered it, or it was there and the step is not an unwatch or close of its own connection; no step changes whose task it is. |
| `FsWatch.StoppingAdvances` | codex-rs/cli-runtime/src/fs_watch.rs:111-141 | No step takes a watch task told to stop further from its end, and each of its own brings it nearer, so it takes at most three. |
| `FsWatch.HandshakeCanFinish` | codex-rs/cli-runtime/src/fs_watch.rs:111-164 | A waiting unwatch is never stuck: it can return, or its watch task can take such a step. |
| `OutputPump.Coalesce` | codex-rs/cli-runtime/src/command_exec.rs:525-531 | Merging waiting chunks loses and reorders nothing, adds a chunk only below the size hint, and stops only at the hint or for want of a waiting chunk. |
| `OutputPump.PumpOutput` | codex-rs/cli-runtime/src/command_exec.rs:504-566 | For every chunking, coalescing, timeout and cap: exactly the first min(cap, received) bytes are passed on, once and in order; only the last notification can say the cap is reached, and does so exactly when that many bytes are out. |
| `KeyPath.ParseKeyPath` | codex-rs/cli-runtime/src/config_manager_service.rs:490-535 | The stateful character loop computes the specified parse, errors included. |
| `KeyPath.ParseYieldsNonEmpty` | codex-rs/cli-runtime/src/config_manager_service.rs:490-535 | Every successful parse has at least one segment and none is empty. |
| `KeyPath.ParseUndoesWriteIff` | codex-rs/cli-runtime/src/config_manager_service.rs:490-535 | Segments written bare or quoted parse back if and only if the path is not one bare segment of white space. |
| `KeyPath.ParseUndoesQuoting` | codex-rs/cli-runtime/src/config_manager_service.rs:490-535 | Every non-empty list of non-empty segments over any characters survives quoting, joining and parsing. |
| `KeyPathGrammar.ParseIffSpelled` | codex-rs/cli-runtime/src/config_manager_service.rs:490-535 | A path parses to segments if and only if it is not all white space and spells them: joined with dots, each any number of empty quotes, then perhaps quoted text with its quotes and backslashes escaped, then bare text without dot or quote, not all empty. |
| `KeyPathGrammar.ParseErrors` | codex-rs/cli-runtime/src/config_manager_service.rs:490-535 | Behind any segments so spelled: nothing or only empty quotes where a segment should be is an empty segment, a quote behind text an invalid quote, quotes never closed an unterminated quote, and a backslash at the end an unterminated escape; white space alone is an empty path. |
| `ConfigTree.ValueAtPath` | codex-rs/cli-runtime/src/config_manager_service.rs:697-713 | The descent through tables and array indices reads what the path names. |
| `ConfigTree.IndexReads` | codex-rs/cli-runtime/src/config_manager_service.rs:697-713 | The decimal spelling of a number, with a leading zero or a plus sign or not, reads the element of an array at that index, and nothing past the end; a minus sign reads nothing but the first, as minus zero. |
| `ConfigTree.NotAnIndex` | codex-rs/cli-runtime/src/config_manager_service.rs:704-707 | A segment that is not an optional sign and digits is no index. |
| `ConfigTree.SetThenGet` | codex-rs/cli-runtime/src/config_manager_service.rs:542-615 | After a successful write the path reads the written value. |
| `ConfigTree.SetThenGetElsewhere` | codex-rs/cli-runtime/src/config_manager_service.rs:542-615 | A diverging path reads as before, or as nothing when a non-table on the shared stretch gave way to a table. |
| `ConfigTree.SetKeepsElsewhereIff` | codex-rs/cli-runtime/src/config_manager_service.rs:542-615 | A diverging path keeps its value if and only if it had none behind such a non-table. |
| `ConfigTree.SetTwice` | codex-rs/cli-runtime/src/config_manager_service.rs:542-615 | The last write wins. |
| `ConfigTree.SetFailsIff` | codex-rs/cli-runtime/src/config_manager_service.rs:542-615 | A write to a non-empty path fails if and only if a chain of tables leads to its parent and that is no table. |
| `ConfigTree.SetUnchangedIff` | codex-rs/cli-runtime/src/config_manager_service.rs:604-614 | A write leaves the tree equal if and only if a chain of tables already led to that value. |
| `ConfigTree.SetIsWalkAndPut` | codex-rs/cli-runtime/src/config_manager_service.rs:585-615 | Walking down while inserting tables and then writing is the recursive write; it fails only where nothing was changed on the way. |
| `ConfigTree.ChangedMeans` | codex-rs/cli-runtime/src/config_manager_service.rs:604-614 | The change flag read off the last table says whether the whole tree changed. |
| `ConfigEdit.ConfigStore.WalkParents` | codex-rs/cli-runtime/src/config_manager_service.rs:585-603 | The walk, one segment at a time in place, leaves the tree with a chain of tables down to the returned node. |
| `ConfigEdit.ConfigStore.ApplyMerge` | codex-rs/cli-runtime/src/config_manager_service.rs:542-615 | For every path, value and strategy, in place. A replacement, or an upsert of anything but a table onto a table, that does not change the form of the feature with two forms, reads back exactly the value and leaves diverging paths as the rows on writes say. Switching the feature in its long form keeps its settings, and settings on its short form keep the switch. An upsert of a table onto a table merges. The result says whether the tree changed, an error leaves it as it was, and no value means a clear. |
| `ConfigEdit.PlainIff` | codex-rs/cli-runtime/src/config_manager_service.rs:553-583 | A write goes through an overlay if and only if it changes the form of the feature with two forms, or it is an upsert of a table where the path reads a table. |
| `ConfigEdit.ConfigStore.ClearPath` | codex-rs/cli-runtime/src/config_manager_service.rs:623-648 | In place, the clear of the next rows; an empty path is an error that changes nothing. |
| `ConfigTree.ClearRemoves` | codex-rs/cli-runtime/src/config_manager_service.rs:623-648 | A clear removes and reports something if and only if a chain of tables led there; then the path reads nothing, otherwise the tree is the same. |
| `ConfigTree.ClearMissesOnlyArrays` | codex-rs/cli-runtime/src/config_manager_service.rs:623-648 | A path that still reads something after a clear leads through an array. |
| `ConfigTree.ClearKeepsElsewhere` | codex-rs/cli-runtime/src/config_manager_service.rs:623-648 | A diverging path never notices a clear. |
| `ConfigTree.ClearUndoesSet` | codex-rs/cli-runtime/src/config_manager_service.rs:542-648 | Clearing a value written under an existing table where there was none restores the tree. |
| `ConfigMerge.MergeAtPath` | codex-rs/config/src/merge.rs:18-60 | Taking the keys of the overlay one by one, in any order, computes the recursive merge. |
| `ConfigMerge.OverlayLands` | codex-rs/config/src/merge.rs:18-60 | For every tree and path, through any table: merging the overlay of one path leaves a chain of tables to the value, or to its merge with what was found there, under the path with keys normalised as far as there was something to merge with. |
| `ConfigMerge.OverlayKeepsBeside` | codex-rs/config/src/merge.rs:18-60 | Every path that parts from there reads what it read in the tree with the tables on the way normalised, or nothing where a node gave way. |
| `ConfigMerge.MergeNormalises` | codex-rs/config/src/merge.rs:35-60 | Filters and domains are merged by normal form: the result has exactly the normal forms of both tables, and under each of the overlay a value of the overlay, merged with what was there however its key was written. |
| `ConfigMerge.OverlayReaches` | codex-rs/config/src/merge.rs:18-60 | On a path that meets none of these tables and no short form, the keys stay: a chain of tables leads to what was there merged with the value, or to the value alone when no chain of tables led there. |
| `ConfigMerge.OverlayKeepsElsewhere` | codex-rs/config/src/merge.rs:18-60 | A diverging path then reads as before, or as nothing when a non-table on the shared stretch gave way. |
| `ConfigMerge.MergeThenGet` | codex-rs/config/src/merge.rs:18-60 | The overlay takes precedence: each of its values that is no table is read back. |
| `ConfigMerge.MergeKeepsRest` | codex-rs/config/src/merge.rs:18-60 | What the overlay does not mention keeps its value. |
| `ConfigMerge.SwitchKeepsSettings` | codex-rs/config/src/merge.rs:18-33 | Switching the feature with two forms in its long form changes the switch and no other setting. |
| `ConfigMerge.SettingsKeepSwitch` | codex-rs/config/src/merge.rs:18-33 | A table of settings written over the short form leaves the switch and these settings, which may name the switch itself. |
| `ConfigMerge.SettingKeepsSwitch` | codex-rs/config/src/merge.rs:18-33 | One setting, at any depth, written while the feature is in its short form turns it into the long one: the switch and that setting. |
| `ConfigEdit.UpsertMergesOnlyThroughTables` | codex-rs/cli-runtime/src/config_manager_service.rs:573-583 | For every tree and path that reads a table: an upsert merges with that table if and only if a chain of tables leads to it; otherwise the old table is lost and an array on the way has become a table. |
| `ConfigEdit.UpsertReplacesArray` | codex-rs/cli-runtime/src/config_manager_service.rs:573-583 | The input: a table found through an array index and upserted replaces the whole array. |
| `ConfigTree.SparseOverlayIsSet` | codex-rs/cli-runtime/src/config_manager_service.rs:617-621 | The overlay built for a path is that write into an empty tree. |

## Left out

- ForwardAll: the events forwarded are taken to contain no lag marker; the runtime emits none, and the account counts markers of the client only.
- ForwardAccounts: the counter of skipped events is unbounded here and saturates in the source.
- ParseUndoesWrite: the parser trims white space around markers, at the end of names and around the environment id; documents are written without it.
- MergeAtPath: how hosts and environment filters are normalised is a parameter, any renaming of a table's keys by their normal forms; `normalize_host` and Unicode lower case are not part of this model.
- MergeThenGet: stated for paths that meet no table with normalised keys, where two keys of the overlay may become one; `MergeNormalises` says what holds there.
- MergeKeepsRest: the same.
- ChangedMeans: values are compared by equality, so a float that is not a number equals itself here.
- AcceptsTheSamePatches: paths that repeat within a patch are excluded, since verification reads every file as it was before the first hunk.
- PumpOutput: base64 and the conversion of the buffered bytes to text are not modelled.
- Run: failing a server request back, and cancelling the outstanding ones at shutdown, are recorded as events; the effect in the outgoing sender is not followed. The client's answers to server requests (`ServerRequestResponse`, `ServerRequestError`), which the loop hands on without keeping anything, and native code-mode messages are left out.
- RpcGate and FsWatch are state machines over the atomic steps of the source, not objects: their point is the interleaving.
- Timeouts and aborted tasks appear only as steps that may happen; a wait that never ends is not excluded, so nothing says that a step does happen.
- Shell classification and heredoc extraction in `invocation.rs`, which rest on a foreign grammar.
- The text of unified diffs, of the summary and of error messages; errors are constructors.
- Joining and normalising path URIs, aliases, symlinked parents and dangling links: resolved paths are opaque and distinct, and effects are stated for plain paths.
- The environment ids of the turn diff tracker, its display paths and its cache of rendered diffs.
- Config layers, requirements and validation around `apply_edits`.
- Request dispatch, event translation, the agent graph, identity, network clients, protocol types and user interfaces, which pass values on between the parts modelled here and services outside them.
