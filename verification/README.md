# Verified models of kirsch

Dafny models of the parts of kirsch that promise something over unbounded input, with proofs of
those promises. `dafny verify dfyconfig.toml` checks everything; no file needs another tool.

| files | what they model |
|---|---|
| `disk`, `commit`, `stage` | applying a patch in two phases to a file system whose calls may fail: stage to temp files, back up, rename, roll back |
| `effect` | what a patch asks for, and when its changes take effect one after another |
| `hunks`, `placement` | placing hunks one after another with carried offsets, a floor and a nearest-match search; and where they go, said of the original file |
| `textfile`, `endings` | a file as text: splitting it into lines, line endings, the final newline, the text a change leaves |
| `strings`, `diffsyntax`, `diffparser`, `diffprinter`, `diffroundtrip`, `diffcounts` | the unified-diff parser and printer, as text |
| `difflaws`, `hunktexts`, `printerlaws` | what the lines of a diff mean, and how changes are printed, in literal lines |
| `conversation`, `assembly`, `fake`, `turn` | the agent: the stream assembler and the scripted provider it reads, tool rounds, the Recorder contract |
| `streamlaws` | what a stream says letter by letter, what is delivered of it, and which error is reported |
| `sessionlog`, `logrebuilds`, `logexact`, `logrefusals` | the session log: encoding records, rebuilding the conversation, what comes back, which logs are refused |
| `compaction`, `compactionlaws`, `compactionlog`, `limits` | compaction live and in the log, and the conversations it breaks |
| `protocol`, `protocollaws`, `store`, `storelaws`, `usage`, `usagelaws` | the concurrent parts, as interleaved atomic steps: turns, compactions and session swaps; the log writer; the usage counter shared by processes |
| `repair` | crashed logs |
| `capture`, `ulid`, `ulidlaws`, `wrap`, `wraptext` | bounded output capture, the session identifier, soft-wrapping |

Code that changes things step by step is modelled by methods with loops, most of them over classes,
and each is proved against a specification function; the theorems are lemmas about those functions.
What such a function gives is in turn said without it: in literal lines, bytes and events, in
positions of the original file, or by comparing two runs.
The models and tools an agent talks to, the context, the file system's faults and the scheduler are
nondeterministic.

## What the code does that its comments do not say

Each item is proved, as an exact condition, a concrete run, or both.

- Rollback inverts a commit step exactly when `os.Stat` told the truth about the target
  (`Commit.UndoInvertsDone`). A Stat that fails on a file that is there makes the commit overwrite
  it without a backup, and undoing that removes it (`Commit.UnseenTargetIsLost`).
- A commit that failed on a rename reports "rolled back cleanly" only when no entry committed before
  had a temp file, and reports inconsistent files although the tree is the one before the patch
  when one had (`Commit.StageHandle.Commit`, `Commit.RestoredButNotClean`): rollback also tries to
  remove the temp files that the commit has already moved into place.
- All changes of a patch are computed from the files before it. Its changes take effect one after
  another exactly when none creates where an earlier one wrote, none moves or deletes what an earlier
  one took away, and none edits what an earlier one changed, unless the edit comes out the same
  (`PatchEffect.InOrderExactly`); only in the end, exactly when each change is taken in turn and each
  edit that something is left of comes out the same (`PatchEffect.InTheEndExactly`,
  `PatchEffect.LossIsHidden`). Of two modifications of one path the first is lost
  (`PatchEffect.SecondEditWins`, `PatchEffect.FirstEditIsLost`).
- A modification without hunks, such as a mode change, rewrites the file unless all its line endings
  are of one kind and its last line has one (`Endings.WithoutHunks`, `Endings.AddsNewline`). An edit
  that leaves a CRLF file without any line ending is refused (`Endings.ModifiedExactly`).
- Under a deadline, a turn that was stopped between a call and its results leaves calls without
  results; a context that can only be cancelled never does (`Turn.Agent.Turn`,
  `Turn.DeadlineLeavesACall`).
- An assistant message of empty text is not logged, and `Resume` then joins the user messages around
  it; it gives the live conversation back exactly when no such message is followed by another
  (`LogRebuilds.RebuildsExactlyWhenNoneSilent`, `LogRebuilds.SilenceIsLost`).
- Compaction keeps calls and results together exactly when the first kept message has no results
  (`Compaction.CompactionKeepsShape`, `CompactionLimits.CompactionBreaksAPair`).
- The log names the compacted range by the indices of the live messages, and `Resume` shows one
  message more for each thinking block with something after it, and for a silent assistant message
  two less: itself, and the user message after it, which joins the one before. `Resume` gets to
  the compacted conversation exactly when messages 1 and the last of the range are not silent and
  those lost are as many as those gained (`CompactionLog.CompactionInStep`). Thinking alone upsets the
  range, so does silence alone, and as many log lines as live messages do not save it
  (`CompactionLimits.ThinkingUpsetsTheRange`, `CompactionLimits.SilenceUpsetsTheRange`,
  `CompactionLimits.EvenCountsUpsetTheRange`). Over whole sessions `Resume` follows exactly when it
  does so at every compaction (`CompactionLog.CompactedLogRebuilds`).
- `Submit` does not look at live turns. A conversation has one writer at a time exactly when its
  caller starts a turn only after the turn before has sent its last message
  (`SessionProtocol.OneWriterExactlyWhenSpawnedAlone`, `SessionProtocol.TwoWriters`).
- A record accepted while the store closes can stay in the queue for ever, and a `Flush` that races
  `Close` can return nil before its records are written (`SessionStore.LateBatchIsLost`,
  `SessionStore.LateFlushIsEarly`).
- `AddUsage` can return an error for a call it has counted (`UsageCounter.CountedThoughFailed`).
- A log cut exactly before a newline keeps its last line; the next record is written onto that line,
  and `Resume` from then on stops in front of both (`LogRepair.WritingOnAfterRepair`). A torn line in
  the middle survives repair and hides everything after it (`LogRepair.TornInside`).
- `wrap` starts a continuation line with a space exactly when a word ends in a rune wider than the
  line and the next word fits behind its gap (`SoftWrap.ContinuationStarts`).

## Model

| member | source | states |
|---|---|---|
| Commit.UndoInvertsDone | internal/patch/apply.go:112-188 | each rollback case puts the tree back as it was before the entry's commit step, exactly when Stat was right about the target, and meets no missing file |
| Commit.UnseenTargetIsLost | internal/patch/apply.go:453-487 | a concrete target that Stat did not see is overwritten, and removed by undoing |
| Commit.DoneIsApply | internal/patch/apply.go:324-518 | once its backups are gone, a committed entry leaves the tree its change intends and nothing else |
| Commit.UndoEntry | internal/patch/apply.go:112-177 | one rollback case as file system calls: the resulting tree, and whether every call found its file |
| Commit.Rollback | internal/patch/apply.go:112-188 | undoing the committed entries last to first and then dropping the staged temp files; clean exactly when nothing was missing on the way |
| Commit.RestoredButNotClean | internal/patch/apply.go:178-188 | a failed commit whose rollback puts the tree back and still is not clean |
| Commit.UnwindsToExtends | internal/patch/apply.go:112-188 | the rollbacks compose: after one more committed entry the walk back still leads to the original tree, whatever paths the entries share |
| Commit.BackUp | internal/patch/apply.go:353-374 | a file moved aside under a fresh name, or nothing changed |
| Commit.CommitRename | internal/patch/apply.go:348-429 | a rename entry either gets its committed tree or can be put back by its own repair |
| Commit.CommitDelete | internal/patch/apply.go:431-451 | a delete entry either moves its file aside or changes nothing |
| Commit.CommitContent | internal/patch/apply.go:453-487 | a create or modify entry either gets its committed tree or can be put back by its own repair |
| Commit.CommitEntry | internal/patch/apply.go:345-513 | an entry that fails has put the tree back itself |
| Commit.MidwayExtends | internal/patch/apply.go:324-518 | what holds after every committed entry: the walk back leads to the original tree, and the tree minus backups is the intended prefix |
| Commit.Abandon | internal/patch/apply.go:490-513 | every failure exit leaves the tree without the staged temp files and otherwise as it was |
| Commit.CommitAll | internal/patch/apply.go:324-518 | a batch commits wholly in order or leaves the tree as before staging, for any failing call; when no call fails, it commits exactly when every entry finds what it needs where those before it leave it, and else the error is that of the first that does not |
| Commit.StageHandle.Commit | internal/patch/apply.go:324-518 | all or nothing for any list of entries; one-shot; when each error kind is reported; when it succeeds, exactly, if no call fails |
| Commit.StageHandle.Discard | internal/patch/apply.go:538-560 | removes the staged temp files and nothing else; one-shot |
| Hunks.Search.AnswerIsUnique | internal/patch/apply.go:1138-1160 | found, ambiguous and not found exclude each other: one answer is right |
| Hunks.Search.AnswerExists | internal/patch/apply.go:1138-1160 | every search has an answer: a strictly nearest match, two at one distance, or none in the window |
| Hunks.Search.HereIsFound | internal/patch/apply.go:1138-1143 | a match at the expected position wins |
| Hunks.Matches | internal/patch/apply.go:1115-1126 | whether the old side stands at a position |
| Hunks.LocateHunk | internal/patch/apply.go:1138-1160 | the scan with running best values gives the one right answer |
| Hunks.CollectOldSide | internal/patch/apply.go:1102-1110 | the context and removed lines of a hunk |
| Hunks.BuildNewLines | internal/patch/apply.go:758-781 | the replacement lines, context taken from the file, are the hunk's new side |
| Hunks.ApplyHunks | internal/patch/apply.go:689-788 | the hunk loop computes the step-by-step application, its moves and its conflicts, which AppliedExactly and RefusedExactly say of the original file |
| HunkPlacement.AppliedExactly | internal/patch/apply.go:689-788 | hunks are applied at given places of the original file exactly when each place is the nearest match within ten lines, and behind the hunk before, of where that hunk went plus the distance between the two headers; an insertion goes exactly there |
| HunkPlacement.LawfulIsUnique | internal/patch/apply.go:698-757 | one list of places at most is right |
| HunkPlacement.RefusedExactly | internal/patch/apply.go:698-757 | which hunk is refused, and for what, said of the original file and the places of the hunks before it |
| HunkPlacement.ShiftCarries | internal/patch/apply.go:783-784 | when the first hunk is found d lines off and all hunks fit d lines off, all go there |
| HunkPlacement.ReplacesWhereDeclared | internal/patch/apply.go:746-757 | a hunk counts lines from 1 and replaces those it declares |
| HunkPlacement.InsertsAfterLine | internal/patch/apply.go:707-727 | an insertion goes after the line it names, 0 being the start of the file |
| HunkPlacement.MovesAreReported | internal/patch/apply.go:785-787 | exactly the hunks that went elsewhere than declared are reported, each with its number, its declared line and the line it went to |
| Hunks.SequentialIsSimultaneous | internal/patch/apply.go:689-788 | hunks applied one after another sit at ordered, disjoint exact matches in the original, and the result is the original with just those segments replaced |
| Hunks.DeclaredIsFound | internal/patch/apply.go:698-757 | a hunk that fits where its header says is placed there |
| Hunks.DeclaredFitIsApplied | internal/patch/apply.go:698-787 | all hunks fit in order where declared exactly when they are applied and Moves() is empty |
| TextFile.DetectLineEnding | internal/patch/apply.go:1018-1043 | the loop counts pairs and bare newlines and gives the dominant ending |
| TextFile.WriteLines | internal/patch/apply.go:852-859 | the lines with a separator between them, and after the last if wanted |
| TextFile.EndingsFit | internal/patch/apply.go:790-842 | the conversion check: a patch that shows CR must add lines with the file's own ending, except before a no-newline marker |
| TextFile.Modify | internal/patch/apply.go:667-875 | the text staged for a modification, or the conflict or line-ending refusal |
| TextFile.Create | internal/patch/apply.go:588-618 | the text of a new file, without its last newline when the patch says so |
| Endings.LinesArePlain | internal/patch/apply.go:1059-1077 | no line of a file has a line ending left inside |
| Endings.RereadsLines | internal/patch/apply.go:852-859 | writing lines and splitting the file again gives them back, whatever the ending; only an empty last line without a newline is lost |
| Endings.RereadsEach | internal/patch/apply.go:1059-1077 | any lines, carriage returns in them or not, are read again each as it reads alone |
| Endings.CreatedReads | internal/patch/apply.go:588-618 | a new file reads as its added lines, each as it reads alone; plain ones as they are |
| Endings.CreatedLineByLine | internal/patch/apply.go:588-618 | a new file is the added lines byte for byte, each ended by a newline, the last not before the no-newline marker |
| Endings.RefusedForEndings | internal/patch/apply.go:790-875 | which patches are refused for their line endings, in terms of the carriage returns they show and the pairs and newlines the file has |
| Endings.EndingIsKept | internal/patch/apply.go:861-875 | a CRLF file keeps its line ending unless none is left in it, an LF file unless most of its lines end in a carriage return |
| Endings.ModifiedExactly | internal/patch/apply.go:667-875 | a modification is staged exactly when its hunks are placed, its endings fit, and the file keeps its line ending; then it reads as the lines the hunks make |
| DiffCounts.ParsedHunksAreOneLine | internal/patch/patch.go:529-600 | what an accepted diff puts into a file are lines without a newline inside, as ModifiedExactly asks |
| Endings.WithoutHunks | internal/patch/apply.go:852-859 | a modification without hunks leaves the text alone exactly when its endings are of one kind and it ends in one |
| Endings.AddsNewline | internal/patch/apply.go:844-859 | a concrete file that a mode change alone gives a newline |
| Endings.ReplacesLine | internal/patch/apply.go:689-788 | a hunk replacing one line of any file replaces that line and is not moved |
| Stage.ApplyCreate | internal/patch/apply.go:578-660 | a new file's text staged in a temp file, or nothing changed; refused when the file is seen |
| Stage.ApplyModify | internal/patch/apply.go:667-912 | the modified text staged in a temp file, or nothing changed; which refusal |
| Stage.ApplyRename | internal/patch/apply.go:927-1015 | a rename stages an edited copy only when it has hunks |
| Stage.StageAll | internal/patch/apply.go:240-318 | one staged entry per change, computed from the tree before any, or nothing changed; when no call fails, staged exactly when every change can be, and else refused for what is wrong with the first that cannot |
| Stage.Stage | internal/patch/apply.go:240-318 | staging fails without effect, or yields a handle whose entries stage exactly the changes, with their moves |
| Stage.RefusedForAReason | internal/patch/apply.go:578-1015 | a change that cannot be staged is binary, creates a file that is there, lacks its file, or does not fit it |
| Stage.GoesThrough | internal/patch/apply.go:324-518 | the staged entries are blocked exactly where their changes find nothing to move or delete |
| Stage.ApplyAllIsEffect | internal/patch/apply.go:240-518 | committing the staged entries is the effect of the changes, each computed from the tree before any, with no temp file left |
| PatchEffect.EffectAlone | internal/patch/apply.go:324-518 | what each kind of change does to a file system, alone |
| PatchEffect.StageableExactly | internal/patch/apply.go:244-318 | what can be staged, kind by kind |
| PatchEffect.MovesAreOf | internal/patch/apply.go:240-318 | every move of a hunk is reported once, with the number of the change it is in |
| PatchEffect.InOrderExactly | internal/patch/apply.go:240-518 | at every point of a patch its changes have had their effect one after another exactly when each is undisturbed by those before it |
| PatchEffect.TakenExactly | internal/patch/apply.go:240-518 | the changes can be applied one after another exactly when none creates where another wrote, none needs what is gone, and each edit still fits |
| PatchEffect.InTheEndExactly | internal/patch/apply.go:240-518 | the tree in the end is that of the changes one after another exactly when they can be applied so and every edit that something is left of, wherever renames moved it, came out the same |
| PatchEffect.IndependentInOrder | internal/patch/apply.go:240-518 | changes on paths no earlier change touched have the effect of patches of their own, applied in order |
| PatchEffect.SecondEditWins | internal/patch/apply.go:244-318 | of two edits of one file, both computed from the original, the second replaces the first |
| PatchEffect.FirstEditIsLost | internal/patch/apply.go:244-318 | a concrete patch whose first edit is lost, though one after the other both would be kept |
| PatchEffect.LossIsHidden | internal/patch/apply.go:244-318 | the same patch with a deletion after it agrees in the end and not on the way |
| Stage.ApplyToAbsPath | internal/patch/apply.go:567-575 | the changes, or nothing; one after another when their paths are apart and no Stat was misread; when no call fails, exactly when each change can be staged and finds what it moves or deletes |
| Stage.ResolveAll | internal/tool/apply_patch.go:94-113 | each path and each rename source is resolved and nothing else changes, or some path escapes the workspace |
| Stage.Invoke | internal/tool/apply_patch.go:77-152 | files change only after an allow or session decision, whatever the file system does; a bad path is reported exactly when one escapes; what was applied is the changes with their paths and rename sources resolved; refusals leave the tree alone; when no call fails, exactly when it asks, is refused, and applies |
| Strings.AtoiDecimal | internal/patch/patch.go:444-513 | reading a printed count gives it back, within the int range |
| Strings.FieldsToken | internal/patch/patch.go:421-427 | a token in front of white space is the first field |
| Strings.SplitFirst | internal/patch/patch.go:443-444 | splitting at the first separator |
| DiffParser.LooksLikeVersion | internal/patch/patch.go:696-718 | a line looks like a version exactly when it starts with digits, a dot and a digit |
| DiffParser.Parser.SignatureFrom | internal/patch/patch.go:678-691 | exactly one line is left that is not empty, a version line |
| DiffParser.Parser.HunkEndsAt | internal/patch/patch.go:648-671 | where a hunk body ends, given the counts |
| DiffParser.Parser.BodyFollowsAt | internal/patch/patch.go:723-734 | whether a body line occurs before the hunk ends |
| DiffParser.Parser.BodyContinuesAt | internal/patch/patch.go:742-759 | whether empty lines are followed by body lines |
| DiffParser.Parser.ReadBody | internal/patch/patch.go:529-600 | the body loop reads the lines and counts the specification scans |
| DiffParser.Parser.ReadHunk | internal/patch/patch.go:401-605 | a hunk, its header and its recounted body, or the error |
| DiffParser.Parser.ReadMeta | internal/patch/patch.go:210-392 | the lines of a file change, in whatever order they come |
| DiffParser.Parser.ReadFileChange | internal/patch/patch.go:186-395 | one file change with its paths, or the error |
| DiffParser.Parser.ReadChange | internal/patch/patch.go:146-181 | one turn of the outer loop: a file change, a skipped line, or the error |
| DiffParser.Parser.ReadChanges | internal/patch/patch.go:146-181 | every file change of the lines, or the first error |
| DiffParser.ParseDiff | internal/patch/patch.go:92-114 | Parse on a whole text |
| DiffLaws.ModifiesNamed | internal/patch/patch.go:339-372 | "--- a/p" and "+++ b/q" with hunks are one change of p, without the a/ and b/ |
| DiffLaws.ModifiesUnmarked | internal/patch/patch.go:339-372 | the same for names without a/ and b/ |
| DiffLaws.CreatesNamed | internal/patch/patch.go:339-372 | from /dev/null, p is created |
| DiffLaws.DeletesNamed | internal/patch/patch.go:339-372 | to /dev/null, p is deleted |
| DiffLaws.NullChangesNothing | internal/patch/patch.go:339-372 | /dev/null does not undo what the lines before it said |
| DiffLaws.GitModifies | internal/patch/patch.go:186-395 | a change as git prints it, with an index line |
| DiffLaws.GitCreates | internal/patch/patch.go:186-395 | a new file as git prints it, with its mode |
| DiffLaws.GitDeletes | internal/patch/patch.go:186-395 | a deleted file as git prints it |
| DiffLaws.GitRenames | internal/patch/patch.go:186-395 | a rename, with or without a/ and b/ in its names, with or without hunks |
| DiffLaws.GitNames | internal/patch/patch.go:765-792 | a "diff --git " line alone names both files, and the change is of the second |
| DiffLaws.QuotedIsRead | internal/patch/patch.go:765-792 | a first name in quotes is read without them |
| DiffLaws.UnnamedIsRefused | internal/patch/patch.go:186-208 | a "diff --git " line that names no file is refused |
| DiffLaws.GitChangesMode | internal/patch/patch.go:186-395 | a mode change gives the new mode |
| DiffLaws.OtherModesAreRefused | internal/patch/patch.go:242-274 | modes other than 100644 and 100755 are refused |
| DiffLaws.OtherModeChangesAreRefused | internal/patch/patch.go:276-300 | so is a mode change to the same mode |
| DiffLaws.OldModeAloneSaysNothing | internal/patch/patch.go:276-300 | an old mode without a new one says nothing |
| DiffLaws.GitIsBinary | internal/patch/patch.go:317-322 | a "Binary files" line makes the change binary |
| DiffLaws.BinaryPatchIsSkipped | internal/patch/patch.go:324-338 | the data of a binary patch are passed over, up to an empty line or the next header |
| DiffLaws.ProseBefore | internal/patch/patch.go:146-181 | whatever is written before the first change does not matter |
| DiffLaws.NoFileIsRefused | internal/patch/patch.go:146-181 | a text without a change, and a hunk without a file, are refused |
| DiffLaws.MinusAloneIsRefused | internal/patch/patch.go:210-392 | a hunk after a "--- " line alone is refused |
| HunkTexts.ReadsHeader | internal/patch/patch.go:401-513 | a header with its counts of one left out, and any heading after it |
| HunkTexts.ReadsOddRange | internal/patch/patch.go:443-513 | a range with more than one comma counts one line |
| HunkTexts.BodyLineReads | internal/patch/patch.go:529-600 | a body line is its prefix and its text, which keeps its carriage return |
| HunkTexts.BlankIsContext | internal/patch/patch.go:529-600 | an empty line inside a body is a blank line of context |
| HunkTexts.BlanksAfterwards | internal/patch/patch.go:742-759 | empty lines after a body are not part of it |
| HunkTexts.StrayInsideIsRefused | internal/patch/patch.go:585-600 | a line that is no part of a diff is refused inside a body |
| HunkTexts.StrayAfterwards | internal/patch/patch.go:585-600 | after the body it ends it |
| HunkTexts.MarkerReads | internal/patch/patch.go:529-600 | the no-newline marker is read, whatever follows it on its line |
| HunkTexts.BackslashSaysNothing | internal/patch/patch.go:529-600 | other backslash lines are passed over |
| HunkTexts.SignatureEnds | internal/patch/patch.go:648-691 | "-- " and a version, alone, end a complete hunk |
| HunkTexts.SignatureIsAlone | internal/patch/patch.go:648-691 | with more after them, "-- " is a removed line |
| HunkTexts.RemovalOfDash | internal/patch/patch.go:648-671 | in a hunk that is not complete it is one as well |
| HunkTexts.VersionReads | internal/patch/patch.go:696-718 | digits and a dot are a version exactly when a digit follows |
| HunkTexts.NextFileEnds | internal/patch/patch.go:648-671 | "--- " and "+++ " lines with a hunk after them end a complete hunk without a git header |
| HunkTexts.LikeNextFile | internal/patch/patch.go:648-671 | without a hunk after them, or under a git header, they are a removal and an addition |
| HunkTexts.EmptyHunkIsRefused | internal/patch/patch.go:592-605 | a hunk without lines is refused |
| DiffPrinter.Render | internal/patch/patch.go:803-917 | the printer writes the lines of every change, each ended by a newline |
| PrinterLaws.PrintsHunk | internal/patch/patch.go:899-915 | a hunk's header as it is printed, and its body after it |
| PrinterLaws.PrintsBody | internal/patch/patch.go:899-915 | each body line as it is printed |
| PrinterLaws.PrintsModify | internal/patch/patch.go:803-917 | the lines of a change, with and without a git header |
| PrinterLaws.PrintsCreate | internal/patch/patch.go:803-917 | the lines of a new file |
| PrinterLaws.PrintsDelete | internal/patch/patch.go:803-917 | the lines of a deleted file |
| PrinterLaws.PrintsRename | internal/patch/patch.go:803-917 | the lines of a rename, the new name on both sides of its markers |
| PrinterLaws.PrintsMode | internal/patch/patch.go:803-917 | the lines of a mode change |
| PrinterLaws.PrintsInOrder | internal/patch/patch.go:803-917 | changes are printed one after another |
| DiffRoundTrip.NoBodyLineEnds | internal/patch/patch.go:648-671 | with exact counts no body line is taken for a hunk end, whatever it looks like |
| DiffRoundTrip.ScanEnds | internal/patch/patch.go:648-671 | the true end of an exactly counted hunk always ends it |
| DiffRoundTrip.ScanBodyLines | internal/patch/patch.go:529-600 | a printed body is read back line for line, and nothing after it |
| DiffRoundTrip.ParsePrintedHeader | internal/patch/patch.go:401-513 | a printed hunk header gives its four numbers back |
| DiffRoundTrip.ParsePrintedHunk | internal/patch/patch.go:401-605 | a printed hunk is read back whole |
| DiffRoundTrip.RecountsAfterGit | internal/patch/patch.go:525-605 | in a "diff --git " change the declared counts do not matter: the hunk read counts its body |
| DiffRoundTrip.ExtractPrinted | internal/patch/patch.go:765-792 | a printed "diff --git " line gives its two paths back |
| DiffRoundTrip.ParsePrintedChange | internal/patch/patch.go:186-395 | a printed file change of any kind is read back whole, and what follows is untouched |
| DiffRoundTrip.RenderedBoundary | internal/patch/patch.go:220-232 | the next change of a printed list ends the one before it |
| DiffRoundTrip.ReadRendered | internal/patch/patch.go:146-181 | all printed changes are read back in order |
| DiffRoundTrip.ParseUndoesRender | internal/patch/patch.go:92-917 | Parse(Render(cs)) == cs on change lists in printed form |
| DiffCounts.ParsedHunksAreCounted | internal/patch/patch.go:592-605 | every change of every accepted text has hunks that count their own bodies, bodies that are not empty, body lines of the four kinds, and modes git knows |
| DiffCounts.ParsedIsPrintedExactly | internal/patch/patch.go:92-917 | of what was parsed, exactly the lists that their printed lines lose nothing of are in printed form, whatever their hunks; and those come back from Parse(Render(cs)) |
| Conversation.RecordKeepsAlternation | internal/agent/agent.go:413-501 | roles keep alternating under every change a turn can make |
| Conversation.RecordKeepsPairing | internal/agent/agent.go:413-498 | calls keep their results under every change but user text that orphans calls |
| Conversation.HistoryConcat | internal/agent/agent.go:320-335 | replaying records in two parts is replaying them at once |
| Assembly.Assembler.Accept | internal/agent/agent.go:727-807 | one event taken or refused, with the new state of the assembly |
| Assembly.RunMeans | internal/agent/agent.go:727-807 | no error so far exactly when all events were allowed; open, done and content say what the events say |
| Assembly.AcceptsExactlyTheProtocol | internal/agent/agent.go:727-817 | a message is delivered exactly on the streams of the protocol |
| Assembly.ForwardsTheMaximalPrefix | internal/agent/agent.go:503-532 | what reaches emit is the longest accepted prefix, with the first error event |
| StreamLaws.DeliveredInFull | internal/agent/agent.go:727-817 | a delivered message holds every letter, thinking block and call of its stream, in order and nothing else, no two texts next to each other, and the usage of its last event |
| StreamLaws.FirstOffenceIsReported | internal/agent/agent.go:727-807 | the error of a stream is that of its first event that is not allowed |
| StreamLaws.UnfinishedIsReported | internal/agent/agent.go:809-817 | which error a stream without an end, or without content, gives |
| Fake.HalvesConcat | internal/provider/fake.go:364-376 | fragmenting a text loses nothing, and only the empty text has no fragment |
| Fake.Emitter.PrintDeltas | internal/provider/fake.go:131-147 | a text emitted half of the rest at a time, cut short only by a stop |
| Fake.Stream | internal/provider/fake.go:48-274 | everything due is emitted and the scripted verdict returned, or a prefix of it when the context can be cancelled and is |
| Fake.ReadUndoesPrint | internal/agent/agent.go:727-817 | the assembler rebuilds thinking, text and calls, however the fragments were cut |
| Fake.ScriptIsDelivered | internal/provider/fake.go:48-274 | an uncancelled script arrives as its thinking blocks, its whole text, its calls |
| Fake.FailureIsDelivered | internal/provider/fake.go:241-252 | a script that fails midway delivers its error, and every event up to it is forwarded |
| StreamLaws.ScriptIsTold | internal/provider/fake.go:48-274 | what a script sends, letter by letter: its thinking, its text, each call with its input, and its usage |
| StreamLaws.FailingScriptIsCutShort | internal/provider/fake.go:241-274 | a failing script sends the first events of the same script without the failure, then its error |
| StreamLaws.DeltasHalve | internal/provider/fake.go:364-376 | each delta is half of what is left |
| StreamLaws.ScriptIsAssembled | internal/provider/fake.go:48-274 | the message delivered of a script, block by block |
| Turn.InvokeTools | internal/agent/agent.go:534-595 | one result per call in order: what the first tools returned, content, flags and error kind, then what ended the calls, then skips; no tool runs after it; an error exactly when the context was found done at that call, and which one |
| Turn.ValidateCallIDs | internal/agent/agent.go:597-611 | accepted exactly when ids are present and distinct; the error is that of the first call that cannot be told apart |
| Turn.StreamAssistant | internal/agent/agent.go:503-532 | a message exactly from a stream of the protocol whose model returns no error; which error wins; what was emitted |
| Turn.Agent.AppendMessage | internal/agent/agent.go:489-501 | conversation and records grow together |
| Turn.Agent.AddUserText | internal/agent/agent.go:477-487 | user text joins a last user message or starts one, with the matching record |
| Turn.AskModel | internal/agent/agent.go:431-447 | the message of a model call exactly when its stream is of the protocol, the model returned no error and the calls can be told apart; which error, when there are several |
| Turn.Agent.AnswerCalls | internal/agent/agent.go:457-474 | the results, as the tools gave them, follow their calls in one message, on every exit but a deadline |
| Turn.Agent.Round | internal/agent/agent.go:424-475 | one model call and its tools keep replay and pairing, on every exit; what is added, for a given answer of the model |
| Turn.Agent.NextRound | internal/agent/agent.go:424-475 | one round takes the conversation to the next request: the message of the model call and its results |
| Turn.DeadlineLeavesACall | internal/agent/agent.go:457-466 | a concrete round after which a call has no result |
| Turn.Agent.Turn | internal/agent/agent.go:413-475 | for any model, tools and moment at which the context ends: the first record carries the user's text, the first request is the conversation with it, each later one is the one before with its model message and the results its tools returned; how the turn ends, after 25 rounds or the third unknown tool at the latest; replaying the records rebuilds the conversation, every request alternates and ends on a user message; results follow their calls always when the context can only be cancelled, and under a deadline exactly when it did not stop the turn between the two |
| SessionLog.EncodeUserAppend | internal/session/event.go:194-243 | one kind of block per user message, text joined, a line per result |
| SessionLog.EncodeAssistantAppend | internal/session/event.go:248-294 | a line per thinking block, then one for text and calls |
| LogExact.NothingSaidIsLost | internal/session/resume.go:49-220 | for any run of turns Resume gives back each side's text, its calls with their inputs, its thinking with signatures, and its results |
| LogExact.ComesBackAsItWas | internal/session/resume.go:49-220 | when assistant messages are a text, calls, or a text and calls, and results have no error kind, Resume gives exactly the live conversation |
| LogRefusals.RefusedExactly | internal/session/resume.go:49-172 | a log is refused exactly when it has an empty message of the model, a result nobody is waiting for, or a compaction of messages that are not there |
| LogRefusals.UnloggedExactly | internal/session/event.go:148-294 | which changes are not logged |
| SessionLog.Resume | internal/session/resume.go:49-172 | the loop over the log rebuilds conversation and transcript, or reports a malformed log |
| SessionLog.BuildAssistantMessage | internal/session/resume.go:176-193 | text before calls |
| LogRebuilds.ReadAssistant | internal/session/resume.go:91-135 | the lines of an assistant message append exactly its normal form |
| LogRebuilds.ReadResultLines | internal/session/resume.go:136-158 | result lines gather in one user message and empty the pending ids |
| LogRebuilds.LogRebuilds | internal/session/resume.go:49-220 | for any run of turns: encoding and Resume never fail and give the live conversation in normal form |
| LogRebuilds.ApartIffNoneSilent | internal/session/event.go:286-292 | two user messages meet in the log exactly when an unlogged assistant message was between them |
| LogRebuilds.RebuildsExactlyWhenNoneSilent | internal/session/resume.go:49-220 | Resume gives the conversation message for message exactly when no silent message is followed by another |
| LogRebuilds.SilenceIsLost | internal/session/event.go:286-292 | concrete records whose conversation Resume does not give back |
| Compaction.PlanCompaction | internal/session/compact.go:58-103 | the loop over turn starts finds the planned range |
| Compaction.PlanIff | internal/session/compact.go:86-102 | there is something to compact exactly from six turns on |
| CompactionLaws.PlanExactly | internal/session/compact.go:58-103 | the range ends right before the fourth prompt from the end, and there is one exactly from six prompts on, a prompt being a user message with a text |
| CompactionLaws.ReplacesTheMiddle | internal/session/compact.go:58-224 | what a compaction leaves: message 0, the summary as an assistant text, the last four turns as they were |
| CompactionLaws.SummaryJoins | internal/session/compact.go:157-178 | the summary is all text deltas, one after another |
| CompactionLaws.LastErrorCounts | internal/session/compact.go:157-178 | the last error event is the error |
| CompactionLaws.LastUsageCounts | internal/session/compact.go:157-178 | the last usage of a message end is the usage |
| CompactionLaws.BlankIsWhite | internal/session/compact.go:194-197 | a summary is refused exactly when it is nothing but white space |
| Compaction.Compact | internal/session/compact.go:125-224 | succeeds exactly when there is a plan, the call worked and the summary is not blank; usage comes back on every path |
| Compaction.LiveSession.RunCompaction | internal/app/app.go:2374-2402 | conversation and log change together or not at all |
| Compaction.CompactionKeepsShape | internal/session/compact.go:58-224 | message 0, one summary, the last four turns verbatim; still alternating; nothing more to compact until a new turn; pairing kept exactly when the first kept message has no results |
| CompactionLimits.CompactionBreaksAPair | internal/session/compact.go:86-102 | well-formed conversations that a compaction leaves with results nobody asked for |
| CompactionLog.CompactionInStep | internal/session/resume.go:256-269 | from the conversation it has rebuilt Resume gets to the compacted one exactly when messages 1 and the last of the range are logged and two extra messages make up for each silent one |
| CompactionLog.ShownLength | internal/session/resume.go:91-108 | how many messages Resume shows of a conversation |
| CompactionLog.KeptWithoutThinking | internal/session/resume.go:256-269 | without thinking the range is kept exactly when no message up to its end is silent |
| CompactionLog.KeptWithoutSilence | internal/session/resume.go:256-269 | without silent messages it is kept exactly when each message up to its end is one line of the log |
| CompactionLimits.ChatInStep | internal/session/resume.go:256-269 | for any chat of plain, pondering and mute replies, well-formed, whether Resume compacts the same range |
| CompactionLimits.ThinkingUpsetsTheRange | internal/session/resume.go:256-269 | well-formed chats with thinking and nothing silent of which Resume compacts another range |
| CompactionLimits.SilenceUpsetsTheRange | internal/session/resume.go:256-269 | well-formed chats with a silent reply and no thinking of which Resume compacts another range |
| CompactionLimits.EvenCountsUpsetTheRange | internal/session/resume.go:195-207 | well-formed chats with as many log lines as live messages up to the range's end of which Resume loses the first message kept |
| CompactionLimits.ThinkingMakesUpForSilence | internal/session/resume.go:256-269 | chats with more log lines than live messages that Resume compacts alike |
| CompactionLog.OneLineWithoutThinking | internal/session/resume.go:91-108 | without thinking, a message is kept as one exactly when it says something |
| CompactionLog.CompactedLogRebuilds | internal/session/resume.go:49-269 | for any run of turns and compactions: at every point Resume gives the live conversation, and in the transcript all that was said, exactly when every compaction found its range kept |
| CompactionLog.CompactedLogKeepsMessages | internal/session/resume.go:49-269 | then it gives it message for message exactly when no silent message is followed by another |
| SessionProtocol.NextKeeps | internal/app/app.go:963-1679 | the invariant of counters, exclusion, current writers, contexts and filed writes survives every atomic step, every early return of Submit included |
| SessionProtocol.NeverBothLive | internal/app/app.go:379-391 | in every interleaving a turn and a manual compaction are never both live, nor two compactions |
| SessionProtocol.EveryWriteIsCurrent | internal/app/app.go:2363-2402 | whoever writes, writes the App's conversation of that moment and its store, once a step |
| SessionProtocol.SwapsOnlyWhenQuiet | internal/app/app.go:963-988 | a session is replaced only when no goroutine of it is left |
| SessionProtocol.OneHomePerThread | internal/app/app.go:1665-1815 | all records of one turn reach one store and one conversation |
| SessionProtocol.NoStragglers | internal/app/app.go:963-1031 | after a swap nothing is written to an older conversation |
| SessionProtocol.OneUncancelled | internal/app/app.go:1630-1660 | at most one goroutine is not cancelled |
| SessionProtocol.OneWriterExactlyWhenSpawnedAlone | internal/app/app.go:1351-1467 | one writer at a time exactly when turns are started only after the one before has finished writing |
| SessionProtocol.TwoWriters | internal/app/app.go:1351-1467 | a run of two Submits after which two turns write to one conversation |
| SessionProtocol.WaitIsNotStuck | internal/app/app.go:374-384 | while NewSession waits some goroutine can go on and gets nearer its end |
| SessionLaws.CancelReachesAll | internal/app/app.go:1641-1655 | CancelTurn, and NewSession before it waits, reach every goroutine there is |
| SessionLaws.StartingCancelsTheRest | internal/app/app.go:1629-1639 | a new turn or compaction cancels all before it |
| SessionLaws.SubmitsExactlyWhenNoneCompacts | internal/app/app.go:1351-1376 | Submit is let in exactly when no compaction is running |
| SessionLaws.CompactsExactlyWhenAlone | internal/app/app.go:2444-2468 | a manual compaction is let in exactly when no turn is live and none is running |
| SessionLaws.WaitsExactlyUntilQuiet | internal/app/app.go:963-988 | NewSession's wait ends exactly when no goroutine is left |
| SessionLaws.OneStorePerConversation | internal/app/app.go:963-1031 | in every interleaving one conversation is recorded in one store, and one store records one conversation |
| SessionLaws.SwapStartsAfresh | internal/app/app.go:963-1031 | a new session has a conversation nobody wrote and a store nobody wrote to |
| SessionStore.RunKeeps | internal/session/store.go:161-399 | the invariant of queue, buffer, file and flushes survives every step of producers, ticker and writer |
| SessionStore.FileInOrder | internal/session/store.go:323-366 | in every interleaving the file is the accepted batches, whole and in order, as far as it goes |
| SessionStore.FlushIsDurable | internal/session/store.go:287-309 | a Flush that returned nil before the writer saw the close found every batch accepted before it in the file, and synced |
| SessionStore.FlushBeforeCloseIsDurable | internal/session/store.go:287-309 | a Flush that returned nil while nobody had called Close found every batch accepted before it in the file, and synced |
| SessionStore.CloseIsDurable | internal/session/store.go:314-352 | after Close every batch accepted before it is in the file, and all of them exactly when the queue is empty |
| SessionStore.CloseSyncs | internal/session/store.go:344-352 | when the last flush of Close works, all that was accepted is in the file and synced |
| StoreLaws.QueueIsBounded | internal/session/store.go:91-120 | the queue never holds more than 256 batches |
| StoreLaws.RecordsExactlyWhenThereIsRoom | internal/session/store.go:161-183 | a Record waits exactly while the queue is full |
| StoreLaws.StepGrows | internal/session/store.go:323-372 | the file and its synced part only grow |
| StoreLaws.RecordIsAccepted | internal/session/store.go:161-183 | a Record adds just what it was given, whatever others do in between |
| StoreLaws.CallsCount | internal/session/store.go:287-321 | Flush and Close count the batches accepted when they are called |
| StoreLaws.NothingNewAfterClose | internal/session/store.go:161-321 | after Close no Record and no Flush is let in |
| SessionStore.LateBatchIsLost | internal/session/store.go:172-182 | a record racing Close can be accepted and never written |
| SessionStore.LateFlushIsEarly | internal/session/store.go:376-387 | a Flush racing Close can return nil too early |
| UsageCounter.Totals.Add | internal/session/usage.go:126-141 | the totals after one call, tokens in wrapping 64-bit arithmetic |
| UsageLaws.AddsUp | internal/session/usage.go:126-141 | what a call adds to counts far from the end of int64, field by field |
| UsageLaws.WrapsAsInt64 | internal/session/usage.go:126-141 | sums are taken modulo 2^64, in the range of int64 |
| UsageLaws.DroppedExactly | internal/session/usage.go:30-67 | a call gives its counts up when the lock fails it or is found taken on the twentieth try, and gets a lock that is free |
| UsageCounter.NextKeeps | internal/session/usage.go:163-201 | conservation, one holder and one count per call survive every step of every process |
| UsageCounter.TotalsAreSums | internal/session/usage.go:163-201 | each stored total is its start plus the sum over exactly the calls whose rename took effect, crashes included; the total is the sum of the four |
| UsageCounter.CostIsSum | internal/session/usage.go:126-201 | the stored cost is its start plus the known costs of exactly the calls counted, and the time is that of the last of them |
| UsageCounter.RecoveredTotals | internal/session/usage.go:172-199 | after a corrupt file was moved aside the totals are the sums |
| UsageCounter.OneAtATime | internal/session/usage.go:30-67 | no two calls are between lock and release at once |
| UsageCounter.CountedOnce | internal/session/usage.go:163-201 | a call that returned nil counts once, one that lost the lock never |
| UsageCounter.CountedThoughFailed | internal/session/persist.go:70-90 | a call can return an error and be counted |
| LogRepair.RepairSession | internal/session/repair.go:20-65 | truncates after the last good line, and says whether it did |
| LogRepair.RepairsExactly | internal/session/repair.go:36-64 | a repair keeps the file up to the last line that is blank or decodes to anything, and drops the torn lines after it |
| LogRepair.ReadsUpTo | internal/session/resume.go:65-80 | Resume sees the events up to the first line that is torn or none, and refuses an event it cannot decode |
| LogRepair.RepairIsIdempotent | internal/session/repair.go:20-65 | on any file repairing twice is repairing once |
| LogRepair.CutLogResumes | internal/session/resume.go:65-80 | Resume of a cut log is Resume of the lines it holds whole |
| LogRepair.CutLogRepairs | internal/session/repair.go:36-64 | repair takes away exactly a torn end |
| LogRepair.CrashIsHarmless | internal/session/repair.go:20-65 | a log cut at any byte resumes, on exactly the lines the cut holds whole, and repairing changes nothing about it |
| LogRepair.WritingOnAfterRepair | internal/session/store.go:132-152 | what Resume reads after records were added to a repaired log, whether or not the cut was before a newline |
| LogRepair.TornInside | internal/session/resume.go:72-80 | a torn line in the middle survives repair and hides what follows |
| Capture.SafeCut | internal/tool/tool.go:260-272 | where the head is cut: a near line end, else a rune start |
| Capture.SafeCutTail | internal/tool/tool.go:275-287 | where the tail starts |
| Capture.Truncate | internal/tool/tool.go:244-256 | head, marker and tail, or the whole text |
| Capture.ShowsBothEnds | internal/tool/tool.go:244-256 | text over the limit is shown as a head, the marker and a tail, of two thirds of what the marker leaves and of the rest, each up to a near line end, else to a whole rune |
| Capture.ShowsAHead | internal/tool/tool.go:244-256 | with no room for both a head alone is shown, and text within the limit is untouched |
| Capture.NearItsBudget | internal/tool/tool.go:260-272 | in valid UTF-8 a head ends less than 200 bytes from its budget, and within a rune of it when no line ends there |
| Capture.TailNearItsBudget | internal/tool/tool.go:275-287 | the same for the tail |
| Capture.LongOutputIsReported | internal/tool/run_command.go:19-39 | output of a command over 200 KiB as it is reported |
| Capture.CapWriter.Write | internal/tool/run_command.go:300-323 | the buffer holds the stream or its exact head and tail, whatever the chunks |
| Capture.KeptAgain | internal/tool/run_command.go:300-323 | keeping head and tail chunk by chunk is keeping them of the whole |
| Capture.CaptureRefinesTruncation | internal/tool/run_command.go:19-39 | truncating the buffer is truncating the stream, flagged exactly when it was longer than the limit |
| Capture.NeverTooLong | internal/tool/tool.go:244-287 | truncated output is within the limit, marker included |
| Capture.TruncationIsValid | internal/tool/tool.go:237-287 | valid UTF-8 stays valid |
| Capture.CapturedOutput | internal/tool/run_command.go:205-331 | the reported output of a command is the truncation of all it wrote |
| Identifier.EncodeCrockford | internal/session/layout.go:125-136 | the nested loops write the 26 groups of five bits |
| Identifier.EncodingKeepsOrder | internal/session/layout.go:120-146 | encodings compare exactly as the bytes do, and are equal only for equal bytes |
| Identifier.NewULID | internal/session/layout.go:109-119 | 48 bits of time, then the random bytes |
| IdentifierLaws.EncodingSpellsTheBytes | internal/session/layout.go:120-146 | 26 symbols without I, L, O and U spell the 128 bits |
| IdentifierLaws.IDSpellsTimeAndRandom | internal/session/layout.go:109-119 | an identifier spells its time modulo 2^48 and its eighty random bits, and nothing else |
| Identifier.TimesAreOrdered | internal/session/layout.go:104-119 | a smaller time gives a smaller identifier for all random bytes exactly when it is smaller as a 48-bit time |
| Identifier.TimesBelow48BitsAreOrdered | internal/session/layout.go:104-119 | times below 2^48 milliseconds are ordered |
| SoftWrap.WrapPlain | internal/tui/view.go:199-273 | the loop over words builds the specified lines |
| SoftWrap.HardBreak | internal/tui/view.go:248-262 | a word over width in pieces |
| SoftWrap.WrapsWell | internal/tui/view.go:167-198 | every line fits unless it is one wider rune, the text is kept in order with its gaps, no line ends in a space, and none ends before it has to |
| SoftWrap.BlankWrapsToNothing | internal/tui/view.go:180-198 | a blank text is one empty line |
| SoftWrap.ContinuationStarts | internal/tui/view.go:174-178 | continuation lines start at text exactly when nothing hangs |
| SoftWrap.NothingHangs | internal/tui/view.go:193-197 | without a rune wider than the line nothing hangs |
| SoftWrap.SomethingHangs | internal/tui/view.go:174-178 | a concrete text and width where a space starts a line |
| SoftWrap.IndentIsKept | internal/tui/view.go:179-186 | the first line keeps the indentation, clamped, or drops it with the word moved down |
| WrapText.ExpandTabs | internal/tui/transcript.go:576-593 | the loop expands every tab from its own column |
| WrapText.TabsStop | internal/tui/transcript.go:576-593 | a tab is one to four spaces, up to a fourth column, whatever came before it |
| WrapText.Wrap | internal/tui/view.go:199-273 | any text: tabs expanded, other white space plain, then the lines |
| WrapText.NothingIsLost | internal/tui/view.go:167-198 | for any text the lines hold its visible characters, all of them and in order |

## Left out

- Operating system: fsync outside the session store, permissions, file modes on disk, flock timing and process groups are not modelled; a call succeeds, or fails without effect, and calls that restore or clean up fail only on a missing file.
- Temp names: a name from os.CreateTemp is taken to be new, never reused and never named by a patch.
- DiffCounts.ParsedIsPrintedExactly: says exactly which parsed lists are in printed form; a few others come back as well, such as a rename whose new path contains " b/".
- JSON: marshalling is a faithful encoding, a torn line is undecodable, and lines stay under the scanner's limit.
- Messages: the texts of errors, progress messages and conflict details; only kinds and the numbers they carry are kept. What an unknown tool is told is a parameter.
- Deep copies: conversations, messages and hunks are values, so that no slice is shared with a Recorder or a request holds by construction.
- Recorder: a nil Recorder does nothing and is not modelled.
- SessionProtocol.NextKeeps: the App, the store and the usage counter run as transition systems on values rather than as classes, because their promises are about interleavings of goroutines and processes; updates of fields are whole atomic steps.
- SessionProtocol.WaitIsNotStuck: says that a step towards the end exists, not that the scheduler takes it.
- SessionStore.FlushIsDurable: a Flush answered while the store closes is excluded; LateFlushIsEarly shows why.
- LogRepair.RepairSession: lines are decoded by an arbitrary function; that a proper prefix of a logged line is not JSON, and that two logged lines without a newline between them are not, are assumptions on it.
- Compaction.Compact: the rendering of the summary request and the clone of the kept messages are left out.
- Stage.Invoke: takes the parsed changes; mapping error kinds to tool results is left out.
- UsageCounter.CostIsSum: costs are real numbers; the rounding of 64-bit floating point is left out.
- WrapText.Wrap: cell widths are rune widths added up, and invalid UTF-8 does not occur.
- Fake.Stream: recording of requests and the turn index are left out; a script that blocks until its context is cancelled is taken to see that happen.
- Turn.StreamAssistant: the usage event that the agent itself emits after a stream is left out.
- Turn.Agent.Turn: token budgets, the system prompt and tool schemas do not enter the requests.
- HTTP, SSE decoding, retries, keys, configuration, checks, the terminal interface beyond wrapping, search backends, the price table and token estimates: no promise over unbounded input, or only easy members.
- ResumeLastSession, StartNewSession, RunTool and approvals of session grants: start-up code, and work registered outside opMu.
