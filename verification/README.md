# Verified models of gofer's algorithmic cores

Dafny models of ten independent cores of gofer, each proved against an independent statement of
what it is for. Code that works step by step is modelled step by step: classes with the source's
fields, methods with its loops, and state machines whose atomic steps are the source's critical
sections, stores and channel sends. `dafny verify dfyconfig.toml` checks the whole project.

| part | files | main results |
|---|---|---|
| Three-way changelog merge | `Changelog*.dfy` | the table and the greedy walk find a longest common subsequence, so no gap hides an unchanged entry; the alignment is injective and every rewrite really differs; the merge equals a per-entry reference, writes out every entry it does not drop by rule, conflicts exactly when it must, and obeys the three-way laws; subsections re-split exactly when no entry is a bare dash with text |
| Encrypted terminal recordings | `BigEndian.dfy`, `Cast*.dfy` | a writer and a reader over any split of the bytes round-trip; over arbitrary stored bytes the reader completes only on the exact file of a closed recording and hands out only a prefix of its plaintext; every damage ends in the error that names it |
| Grant patterns | `Authz*.dfy` | the one-backtrack matcher equals the recursive meaning of `*`; expansion partitions the matching catalog rows and is safe; what is new since a snapshot is exactly what was inserted |
| JSON-RPC correlation | `Acp*.dfy` | in every interleaving a call's channel gets at most one message, its own, and no waiting call is forgotten when the transport dies |
| Event-stream parser | `Sse*.dfy` | resuming equals parsing at once exactly when the rest holds no `\r\n`, and delivers the same events exactly when the rest is settled, and any number of reads exactly when they are; for bodies without `\r\r\n` delivery does not depend on how the bytes are cut; what the server writes is what is delivered |
| Background agents | `Bg*.dfy` | the rotation rule in terms of its limits; in every interleaving of single store reads and writes one active session a scope, counted between one and the limit; exactly when a reset holds and when an observation is harmless; run one after another, the count is the answers since the session was opened or cleared; every call of the agent is a row the daily limit counts, unless the store refused its answer; what each row, audit entry, error and session tells of its run; how far a day can pass its limit with so many runs in flight, attained |
| Agent resolution and registry | `Agent*.dfy` | resolving again with another detector equals resolving once; in every interleaving the registry shows the latest reload, warm-ups never overwrite one, and an answer pairs the configuration current at the request with its own availability |
| Thumbnails | `Thumbnail.dfy` | the cells tile the image, every pixel is read once, 32-bit sums do not overflow, premultiplied alpha is kept |
| Brief | `BriefFit.dfy` | the text fits the line budget exactly when any cut could, and a cut section fills its room to the last line |
| Upload limit | `RateLimit.dfy` | the pruned list refines a rule over the full history, in whatever order calls arrive; the windows that never exceed the limit are exactly those of at most an hour less the disorder, or an hour when the limit is one |

`GoText.dfy` holds what the models share. Ratios are exact: `real` stands for `float64`. Integers
that can wrap in the source (`uint32` sums, the 64-bit frame counter, the big-endian fields) are
modelled with their width; the others are counters and lengths far from their bounds.

## Where the code differs from its description

The models follow the code. In these places its comments or documentation say more:

- The daily run limit (`internal/bgagent/runner.go:41`) caps the runs that started, but the guard
  counts log rows, reads them before the runs it lets through have written theirs, and a run that
  falls back logs two. Runs one after another: one run takes the logged rows past the limit, by one,
  exactly when it starts one short of it, falls back, and the store takes its answer
  (`BgLaws.CapOfOneRun`); so the log never counts more than one past the limit
  (`BgLaws.CapOverADay`). A run whose answer the store refuses has started and leaves no row: the
  calls of a day are its rows and the calls that left none (`BgLaws.CallsOverADay`), of which there
  can be any number (`BgLaws.BlankAnswersAreUnlimited`). With at most m runs of the kind in flight at a
  time the rows stay within limit + 2m - 1 (`BgLimit.LimitInFlight`), which is attained
  (`BgStarts.LimitIsAttained`), and the calls pass that only by the refused answers
  (`BgStarts.StartsInFlight`); any number let through at limit - 1 all start, without any falling back
  (`BgLimit.AdmittedTogetherAllStart`).
- A reset promises that the next run is fresh (`internal/bgagent/runner.go:485`). Without any agent
  reporting the session's id again, the session can be continued exactly when a run that continues it
  is executing, or an observation holds it, at the reset, and the store takes the id
  (`BgResets.ResetHoldsExactly`).
- An observation is a read and a later write of the whole row (`internal/bgagent/runner.go:291-307`).
  It leaves the turns and the resets of every scope standing exactly when it has nothing to write, or
  the store refuses it, or the session is still on the book as it was read and the id it reports is no
  other session's (`BgObservations.FoldIsHarmlessExactly`). Otherwise a committed turn can be lost
  (`BgObservations.ATurnIsLost`), a reset session is live again, or another project's is gone
  (`BgObservations.RenameTakesTheSession`).
- The stored context level is said to reproduce the reported ratio (`internal/bgagent/usage.go:27`).
  `BgPolicy.SnapshotReproducesTheFill` says exactly when it does.
- A successful run whose session id is only white space, or whose kind is, is refused by the store
  and leaves no log row (`internal/jobstore/background_sessions.go:164`,
  `internal/jobstore/background_runs.go:42`): `BgLaws.RunWrites`.
- An entry that is a bare `-` with text on its next lines is not recognised when a rendered
  subsection is split again (`internal/changelog/merge.go:206-281`):
  `ChangelogSection.RenderedSubsectionResplits`.
- Parsing chunk by chunk can differ from parsing at once behind `\r\r\n`
  (`internal/client/sse.go:25`): exactly when in the rest (`SseExact.ResumeExactly`), exactly when in
  the events (`SseExact.EventsResumeExactly`), after any number of reads too
  (`SseExact.ReadsResumeExactly`), and a body for which it does (`SseRoundTrip.ChunkingMatters`).
- The upload limit reads its clock before it takes the lock (`internal/attachment/service.go:125-127`),
  so attempts can be recorded out of order. Recorded at most d out of order, no window of an hour
  less d exceeds the limit (`RateLimit.NoWindowOverLimit`), and for every limit above one a longer one
  can (`RateLimit.LateArrivalsExceedTheHour`). The hour itself holds exactly when nothing is out of
  order or the limit is one (`RateLimit.WindowHoldsExactly`).
- The brief's line budget can be too small for any cut (`internal/brief/brief.go:183-216`):
  `BriefFit.FitsExactlyWhenPossible`.

## Model

| member | source | states |
|---|---|---|
| ChangelogLcs.LcsPairs | internal/changelog/merge.go:629-664 | table and greedy walk, as loops over a two-dimensional array, compute the walk over the optimal lengths |
| ChangelogLcs.FillTable | internal/changelog/merge.go:634-650 | every cell of the table holds the best length of its two suffixes |
| ChangelogLcs.FillRow | internal/changelog/merge.go:638-649 | one row, right to left, from the row below, leaving every other row alone |
| ChangelogLcs.WalkSound | internal/changelog/merge.go:651-663 | from any position the walk returns increasing in-bounds pairs of equal entries, as many as the table says |
| ChangelogLcs.NoLongerFrom | internal/changelog/merge.go:638-649 | no common subsequence from a position on is longer than its table cell |
| ChangelogLcs.LcsIsLongest | internal/changelog/merge.go:629-664 | the result is a common subsequence and none is longer |
| ChangelogLcs.GapsHoldNoEqualPair | internal/changelog/merge.go:450-462 | between two anchors of a longest common subsequence no base entry equals a side entry |
| ChangelogLcs.LcsOfSame | internal/changelog/merge.go:629-664 | a list against itself matches each entry with itself |
| ChangelogAlign.JaccardMeasures | internal/changelog/merge.go:670-686 | the word measure lies between 0 and 1, is symmetric, positive exactly when a word is shared, and 1 exactly for equal non-empty word sets |
| ChangelogAlign.JaccardIsTheShare | internal/changelog/merge.go:670-686 | the measure times the number of words of both texts is the number they share |
| ChangelogAlign.JaccardIsPositiveOnText | internal/changelog/merge.go:670-686 | it is positive only between non-empty texts, all the merge needs of a measure |
| ChangelogAlign.PairGap | internal/changelog/merge.go:471-511 | the pairs a gap records are the greedy choice over the sorted candidates, then the single leftover pair if alike at all |
| ChangelogAlign.SortDescSorts | internal/changelog/merge.go:487 | the sort keeps exactly the candidates, in falling similarity |
| ChangelogAlign.SortDescStable | internal/changelog/merge.go:487 | candidates of equal similarity keep their scan order |
| ChangelogAlign.GapPicksSound | internal/changelog/merge.go:471-511 | no entry is paired twice, pairs stay in the gap, and every pair has a positive likeness |
| ChangelogAlign.NoBlockingPair | internal/changelog/merge.go:487-496 | two entries alike enough are paired, or one of them is paired with a text at least as alike |
| ChangelogAlign.LeftoverExactly | internal/changelog/merge.go:497-510 | a pair below the threshold is recorded exactly when its ends are the only entries of the gap that no pair alike enough takes, and they are alike at all |
| ChangelogAlign.OneLeftoverAtMost | internal/changelog/merge.go:497-510 | no gap keeps exactly one entry on each side that are alike at all; a pair below the threshold is the only one of its gap and leaves no entry unpaired |
| ChangelogAnalyse.Analyse | internal/changelog/merge.go:429-466 | the imperative alignment, with its seen flags and maps, yields the analysis |
| ChangelogAnalyse.ScanGaps | internal/changelog/merge.go:447-460 | the scan over anchors records each gap's pairs, in order, behind the anchors |
| ChangelogAnalyse.Recorder.PairUp | internal/changelog/merge.go:434-439 | a rewritten entry is recorded on both sides at once |
| ChangelogAnalyse.AnalysisAligns | internal/changelog/merge.go:429-466 | the base-to-side map is injective and in bounds, each side entry is mapped or added and never both, additions increase, and every recorded rewrite is a non-empty text different from its base |
| ChangelogAnalyse.MappedOrAdded | internal/changelog/merge.go:461-465 | a side index is in the map's range exactly when it is not among the additions |
| ChangelogAnalyse.RewrittenExactly | internal/changelog/merge.go:446-460 | an entry counts as rewritten to another exactly when the pairing of their gap pairs the two |
| ChangelogAnalyse.AlikeEntriesArePaired | internal/changelog/merge.go:446-496 | two entries between the same unchanged neighbours that are alike enough are held as a rewrite, or one of them as the rewrite of a text at least as alike |
| ChangelogAnalyse.OriginText | internal/changelog/merge.go:440-444 | a mapped entry has the base text exactly when it is not recorded as rewritten |
| ChangelogAnalyse.AnalysisOfSame | internal/changelog/merge.go:429-466 | a side equal to the base maps each entry to itself and adds nothing |
| ChangelogMerge.MergeEntries | internal/changelog/merge.go:515-579 | the method, notes and conflict flag included, produces the merged items: conflict set exactly when an item is a conflict |
| ChangelogMerge.EmitOurs | internal/changelog/merge.go:524-558 | one step of the walk over ours emits the item its branch stands for |
| ChangelogMerge.BackMap | internal/changelog/merge.go:517-523 | the inverse map gives each entry of ours its base entry |
| ChangelogMerge.AppendAdded | internal/changelog/merge.go:559-565 | theirs' additions follow in order, skipping texts already emitted |
| ChangelogMerge.AppendRemoved | internal/changelog/merge.go:566-577 | each base entry removed on ours and rewritten on theirs becomes a conflict |
| ChangelogMerge.AfterMeans | internal/changelog/merge.go:515-579 | what is written so far is the rendering, notes and flag of the items so far |
| ChangelogLaws.MergeIsThreeWay | internal/changelog/merge.go:515-579 | an item is in the merge exactly when the reference wants it: the winner of a base entry's two fates, or an addition of a side |
| ChangelogLaws.ConflictExactly | internal/changelog/merge.go:538-577 | there is a conflict exactly when some base entry was rewritten on one side and removed on the other, or rewritten differently on both |
| ChangelogLaws.SwapSides | internal/changelog/merge.go:515-579 | the conflict flag does not depend on which side is ours, and a clean merge holds the same entries either way |
| ChangelogLaws.NothingDroppedSilently | internal/changelog/merge.go:515-579 | every entry of either side reaches the output, alone or in a conflict, unless it is an untouched base entry the other side removed or rewrote |
| ChangelogConflicts.BlocksHoldBothSides | internal/changelog/merge.go:591-606 | a conflict is one block with ours' text before the middle line and theirs' behind it; a half is empty exactly when its side has no text |
| ChangelogConflicts.EveryEntryIsWritten | internal/changelog/merge.go:515-606 | each entry of either side is a string of the output or a whole half of one, unless it is an untouched base entry the other side removed or rewrote |
| ChangelogConflicts.HalvesReadBack | internal/changelog/merge.go:591-606 | cutting a block at its first middle line gives both halves back exactly when no line of ours' half is one |
| ChangelogConflicts.NotesAreTheConflicts | internal/changelog/merge.go:538-577 | one note for each conflict, under its heading, and no other |
| ChangelogLaws.OnlyOursChanged | internal/changelog/merge.go:515-579 | merging (base, x, base) is x, entry for entry, without conflict |
| ChangelogLaws.BothChangedAlike | internal/changelog/merge.go:515-579 | merging (base, x, x) is x, entry for entry, without conflict |
| ChangelogLaws.OnlyTheirsChanged | internal/changelog/merge.go:515-579 | merging (base, base, x) has no conflict and holds exactly x's entries |
| ChangelogSection.SplitEntries | internal/changelog/merge.go:261-281 | the loop with its open entry yields the preamble and the joined entries of the split |
| ChangelogSection.SplitIsThePartition | internal/changelog/merge.go:258-281 | the split is the one way to cut the lines into a preamble without entry starts and blocks that start, and only start, with one |
| ChangelogSection.ResplitExactly | internal/changelog/merge.go:361-388 | a rendered subsection splits into the same preamble and entries exactly when every entry still starts like one |
| ChangelogSection.EntryLooksLikeOne | internal/changelog/merge.go:206-208 | an entry cut from lines still starts like one exactly when it is not a bare dash with text below |
| ChangelogSection.RenderedSubsectionResplits | internal/changelog/merge.go:258-287 | splitting, rendering and splitting again loses no entry exactly when no entry is a bare dash with text below |
| ChangelogSection.MergeBlock | internal/changelog/merge.go:611-624 | a block conflicts, with its note, exactly when all three texts differ; otherwise the changed side's text stands |
| ChangelogConflicts.ClashesHoldBothSides | internal/changelog/merge.go:611-624 | a block changed differently on both sides becomes one conflict block with ours' text and theirs' |
| ChangelogSection.MergeSubBody | internal/changelog/merge.go:398-409 | one subsection: merged preamble, then the merged entries one per element; the flag and the notes of both |
| ChangelogConflicts.PreambleIsSetOff | internal/changelog/merge.go:390-395 | a subsection with entries has a blank line behind its preamble, added only where there is none |
| ChangelogSection.SubsectionLaws | internal/changelog/merge.go:398-409 | the three-way laws for whole subsections, preamble included |
| ChangelogSection.SubsectionSwaps | internal/changelog/merge.go:398-409 | swapping the sides changes neither whether there is a conflict nor a clean preamble's text |
| BigEndian.GetPut | internal/castrec/envelope.go:61-86 | reading back a written number gives it modulo the field's width |
| BigEndian.PutGet | internal/castrec/envelope.go:302 | writing what was read gives the same bytes |
| BigEndian.PutInjective | internal/castrec/envelope.go:61-86 | two numbers are written alike exactly when they agree modulo the width |
| CastFormat.NonceRepeats | internal/castrec/envelope.go:61-66 | two frames share a nonce exactly when their indices agree modulo 2^64 |
| CastFormat.AadBinds | internal/castrec/envelope.go:68-86 | two frames have the same associated data exactly when file, index modulo 2^64, final flag and length modulo 2^32 agree |
| CastLaws.FrameLayout | internal/castrec/envelope.go:147-189 | frames cut the data into full chunks and one non-empty remainder, in order, and no nonce repeats within 2^64 frames |
| CastLaws.NextFrameAuthentic | internal/castrec/envelope.go:287-337 | with an ideal seal, the frame a reader accepts is the next one written, and the final one only at the end of the exact file |
| CastLaws.DecodeAuthentic | internal/castrec/envelope.go:269-337 | from any authentic position, everything decoded continues the written data, and completing means the exact file |
| CastLaws.OpenAuthentic | internal/castrec/envelope.go:240-337 | over arbitrary bytes: completion only on the exact file of a closed recording, and plaintext only as a prefix of the recording the header names |
| CastLaws.OpenHonest | internal/castrec/envelope.go:240-337 | the file of a closed recording opens completely to its data |
| CastErrors.DamageIsNamed | internal/castrec/envelope.go:287-337 | behind n intact frames their data is handed out, and the error names what stands there: nothing, part of a length, an impossible length, part of a frame, a frame that was not sealed, or bytes behind the final one |
| CastErrors.TruncationIsNamed | internal/castrec/envelope.go:240-337 | a closed file cut off anywhere gives the chunks whose frames are whole, and an error that says whether the cut fell in the header, between frames, in a length or in a frame |
| CastErrors.HeaderIsNamed | internal/castrec/envelope.go:240-264 | a header too short, of another kind or of another version is reported as such, in that order, and never for anything else |
| CastWriter.EncWriter.Write | internal/castrec/envelope.go:147-168 | any split of the plaintext keeps full chunks in the file and the rest buffered; after an error nothing more is taken, after a close a write is refused |
| CastWriter.EncWriter.FlushFrame | internal/castrec/envelope.go:170-189 | one frame is sealed under the counter nonce and its associated data; a failed write leaves a beginning of it |
| CastWriter.EncWriter.Close | internal/castrec/envelope.go:191-218 | closing leaves exactly the file of the accepted bytes, unless a write failed; closing again changes nothing |
| CastWriter.NewEncWriter | internal/castrec/envelope.go:117-143 | a new writer stands behind the header |
| CastReader.DecReader.Read | internal/castrec/envelope.go:266-285 | each read hands out the next bytes of what the file decodes to; the end is reported only when all of it was handed out, an error stays |
| CastReader.DecReader.NextFrame | internal/castrec/envelope.go:287-337 | opening the next frame is one step of the decoding |
| CastReader.NewDecReader | internal/castrec/envelope.go:240-264 | header checks in the source's order, with its errors |
| CastReader.ReadAll | internal/castrec/envelope.go:266-337 | reading to the end with any buffer sizes hands out all there is to decode |
| CastReader.RoundTrip | internal/castrec/envelope.go:117-337 | for any split into writes and reads, write, close and read give the concatenation, and the file depends on it only |
| CastReader.ReadBack | internal/castrec/envelope.go:240-337 | the file of a closed recording reads back to exactly its data, whatever the buffer sizes |
| CastReader.ReadAny | internal/castrec/envelope.go:223-337 | reading any stored bytes: a prefix of the original, and a clean end only on the exact file with all its data |
| AuthzPattern.Match | internal/authz/pattern.go:129-155 | the one-backtrack loop ends and accepts exactly what the recursive meaning of `*` accepts |
| AuthzPattern.StarGlobs | internal/authz/pattern.go:121-155 | a leading star matches exactly when the rest matches some suffix of the name |
| AuthzPattern.LiteralGlobs | internal/authz/pattern.go:121-155 | a literal run matches exactly at the front of the name |
| AuthzPattern.LaterStarSuffices | internal/authz/pattern.go:135-148 | backtracking to the last star loses no match |
| AuthzExpand.ExplainAgainst | internal/authz/pattern.go:250-273 | the loop returns the granted rows and the refused ones, each with the first rule that holds of it, or that nothing matched |
| AuthzExpand.Expand | internal/authz/pattern.go:198-207 | the expansion is the granted rows, and an error exactly for an unknown subject or an empty meaning |
| AuthzExpand.ExpandsExactly | internal/authz/pattern.go:231-273 | an unknown subject fails first, then a pattern none of whose matches is granted, and otherwise the result is exactly the granted matches |
| AuthzExpand.ExplainPartitions | internal/authz/pattern.go:250-273 | permissions and exclusions partition the rows the pattern matches, both in catalog order |
| AuthzExpand.LiteralPattern | internal/authz/pattern.go:187-197 | a pattern without a star matches exactly the name it spells |
| AuthzExpand.ExpansionIsSafe | internal/authz/pattern.go:187-197 | no expansion holds a root row, a dangerous row behind a wildcard, or for a session a row not grantable to one |
| AuthzExpand.SnapshotSorted | internal/authz/pattern.go:178-185 | a snapshot is sorted and names exactly the expansion's rows |
| AuthzExpand.FirstDifferenceDecides | internal/authz/pattern.go:178-185 | names are ordered by their first difference, a name before its extensions |
| AuthzExpand.SortKeepsAll | internal/authz/pattern.go:178-185 | the snapshot holds every name as often as the expansion |
| AuthzExpand.NewSince | internal/authz/pattern.go:284-301 | the loop returns the members of the expansion the snapshot does not know |
| AuthzExpand.GrowthIsExact | internal/authz/pattern.go:275-301 | when rows are inserted into the catalog the old expansion is contained in the new one, and what is new is exactly the granted inserted rows, in order |
| GoText.DecimalInjective | internal/acp/client.go:437-450 | different calls have different request ids |
| GoText.DecimalStandsFor | internal/acp/client.go:450 | a request id is the number in digits, without a leading zero |
| GoText.TrimSpaceCuts | internal/client/sse.go:32-41 | trimming cuts exactly the white space at both ends |
| AcpClient.Client.Call | internal/acp/client.go:437-462 | a call takes a fresh id and channel, unless the transport is dead |
| AcpClient.Client.Forget | internal/acp/client.go:493-497 | a call that gave up no longer waits |
| AcpClient.Client.Take | internal/acp/client.go:500-509 | a delivery takes out the waiting channel of its id, if any |
| AcpClient.Client.Fail | internal/acp/client.go:534-552 | the first transport error is kept and every waiting channel is taken out, each once |
| AcpProtocol.InvKept | internal/acp/client.go:437-552 | every enabled atomic step keeps the protocol's invariant |
| AcpProtocol.RunsKeepInv | internal/acp/client.go:437-552 | every state of every run, in every interleaving, keeps it |
| AcpProtocol.Correlation | internal/acp/client.go:437-552 | a channel gets at most one message, so a send never blocks; a call receives its own response or the transport error; once dead nothing is pending and no waiting call lacks its message |
| AcpProtocol.FirstFailureIsReported | internal/acp/client.go:437-552 | in every interleaving a dead client reports the first failure of the transport, and no call ever gets another transport error |
| SseParse.ParseSSE | internal/client/sse.go:24-56 | the loops over blocks and lines compute the parse |
| SseParse.LineSets | internal/client/sse.go:38-48 | a line names the event, trimmed, or adds a line of data, an empty one too, without one leading space; every other line is skipped |
| SseParse.SplitAppend | internal/client/sse.go:25-28 | splitting more text continues from the unfinished piece |
| SseParse.NormalizeAppend | internal/client/sse.go:25 | line endings of two texts joined are those of each, except at a `\r\n` cut in two |
| SseStream.ParseAppend | internal/client/sse.go:24-56 | parsing in two steps equals parsing at once when the rest carried over holds no `\r\n` |
| SseExact.ResumeExactly | internal/client/sse.go:24-56 | the two-step parse, new rest included, agrees for every text that may follow exactly then |
| SseReader.ReaderIsParser | internal/client/sse.go:24-56 | fed one character at a time, a reader that remembers a block, a line and a line break emits the frames the parser finds and ends where its unfinished piece ends |
| SseExact.BothWays | internal/client/sse.go:24-56 | at once the rest is read on as it stands, in two steps normalized once more, both behind the same frames |
| SseExact.SettledDeliversTheSame | internal/client/watch.go:84-92 | settled reads, whose rest normalized once more leaves the frames and the reader of the whole text, are read on as the whole is, whatever follows |
| SseExact.EventsResumeExactly | internal/client/watch.go:84-92 | the two-step parse delivers the same events for every text that may follow exactly when the rest is settled |
| SseExact.ReadsResumeExactly | internal/client/watch.go:77-92 | any number of reads deliver, with whatever is read next, the events of the whole text exactly when they are settled |
| SseExact.EveryCuttingExactly | internal/client/watch.go:77-112 | a body delivers the events of the whole under every cutting, whatever follows, exactly when every cutting leaves it settled; then at its end too, and without `\r\r\n` always |
| SseStream.ChunkingIsIrrelevant | internal/client/watch.go:77-112 | for bodies without `\r\r\n` the events do not depend on how the body is cut into reads |
| SseStream.StreamJob | internal/client/watch.go:70-113 | the buffering loop delivers the events up to the first `end`; cut short it delivers a beginning of them; its error is reported exactly when the body failed before an `end` |
| SseStream.CutEndIsTheFirst | internal/client/watch.go:84-92 | delivery stops with the first `end`, that event included |
| SseStream.Drain | internal/client/watch.go:94-109 | the unfinished rest is parsed as if a blank line followed |
| SseRoundTrip.WrittenParses | internal/streaming/streaming.go:526-536 | everything the server writes parses back, with nothing left over |
| SseRoundTrip.StreamDelivers | internal/client/watch.go:70-113 | written events are delivered in order, for every way the bytes are cut |
| SseRoundTrip.ChunkingMatters | internal/client/sse.go:24-56 | a body with `\r\r\n` that parses differently when cut |
| BgBook.Newest | internal/jobstore/background_sessions.go:125-135 | the newest matching row, by last use, creation and order of writing |
| BgBook.NewestIsForemost | internal/jobstore/background_sessions.go:125-135 | the lookup finds the row used last, of those the one created last, of those the one written last |
| BgBook.ActiveFor | internal/jobstore/background_sessions.go:102-107 | an active, not reset row of the exact key, if there is one |
| BgBook.LatestFor | internal/jobstore/background_sessions.go:109-114 | the newest row of the key in any state |
| BgBook.ReplaceKeeps | internal/jobstore/background_sessions.go:157-201 | replacing keeps one row an id and one active row a scope; other rows are untouched, retired in the scope, or overwritten by id |
| BgBook.ReplaceBounds | internal/jobstore/background_sessions.go:157-201 | a book whose active counts are within a limit stays one when a row within it is written |
| BgBook.EndingIsExact | internal/jobstore/background_sessions.go:205-226 | retiring drops the row of one id, a reset marks the active rows of one scope, and every other row stays as it was |
| BgBook.ReadsBack | internal/jobstore/background_sessions.go:157-201 | the row just written is what the next lookup of its key finds, and no other key of the scope finds any |
| BgPolicy.DecidesByTheLimits | internal/bgagent/policy.go:148-188 | a session is continued exactly when recorded, resumable and below every enabled limit, rotated exactly when only a limit stands against it, cleared exactly when the agent can |
| BgPolicy.ReasonNamesTheRule | internal/bgagent/policy.go:157-188 | the reason names the first limit that is reached, context, runs, age, or what became of the last session |
| BgPolicy.LooseningKeepsTheSession | internal/bgagent/policy.go:157-188 | looser limits, a lighter session or an earlier time never end a session that would be continued |
| BgPolicy.SnapshotReproducesTheFill | internal/bgagent/usage.go:27-52 | exactly when the stored pair reproduces the reported fill, to half a millionth |
| BgRunner.Runner.Stats | internal/jobstore/background_runs.go:95-134 | one pass sums runs, tokens and cost of a kind since a time, without blocked runs |
| BgRunner.Runner.Guard | internal/bgagent/runner.go:353-381 | the first tripped limit stops the run, is logged as blocked and audited; none leaves the book alone |
| BgRunner.Runner.OtherBinding | internal/bgagent/runner.go:168-181 | whether a live session of the scope has another agent or model |
| BgRunner.Runner.MakePlan | internal/bgagent/runner.go:133-166 | the plan of the book, adoption of unbound rows and reset detection included, always with the session it rotates |
| BgRunner.Runner.Build | internal/bgagent/runner.go:209-246 | the session row of each mode, built field by field |
| BgRunner.Runner.Commit | internal/bgagent/runner.go:206-265 | book, log and audit after a successful run, or nothing when the store refuses the row |
| BgRunner.Runner.Fail | internal/bgagent/runner.go:312-340 | the failed run's row, and the session dropped when asked |
| BgRunner.Runner.Fallback | internal/bgagent/runner.go:183-192 | the recorded session is dropped and the plan becomes fresh |
| BgRunner.Runner.Observe | internal/bgagent/runner.go:277-310 | late usage joins rows of the job without any, and the session while the job is its newest |
| BgRunner.Runner.ResetSessions | internal/bgagent/runner.go:485-495 | the active sessions of the scope are reset, counted and audited |
| BgRunner.Runner.Run | internal/bgagent/runner.go:433-483 | the whole run, fallback and timeout included, is the composition the laws speak of |
| BgRunner.PlansAreGrounded | internal/bgagent/runner.go:257-263 | a plan that rotates or continues has its recorded session, so a commit never misses it |
| BgLaws.RunAsks | internal/bgagent/runner.go:433-483 | a run calls the agent never, once or twice: never exactly when a hard stop is tripped, twice only after an unusable continuation, the second time fresh |
| BgLaws.RunContinues | internal/bgagent/runner.go:445-466 | every call carries the request; a continuation carries the id and last job of the newest live session of its key, or of its scope bound to no agent; a fresh call carries none |
| BgLaws.RunWrites | internal/bgagent/runner.go:433-483 | a run writes one log row a call, in the call's mode, only the last a success; a refused one writes one blocked row; a call whose answer the store refuses leaves none |
| BgLaws.CallsAreCounted | internal/bgagent/runner.go:433-483 | every call of a run is a row the daily limit counts, except a call that leaves no row |
| BgLaws.CapOfOneRun | internal/bgagent/runner.go:367-374 | at the limit no run by itself starts; one takes the logged rows past it, and then by one, exactly when it starts one short of it, falls back, and the store takes its answer |
| BgLaws.CapOverADay | internal/bgagent/runner.go:367-374 | over any sequence of runs, one after another, the log counts at most one row past the limit |
| BgLaws.CallsOverADay | internal/bgagent/runner.go:433-483 | over any sequence of runs the rows counted are the calls made less those that left no row |
| BgLaws.StartsOverADay | internal/bgagent/runner.go:353-381 | the calls of a day pass the limit by at most one and those that left no row |
| BgLaws.BlankAnswersAreUnlimited | internal/bgagent/runner.go:249-251 | those are without bound: a run below the limits whose answer has a blank session id calls the agent, leaves the book unchanged, and can be repeated any number of times |
| BgHistory.RunCountIsExact | internal/bgagent/runner.go:203-265 | over any history of runs, observations and resets the run count of an active session is the number of answers of its scope since it was opened or cleared |
| BgHistory.RunRows | internal/bgagent/runner.go:433-483 | a run changes the book only by dropping the session its fallback found unusable and by the row of its answer; a resumed session is the one its plan found |
| BgRecords.StopNamesTheFirstReached | internal/bgagent/runner.go:353-381 | a run is let through exactly when no limit is reached; a stop names the first that is, its limit and what reached it |
| BgRecords.SpentAdds | internal/jobstore/background_runs.go:94-130 | the sums behind the budgets add up: a counted row adds what it reported, any other row nothing |
| BgRecords.LateUsageIsSpent | internal/jobstore/background_runs.go:61-75 | a late report is added to the sums once for each counted row of its job that had none |
| BgRecords.LateUsageCountsOnce | internal/jobstore/background_runs.go:61-75 | reporting again changes nothing, and no other kind's sums change |
| BgRecords.RowsTellTheRun | internal/bgagent/runner.go:209-265 | each row of a run tells its call's mode, session, job, usage, sizes and times, or the status and cause of its failure |
| BgRecords.RowsGiveTheReason | internal/bgagent/runner.go:209-265 | each row gives the reason of the plan its call was made under |
| BgRecords.RefusalIsLogged | internal/bgagent/runner.go:384-401 | a refused run leaves one blocked row with the stop it returned and nothing of an agent |
| BgRecords.RunReturns | internal/bgagent/runner.go:436-483 | a run returns the limit that refused it, the timeout when its own bound was over, or the agent's error |
| BgRecords.FallbackIsExplained | internal/bgagent/runner.go:457-466 | a run asks twice exactly when a continuation failed because its session is lost or cannot be cleared, and the second plan says which |
| BgRecords.CommitFollowsTheModeUsed | internal/bgagent/runner.go:203-247 | a commit counts on only when the mode actually used is a resume, and its row names that mode |
| BgRecords.RunAudits | internal/bgagent/runner.go:255-261 | the audit trail gets a stop, a rotation with the session given up and the new one, or nothing, and exactly when |
| BgRecords.AnswerIsFound | internal/bgagent/runner.go:209-265 | after an answer the next lookup finds its session: created when opened or cleared, used now, with the level reported or, resumed without a report, the level it had |
| BgRecords.ObservationIsFound | internal/bgagent/runner.go:282-310 | a finished job's report changes the level and the id of the session only while the job is its newest |
| BgRecords.ResetIsTheReason | internal/bgagent/runner.go:485-500 | after a reset the next plan of the scope is fresh, and for that reason when the newest session of the key was reset |
| BgRecords.FreshPlanSaysWhy | internal/bgagent/runner.go:135-175 | without a session to continue the plan is fresh because the newest was reset, another agent or model holds the scope, or for no reason |
| BgRecords.ResetIsAudited | internal/bgagent/runner.go:485-510 | a reset is audited with its actor and the number of sessions it ended |
| BgRecords.LocalIdTells | internal/bgagent/runner.go:242-244 | ids made up in one scope are equal exactly for the same second and job |
| BgLimit.StepClaims | internal/bgagent/runner.go:353-381 | only a run that the guard lets through raises what the log counts and the runs in flight may still add |
| BgLimit.LimitInFlight | internal/bgagent/runner.go:353-381 | in every interleaving with at most m runs of the kind in flight, the logged rows and those still to come stay within limit - 1 + 2m |
| BgLimit.AdmittedTogetherAllStart | internal/bgagent/runner.go:353-381 | with one run left, any number of runs that come before the first row is written all start, and the count is limit - 1 plus their number, without a fallback |
| BgStarts.CallsAreTold | internal/bgagent/runner.go:433-483 | in every interleaving the rows counted and those on their way are the calls ended less the answers the store refused |
| BgStarts.StartsInFlight | internal/bgagent/runner.go:353-381 | with at most m runs of the kind in flight, the calls of a day pass limit - 1 + 2m only by the answers the store refused |
| BgStarts.LimitIsAttained | internal/bgagent/runner.go:353-381 | with one run left, any m runs that have a session to continue, let through together, all fall back and the log counts limit - 1 + 2m |
| BgProtocol.StepsAreTheRunners | internal/bgagent/runner.go:135-265 | uninterrupted, the four lookups make the runner's plan, and the writes of the book are the runner's |
| BgProtocol.StepKeeps | internal/bgagent/runner.go:135-340 | each single read or write of any number of runs, observations and resets keeps, under one policy, one row an id, one active session a scope, its count between one and the limit, and plans within the limits |
| BgProtocol.RunsKeep | internal/bgagent/runner.go:135-340 | so does every run of every interleaving |
| BgResets.GoneStaysGone | internal/bgagent/runner.go:186-192 | a session ended with nothing of it in flight is never brought back, unless an agent reports its id |
| BgResets.ResetHolds | internal/bgagent/runner.go:485-495 | after a reset with nothing of the session in flight, no later run continues it, whatever interleaves |
| BgResets.ResetInFlightIsUndone | internal/bgagent/runner.go:485-495 | any run executing at the reset, however early planned, resumed or cleared, brings the session back when it commits |
| BgResets.ResetHoldsExactly | internal/bgagent/runner.go:485-495 | a reset session can be continued again, with no agent reporting its id, exactly when something of it is in flight at the reset and the store takes its id |
| BgObservations.FoldIsHarmlessExactly | internal/bgagent/runner.go:282-310 | in every scope the live sessions stay what they were, and no ended one is live, exactly when there is nothing to write, the store refuses it, or the session is still on the book as it was read and no other session has the id to write |
| BgObservations.RenameTakesTheSession | internal/bgagent/runner.go:299-306 | an observation that reports another session's id writes over it: an ended one is live again, a live one of another scope is gone |
| BgObservations.StaleObservationForgetsTurns | internal/bgagent/runner.go:282-310 | an observation restores the count and job it read |
| BgObservations.ATurnIsLost | internal/bgagent/runner.go:282-310 | a run and an observation that overlap: the count goes one, two, one |
| AgentResolve.Resolve | internal/agent/resolve.go:52-100 | the in-place resolution, its loops over marks and templates, asks the detector once about all candidates and leaves the resolved configuration |
| AgentResolve.Strip | internal/agent/resolve.go:60-64 | the previous resolution is undone |
| AgentResolve.Collect | internal/agent/resolve.go:66-83 | the candidates, and the templates whose keys are free |
| AgentResolve.Inject | internal/agent/resolve.go:87-98 | the detected templates are added and marked |
| AgentResolve.ResolvingAgain | internal/agent/resolve.go:44-50 | resolving with one detector then another equals resolving with the other, over the same candidates |
| AgentResolve.KeysExactly | internal/agent/resolve.go:32-37 | declared entries are unchanged for every detector, and a template key is present, and marked, exactly when undeclared and detected |
| AgentResolve.AsksExactly | internal/agent/resolve.go:66-84 | the detector is asked about exactly the declared agents with their entries, the templates with a free key, and exec |
| AgentResolve.TemplatesByVerdict | internal/agent/resolve.go:52-101 | with a detector that answers for each agent it is asked, a free template is there exactly when its own entry is found |
| AgentRegistry.ReportIsFaithful | internal/agent/registry.go:816-841 | exactly the named agents are reported, exec agents as built in and available, the others exactly as detected, version and error included |
| AgentRegistry.WarmUpReportsEach | internal/agent/registry.go:816-870 | a warm-up asks about every named agent with its completed entry, and the report is the detector's finding for it |
| AgentRegistry.Registry.Reload | internal/agent/registry.go:97-101 | a new cold snapshot |
| AgentRegistry.Registry.ReloadWith | internal/agent/registry.go:103-114 | a new snapshot with its availability; none given counts as nothing found |
| AgentRegistry.Registry.Warm | internal/agent/registry.go:843-866 | one detection of the cold snapshot's own agents, kept only if the registry still holds that snapshot |
| AgentRegistry.Registry.Availability | internal/agent/registry.go:816-841 | the answer is the report of one snapshot, warmed first when cold |
| AgentProtocol.StepKeeps | internal/agent/registry.go:65-114 | each atomic step keeps: the registry shows the latest reload, snapshots carry only availability of their own configuration |
| AgentProtocol.LateWarmUpIsDropped | internal/agent/registry.go:843-866 | a warm-up that loaded before a reload never replaces it, even when the configuration is equal |
| AgentProtocol.WarmStaysWarm | internal/agent/registry.go:843-866 | once the current snapshot has its availability only a reload changes it |
| AgentProtocol.RequestsRememberTheirReload | internal/agent/registry.go:816-825 | a request keeps the reload that was current when it loaded its snapshot |
| AgentProtocol.EveryAnswerIsOfItsReload | internal/agent/registry.go:791-841 | along every run the latest reload is shown with the availability it brought, and every answer pairs the configuration current at its request with availability that belongs to it |
| Thumbnail.Downscale | internal/attachment/thumb.go:56-89 | every output pixel is the average of its own cell |
| Thumbnail.AverageCell | internal/attachment/thumb.go:69-86 | the accumulators, as 32-bit sums, compute the cell's average without overflow |
| Thumbnail.PixelIsTheMeanOfItsCell | internal/attachment/thumb.go:69-86 | each channel of an output pixel is the mean of its own cell, rounded down |
| Thumbnail.AddRow | internal/attachment/thumb.go:76-83 | one row of the cell is added to the accumulators |
| Thumbnail.TargetFits | internal/attachment/thumb.go:56-67 | the target is no larger than the source, at least a pixel a side, its longest side the thumbnail side |
| Thumbnail.TargetKeepsTheRatio | internal/attachment/thumb.go:56-67 | the short side keeps the ratio of the sides, rounded down, and is at least a pixel |
| Thumbnail.EdgesTile | internal/attachment/thumb.go:69-75 | along a side the cells run from 0 to the far edge, none empty |
| Thumbnail.OneCell | internal/attachment/thumb.go:69-75 | every source position lies in exactly one cell |
| Thumbnail.CellFits | internal/attachment/thumb.go:27-34 | under the accepted sizes no cell's channel sum reaches 2^32 |
| Thumbnail.AveragePremultiplied | internal/attachment/thumb.go:76-86 | averaging keeps colours at or below alpha |
| Thumbnail.EveryPixelOnce | internal/attachment/thumb.go:56-89 | the cells' sums add up to the sum of the image |
| BriefFit.Fit | internal/brief/brief.go:183-216 | the in-place loops compute the fitted sections |
| BriefFit.CutAll | internal/brief/brief.go:195-214 | sections are cut front to back, the last one left alone |
| BriefFit.CutSection | internal/brief/brief.go:200-213 | one section is kept, or cut to what the reserve leaves |
| BriefFit.Reserve | internal/brief/brief.go:196-199 | the headings, notes and markers still to come |
| BriefFit.FitsExactlyWhenPossible | internal/brief/brief.go:144-216 | the rendered text, header and markers included, is within the budget exactly when header, last section and the least of the others fit it |
| BriefFit.CutsAreHonest | internal/brief/brief.go:183-216 | kept lines are a prefix and kept plus cut is the original, the last section is untouched, and with room for all markers every cut drops at least two lines |
| BriefFit.NoMoreCouldBeKept | internal/brief/brief.go:183-216 | a section is left whole exactly when the later headings keep their room, and otherwise fills it to the last line; without room for every heading, sections are cut to nothing up to one without lines |
| RateLimit.Service.Allow | internal/attachment/service.go:121-141 | in any order of arrival, an attempt is admitted exactly when fewer than the limit are recent in the full history, and the history stays governed by the rule |
| RateLimit.KeptIsRecent | internal/attachment/service.go:128-140 | the caller's list, pruned again, is what the reference finds in the full history |
| RateLimit.InOrderRecentIsAdmitted | internal/attachment/service.go:118-141 | in order, recent means admitted within the last hour |
| RateLimit.NoWindowOverLimit | internal/attachment/service.go:118-141 | under one limit, with attempts recorded at most so much out of order, no window of an hour less that holds more admitted attempts than the limit; in order, no window of an hour |
| RateLimit.OneHoldsTheHour | internal/attachment/service.go:118-141 | under a limit of one no window of an hour holds two admitted attempts, in whatever order they are recorded |
| RateLimit.LateArrivalsExceedTheHour | internal/attachment/service.go:121-141 | for every limit above one and every disorder a governed history exceeds the limit in every window longer than the hour less the disorder |
| RateLimit.WindowHoldsExactly | internal/attachment/service.go:118-141 | the windows that no governed history exceeds are exactly those of at most an hour less the disorder, or an hour when the limit is one |

## Left out

- HTTP clients, commands, web, hooks, git and process spawning: plumbing around the cores.
- Whole changelog documents: sections other than the unreleased one go through git's own line
  merge, which is not part of this model; nor are `mergeUnreleased`, heading lookup and insertion.
- Tokenising entries into words (`internal/changelog/merge.go:688-696`): the words of a text are a
  parameter; Unicode classes and lower-casing are not modelled.
- Note texts: a note keeps the conflict it describes, not the formatted sentence and its label.
- AES-GCM, HKDF and randomness: sealing is any function that adds sixteen bytes, opening a table of
  what was sealed, one key a file id. Recordings stay below 2^64 frames.
- A source that fails while being read counts as one that does not end cleanly; the error's text and
  short reads of the underlying file are not modelled.
- `internal/authz/derive.go`, `catalog.go`: finite tables; the catalog is a parameter.
- Subject parsing and labels (`internal/authz/pattern.go:55-119`).
- JSON encoding of messages, request handling and notifications of the client; timeouts and killing
  the process in `Close`.
- White space is ASCII: `TrimSpace` on other Unicode spaces is not modelled.
- `WatchJob`, and a cancellation that arrives during a read rather than before it.
- SQLite itself: the session book and the run log are sequences of rows, and store operations
  succeed unless the store's own checks refuse them. Usage is kept as a value, not as JSON, and the
  last status of the daily statistics is left out.
- `ModelFromArgs`, `PolicyFromConfig`, the status view and the adapters of the background agents.
- A hard stop's formatted message: the log row keeps the stop itself.
- Time zones: the start of the day is a parameter of a run.
- The built-in template and default tables of the agents: templates are any map, defaults any
  function that keeps an entry's kind.
- The PATH lookup and version probes behind the detector: a detector is any function.
- Decoding and encoding images; the pixel buffer is a grid, not a flat buffer with a stride.
- Rewriting the limiter's list inside its old backing array: the list is a value.
- BgLaws.CapOfOneRun: one run by itself, whose clock does not run back behind the start of its day;
  runs that overlap are `BgLimit.LimitInFlight`.
- BgLaws.CapOverADay: rows of runs one after another; calls are `BgLaws.StartsOverADay`, runs that
  overlap `BgLimit.LimitInFlight` and `BgStarts.StartsInFlight`.
- BgProtocol.StepKeeps: a run reports the mode it was planned in, or fresh, as `Run` and the
  adapters do.
- BriefFit.FitsExactlyWhenPossible: a title, a note, a marker and an item of a body are one line
  each, as built by the callers.
- ChangelogLaws.OnlyTheirsChanged: states the set of entries, not their order, because theirs'
  additions are appended behind ours.
