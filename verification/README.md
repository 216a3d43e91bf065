# Navidrome core: a verified model

A Dafny model of the parts of the Navidrome music server whose correctness is decided by intricate code:
the smart-playlist compiler, the playlist position table, the artwork queue, structured lyrics, and four
smaller algorithms around them. `dafny verify dfyconfig.toml` checks the whole project.

**Smart-playlist rules** (`SqlLike`, `SqlCondition`, `ConditionMerge`, `MergePartition`, `DayCounts`, `CriteriaSql`,
`CriteriaFields`, `CriteriaMeaning`). An All/Any tree of rules is compiled to one SQL condition. The compiler batches same-field EXISTS
conditions and replaces `COALESCE(col, default) <cmp> v` by a bare comparison. Conditions are an abstract syntax with a
three-valued evaluator, LIKE included. The compiled condition is shown to select the same rows as the plain compilation
(one EXISTS per rule, COALESCE everywhere), and the plain one to select exactly the tracks the rules describe. What rules
mean is defined apart from the evaluator, in two truth values: an order on the values that are there, and stretches of
text that read alike. Two conditions turned out to be needed, and both are exact:

- No tag may be registered under two numeric flags, because the grouping key of a tag leaves its flag out and the first
  condition of a group decides whether the whole batch is cast to a number. `MergingSafeExactly` proves both halves for
  every catalogue, and `RegistrySafeExactly` for every configuration of the field registry: the only tag this can happen
  to is releasetype, which the field albumtype reads as well.
- A text rule finds its text as it is written, in every value, if and only if the text has neither `%` nor `_` in it,
  because the compiler does not escape it. `LiteralExactly` proves both halves; with wildcards the rules mean stretches
  that fit them.

**Playlist positions** (`PlaylistRows`, `PlaylistTracks`). `playlist_tracks` is a map of rows under the UNIQUE index
on (playlist, position). An UPDATE goes through the rows it chose in an arbitrary order and checks the index
after every single row; a collision undoes the statement. Reorder, Insert, Delete, renumbering, replacing and
orphan removal are the statement programs of the source, each proved to be a plain operation on the sequence
of tracks, and `Table.Run` carries that over every sequence of operations on every playlist. A reorder fails
exactly when the shifted range passes over the parking position -999999, which needs a playlist of at least
999999 tracks.

**Artwork queue** (`ArtworkQueue`). Producers upsert rows; workers read due rows without locking and finish with a
compare-and-set on `retry_at`. The protocol is a state machine over atomic steps and the snapshots workers hold. It
assumes that a `retry_at` written to a row is not one a worker has seen there; a clock ahead of every earlier dequeue
gives that. For a fresh request the condition is exact: from every state, `RequestSafeExactly` proves the request safe
from all work begun before it if and only if no worker holds the row at the request's own clock reading.

**Structured lyrics** (`LyricsModel`, `LyricText`, `VoiceAssignment`, `CueNormalize`, `TtmlText`, `TtmlCues`, `EnhancedLrc`). Lowest-free
voice assignment is proper and optimal; cue ends are normalised per agent; TTML white space is collapsed piece by
piece as section 8.2.10 of TTML2 asks; and the inclusive byte range of every cue keeps cutting out exactly the
cue's text through trimming, joining and background merging. Text is a sequence of characters with its UTF-8 bytes.

**Around them** (`SmartRefresh`, `CursorStream`, `FolderSubtree`, `AnalyzeSchedule`). Recursive refresh over a playlist
graph that may be cyclic, chunked cursors and batched artwork look-ups, LIKE on an escaped path prefix, and the
ANALYZE retry state machine. A playlist whose references lead back to it can be filled from one that is still empty;
`ReferencesDoneExactly` says exactly when.

Where the source updates variables or rows in place the model does too: a method with the source's loops is proved
against a specification function, and the promised properties are proved of that function. What such a function
computes is said once more in plain words, from the inputs alone: which elements, in which order, with which times.

## Model

| member | source | states |
|---|---|---|
| `SqlCondition.AndSelected` | persistence/criteria_sql.go:140-155 | an AND group is TRUE exactly when every member is, whatever the unknowns: the reason selection survives replacing a member by one that is only TRUE on the same rows |
| `SqlCondition.OrSelected` | persistence/criteria_sql.go:140-155 | an OR group is TRUE exactly when some member is, whatever the unknowns |
| `SqlCondition.BatchSplits` | persistence/criteria_sql.go:577-624 | one EXISTS over an OR of inner conditions finds a value exactly when one of the separate EXISTS does |
| `SqlCondition.StringLessMeans` | persistence/criteria_sql.go:699-713 | texts are ordered by the first character they differ in, a prefix before the longer text |
| `SqlLike.LikeFits` | persistence/criteria_sql.go:256-284 | the backtracking LIKE decides exactly whether a text is the pattern with each `_` one character and each `%` a stretch of them |
| `SqlLike.FitsAppend` | persistence/criteria_sql.go:256-284 | a text fits two patterns in a row exactly when it can be cut so that each part fits its own |
| `SqlLike.PlainFits` | persistence/criteria_sql.go:256-284 | a pattern without wildcards is fitted by its own text alone, up to ASCII case |
| `ConditionMerge.MergeSameFieldConds` | persistence/criteria_sql.go:495-567 | the loop over the groups map, the remove map and the sorted keys returns what stays, in its original order, followed by the batches in key order, and reports whether anything was merged |
| `ConditionMerge.BatchesPartition` | persistence/criteria_sql.go:470-560 | the batches of one field hold each of its inner conditions exactly once and in order, at most 350 to a batch and in as few batches as that allows |
| `ConditionMerge.AddedShape` | persistence/criteria_sql.go:530-560 | everything merging adds is a batch of the group's own polarity holding 1 to 350 conditions |
| `MergePartition.BatchesHoldGrouped` | persistence/criteria_sql.go:532-567 | over the whole group, the batches hold exactly the conditions they replace under the same keys, as a multiset: each in exactly one batch |
| `MergePartition.MergingKeepsConditions` | persistence/criteria_sql.go:495-567 | the rewritten group holds the same inner conditions as the group, as often; nothing is lost or repeated |
| `MergePartition.MergedMeans` | persistence/criteria_sql.go:495-567 | the rewritten group begins with exactly the conditions no other can be merged with, in their old order; the rest are batches of its polarity with 1 to 350 conditions |
| `MergePartition.GroupedMeans` | persistence/criteria_sql.go:532-546 | a condition is merged exactly when another of its polarity has an inner condition and reads the same role, or the same tag whatever its flag |
| `MergePartition.AdditionsSorted` | persistence/criteria_sql.go:534-554 | batches come in the order of their keys as strings, "role:" and "tag:" included |
| `ConditionMerge.MergedOrSelects` | persistence/criteria_sql.go:476-481 | merging the positive conditions of an OR group keeps the rows it selects |
| `ConditionMerge.MergedAndSelects` | persistence/criteria_sql.go:485-490 | by De Morgan, merging the negated conditions of an AND group keeps the rows it selects |
| `CriteriaSql.AnnotationCondSelects` | persistence/criteria_sql.go:719-759 | the bare comparison, with NULL rows put back when the default matches, is TRUE on exactly the rows where the COALESCE form is, for every comparand |
| `CriteriaSql.AnnotationCondMeaning` | persistence/criteria_sql.go:719-759 | for numeric and boolean comparands: TRUE exactly when the stored value, or the default in its absence, satisfies the comparator |
| `CriteriaSql.BareFormDiffers` | persistence/criteria_sql.go:719-731 | the two forms are not equal truth values: on a missing annotation one is unknown and the other false |
| `CriteriaSql.RangeSelects` | persistence/criteria_sql.go:293-316 | a range compiled from two bare comparisons selects the rows of the COALESCE range, or fails with the same error |
| `CriteriaSql.RuleSelects` | persistence/criteria_sql.go:140-199 | so does every single rule |
| `CriteriaSql.CompilerSelectsNaive` | persistence/criteria_sql.go:140-199 | for every tree and row, the compiled condition is TRUE exactly when the plain compilation is, and the two fail with the same errors |
| `CriteriaSql.MixedFlagsLoseRows` | persistence/criteria_sql.go:495-567 | for every catalogue with a tag under a numeric and a textual field, and every engine whose CAST sends a word to 0 as SQLite does: the rules that lose a track, and the track |
| `CriteriaSql.MergingSafeExactly` | persistence/criteria_sql.go:495-567 | with such a CAST, merging is safe for every tree and row if and only if no tag is registered under two numeric flags |
| `DayCounts.PeriodOffsetExact` | persistence/criteria_sql.go:343-345 | a period starts that many days ago exactly up to 106751 days either way |
| `DayCounts.PeriodOffsetWraps` | persistence/criteria_sql.go:343-345 | beyond that it is off by a multiple of 2^64 nanoseconds, as 64-bit durations are |
| `DayCounts.ParsePrinted` | persistence/criteria_sql.go:318-341 | every 64-bit day count is read back from the way it is written, with or without a sign; larger ones are refused |
| `DayCounts.ParseRefuses` | persistence/criteria_sql.go:318-341 | anything else than a sign and at least one digit is refused |
| `CriteriaSql.RefusedBecause` | persistence/criteria_sql.go:201-379 | which error a refused rule gives: the first check that fails, in the order of the source |
| `CriteriaSql.FirstRefusal` | persistence/criteria_sql.go:140-162 | a group is refused with the error of its first refused member |
| `CriteriaFields.Registry.AddRoles` | model/criteria/fields.go:137-145 | adds the roles that are not fields yet |
| `CriteriaFields.Registry.AddTagNames` | model/criteria/fields.go:149-167 | adds the tags that are not fields yet; recordingdate becomes the date column |
| `CriteriaFields.Registry.AddNumericTags` | model/criteria/fields.go:170-180 | marks the tags as numeric, whether they are fields yet or not |
| `CriteriaFields.TagsRegistered` | model/criteria/fields.go:25-180 | the tags of every registry go by their own names, but for albumtype, which reads releasetype; a tag is numeric exactly if it was added as such |
| `CriteriaFields.FieldsRegistered` | model/criteria/fields.go:25-180 | built-in fields stay what they are; a new name is a role first, then a tag, and recordingdate the date column |
| `CriteriaFields.RegistrySafeExactly` | model/tag_mappings.go:382-393 | for every configuration, merging is safe for every tree and row if and only if releasetype and albumtype are not configured with different types |
| `CriteriaFields.NumericReleaseTypeLosesRows` | model/tag_mappings.go:315-324 | with releasetype configured as a number, a rule on it beside one on albumtype loses a track |
| `CriteriaMeaning.ComparisonMeans` | persistence/criteria_sql.go:699-713 | a comparison is accepted exactly for known fields and selects the tracks whose value, or one of whose tag or role values, satisfies it |
| `CriteriaMeaning.HoldsIsTrue` | persistence/criteria_sql.go:699-713 | three-valued comparison is TRUE exactly when the value is there and stands in the relation, in the order of numbers before texts; lists ask for a member or for none |
| `CriteriaMeaning.IsNotMeans` | persistence/criteria_sql.go:201-206 | "is not" on a tag or role means that no value is equal; on a column it is the comparison |
| `CriteriaMeaning.LikeMeans` | persistence/criteria_sql.go:256-284 | text rules ask for a value in which the text occurs anywhere, at the start or at the end; negated ones for no such value of a tag or role, and for a column value that does not match |
| `CriteriaMeaning.PatternOccurs` | persistence/criteria_sql.go:174-181 | LIKE with the compiled pattern finds exactly the texts in which the rule's text occurs in the right place |
| `CriteriaMeaning.LiteralExactly` | persistence/criteria_sql.go:256-284 | it finds the text as written, up to ASCII case, in every value, if and only if the text has neither % nor _ |
| `CriteriaMeaning.RangeMeans` | persistence/criteria_sql.go:293-316 | a range is accepted exactly with two bounds on a column and means both comparisons |
| `CriteriaMeaning.PeriodMeans` | persistence/criteria_sql.go:318-345 | "in the last" compares the raw column with the date that many days ago; its negation also takes tracks without a date; refused for a day count that is no 64-bit integer |
| `CriteriaMeaning.EmptyTestsMean` | persistence/criteria_sql.go:236-254 | the column tests for missing and for present are each other's negation on every row, NULL included |
| `CriteriaMeaning.MissingMeans` | persistence/criteria_sql.go:208-254 | a missing/present rule is accepted exactly for a boolean on a tag, a role or a nullable column, and tells whether the value is absent or counts as empty |
| `CriteriaMeaning.MemberMeans` | persistence/criteria_sql.go:347-379 | playlist membership by id or else by path, refused with neither |
| `CriteriaMeaning.RuleMeans` | persistence/criteria_sql.go:140-199 | every rule is accepted exactly when well formed and then selects exactly the tracks it describes |
| `CriteriaMeaning.NaiveMeans` | persistence/criteria_sql.go:140-199 | so does the plain compilation of every tree |
| `CriteriaMeaning.CompilerMeansRules` | persistence/criteria_sql.go:140-199 | so does the real compiler: it accepts exactly the well-formed trees and selects exactly the tracks they describe |
| `CriteriaMeaning.WhereMeansRules` | persistence/criteria_sql.go:133-138 | the whole WHERE clause: as above, and without rules every track is selected |
| `PlaylistRows.LayoutInjective` | persistence/playlist_track_repository.go:175-324 | the rows of a playlist with positions 1..n determine its track sequence, so a claim on rows is a claim on the sequence |
| `PlaylistRows.LayoutMeans` | persistence/playlist_track_repository.go:175-324 | a playlist in order has exactly the positions 1 to n, with its tracks in turn |
| `PlaylistRows.StepApplies` | persistence/playlist_track_repository.go:200-205 | an UPDATE that moves each position to one no other row has or had cannot collide in any row order, ends with the new positions, and leaves other playlists alone |
| `PlaylistRows.KeptListing` | persistence/playlist_repository.go:439-470 | the surviving tracks at their old positions are exactly the rows a DELETE leaves |
| `PlaylistRows.KeptIncreasing` | persistence/playlist_repository.go:439-470 | survivors keep their relative order |
| `PlaylistRows.KeptPicks` | persistence/playlist_repository.go:439-470 | the tracks that stay are those at exactly the accepted indices, in increasing order |
| `PlaylistRows.RowNumberRank` | persistence/playlist_repository.go:475-498 | ROW_NUMBER over descending negated positions gives each row its place in the original order |
| `PlaylistTracks.KeepAccessible` | persistence/playlist_repository.go:310-326 | the chunked look-up keeps exactly the ids at the readable indices, in increasing order, so with order and repetitions |
| `PlaylistTracks.AccessibleInOrder` | persistence/playlist_repository.go:310-326 | the same of the specification that Add, Insert and Replace are stated with |
| `PlaylistTracks.AppliedMeans` | persistence/playlist_track_repository.go:175-324 | what every operation makes of every playlist, on the two track sequences alone: which indices stay, where the readable tracks go, where the moved track stands and that the others keep their order |
| `PlaylistTracks.MovedMeans` | persistence/playlist_track_repository.go:277-324 | after a move the track is at the new position, or at the nearest end of the playlist, and taking it out again leaves the others as they were |
| `PlaylistTracks.ShortPlaylistsAreSafe` | persistence/playlist_track_repository.go:277-324 | no move in a playlist of fewer than 999999 tracks meets the parking position |
| `PlaylistTracks.ReorderBlocked` | persistence/playlist_track_repository.go:277-324 | when the shifted range covers the parking position the second UPDATE collides with the parked row, which it does not move |
| `PlaylistTracks.MovedListing` | persistence/playlist_track_repository.go:277-324 | the final positions of a move, up or down, spell "remove at pos, insert at newPos" |
| `PlaylistTracks.InsertedListing` | persistence/playlist_track_repository.go:194-219 | the shifted tail and the filled gap, hole included, spell the sequence with the tracks inserted, in increasing positions |
| `PlaylistTracks.Table.Update` | persistence/playlist_repository.go:475-498 | a row-by-row UPDATE with the index checked after each row keeps uniqueness throughout, succeeds when no target is taken, fails when a target belongs to a row it does not move, and is undone when it fails |
| `PlaylistTracks.Table.UpdateListed` | persistence/playlist_repository.go:475-498 | a statement that makes a safe step never violates the index, whatever the row order |
| `PlaylistTracks.Table.Renumber` | persistence/playlist_repository.go:475-498 | any increasing positive positions become 1..n with the tracks in the same order |
| `PlaylistTracks.Table.AddTracks` | persistence/playlist_repository.go:285-306 | adds exactly the readable tracks at consecutive positions, in order, whenever those positions are free |
| `PlaylistTracks.Table.Add` | persistence/playlist_track_repository.go:175-190 | appends the readable tracks and counts them |
| `PlaylistTracks.Table.Replace` | persistence/playlist_repository.go:271-281 | the playlist becomes exactly the readable tracks |
| `PlaylistTracks.Table.Insert` | persistence/playlist_track_repository.go:194-219 | old[..pos-1] + readable ids + old[pos-1..], also when unreadable ids leave a hole and when pos lies past the end or below 1 |
| `PlaylistTracks.Table.DeletePositions` | persistence/playlist_track_repository.go:256-264 | removes exactly the named positions and closes the gaps in order |
| `PlaylistTracks.Table.DeleteAll` | persistence/playlist_track_repository.go:266-273 | the playlist is empty and every other one unchanged |
| `PlaylistTracks.Table.Reorder` | persistence/playlist_track_repository.go:277-324 | not found exactly outside 1..n; an index violation exactly when the range passes over the parking position; otherwise the track stands at newPos, or at place 1 below and place n above the playlist, and the others keep their order |
| `PlaylistTracks.Table.RemoveOrphans` | persistence/playlist_repository.go:439-470 | every playlist keeps exactly its tracks still in the library, in order, at positions 1..n |
| `PlaylistTracks.Table.Perform` | persistence/playlist_track_repository.go:175-324 | one operation in its transaction maps the table of playlists to the described table, a failed move changing nothing |
| `PlaylistTracks.Table.Run` | persistence/playlist_track_repository.go:175-324 | after every sequence of operations every playlist has positions exactly 1..n and holds the described tracks |
| `ArtworkQueue.CallIsRun` | persistence/artwork_queue_repository.go:150-163 | a call that queues several requests is a run of single protocol steps, all of them allowed if no worker saw its clock reading |
| `ArtworkQueue.BatchIsDequeue` | persistence/artwork_queue_repository.go:165-176 | a batch of due rows is a dequeue of the protocol that takes one snapshot of each, and nothing else |
| `ArtworkQueue.KeyForMeans` | persistence/artwork_queue_repository.go:150-163 | a request names the row of its kind, id and image type, the primary image by default |
| `ArtworkQueue.StepKeepsInv` | persistence/artwork_queue_repository.go:47-190 | every step keeps: a snapshot's retry_at matches the row exactly when it is a snapshot of the row's latest write, and retry_at is never before enqueued_at |
| `ArtworkQueue.RunKeepsInv` | persistence/artwork_queue_repository.go:47-190 | so does every run of interleaved producers and workers |
| `ArtworkQueue.ClockAheadSuffices` | persistence/artwork_queue_repository.go:150-186 | a clock ahead of every earlier dequeue, and a backoff in the future, give all the protocol assumes |
| `ArtworkQueue.SeenNeverReturns` | persistence/artwork_queue_repository.go:178-190 | once a row is not at the retry_at a worker saw, it never is again, over every run |
| `ArtworkQueue.CompletionEffect` | persistence/artwork_queue_repository.go:178-190 | a completion takes effect exactly when its snapshot is of the row's latest write |
| `ArtworkQueue.ConsumedOnce` | model/artwork.go:139-176 | each dequeued version of a row, its key and retry_at, is consumed by at most one completion, however many workers hold it and whatever happens in between |
| `ArtworkQueue.EarlierSnapshotCannotTouch` | model/artwork.go:139-176 | completing a snapshot held when a fresh request came in at a clock reading no worker saw changes nothing, after any run |
| `ArtworkQueue.RequestSafeExactly` | persistence/artwork_queue_repository.go:47-51 | from every state, a fresh request is safe from all work begun before it, over every run, if and only if no worker holds a snapshot of the row at the request's own clock reading |
| `ArtworkQueue.RequestSurvives` | model/artwork.go:139-176 | a fresh request stays queued, with no attempt spent and at least its priority, over every run without a purge of it or a completion of a later snapshot |
| `ArtworkQueue.SameInstantLosesRequest` | persistence/artwork_queue_repository.go:47-51 | such a snapshot can be held: for every row and instant, a run in which a request is lost to one |
| `ArtworkQueue.PriorityNeverFalls` | persistence/artwork_queue_repository.go:47-56 | priority does not fall while the row lives |
| `ArtworkQueue.AttemptsCountFailures` | persistence/artwork_queue_repository.go:178-186 | between fresh requests attempts grow by exactly the failures that took effect, and without any the retry time stands still |
| `ArtworkQueue.AttemptsSinceStart` | persistence/artwork_queue_repository.go:47-102 | in every run from the empty queue a row's attempts are the failures that took effect since the step that last wrote its enqueued_at, whichever way it was queued |
| `ArtworkQueue.RetryAfterRequest` | persistence/artwork_queue_repository.go:47-186 | in every admissible run from the empty queue no row's retry comes before its request |
| `ArtworkQueue.UpsertedRow` | persistence/artwork_queue_repository.go:150-163 | what a call leaves of each row: untouched unless asked for; else fresh, or with its backoff, under the largest of its old priority and all requested ones |
| `ArtworkQueue.SkipKeeps` | persistence/artwork_queue_repository.go:95-102 | a recheck leaves every row already queued, or not asked for, exactly as it was, and queues the others as their first request has them |
| `ArtworkQueue.Queue.Upsert` | persistence/artwork_queue_repository.go:150-163 | the chunked insert treats every request once, in order, with the given conflict rule |
| `ArtworkQueue.Queue.Enqueue` | persistence/artwork_queue_repository.go:47-51 | every row asked for, however often, is fresh: no attempts, due now, the largest priority; every other row is untouched |
| `ArtworkQueue.Queue.EnqueuePreservingBackoff` | persistence/artwork_queue_repository.go:53-56 | a queued row asked for keeps its attempts and times and takes the largest priority; an absent one is added fresh; every other row is untouched |
| `ArtworkQueue.Queue.InsertIfNotQueued` | persistence/artwork_queue_repository.go:95-102 | queued rows stay identical; absent ones are added fresh with the priority of their first request |
| `ArtworkQueue.Queue.DequeueBatch` | persistence/artwork_queue_repository.go:165-176 | at most n distinct rows of the wanted kinds with retry_at not after now, by falling priority and then rising enqueued_at; a due row is left out only if the batch is full and every row in it has a larger priority, or an equal one and was queued no later |
| `ArtworkQueue.Queue.MarkFailedIfUnchanged` | persistence/artwork_queue_repository.go:178-186 | counts an attempt and backs off exactly when retry_at is the one seen |
| `ArtworkQueue.Queue.DeleteIfUnchanged` | persistence/artwork_queue_repository.go:188-190 | removes the row exactly when retry_at is the one seen |
| `VoiceAssignment.AssignVoices` | model/lyrics_lyricsfile.go:128-172 | the pruning loop gives every line the lowest voice no line active at its start holds |
| `VoiceAssignment.EndMeans` | model/lyrics_lyricsfile.go:200-217 | a line ends at its own end, else its last word's, else the next line's start, else nowhere |
| `VoiceAssignment.LiveMeans` | model/lyrics_lyricsfile.go:133-171 | a line is still active at a later start exactly when it has an end and that lies after the start |
| `VoiceAssignment.LowestFreeIsProper` | model/lyrics_lyricsfile.go:128-172 | two lines of one voice never overlap |
| `VoiceAssignment.VoicesHaveNoGaps` | model/lyrics_lyricsfile.go:128-172 | below any voice in use every voice was used earlier |
| `VoiceAssignment.NeedsVoices` | model/lyrics_lyricsfile.go:128-172 | any assignment without overlaps needs, at each line, one voice more than there are earlier lines still active |
| `VoiceAssignment.VoicesOptimal` | model/lyrics_lyricsfile.go:110-198 | the number of voices equals the largest such value and no assignment without overlaps does with fewer |
| `VoiceAssignment.BuildLines` | model/lyrics_lyricsfile.go:110-198 | every entry becomes its line with the end its entries give it; for ordered starts lines that overlap have different voices; agents are declared exactly when a second voice and some words exist, and then cover the voices 0..max with the first as main |
| `VoiceAssignment.WordsToLineCues` | model/lyrics_lyricsfile.go:239-283 | each word's cue has its start, its end or the next word's start, and its agent; the words stand one after the other with nothing in between, and each cue cuts its word out |
| `VoiceAssignment.WordCueCuts` | model/lyrics_lyricsfile.go:239-283 | a word's range cuts exactly its text out of the line if and only if the word is not empty |
| `CueNormalize.NormalizeCueEnds` | model/lyrics_normalize.go:138-171 | the filling and clamping loop, with its all-or-nothing exit, computes the resolved ends |
| `CueNormalize.AllOrNone` | model/lyrics_normalize.go:138-171 | ends are all present or all absent, absent exactly when some cue has no end, no next start and no fallback |
| `CueNormalize.EndsInPlace` | model/lyrics_normalize.go:138-171 | no end precedes its own start, and none passes the next start when starts are in order |
| `CueNormalize.EndSource` | model/lyrics_normalize.go:138-171 | the exact end: the cue's own, else the next start, else the fallback, cut at the next start and not before its own start |
| `CueNormalize.NormalizeIdempotent` | model/lyrics_normalize.go:138-171 | normalising twice is normalising once |
| `CueNormalize.NormalizeCueEndsByAgent` | model/lyrics_normalize.go:97-127 | grouping, normalising and scattering back leaves every agent's cues as that agent's subsequence normalised on its own |
| `CueNormalize.ByAgentUnique` | model/lyrics_normalize.go:97-127 | that specification has one answer |
| `CueNormalize.ByAgentIdempotent` | model/lyrics_normalize.go:97-127 | normalising by agent twice is normalising once |
| `LyricText.TrimCut` | model/lyrics_ttml.go:520-553 | trimmed text is the bytes between the left and right cuts, which are in order also when everything is space |
| `LyricText.DecodeUtf8` | model/lyrics_ttml.go:520-553 | the bytes of a text decode, by the layout of RFC 3629, to its characters one by one |
| `LyricText.ClippedCut` | model/lyrics_ttml.go:534-553 | clipping spans to the trimmed range leaves cues that cut exactly their values |
| `LyricText.ClipOneMeans` | model/lyrics_ttml.go:534-550 | a span has a cue exactly if bytes of it remain between the cuts, and the cue has its times and agent |
| `LyricText.ClippedTiles` | model/lyrics_lrc.go:305-335 | cues of contiguous spans tile the trimmed line in order without a gap |
| `LyricText.TilesRebuild` | model/lyrics_lrc.go:305-335 | the values of cues that tile a line put it back together |
| `TtmlText.CollapseWhitespace` | model/lyrics_ttml.go:568-587 | the builder loop collapses each run of XML white space to one space |
| `TtmlText.CollapseAppend` | model/lyrics_ttml.go:492-518 | collapsing two texts in turn with the carried flag is collapsing them as one |
| `TtmlText.CollapseAfterSpace` | model/lyrics_ttml.go:492-518 | starting with the flag set only drops one leading space |
| `TtmlText.CollapseIdempotent` | model/lyrics_ttml.go:568-587 | collapsed text is left alone by a second collapse |
| `TtmlText.CollapseTidy` | model/lyrics_ttml.go:568-587 | collapsed text has no tab, newline or carriage return and no two spaces in a row |
| `TtmlText.CollapseKeepsSolid` | model/lyrics_ttml.go:568-587 | and all other characters as they were |
| `TtmlText.SplitByBreak` | model/lyrics_ttml.go:492-518 | the streaming loop yields the lines of collapsed pieces |
| `TtmlText.SplitCollapses` | model/lyrics_ttml.go:492-518 | the pieces of each line make up the collapsed concatenation of the text between its breaks, however it was cut into pieces |
| `TtmlText.SplitCollapsesLine` | model/lyrics_ttml.go:492-518 | the same as: collapse the concatenation and drop one leading space |
| `TtmlCues.OneLine` | model/lyrics_ttml.go:492-518 | pieces without a break are one line, their texts put together |
| `TtmlCues.LinesAtBreak` | model/lyrics_ttml.go:492-518 | a break ends one line and begins the next; with the row above this determines the texts between the breaks |
| `TtmlCues.SplitSource` | model/lyrics_ttml.go:492-518 | the pieces of the lines are the text pieces in order, each with its own cue and its solid characters; none with such a character is left out |
| `TtmlText.FinalText` | model/lyrics_ttml.go:520-553 | a finished line depends only on the text between its breaks; the second collapse changes nothing |
| `TtmlText.FinalizeLogicalLine` | model/lyrics_ttml.go:520-553 | the cursor loop computes the trimmed text and the clipped cues |
| `TtmlText.FinalCut` | model/lyrics_ttml.go:520-553 | every cue of a finished line cuts exactly its value out of it |
| `TtmlText.TimedLineTiles` | model/lyrics_ttml.go:520-553 | if every piece of a line is timed, its cues tile it and spell it |
| `TtmlCues.FinalCueTimes` | model/lyrics_ttml.go:520-553 | the cues of a finished line have the times and agents of its pieces, in order; every timed piece with a visible character has one |
| `TtmlText.BuiltKeeps` | model/lyrics_ttml.go:445-456 | exactly the lines with neither text nor cues before the first and after the last other line are dropped |
| `TtmlText.JoinedMeans` | model/lyrics_ttml.go:458-473 | the value is the kept lines' texts with a newline between neighbours |
| `TtmlCues.JoinedCuesMean` | model/lyrics_ttml.go:458-473 | the cues are those of the kept lines, line by line, changed in nothing but their place |
| `TtmlText.JoinedCut` | model/lyrics_ttml.go:445-476 | joining lines with newlines keeps every cue on its text |
| `TtmlText.BuiltCut` | model/lyrics_ttml.go:445-476 | through splitting, trimming, dropping blank lines and joining every cue cuts exactly its value |
| `TtmlText.BuildLineFromPieces` | model/lyrics_ttml.go:445-476 | the code computes that value and those cues: the kept lines, joined by newlines, with every cue cutting its value |
| `EnhancedLrc.ParseEnhancedLine` | model/lyrics_lrc.go:243-335 | value and cues of a marked line; every cue cuts its value, and the cues tile and spell the line |
| `EnhancedLrc.LineCuesTile` | model/lyrics_lrc.go:243-335 | for every list of markers, also ones that do not parse or have no text, the cues cut, tile and spell the trimmed spoken text |
| `EnhancedLrc.CueTimes` | model/lyrics_lrc.go:243-335 | each cue starts at the time of its marker, in order; every marker with a time and visible text has one; only the last cue has an end, the time of a last marker with nothing after it |
| `EnhancedLrc.ValueMeans` | model/lyrics_lrc.go:243-335 | the value is the words of the markers with a time, or, if there are none, the text before the markers and all words, trimmed |
| `EnhancedLrc.MergedCut` | model/lyrics_lrc.go:207-229 | appending background layers keeps every main and background cue on its text |
| `EnhancedLrc.MergedJoins` | model/lyrics_lrc.go:207-229 | the merged line is its own text, if any, and the texts of the layers with cues, with a space between neighbours |
| `EnhancedLrc.MergedCuesMean` | model/lyrics_lrc.go:207-229 | the merged cues are the line's own, then each layer's in turn under the background agent, changed in nothing but their place |
| `EnhancedLrc.MergeBgLayers` | model/lyrics_lrc.go:207-229 | the merging loop does that, leaves the main cues first and unchanged, and reports whether any layer had cues |
| `EnhancedLrc.ShiftCueTimes` | model/lyrics_lrc.go:360-377 | a repeated line's cues move in time only and stay on their text |
| `SmartRefresh.Refresher.RefreshTree` | persistence/smart_playlist_repository.go:27-87 | terminates on every reference graph by the number of unvisited playlists, leaves the specified visited set and trace through every early return, and succeeds exactly on a first visit to a due playlist without a failure |
| `SmartRefresh.Refresher.RefreshChildren` | persistence/smart_playlist_repository.go:107-149 | refreshes the children one after the other on the shared visited set, none if they cannot be loaded |
| `SmartRefresh.RefreshGood` | persistence/smart_playlist_repository.go:27-87 | every call, at any depth, keeps the trace invariant and adds events only about playlists it was first to visit |
| `SmartRefresh.RewrittenOnce` | persistence/smart_playlist_repository.go:27-87 | in one refresh no playlist is visited, cleared or filled twice |
| `SmartRefresh.FilledAfterReferences` | persistence/smart_playlist_repository.go:48-66 | when a playlist is filled each playlist it refers to has finished for good, unless a chain of references that the refresh follows leads back from it |
| `SmartRefresh.ReachedIsFilled` | persistence/smart_playlist_repository.go:27-149 | a refresh fills every playlist that can be filled along the references it follows |
| `SmartRefresh.ReferencesDoneExactly` | persistence/smart_playlist_repository.go:27-149 | wherever the refresh starts, a playlist is filled only after all it refers to have finished, if and only if it cannot be filled or none of those leads back to it |
| `SmartRefresh.CycleFillsFromEmpty` | persistence/smart_playlist_repository.go:27-149 | two playlists that refer to each other: the whole trace, in which the second is filled while the first is cleared and still empty |
| `SmartRefresh.EveryVisitEnds` | persistence/smart_playlist_repository.go:27-87 | every visit that starts has ended when the refresh returns |
| `CursorStream.PageIsFetched` | persistence/artwork_hydration.go:41-54 | for an order that is total on the table and unique ids, asking for the ids of a page with the page's filter gives back the page, in order |
| `CursorStream.ChunkedIsUnchunked` | persistence/artwork_hydration.go:21-54 | streaming the ids in chunks yields exactly the unchunked list in order |
| `CursorStream.SortThenIdIsTotal` | persistence/artwork_hydration.go:39-40 | sorting by a key and then by id orders the rows of every table, so the theorems apply to such queries |
| `CursorStream.NarrowedFetches` | persistence/artwork_hydration.go:41-54 | the options narrowed to a chunk of ids, which drop limit and offset, ask for the base query's rows with those ids in its order |
| `CursorStream.WindowMeans` | persistence/sql_base_repository.go:149-162 | a positive offset skips that many rows and a positive limit stops after that many |
| `CursorStream.CursorIsQuery` | persistence/artwork_hydration.go:19-54 | for all query options, resolving the ids first and streaming them through the narrowed options yields the query's own answer, page included |
| `CursorStream.StreamByIds` | persistence/artwork_hydration.go:21-37 | a consumer sees a prefix of that stream up to where it stops, is never called after it stopped, and a failed fetch ends the stream |
| `CursorStream.TakenMeans` | persistence/artwork_hydration.go:21-37 | a consumer takes the outputs in order, up to and including the first after which it wants no more |
| `CursorStream.FailedChunkEnds` | persistence/artwork_hydration.go:21-37 | a chunk that cannot be fetched ends the stream with the error, after the rows of the chunks before it |
| `CursorStream.HydrateItems` | persistence/artwork_hydration.go:79-90 | one look-up for all ids gives every row its own artwork |
| `CursorStream.BatchesArePointwise` | persistence/artwork_hydration.go:138-166 | on error-free input batch hydration equals row-by-row hydration, the last short batch included |
| `CursorStream.ErrorDropsPartialBatch` | persistence/artwork_hydration.go:138-166 | on an error exactly the whole batches before it are shown, then the error, then nothing |
| `CursorStream.HydrateCursor` | persistence/artwork_hydration.go:138-166 | the buffer loop does that and never yields after the consumer stopped |
| `FolderSubtree.PatternIsPrefix` | persistence/folder_repository.go:249-253 | for every path, with any of backslash, percent and underscore in it, a string matches the escaped pattern exactly when it begins with the path and a slash, up to the case of ASCII letters |
| `FolderSubtree.ExactWithoutLetters` | persistence/folder_repository.go:210-226 | the match is exact if and only if the path has no ASCII letter |
| `FolderSubtree.SubtreeMeans` | persistence/folder_repository.go:210-226 | for stored folders the three tests accept the one at the path and those whose location begins with it and a slash, up to ASCII case below the children |
| `FolderSubtree.SubtreeExactly` | persistence/folder_repository.go:210-226 | they accept exactly the folders within the path, whatever is stored, if and only if it has no ASCII letter |
| `FolderSubtree.FolderSubtreeFilter` | persistence/folder_repository.go:210-226 | the filter selects exactly the present folders of the library that the tests of one of the paths accept, or all of them when one is the root |
| `AnalyzeSchedule.MarkOutlastsAllButSuccess` | db/optimize.go:129-145 | in every run a pending mark is gone only if some refresh was recorded as successful after it |
| `AnalyzeSchedule.PropsCarryStreak` | db/optimize.go:197-251 | the stored properties carry the number of consecutive recorded failures, the time of the last one and, while it lasts, the pending mark |
| `AnalyzeSchedule.BackoffExact` | db/optimize.go:34-120 | after f consecutive failures a conditional refresh starts exactly when the delay for f has passed since the last one; a clock set back before it ends the backoff |
| `AnalyzeSchedule.NoStartInsideBackoff` | db/optimize.go:88-120 | on a clock that never runs backwards no conditional refresh starts inside the backoff |
| `AnalyzeSchedule.RetryDelay` | db/optimize.go:109-120 | the delays: 30 minutes, 1 hour, 2 hours, then 24 hours |
| `AnalyzeSchedule.Analyzer.MarkOptimizePending` | db/optimize.go:129-131 | sets the mark or, when the write fails, nothing |
| `AnalyzeSchedule.Analyzer.OptimizeDue` | db/optimize.go:54-81 | never while backing off; otherwise exactly with a pending mark or without a readable analysis of the last 24 hours |
| `AnalyzeSchedule.Analyzer.AnalyzeRetryBackoffActive` | db/optimize.go:88-107 | active exactly with a positive failure count and a readable last attempt whose delay is running |
| `AnalyzeSchedule.Analyzer.OptimizeAt` | db/optimize.go:133-145 | after a success no refresh is due for a day; after a recorded failure none until the delay for the new count; the mark is there after any other outcome unless it was not and both writes failed |
| `AnalyzeSchedule.Analyzer.OptimizeIfNeeded` | db/optimize.go:34-52 | analyses exactly when due and readable, otherwise changes nothing, and never runs while backing off |

## Left out

- SQL text and placeholders, the squirrel builder and SQLite itself: conditions and tables are abstract; the text of a number and CAST are parameters of the evaluator.
- SQLite type affinity: a text comparand stands for a string that reads neither as a number nor as a boolean; nil comparands and rules naming several fields at once are not modelled, and field, tag and role names are given in lower case.
- Time zones and the calendar: the date at an offset from now is a parameter of the compiler.
- A field registry filled twice: the registry is that of one pass over one configuration.
- An ordering comparison against a list: the SQL builder refuses it when the text is rendered; here it is unknown on every row.
- The permission part of the playlist subquery, and joins, sorting and limits of smart playlists.
- Playlist counters, cover rebuilds, permissions, and the row numbers of smart playlists, which are not editable.
- Ids given to Delete are positions already read as integers; positions beyond 32 bits are not modelled.
- A multi-row statement: the rows an UPDATE touches are chosen when it starts and a failed statement is undone; a failed Reorder is undone by the transaction around it (core/playlists/playlists.go:325-327).
- ArtworkQueue.Queue.Upsert: takes one call as uninterrupted; a dequeue between two chunks of one call is seen only as separate protocol steps with their own clock readings.
- Which rows EnqueueAllMissing, EnqueueIfMissing and EnqueueBySource select, the trace column, and the workers that resolve artwork; purges are steps that remove an arbitrary set of rows.
- XML and YAML decoding, regular expressions, time parsing and text sanitising: pieces, marker spans and times are inputs, and text is valid Unicode. Agent ids are a datatype instead of formatted strings.
- Frame, tick and clock arithmetic of TTML, line timing across languages (normalizeLineTiming) and cue-line normalisation.
- VoiceAssignment.AssignVoices: states the voice properties for lines ordered by start; unordered entries get voices and agents, with no claim about overlaps.
- VoiceAssignment.WordCueCuts: an empty word has no range, because an inclusive range cannot be empty; its cue cuts nothing.
- Whether a smart playlist is due, path look-ups by Unicode normal form and the warnings of a refresh: the due test, the accessible references and the database failures are inputs.
- hydrateMediaFileArtwork and failing artwork look-ups; queries that fail give no cursor, and the order of a query with no sorting of its own is taken to be fixed.
- path.Clean and the hash behind folder ids are parameters of the subtree filter; the meaning of its tests takes the hash to be injective. LIKE folds ASCII case, so folders that differ from the path only in case are selected too, as PatternIsPrefix and ExactWithoutLetters state.
- The steps of ANALYZE itself and the lock around them: calls are serialised and their failures are inputs; stored failure counts beyond the integer range are not modelled.
- Repositories that only wrap the database, the scanner, plugins, configuration, the HTTP API and the user interface.
