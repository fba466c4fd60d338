# Quran recitation transcription pipeline — a Dafny model

This project models the core of a service that takes a recording of Quran recitation and turns it into per-ayah audio files with timestamps.

The service is a pipeline of steps over one shared context:

- **silence detection** cuts the audio into chunks at silences;
- **chunk merging** folds short chunks into the chunk before them;
- speech recognition runs on each chunk;
- **duplicate removal** drops the words that two consecutive chunk transcriptions share at their boundary;
- **transcription combining** joins the cleaned transcriptions into one text;
- verse matching pairs chunks with ayahs;
- **timestamp calculation** turns the chunk-to-ayah matches into one time span per ayah;
- the optional **transcription alignment** step attaches word-level timings to each chunk.

The model also covers:

- the **pipeline container** (`Pipeline`, `PipelineStep`, `PipelineContext`) that runs the steps and records their results;
- the **orchestrator** that builds full and partial pipelines and summarises a run;
- the reference-text helpers of **`QuranData`**: Arabic normalisation, word counts, loading the Uthmani text file, verse lookup and timestamp formatting;
- the two **audio splitters**:
  - the silence-aware one (`app/utils/audio_splitter.py`) moves each cut between ayahs into a nearby silence and writes a zip with rich metadata;
  - the original one (`app/audio_splitter.py`) cuts every gap in its middle.

Each Python component is one Dafny module. Two modules are shared:

- `Wrappers` holds `Option` and `Result`.
- `Text` models Python's `str.split()`, `str.split(sep)`, `' '.join`, `strip`, `find` and `replace`.

`Numbers` models `int()` and `f"{n:03d}"`. `Timestamps` models `_parse_timestamp`. `AyahFiles` models the file-naming code that both splitters share.

Python floats become Dafny `real`s, which are exact, or whole milliseconds and samples. Python's truncating `int()` of a quotient is written out as `SilenceDetection.TruncDiv`.

Whatever the code gets from a library or the outside world is a parameter of the model:

- pydub's `detect_nonsilent` and `detect_silence`;
- rapidfuzz's `fuzz.ratio`;
- the wav2vec2 aligner and the comparison inside its trellis;
- each step's `should_skip`, `validate_input` and `process`;
- whether a zip entry was written;
- the clock.

Some behaviours of the code that are easy to misread, and that the model keeps as written:

- The ±10 s silence search (`search_window_ms`) runs only where two ayahs touch exactly (`app/utils/audio_splitter.py:211-231`). When it finds no silence, the cut stays where it was and only the later ayah is flagged uncertain; the earlier one keeps its flag (`AudioSplitter.UnresolvedCut`).
- Every positive gap between two ayahs is split in its middle, rounded down, and neither ayah becomes uncertain; an overlap is left alone (`app/utils/audio_splitter.py:233-238`, `AudioSplitter.PositiveGapMidway`).
- The alignment step skips reused chunks, chunks without text or without a positive time span, and chunk indices it has already aligned; those chunks get no word timings.
- An upload whose name has no dot has an empty suffix. The WAV fallback then runs `filename.replace('', '.wav')`, which puts `.wav` around every character of the name; the model keeps that behaviour (`AyahFiles.EmptySuffixName`).
- Timestamp calculation validates `matched_verses` but then reads `matched_chunk_verses` (`app/pipeline/steps/timestamp_calculation.py:22-27` against line 36). `TimestampCalculation.ValidateInput` models the check as written.

## Model

| member | source | states |
|---|---|---|
| DuplicateRemoval.Overlap | app/pipeline/steps/duplicate_removal.py:67-75 | the number of boundary words removed is the LONGEST k for which the last k words of the previous chunk equal the first k words of the current one (0 when there is none), and never more than either chunk has |
| DuplicateRemoval.OverlapUpTo | app/pipeline/steps/timestamp_calculation.py:212-216 | the largest k up to the bound for which the last k words of the first list open the second, or 0; no larger k up to the bound works |
| DuplicateRemoval.BoundaryOverlap | app/pipeline/steps/duplicate_removal.py:69-75 | the loop that keeps the last matching overlap length computes exactly that longest overlap |
| DuplicateRemoval.Removed | app/pipeline/steps/duplicate_removal.py:52-75 | the words removed from a chunk are a genuine repeat of the previous chunk's tail, and no longer repeat exists |
| DuplicateRemoval.Clean | app/pipeline/steps/duplicate_removal.py:77-93 | a cleaned chunk keeps its index; with no overlap it is unchanged; otherwise its normalized words are the original ones minus the repeated prefix, written with single spaces, its word count is the number of remaining words, and its original text loses the same number of words only when it has at least that many (otherwise it is kept) |
| DuplicateRemoval.CleanAll | app/pipeline/steps/duplicate_removal.py:42-100 | one cleaned chunk per input chunk; the first is kept as is and each later one is cleaned against the ORIGINAL (not the cleaned) previous chunk |
| DuplicateRemoval.RemoveDuplicates | app/pipeline/steps/duplicate_removal.py:42-107 | the result is the cleaned list, with the last chunk dropped exactly when its stripped normalized text is the closing phrase "صدق الله العظيم" |
| DuplicateRemoval.ValidateInput | app/pipeline/steps/duplicate_removal.py:21-26 | the step accepts its input iff there is at least one transcription |
| DuplicateRemoval.FirstUnchanged | app/pipeline/steps/duplicate_removal.py:42-49 | the first transcription survives unchanged unless it is the only one and is the closing phrase |
| DuplicateRemoval.NoWordsUnchanged | app/pipeline/steps/duplicate_removal.py:55-65 | a chunk whose own or previous normalized text has no words is left untouched |
| DuplicateRemoval.CleanedSuffix | app/pipeline/steps/duplicate_removal.py:80-83 | the cleaned normalized words are a suffix of the original words, cut at the removed count |
| DuplicateRemoval.RemoveDuplicatesSuffixes | app/pipeline/steps/duplicate_removal.py:42-100 | every surviving chunk after the first is its original words minus the repeat it shares with its predecessor |
| DuplicateRemoval.RemovesLongestRepeat | app/pipeline/steps/duplicate_removal.py:67-83 | if k is a repeat and no longer repeat exists, then exactly k words are removed: the longest repeat is found |
| TranscriptionCombining.NonEmpty | app/pipeline/steps/transcription_combining.py:40-44 | the filter keeps only non-empty texts and never adds any |
| TranscriptionCombining.NonEmptyPositions | app/pipeline/steps/transcription_combining.py:41-43 | the positions of the non-empty texts, strictly increasing, with every non-empty position listed |
| TranscriptionCombining.NonEmptyInOrder | app/pipeline/steps/transcription_combining.py:40-44 | the filtered list is exactly the texts at those positions, in input order: every non-empty text is kept once and nothing else |
| TranscriptionCombining.Combine | app/pipeline/steps/transcription_combining.py:40-54 | the combined normalized text, read as words, is every chunk's normalized words in order, and the same holds for the original texts |
| TranscriptionCombining.ValidateInput | app/pipeline/steps/transcription_combining.py:21-26 | the step accepts its input iff cleaned transcriptions exist and are not empty |
| TranscriptionCombining.SplitAllNonEmpty | app/pipeline/steps/transcription_combining.py:41-44 | dropping empty texts before joining loses no word |
| TranscriptionCombining.CombineWords | app/pipeline/steps/transcription_combining.py:40-44 | joining the non-empty texts with spaces gives, as words, the concatenation of all texts' words |
| TranscriptionCombining.CombinedWordCount | app/pipeline/steps/transcription_combining.py:40-44 | the combined text has as many words as the chunks have together |
| TranscriptionCombining.CombineCanonical | app/pipeline/steps/transcription_combining.py:40-44 | when each chunk's normalized text is single-spaced and trimmed, so is the combination |
| SilenceDetection.TruncDiv | app/pipeline/steps/silence_detection.py:112-113 | Python's `int(a / b)` truncates toward zero, for negative numerators too |
| SilenceDetection.SliceBound | app/pipeline/steps/silence_detection.py:116 | a slice bound outside the array is clamped into it and an in-range bound is kept |
| SilenceDetection.SliceLen | app/pipeline/steps/silence_detection.py:116 | a slice is never longer than the array and, within it, has length end minus start |
| SilenceDetection.RangeChunk | app/pipeline/steps/silence_detection.py:106-126 | a chunk made from a non-silent range carries the range's position as its index, starts at or after 0, ends no later than the audio, lasts at least 0.1 s and at most the whole audio |
| SilenceDetection.Candidates | app/pipeline/steps/silence_detection.py:106-126 | one candidate per detected range, each with the range's position as index |
| SilenceDetection.Present | app/pipeline/steps/silence_detection.py:118-126 | the kept chunks are exactly the candidates that passed the length test, in order, with strictly increasing indices |
| SilenceDetection.DetectChunks | app/pipeline/steps/silence_detection.py:93-126 | with no non-silent range the whole audio is a single chunk 0; otherwise at most one chunk per range, in increasing index order |
| SilenceDetection.ValidateInput | app/pipeline/steps/silence_detection.py:48-53 | the step accepts its input iff audio is present |
| SilenceDetection.DetectChunksExact | app/pipeline/steps/silence_detection.py:106-126 | range i yields a chunk iff its padded slice is at least 0.1 s long |
| SilenceDetection.DetectChunksSource | app/pipeline/steps/silence_detection.py:106-126 | every chunk comes from the range its index names |
| SilenceDetection.DurationIsSpan | app/pipeline/steps/silence_detection.py:119-124 | when the sample bounds lie within the audio, a chunk's duration is its end time minus its start time |
| SilenceDetection.StartBound | app/pipeline/steps/silence_detection.py:108-112 | a padded start clamped at 0 gives a start time that is not negative |
| SilenceDetection.EndBound | app/pipeline/steps/silence_detection.py:109-113 | a padded end clamped at the audio length gives an end time within the audio |
| ChunkMerging.GroupDurations | app/pipeline/steps/chunk_merging.py:67-85 | the groups are never empty; there are no more groups than chunks, and none exactly when there are no chunks |
| ChunkMerging.PyIndex | app/pipeline/steps/chunk_merging.py:93-94 | list indexing succeeds iff the index is within minus the length and the length (negative indices count from the end), and an in-range index picks that element |
| ChunkMerging.MergeGroups | app/pipeline/steps/chunk_merging.py:87-95 | one merged chunk per group, with the group's total duration; the IndexError happens iff some group names a chunk index that is not a valid list position |
| ChunkMerging.MergeChunks | app/pipeline/steps/chunk_merging.py:58-103 | a successful merge re-indexes the chunks 0..m-1, never yields more chunks than it got, and yields none only from none |
| ChunkMerging.ValidateInput | app/pipeline/steps/chunk_merging.py:36-41 | the step accepts its input iff chunks are present and not empty |
| ChunkMerging.MergeByPosition | app/pipeline/steps/chunk_merging.py:87-101 | each block of consecutive chunks becomes one chunk from its first chunk's start to its last chunk's end, with the block's total duration, indexed by position |
| ChunkMerging.MergeChunksByPosition | app/pipeline/steps/chunk_merging.py:58-103 | the corrected merge is re-indexed 0..m-1, never longer than its input, empty only for empty input, and preserves the total duration |
| ChunkMerging.BlocksPartition | app/pipeline/steps/chunk_merging.py:70-85 | the blocks cut the chunk list into consecutive runs: each run opens with the first chunk or with a chunk of at least the minimum duration, and every other member is shorter than the minimum |
| ChunkMerging.RunPartitionUnique | app/pipeline/steps/chunk_merging.py:70-85 | there is only one such cut, so any run partition is the blocks |
| ChunkMerging.GroupsAreRuns | app/pipeline/steps/chunk_merging.py:67-85 | the (duration, indices) groups of the source are exactly the summaries of those runs |
| ChunkMerging.GroupsLongEnough | app/pipeline/steps/chunk_merging.py:76-85 | for chunks with non-negative durations, every group after the first lasts at least the minimum duration |
| ChunkMerging.MergedSum | app/pipeline/steps/chunk_merging.py:80-83 | merging loses or adds no duration |
| ChunkMerging.MergeAgrees | app/pipeline/steps/chunk_merging.py:87-101 | when every chunk's index equals its position, the code as written succeeds and equals the corrected merge |
| ChunkMerging.MergeRuns | app/pipeline/steps/chunk_merging.py:87-101 | when every chunk a run names is found at its index, the merge as written succeeds and equals the merge by position |
| ChunkMerging.GapIgnored | app/pipeline/steps/chunk_merging.py:22-34 | the `min_silence_gap` setting has no effect on the result |
| ChunkMerging.DetectorSkipsIndex | app/pipeline/steps/silence_detection.py:106-126 | with `keep_silence` 0, a 50 ms range between two 1 s ranges, separated from them by silences that a `min_silence_len` of 400 ms detects, is dropped, and the chunks it leaves carry indices 0 and 2 |
| ChunkMerging.SkippedIndexGroups | app/pipeline/steps/chunk_merging.py:67-85 | those two chunks form one group that names chunk indices 0 and 2 |
| ChunkMerging.SkippedIndexRuns | app/pipeline/steps/chunk_merging.py:70-85 | by position they form one run of 2 s |
| ChunkMerging.SkippedIndexBreaksMerge | app/pipeline/steps/chunk_merging.py:93-94 | on that detector output the merge as written fails (index 2 of a two-element list), while the corrected merge yields one chunk from 0 s to 3 s of 2 s |
| TimestampCalculation.FirstMatch | app/pipeline/steps/timestamp_calculation.py:248-253 | the first window of the ayah context at or after the start position whose similarity reaches 85, or none when no window does |
| TimestampCalculation.ContextParts | app/pipeline/steps/timestamp_calculation.py:219-225 | the context joined for matching holds only non-empty ayah texts |
| Text.FindFrom | app/pipeline/steps/timestamp_calculation.py:261 | `str.find(sub, start)` gives the first position at or after the start where the text occurs, and -1 exactly when it occurs nowhere there |
| TimestampCalculation.AreChunksConsecutive | app/pipeline/steps/timestamp_calculation.py:176-278 | two chunk texts are consecutive only if both have words |
| TimestampCalculation.FirstAfter | app/pipeline/steps/timestamp_calculation.py:107-114 | the first chunk whose index is after the previous verse's last chunk, or none when all are at or before it |
| TimestampCalculation.Extend | app/pipeline/steps/timestamp_calculation.py:115-138 | growing the run chunk by chunk while the next one links; stated by TimestampCalculation.ExtendFacts |
| TimestampCalculation.ExtendFacts | app/pipeline/steps/timestamp_calculation.py:115-138 | the run grows by the longest prefix of the remaining chunks in which each chunk links to the previous one (next index and consecutive text), and stops at the first that does not |
| TimestampCalculation.ExtendSlice | app/pipeline/steps/timestamp_calculation.py:104-138 | a run grown from the chunk at position p is the stretch of the sorted chunks from p that stays linked, ending before the first chunk that does not link |
| TimestampCalculation.Run | app/pipeline/steps/timestamp_calculation.py:104-138 | a verse keeps no more chunks than it has |
| TimestampCalculation.FilterChunks | app/pipeline/steps/timestamp_calculation.py:104-138 | the filtering loop computes the run: the first chunk after the last index, followed by its linked successors |
| TimestampCalculation.InsertKey | app/pipeline/steps/timestamp_calculation.py:79 | inserting a verse key keeps the list ascending and adds exactly that key |
| TimestampCalculation.SortKeys | app/pipeline/steps/timestamp_calculation.py:79 | the sorted verse keys are ascending and are exactly the keys given |
| TimestampCalculation.InsertChunk | app/pipeline/steps/timestamp_calculation.py:89 | inserting a chunk keeps the list sorted by chunk index and adds exactly that chunk |
| TimestampCalculation.SortChunks | app/pipeline/steps/timestamp_calculation.py:89 | the sorted chunks are ordered by chunk index and as many as given |
| TimestampCalculation.SortChunksPermutes | app/pipeline/steps/timestamp_calculation.py:89 | sorting a verse's chunks is a permutation of them |
| TimestampCalculation.SortChunksStable | app/pipeline/steps/timestamp_calculation.py:89 | the sort is stable: chunks with the same index keep their input order |
| TimestampCalculation.PivotKeys | app/pipeline/steps/timestamp_calculation.py:46-63 | the verse map has one entry for each (surah, ayah) that some chunk matched, and no other |
| TimestampCalculation.PivotChunks | app/pipeline/steps/timestamp_calculation.py:65-72 | each verse's chunk list is every chunk that matched it, in input order, and is never empty |
| TimestampCalculation.PivotFirst | app/pipeline/steps/timestamp_calculation.py:55-63 | a verse's text fields come from the first match that named it |
| TimestampCalculation.PivotEntryKeys | app/pipeline/steps/timestamp_calculation.py:52-63 | each verse entry is stored under its own (surah, ayah) key |
| TimestampCalculation.Pivot | app/pipeline/steps/timestamp_calculation.py:46-72 | the `verse_to_chunks` dictionary built pair by pair; stated by TimestampCalculation.PivotKeys, TimestampCalculation.PivotChunks, TimestampCalculation.PivotFirst and TimestampCalculation.PivotEntryKeys |
| TimestampCalculation.LinkedIndices | app/pipeline/steps/timestamp_calculation.py:117 | in a linked run the chunk indices are consecutive integers |
| TimestampCalculation.RunFacts | app/pipeline/steps/timestamp_calculation.py:104-138 | a verse's run is empty iff none of its chunks comes after the previous verse; otherwise it is a contiguous slice of the sorted chunks that starts at the first chunk after the previous verse, is linked throughout, and ends at the first chunk that fails to link |
| TimestampCalculation.ValidateInput | app/pipeline/steps/timestamp_calculation.py:22-27 | the step accepts its input iff `matched_verses` is present and not empty |
| TimestampCalculation.VerseRunFacts | app/pipeline/steps/timestamp_calculation.py:104-145 | a verse's run starts after the previous verse's last chunk |
| TimestampCalculation.RunsOfAfter | app/pipeline/steps/timestamp_calculation.py:104-145 | this holds for every verse and every earlier last index |
| TimestampCalculation.ProcessOrdered | app/pipeline/steps/timestamp_calculation.py:140-145 | the emitted verse slices start after the last chunk so far, and each slice's chunks come after the previous slice's chunks |
| TimestampCalculation.ProcessSpans | app/pipeline/steps/timestamp_calculation.py:147-162 | each slice runs from its first chunk's start time to its last chunk's end time, its duration is their difference, and its chunk count is the number of its chunks |
| TimestampCalculation.ProcessKeysAscend | app/pipeline/steps/timestamp_calculation.py:79-86 | slices are emitted in ascending verse-key order, each for a key of the sorted list |
| TimestampCalculation.ProcessFrom | app/pipeline/steps/timestamp_calculation.py:79-162 | the loop from position i emits at most one slice per remaining verse, none past the end, and each slice counts its chunks, of which it has at least one |
| TimestampCalculation.EmittedAscend | app/pipeline/steps/timestamp_calculation.py:81-86 | the verse positions the loop emits a slice for are each visited once, in the order of the sorted keys |
| TimestampCalculation.EmittedComplete | app/pipeline/steps/timestamp_calculation.py:104-145 | a verse is dropped only when no chunk survives its filter after the running last chunk index; every verse whose filtered run is non-empty gets a slice |
| TimestampCalculation.ProcessFromSlices | app/pipeline/steps/timestamp_calculation.py:104-162 | slice a is built from the verse at the a-th emitted position and from exactly that verse's filtered run after the running last chunk index |
| TimestampCalculation.ProcessFromLast | app/pipeline/steps/timestamp_calculation.py:76-141 | the running last chunk index is -1 for the first emitted verse and the last chunk index of the previous slice for every later one |
| TimestampCalculation.ProcessKeysExact | app/pipeline/steps/timestamp_calculation.py:79-162 | over the sorted keys, slice a names verse keys[pos[a]], copies its text, normalized text and basmalah flag, and holds that verse's filtered run after the running last chunk index; no verse with a non-empty run is left out |
| TimestampCalculation.CalculateTimestampsExact | app/pipeline/steps/timestamp_calculation.py:46-162 | in terms of the input: each verse's entry holds exactly the chunks that matched it; slice a is the verse at the a-th kept sorted key, with that entry's text fields and the run of its chunks sorted by index after -1 (first slice) or after the previous slice's last chunk, linked by the consecutiveness check with the neighbouring verses' texts; every verse whose run is non-empty is emitted |
| TimestampCalculation.CalculateTimestamps | app/pipeline/steps/timestamp_calculation.py:29-174 | the verse slices are in ascending (surah, ayah) order, each for a verse some chunk matched, each spanning its chunk run, with chunk runs that never overlap and that advance from verse to verse |
| TimestampCalculation.ConsecutiveIff | app/pipeline/steps/timestamp_calculation.py:176-278 | two chunk texts count as consecutive iff both have words and either some tail of 1 to 10 words of the first equals the head of the second, or the joined ayah context is non-empty and the end of the first is located in it and the second either follows it directly or matches (similarity at least 85) further on |
| TimestampCalculation.ConsecutiveOverlap | app/pipeline/steps/timestamp_calculation.py:211-216 | a shared boundary of 1 to 10 words makes two chunks consecutive whatever the ayah context |
| TimestampCalculation.ConsecutiveNeedsContext | app/pipeline/steps/timestamp_calculation.py:218-228 | without a shared boundary and without any ayah context, two chunks are never consecutive |
| TranscriptionAlignment.Walk | app/pipeline/steps/transcription_alignment.py:370-385 | a successful backtrack yields one (frame, token) pair per token, token j in position j, at frames that strictly increase with the token and lie within the trellis |
| TranscriptionAlignment.Reverse | app/pipeline/steps/transcription_alignment.py:385 | reversing the path puts element k at position n-1-k |
| TranscriptionAlignment.Backtrack | app/pipeline/steps/transcription_alignment.py:370-385 | the loop computes the walk back from the last frame: one `(t, j)` entry per token with rows strictly increasing, or the `IndexError` (as `Err`) once row `t - 1` falls below `-frames`; there is no other failure |
| TranscriptionAlignment.RunStarts | app/pipeline/steps/transcription_alignment.py:387-398 | the positions where a new token run begins are increasing, the first is 0, and each is a real run start |
| TranscriptionAlignment.RunStartsComplete | app/pipeline/steps/transcription_alignment.py:387-398 | every run start is found |
| TranscriptionAlignment.Segments | app/pipeline/steps/transcription_alignment.py:387-398 | there is one segment per run of equal tokens |
| TranscriptionAlignment.RunsMaximal | app/pipeline/steps/transcription_alignment.py:389-395 | each run holds a single token and the next run has a different one: runs are maximal |
| TranscriptionAlignment.MergeEntry | app/pipeline/steps/transcription_alignment.py:392-395 | one loop step keeps the invariant "closed runs so far are segments" |
| TranscriptionAlignment.MergeRepeats | app/pipeline/steps/transcription_alignment.py:387-398 | the merge fails iff the path is empty or names a character outside the transcript; otherwise it yields exactly the segments of the maximal runs |
| TranscriptionAlignment.Labels | app/pipeline/steps/transcription_alignment.py:400-432 | the segment labels read as a string, in order |
| TranscriptionAlignment.WordStartsExact | app/pipeline/steps/transcription_alignment.py:406-426 | the run starts are listed in strictly increasing order, each begins a run after a separator or at the start, and every run start is listed |
| TranscriptionAlignment.WordsAtSeparator | app/pipeline/steps/transcription_alignment.py:408-413 | a separator closes the open word as the run begun last, ending at the separator's end |
| TranscriptionAlignment.WordsAtLetter | app/pipeline/steps/transcription_alignment.py:414-426 | a letter extends the open word, or opens the next run when no word is open |
| TranscriptionAlignment.WordsAtEnd | app/pipeline/steps/transcription_alignment.py:428-432 | closing the open word at the end leaves exactly one word per run, word m at the m-th run start |
| TranscriptionAlignment.MergeAll | app/pipeline/steps/transcription_alignment.py:406-426 | the loop over all segments reaches the state in which the closed words and the open word describe every run |
| TranscriptionAlignment.MergeSegment | app/pipeline/steps/transcription_alignment.py:406-426 | one loop step keeps the invariant: the closed words' texts are the non-empty separator-delimited pieces so far, word m is the maximal run at the m-th run start, and the open word is the run in progress |
| TranscriptionAlignment.CloseLastWord | app/pipeline/steps/transcription_alignment.py:428-432 | closing the open word at the end gives every word: the texts are the non-empty pieces of the labels, and word m is the maximal run at the m-th run start |
| TranscriptionAlignment.MergeWords | app/pipeline/steps/transcription_alignment.py:400-432 | the word texts are the non-empty pieces of the label string split at the separator, in order; there is one word per maximal run of non-separator segments, and word m is the run that begins at the m-th run start, from its first segment's start to the end of the segment after it (the last segment's for a final run), with its score the mean of its segments' frame counts |
| TranscriptionAlignment.ValidateInput | app/pipeline/steps/transcription_alignment.py:55-65 | the step accepts its input iff matched chunks are present and not empty, and audio is present |
| TranscriptionAlignment.OmittedCount | app/pipeline/steps/transcription_alignment.py:150-153 | the number of leading alignments that belong to the omitted text never exceeds the alignments |
| TranscriptionAlignment.AlignChunk | app/pipeline/steps/transcription_alignment.py:87-181 | a chunk is reported aligned iff it was attempted (not reused, index not yet aligned, some text, a positive time span) and the aligner succeeded; an unattempted chunk is returned unchanged; index, texts and times are never changed |
| TranscriptionAlignment.AlignedSplit | app/pipeline/steps/transcription_alignment.py:140-170 | after a success, with omitted text and a non-empty result, the omitted alignments followed by the kept ones are the full alignment, and the omitted part is as long as the omitted words (capped by the alignment); otherwise the full alignment is kept |
| TranscriptionAlignment.KeptWordsAreOwn | app/pipeline/steps/transcription_alignment.py:148-164 | when the aligner returns one entry per word of the full text, the kept alignments are exactly the chunk's own normalized words |
| TranscriptionAlignment.FailedAlignment | app/pipeline/steps/transcription_alignment.py:172-181 | an aligner error leaves an empty word alignment and records the error message |
| TranscriptionAlignment.ProcessedIndices | app/pipeline/steps/transcription_alignment.py:97-98 | a chunk index is in the processed set iff some earlier chunk with that index was aligned |
| TranscriptionAlignment.ProcessedSound | app/pipeline/steps/transcription_alignment.py:97-98 | every index in the processed set belongs to some earlier chunk that aligned |
| TranscriptionAlignment.ProcessedComplete | app/pipeline/steps/transcription_alignment.py:97-98 | every earlier chunk that aligned has its index in the processed set |
| TranscriptionAlignment.AlignedOnce | app/pipeline/steps/transcription_alignment.py:87-98 | no chunk index is aligned twice |
| TranscriptionAlignment.Outputs | app/pipeline/steps/transcription_alignment.py:84-183 | one output chunk per input chunk processed |
| TranscriptionAlignment.OutputsAt | app/pipeline/steps/transcription_alignment.py:84-183 | output k is chunk k aligned against the indices processed before it |
| TranscriptionAlignment.ProcessStep | app/pipeline/steps/transcription_alignment.py:84-183 | one loop step adds the chunk's index to the processed set iff it aligned (and it was not there before), and appends the chunk's result |
| TranscriptionAlignment.OutputsMeaning | app/pipeline/steps/transcription_alignment.py:84-183 | each output is its chunk aligned in context, and reused chunks pass through unchanged |
| TranscriptionAlignment.ProcessChunk | app/pipeline/steps/transcription_alignment.py:87-181 | one loop iteration keeps the loop state (outputs, processed set, success count) in step with the reference definition |
| TranscriptionAlignment.Process | app/pipeline/steps/transcription_alignment.py:84-183 | the step's loop yields one output per chunk, each chunk aligned against the indices aligned before it, reused chunks unchanged, and a success count equal to the number of distinct indices aligned |
| QuranData.FoldChar | app/quran_data.py:199-200 | folding maps the hamza-carrying alefs to bare alef and taa marbuta to haa, and changes no mark or space |
| QuranData.Normalize | app/quran_data.py:186-204 | normalized text is single-spaced with no leading or trailing space |
| QuranData.NormalizeWords | app/quran_data.py:186-204 | normalizing gives the words of the mark-free, folded text, joined with single spaces |
| QuranData.NormalizeNoMarks | app/quran_data.py:196-200 | normalized text holds no diacritic or Quranic mark and no unfolded letter |
| QuranData.NormalizeKeeps | app/quran_data.py:196-203 | apart from spaces, normalized text is exactly the folded non-mark characters of the input, in order |
| QuranData.NormalizeIdempotent | app/quran_data.py:186-204 | normalizing twice is normalizing once |
| QuranData.CountWords | app/quran_data.py:224-226 | the word count is the number of whitespace-separated words |
| QuranData.NormalizeFewerWords | app/quran_data.py:186-226 | normalization never adds words |
| QuranData.ParseVerseKey | app/quran_data.py:174 | a verse key "surah:ayah" splits back into its two numbers |
| QuranData.VerseKeyInjective | app/quran_data.py:174 | distinct verses get distinct keys |
| QuranData.ParseLine | app/quran_data.py:158-179 | an accepted line is non-empty after stripping, is not a comment, has exactly three `|` fields, and its text is the third field |
| QuranData.ParseFormatLine | app/quran_data.py:158-179 | a line written as "surah\|ayah\|text" is read back as that verse's key and text |
| QuranData.ParsedAt | app/quran_data.py:159-179 | each line of the file is parsed on its own |
| QuranData.AcceptEntry | app/quran_data.py:174-175 | a well-formed line stores its text under its key, overwriting an earlier one |
| QuranData.SkipEntry | app/quran_data.py:161-167 | a blank, comment, malformed or non-numeric line changes nothing |
| QuranData.LoadLine | app/quran_data.py:159-179 | one loop step keeps the invariant "the map holds the last accepted text of each key read so far" |
| QuranData.LoadUthmani | app/quran_data.py:158-179 | the loaded map has a key iff some well-formed line names it, and maps it to the text of the LAST such line |
| QuranData.VerseWithTashkeel | app/quran_data.py:206-222 | the verse text comes from the Uthmani map if present, else from the other map, else is the placeholder "[Verse s:a]" |
| QuranData.LookupLoaded | app/quran_data.py:158-222 | a verse written as the last line of the file is looked up as exactly the text written |
| QuranData.FormatTimestamp | app/quran_data.py:228-235 | a formatted timestamp is at least as long as "HH:MM:SS.mmm" |
| QuranData.FormatFields | app/quran_data.py:228-235 | the formatted timestamp carries hours, minutes, seconds and milliseconds as the whole-millisecond value's decomposition |
| QuranData.FormatParseTimestamp | app/quran_data.py:228-235 | parsing a formatted timestamp gives back the same number of milliseconds |
| Timestamps.TimestampFields | app/utils/audio_splitter.py:43-54 | a timestamp is read only when it has exactly one `.` |
| Timestamps.ParseTimestamp | app/utils/audio_splitter.py:33-54 | an unreadable timestamp counts as 0 ms |
| Timestamps.ParseWithoutDot | app/utils/audio_splitter.py:43-54 | a timestamp without a fraction part reads as 0 ms |
| Numbers.ParseFormatInt | app/utils/audio_splitter.py:315-318 | `int()` reads back any integer formatted with `:03d`, negatives included |
| Numbers.ParsePad | app/utils/audio_splitter.py:46-47 | `int()` reads a zero-padded natural number as its value |
| Numbers.PadValue | app/utils/audio_splitter.py:315-318 | zero padding does not change a number's digit value |
| Numbers.DigitsValueOf | app/utils/audio_splitter.py:315-318 | the decimal digits of a number have that number as their value |
| Numbers.Pad | app/utils/audio_splitter.py:315-318 | `f"{n:03d}"` of a non-negative number is all digits, at least the width long |
| Numbers.ParseInt | app/utils/audio_splitter.py:46-47 | `int()` accepts a text only if something is left after stripping it |
| Text.Split | app/pipeline/steps/timestamp_calculation.py:205-206 | `str.split()` yields only words, non-empty and free of whitespace, and at least one for a text that ends in a non-space |
| Text.SplitJoin | app/pipeline/steps/duplicate_removal.py:80-83 | joining words with single spaces and splitting again gives back the same words |
| AyahFiles.FirstRegular | app/utils/audio_splitter.py:492-496 | a surah number is taken from the first non-basmala ayah iff one exists |
| AyahFiles.SurahNumber | app/utils/audio_splitter.py:491-498 | there is no surah number exactly when there are no ayahs |
| AyahFiles.ZipName | app/utils/audio_splitter.py:526 | the archive name can be formatted exactly when there are ayahs |
| AyahFiles.NameParts | app/utils/audio_splitter.py:309-335 | a file name is "surah_SSS_ayah_" followed by "000_basmala" for a basmala or by the three-digit ayah number, then the extension |
| AyahFiles.BaseParts | app/utils/audio_splitter.py:314-319 | the same shape before the extension |
| AyahFiles.FileName | app/utils/audio_splitter.py:314-335 | the name of an ayah's file: its base name and the extension, with an extension not exported natively replaced by `.wav` as text; stated by AyahFiles.FileNameShape, AyahFiles.FallbackIsWav and AyahFiles.EmptySuffixName |
| AyahFiles.KnownExtPlain | app/utils/audio_splitter.py:323-333 | the natively exported extensions start with a dot and hold no underscore and no further dot |
| AyahFiles.FileExt | app/utils/audio_splitter.py:323-335 | the extension written is always one exported natively, and it is the upload's own extension exactly when that one is exported natively (otherwise `.wav`) |
| AyahFiles.FileNameShape | app/utils/audio_splitter.py:314-335 | a file name is its base name followed by the written extension |
| AyahFiles.FileNamesDistinct | app/utils/audio_splitter.py:314-335 | for every suffix `Path.suffix` can give, the empty one of a name without a dot included, two ayahs share a file name only if they share surah, metadata ayah number and basmala flag: files never collide |
| AyahFiles.FallbackIsWav | app/utils/audio_splitter.py:333-335 | an unknown dotted extension is written as `.wav`; an empty one instead gets `.wav` before, between and after the characters of the base name |
| AyahFiles.EmptySuffixName | app/utils/audio_splitter.py:333-335 | with an empty suffix, `filename.replace('', '.wav')` puts `.wav` before, between and after every character of the base name |
| AyahFiles.DottedNamesDistinct | app/utils/audio_splitter.py:314-335 | for a dotted extension, two ayahs share a file name only if they share surah, metadata ayah number and basmala flag |
| AyahFiles.CutAt | app/utils/audio_splitter.py:314-318 | two equal texts whose first `sep` sits after a `sep`-free part agree on both sides of it: the fields of a file name are read back at its underscores |
| Text.ReplaceEmptyJoins | app/utils/audio_splitter.py:334 | `str.replace` with an empty pattern on a non-empty text inserts the replacement before, between and after its characters |
| Text.ReplaceEmptyInjective | app/utils/audio_splitter.py:334 | replacing the empty pattern keeps distinct texts distinct |
| AyahFiles.SurahOfFirstRegular | app/utils/audio_splitter.py:492-496 | the surah number is the first non-basmala ayah's when that is non-zero |
| AyahFiles.FirstRegularAt | app/utils/audio_splitter.py:493-496 | the search stops at the first non-basmala ayah |
| AyahFiles.SurahFallback | app/utils/audio_splitter.py:497-498 | with no non-basmala ayah, or when its surah is 0, the first ayah's surah is used |
| AyahFiles.SingleSurah | app/utils/audio_splitter.py:491-498 | for a one-surah request the surah number is that surah |
| AyahFiles.ZipNameMatchesFiles | app/utils/audio_splitter.py:526 | for a one-surah request the archive name is "surah_SSS_ayahs.zip" and every file name starts with "surah_SSS_" |
| AyahFiles.FilePrefix | app/utils/audio_splitter.py:314-318 | every file name starts with "surah_SSS_" |
| AyahFiles.BasePrefix | app/utils/audio_splitter.py:314-318 | every base name starts with "surah_SSS_" |
| AyahFiles.FirstRegularOfOne | app/utils/audio_splitter.py:493-496 | when all ayahs share a surah, the one found is that surah |
| AudioSplitter.Closest | app/utils/audio_splitter.py:162-176 | the chosen silence midpoint is at least as close to the cutoff as every other, and is the first of the closest |
| AudioSplitter.FindSilenceNearCutoff | app/utils/audio_splitter.py:121-181 | no point is found iff no silence lies within the ±10 s window; otherwise the point is the midpoint of one of those silences and is the closest one to the cutoff |
| AudioSplitter.DetectSilenceGaps | app/utils/audio_splitter.py:56-119 | gap k is the detected silence at the k-th internal position (touching neither the first nor the last tenth of the segment), with duration end minus start: the internal silences in detector order, each as often as detected |
| AudioSplitter.InternalPositions | app/utils/audio_splitter.py:90-103 | the positions of the internal silences, strictly increasing, with every internal position listed |
| AudioSplitter.GapsAreInternalSilences | app/utils/audio_splitter.py:90-112 | every gap is a detected internal silence with its duration, and every detected internal silence is a gap |
| AudioSplitter.Spans | app/utils/audio_splitter.py:199-203 | each ayah's span is its parsed start and end timestamps |
| AudioSplitter.AdjustStart | app/utils/audio_splitter.py:206-241 | the start step computes the adjusted start and the uncertainty flag, and moves the previous ayah's end exactly when it re-split a touching boundary |
| AudioSplitter.AdjustEnd | app/utils/audio_splitter.py:243-259 | the end step computes the provisional end |
| AudioSplitter.CalculateAdjustedTimestamps | app/utils/audio_splitter.py:183-266 | the loop, including its back-patching of the previous ayah's end, yields the adjusted (start, end, uncertain) triple for every ayah; the first start and the last end are never moved |
| AudioSplitter.PositiveGapMidway | app/utils/audio_splitter.py:233-235 | across a positive gap, both ayahs meet at the middle of the gap (rounded down) and neither is uncertain |
| AudioSplitter.ResplitAtSilence | app/utils/audio_splitter.py:211-226 | where two ayahs touch and a silence is found, both meet at the silence midpoint closest to the cutoff, and the ayah is not uncertain |
| AudioSplitter.UnresolvedCut | app/utils/audio_splitter.py:227-231 | where two ayahs touch and no silence is found, the cut stays and only the later ayah is flagged uncertain |
| AudioSplitter.NegativeGapKept | app/utils/audio_splitter.py:236-238 | overlapping ayahs keep their original bounds at the overlap |
| AudioSplitter.WithoutAudio | app/utils/audio_splitter.py:211-259 | without audio no ayah is uncertain, no ayah shrinks, and consecutive ayahs that do not overlap meet |
| AudioSplitter.SplitterNormalizeAgrees | app/utils/audio_splitter.py:339-345 | the splitter's inline normalization equals `QuranData.normalize_arabic_text` |
| AudioSplitter.Metadata | app/utils/audio_splitter.py:339-390 | an ayah's metadata carries its surah, metadata ayah number, file name and basmala flag; normalized words; word count and end word defaulting to the normalized word count and start word to 1; absolute offsets equal to the parsed timestamps and to cut plus relative offset; the adjusted cut and flag; and a duration equal to the length of the segment cut at those bounds |
| AudioSplitter.KeptAtAscending | app/utils/audio_splitter.py:295-399 | the positions of written entries are ascending, all below n, and every written position is listed |
| AudioSplitter.KeptAtPositions | app/utils/audio_splitter.py:295-399 | the kept entries are the entries at those positions |
| AudioSplitter.Kept | app/utils/audio_splitter.py:295-399 | the entries kept from the first n are never more than n |
| AudioSplitter.EntriesOfWritten | app/utils/audio_splitter.py:295-399 | the metadata list holds, in order, the metadata of exactly the ayahs whose file was written |
| AudioSplitter.AudioFormatOfExt | app/utils/audio_splitter.py:412 | the recorded audio format is the extension without its dot, and empty for a file name without a suffix |
| AudioSplitter.ReplaceDeletesDots | app/utils/audio_splitter.py:412 | `replace('.', '')` deletes every dot and keeps every other character, in order |
| AudioSplitter.CreateArchive | app/utils/audio_splitter.py:401-414 | the archive counts every ayah but lists only written ones, carries the surah number, and its transcription holds all ayah texts' words in order |
| AudioSplitter.SplitAudioByAyahs | app/utils/audio_splitter.py:454-577 | splitting fails iff there are no ayahs (the zip name cannot format `None`); otherwise it yields the archive built from the silence-adjusted spans and the zip name |
| LegacySplitter.CalculateAdjustedTimestamps | app/audio_splitter.py:47-96 | one adjusted (start, end) pair per ayah: a positive gap on either side is split in its middle, otherwise the bound is kept |
| LegacySplitter.LegacyCovers | app/audio_splitter.py:66-90 | no ayah loses audio, and ayahs that do not overlap meet inside their gap |
| LegacySplitter.LegacyOverlapKept | app/audio_splitter.py:73-87 | overlapping ayahs keep their bounds |
| LegacySplitter.LegacyIsSilenceFree | app/audio_splitter.py:47-96 | the silence-aware splitter without audio cuts exactly like the original one |
| LegacySplitter.LegacyWithoutTouchingAyahs | app/audio_splitter.py:47-96 | where no two ayahs touch, both splitters cut the same bounds even with audio |
| LegacySplitter.Entry | app/audio_splitter.py:158-210 | an original metadata entry carries the file name, the text, the metadata ayah number (0 for a basmala) and a duration equal to the length of the segment cut at the ayah's adjusted bounds |
| LegacySplitter.SplitAudioByAyahs | app/audio_splitter.py:98-269 | the original splitter fails iff there are no ayahs; otherwise its metadata counts every ayah, lists at most that many, and carries the surah number and the zip name |
| LegacySplitter.SameFilesAsSilenceAware | app/audio_splitter.py:158-210 | both splitters list the same files under the same numbers, flags and texts, and report the same durations wherever they cut the same bounds |
| LegacySplitter.SameDurationsWithoutTouchingAyahs | app/audio_splitter.py:47-210 | where no two ayahs touch, both splitters succeed together, name the same zip and write the same files with the same durations |
| PipelineBase.StatusValueInjective | app/pipeline/base.py:18-24 | distinct step statuses have distinct string values |
| PipelineBase.Lookup | app/pipeline/base.py:64-66 | a key is missing from the result dictionary iff it is not among its keys |
| PipelineBase.Put | app/pipeline/base.py:79-83 | storing a key keeps the key order and appends a new key at the end |
| PipelineBase.PutLookup | app/pipeline/base.py:79-83 | after storing, the key reads back the new value and every other key is unchanged |
| PipelineBase.PutDistinct | app/pipeline/base.py:79-83 | storing keeps the keys distinct |
| PipelineBase.GetAfterSet | app/pipeline/base.py:64-70 | `get` after `set` returns the value set, other keys are unaffected, and results and data are untouched |
| PipelineBase.AddStepResult | app/pipeline/base.py:76-83 | recording a step result makes it the step's result, leaves other steps' results, and touches no data |
| PipelineBase.ExecuteStep | app/pipeline/base.py:162-224 | a step errs iff it is not skipped and either its input is invalid (with the validation message) or its process fails (with that error); its result is always recorded as skipped, failed or completed; a skipped or failed step leaves the data as it was and a completed step's data is its process output |
| PipelineBase.RunSnoc | app/pipeline/base.py:326-355 | running one more step runs it on the previous context unless a failure already stopped the run |
| PipelineBase.FailureSticks | app/pipeline/base.py:342-355 | once a step fails, later steps do not run |
| PipelineBase.StopsAtFirstFailure | app/pipeline/base.py:326-355 | a failed run is the result of its first failing step, run after a successful prefix |
| PipelineBase.Execute | app/pipeline/base.py:326-355 | the loop computes the reference run of the steps |
| PipelineBase.StepNames | app/pipeline/base.py:407-409 | the step names in order |
| PipelineBase.ExecuteStepRecords | app/pipeline/base.py:162-224 | a successful new step adds exactly its own name to the result keys |
| PipelineBase.SuccessfulRunRecords | app/pipeline/base.py:326-355 | a successful run of distinctly named steps records their names in order after the existing ones |
| PipelineBase.Find | app/pipeline/base.py:311-324 | the first step with the name, or none iff no step has it |
| PipelineBase.GetStep | app/pipeline/base.py:311-324 | the lookup returns the first step with the name, or none iff no step has it |
| PipelineBase.ExecuteFrom | app/pipeline/base.py:357-384 | an unknown start step yields the "not found" error and an unchanged context; otherwise the steps from it onwards run |
| PipelineBase.UntilPrefix | app/pipeline/base.py:386-405 | the steps up to and including the first with the name, or all steps when none has it |
| PipelineBase.ExecuteUntil | app/pipeline/base.py:386-405 | exactly that prefix runs |
| PipelineBase.AddSteps | app/pipeline/base.py:254-280 | the new steps are appended in order |
| PipelineBase.RemoveStep | app/pipeline/base.py:282-294 | no step of that name remains and none is added |
| PipelineBase.RemoveAppend | app/pipeline/base.py:282-294 | removing distributes over concatenation |
| PipelineBase.RemoveAbsent | app/pipeline/base.py:282-294 | removing an absent name changes nothing |
| PipelineBase.InsertPosition | app/pipeline/base.py:307 | an in-range index is used as is, and any index lands within the list |
| PipelineBase.InsertStep | app/pipeline/base.py:296-309 | the step sits at its position, with the steps before it unchanged and those after it shifted by one |
| PipelineBase.RemoveBetween | app/pipeline/base.py:282-294 | removing a step's name from around it leaves the rest |
| PipelineBase.InsertThenRemove | app/pipeline/base.py:282-309 | inserting a step with a fresh name and then removing it restores the pipeline |
| Orchestrator.Names | app/pipeline/orchestrator.py:59-102 | the class names of the steps, in order |
| Orchestrator.StepMapNames | app/pipeline/orchestrator.py:135-159 | a name maps to a step iff it is one of the ten known step class names, and the step built has that name |
| Orchestrator.FullPipelineShape | app/pipeline/orchestrator.py:59-102 | the full pipeline is the ten steps in order, without alignment, with the documented defaults when the configuration omits a value |
| Orchestrator.KnownNames | app/pipeline/orchestrator.py:161-165 | only known names survive |
| Orchestrator.PartialStep | app/pipeline/orchestrator.py:161-165 | one loop step adds the step for a known name and skips an unknown one |
| Orchestrator.PartialPipeline | app/pipeline/orchestrator.py:109-170 | a partial pipeline holds, in the requested order, the configured steps for the known names and skips unknown ones |
| Orchestrator.FullOrderDistinct | app/pipeline/orchestrator.py:59-102 | the full pipeline's step names are distinct |
| Orchestrator.StepMapFull | app/pipeline/orchestrator.py:135-159 | each known name builds the same step as the full pipeline does at that position |
| Orchestrator.PartialOfFullOrder | app/pipeline/orchestrator.py:109-170 | a partial pipeline of all names in the full order is the full pipeline |
| Orchestrator.KnownAll | app/pipeline/orchestrator.py:161-165 | known names are all kept |
| Orchestrator.UnknownDropped | app/pipeline/orchestrator.py:161-165 | an unknown name adds nothing |
| Orchestrator.GetPipelineSummary | app/pipeline/orchestrator.py:206-232 | the summary counts the recorded steps, lists each with its name, status value and duration in recording order, and totals their durations |
| Orchestrator.SummaryOfFullRun | app/pipeline/orchestrator.py:172-232 | a successful full run's summary lists all ten steps in pipeline order |
| Orchestrator.InitialContext | app/pipeline/orchestrator.py:190-198 | the initial context carries the audio and no results, and holds the debug recorder as its only metadata iff one is given |
| Orchestrator.ExecutePipeline | app/pipeline/orchestrator.py:172-204 | executing runs the steps on that initial context |
| Orchestrator.ExecutePipelineRecords | app/pipeline/orchestrator.py:172-204 | a successful execution of distinctly named steps records exactly their names, in order |
| Orchestrator.ValidatePipelineConfig | app/pipeline/orchestrator.py:234-245 | every configuration is accepted |

## Left out

- Float rounding: times and durations are exact reals or whole milliseconds and samples. `duration_seconds` is modelled as the segment's length in whole milliseconds (`durationMs`), so its division by 1000 and its `round(..., 2)` are not modelled.
- pydub, rapidfuzz, the wav2vec2 model and its trellis are not modelled: silence detection, similarity, alignment and the trellis comparison are parameters.
- The length of a cut segment, `len(audio[a:b])`, is a parameter of the loaded recording (`sliceLen`), because pydub converts milliseconds to frames and back with rounding. Both splitters' durations and the silence-gap test read it.
- Speech recognition (Whisper), audio resampling, verse matching, silence splitting and the DTW and equal-division alignment fallbacks are not part of this model. The pipeline steps for them appear only by name in the orchestrator.
- Reading the Uthmani file is not modelled: the loader gets the file's lines. pyquran loading and the built-in fallback verses are not modelled: the second verse map is an input.
- Writing the zip, the JSON and the audio segments is not modelled: whether each ayah's entry was written is a parameter, so the `except ... continue` path is covered. `silence_gaps` is computed from the silence oracle.
- The clock (`time.time`) is a parameter that gives each step's duration.
- Debug info, the debug recorder's side effects and logging are left out, because they do not affect results.
- The HTTP API, database, job queue, workers and threads are not part of this model.
- A step whose `process` raises after it has changed the context is modelled as leaving the data unchanged.
- A failing step makes `Pipeline.execute` re-raise. The model returns the context together with the error instead.
- Configuration is a map from names to reals, and no configuration at all is the empty map.
- `match_confidence` and `chunk_mapping` are copied through unchanged and are not modelled; `audio_start_timestamp` and `audio_end_timestamp` are copied as `startTimestamp` and `endTimestamp`, without the `'00:00:00.000'` default for a missing key: the adjusted timestamps are computed first by reading both keys directly (`app/utils/audio_splitter.py:202-203`), so an ayah without them never reaches its metadata.
- The legacy `CalculateAdjustedTimestamps` and the silence-aware one take parsed millisecond spans; the parsing is modelled separately by `Timestamps.ParseTimestamp`.
- Numbers.ParseInt: covers `int()` on optional whitespace, an optional sign and ASCII digits only, because underscores and non-ASCII digits never occur in the formatted names and lines read here.
- QuranData.FormatParseTimestamp: states the round trip for whole non-negative milliseconds only, because fractional float seconds would need float formatting.
- PipelineBase.SuccessfulRunRecords: assumes each step's `process` keeps the results recorded so far, because `process` is an arbitrary function here.
- Numbers.ParseInt: its own contract states only that stripped text is non-empty; its value is stated by Numbers.ParsePad and Numbers.ParseFormatInt.
- Numbers.Pad: its own contract states only digits and length; the value is stated by Numbers.PadValue.
- Timestamps.ParseTimestamp: states only the fallback to 0; its value on well-formed input is given by QuranData.FormatParseTimestamp.
- ChunkMerging.MergeChunks: does not state the merged times for arbitrary `chunk_index` values, because they are list positions that may name the wrong chunk (see Findings); ChunkMerging.MergeAgrees gives them when indices equal positions.
- PipelineBase.InsertPosition: states the clamping of out-of-range indices only as a bound.
- TranscriptionAlignment.OmittedCount: states only the bound; the split it drives is stated by TranscriptionAlignment.AlignedSplit.
- TranscriptionCombining.NonEmpty: its own contract states only the bound and that kept texts are non-empty; order and completeness are stated by TranscriptionCombining.NonEmptyInOrder.
- AyahFiles.NameParts: stated for dotted extensions; the name an empty suffix gives is stated by AyahFiles.EmptySuffixName.
- AyahFiles.FileNameShape: stated for dotted extensions, for the same reason.
- AyahFiles.FilePrefix: stated for dotted extensions, because with an empty suffix the name starts with `.wav`.
- AyahFiles.ZipNameMatchesFiles: stated for dotted extensions, because with an empty suffix the file names start with `.wav`.
- AyahFiles.FileName: has no contract of its own; its shape is stated by the lemmas named in its row.
- AudioSplitter.Kept: its own contract states only the bound; which entries are kept is stated by AudioSplitter.KeptAtPositions.
- QuranData.FormatTimestamp: its own contract states only the minimum length; the fields are stated by QuranData.FormatFields and the round trip by QuranData.FormatParseTimestamp.
- TimestampCalculation.Run: its own contract states only the bound; the run in full is stated by TimestampCalculation.RunFacts.
- TimestampCalculation.AreChunksConsecutive: its own contract states only that both texts have words; the check in full is stated by TimestampCalculation.ConsecutiveIff.
- TimestampCalculation.Pivot: has no contract of its own; keys, chunk lists and text fields are stated by the lemmas named in its row.
- TimestampCalculation.Extend: has no contract of its own; the grown run is stated by TimestampCalculation.ExtendFacts.
- TimestampCalculation.ProcessFrom: its own contract states only the count and the chunk counts; which verse and which run each slice holds is stated by TimestampCalculation.ProcessFromSlices, TimestampCalculation.ProcessFromLast and TimestampCalculation.EmittedComplete, and order and spans by TimestampCalculation.ProcessOrdered, TimestampCalculation.ProcessSpans and TimestampCalculation.ProcessKeysAscend.
- TimestampCalculation.CalculateTimestamps: its own contract states order, spans and non-overlap only; which verse each slice is, which chunks it holds and that only verses without a surviving chunk are dropped is stated by TimestampCalculation.CalculateTimestampsExact.

## Findings

| source | as written | input that shows it | evidently intended | confidence | as-written member | corrected member |
|---|---|---|---|---|---|---|
| app/pipeline/steps/chunk_merging.py:93-94 | chunk merging looks chunks up by `chunk_index` as if it were a list position, but silence detection (app/pipeline/steps/silence_detection.py:106-125) keeps the index of the non-silent range even when it drops a chunk shorter than 0.1 s, so indices can have gaps | `min_silence_len` 400, `keep_silence` 0 and non-silent ranges (0,1000), (1500,1550), (2000,3000) ms at 16 kHz, with silences of 500 and 450 ms between them: the 50 ms range holds 800 samples, under the 1600 needed, and the detector yields chunks with indices 0 and 2, both 1 s long; with the default 3 s minimum they form one group, and `chunks[2]` raises IndexError | merge the chunks of each run by their position in the list | not executed | ChunkMerging.SkippedIndexBreaksMerge | ChunkMerging.MergeChunksByPosition |
