# Exome capture overlap, modelled in Dafny

`exon_capture_overlap.py` reads two exome capture target lists (Agilent and
ICE). It builds one interval index per chromosome for each, then walks the
per-sample coverage reports (`*.bam.bed.gz`). For every record marked
`LOW_COVERAGE` it adds three things:

- the record's length, `stop - start + 1`;
- for each capture kit, what `get_non_overlapping_count` gives against the
  first capture interval the index reports as overlapping the record: the
  bases before that interval's start or, only when there are none, those
  after its end; or the whole length when the chromosome is not indexed or
  nothing overlaps. When the record sticks out on both sides this is fewer
  than the bases actually outside the interval.

Each sample gives one line `sample_id, count, agilent, ice`. The lines are
joined with tabs and newlines into the summary file.

The model has eight modules.

| Module | Models |
|---|---|
| `Wrappers` | the `Option` type for results that may be absent |
| `Strings` | Python's `split`, `join`, `strip`, substring `in` and `rfind` |
| `Numerals` | `str` and `int` on decimal integers |
| `Paths` | `basename` and the root of `splitext` |
| `Intervals` | `get_non_overlapping_count`, plus a base-by-base reference count |
| `IntervalFiles` | the line filters of the two readers and the parsing of `(chromosome, start, end)` |
| `IntervalIndex` | `create_interval_trees`, as a method with the same loop, proved against a reference grouping |
| `Samples` | the per-sample counting loop and the loop over the samples, both as methods; the summary table; the whole script as `Run` |

The interval tree library is not modelled. Its overlap query `tree.overlap(bounds)[0]` is a function parameter `first`. The predicate `IsFirstOverlap` constrains `first`:

- it answers `Some(r)` with `r` in the tree's set and overlapping the query;
- it answers `None` only when nothing in the set overlaps the query. That is the case where the program's bare `except` adds the full length.

## Model

| member | source | states |
|---|---|---|
| Intervals.NonOverlappingCount | exon_capture_overlap.py:58-73 | the count is never negative; it is 0 exactly when the query lies within the reference; for an overlapping, non-empty query it is less than the query's length |
| Intervals.UncoveredSplits | exon_capture_overlap.py:58-73 | the base-by-base count of query bases outside the reference equals the bases before the reference plus those after it |
| Intervals.NonOverlapExactOneSided | exon_capture_overlap.py:68-73 | when the query sticks out on at most one side, the program's count equals the true number of uncovered bases (start side first, then the end-side case) |
| Intervals.NonOverlapStraddling | exon_capture_overlap.py:68-69 | when the reference lies strictly inside the query, the start side takes precedence: only `start2 - start1` is counted, and the true count is larger by `end1 - end2` |
| Intervals.NoOverlapAllUncovered | exon_capture_overlap.py:112-114 | with no overlap every base of the record is uncovered, so the full-length fallback is the exact count |
| Intervals.NonOverlapExamples | exon_capture_overlap.py:58-73 | worked cases: (10,20) against (15,25) and (5,15) give 5; against (12,18) gives 2 while 4 bases are uncovered |
| Strings.Split | exon_capture_overlap.py:23 | `split` yields at least one piece and no piece contains the separator |
| Strings.JoinOfSplit | exon_capture_overlap.py:23-24 | joining the pieces of a split with the separator gives the string back |
| Strings.SplitOfJoin | exon_capture_overlap.py:131 | splitting a join of one or more separator-free pieces gives the pieces back |
| Strings.JoinAvoids | exon_capture_overlap.py:131 | a character other than the separator that no piece holds is absent from the join |
| Strings.SplitNoSeparator | exon_capture_overlap.py:24 | a string without the separator splits into itself alone |
| Strings.SplitAfterPiece | exon_capture_overlap.py:24 | a separator-free piece followed by the separator is split off as the first piece |
| Strings.ContainsIff | exon_capture_overlap.py:24 | `t in s` holds exactly when `t` occurs in `s` at some index |
| Strings.StripStart | exon_capture_overlap.py:33 | left strip keeps a suffix, drops only whitespace, and leaves no leading whitespace |
| Strings.StripEnd | exon_capture_overlap.py:33 | right strip keeps a prefix, drops only whitespace, and leaves no trailing whitespace |
| Strings.StripTrims | exon_capture_overlap.py:33 | `strip` returns a contiguous part of the text with only whitespace cut at both ends and none left at either end |
| Strings.StripUnchanged | exon_capture_overlap.py:33 | text with no surrounding whitespace is unchanged by `strip` |
| Strings.LastIndexOf | exon_capture_overlap.py:124 | the search finds nothing exactly when the character is absent; otherwise it returns an index holding the character with no occurrence after it |
| Numerals.AllDigitsIff | exon_capture_overlap.py:48-49 | the recursive digit test holds exactly when every character is a decimal digit |
| Numerals.DigitValue | exon_capture_overlap.py:48-49 | a digit's value is below 10 |
| Numerals.DigitChar | exon_capture_overlap.py:125 | the digit written for a value below 10 reads back as that value |
| Numerals.NatToString | exon_capture_overlap.py:125 | `str` of a natural number is a non-empty digit string with no leading zero |
| Numerals.IntToString | exon_capture_overlap.py:125 | `str` of an integer is the canonical decimal: non-empty, no whitespace at either end; for `n >= 0` digits only with no leading zero unless it is `0`; for `n < 0` a '-' followed by digits that do not start with '0' |
| Numerals.DigitsOfNat | exon_capture_overlap.py:125 | the digits written for `n` have the value `n` |
| Numerals.ParseSignedDigits | exon_capture_overlap.py:103-104 | a digit string, with or without a leading '-', reads as its value or its negation |
| Numerals.ParseIntToString | exon_capture_overlap.py:125 | `int(str(n)) == n` for every integer |
| Paths.BaseNameIsLastComponent | exon_capture_overlap.py:124 | `basename` is the final component: a suffix with no '/', preceded by '/' unless it is the whole path |
| Paths.OnlyDotsIff | exon_capture_overlap.py:124 | the leading-dots test holds exactly when every character is a dot |
| Paths.StemDropsExtension | exon_capture_overlap.py:124 | `splitext(name)[0]` is a prefix; any part cut off is a dot followed by no further dot, and the root is not dots alone |
| Paths.LastIndexAt | exon_capture_overlap.py:124 | the last occurrence of a character is found where it occurs with none after it |
| Paths.BaseNameOfJoin | exon_capture_overlap.py:80 | the base name of `dir/name` is `name` |
| Paths.StemOfExtension | exon_capture_overlap.py:124 | dropping the extension of `stem.ext` gives `stem` |
| Paths.SampleId | exon_capture_overlap.py:124 | the sample id is a prefix of the path's base name, so it holds no '/' and is no longer than the path |
| Paths.SampleIdOfBedFile | exon_capture_overlap.py:80-124 | a listed file `dir/x.bam.bed.gz` gets the sample id `x.bam.bed` |
| IntervalFiles.ParseRow | exon_capture_overlap.py:47-49 | a row is read exactly when it has at least three columns and columns 1 and 2 parse as integers; the result is column 0 as chromosome and those two integers as start and end |
| IntervalFiles.Rows | exon_capture_overlap.py:47-49 | one converted row per row, in order: its chromosome is column 0 and its start and end are `int` of columns 1 and 2 |
| IntervalFiles.ParseFormatRow | exon_capture_overlap.py:47-49 | a row written as chromosome, start and end (with any further columns) reads back as the same row |
| IntervalFiles.SplitKept | exon_capture_overlap.py:24 | the comprehension yields at most one row per line, and each row joined back with tabs is a line the filter keeps |
| IntervalFiles.SplitKeptAppend | exon_capture_overlap.py:24 | the comprehension keeps the order of the lines |
| IntervalFiles.SplitKeptMembership | exon_capture_overlap.py:24 | a row is produced exactly when some kept line splits to it (both directions) |
| IntervalFiles.LowCoverageRows | exon_capture_overlap.py:16-24 | `get_low_coverage_intervals` yields at most one row per line of the text, and every row joined back with tabs contains `LOW_COVERAGE` |
| IntervalFiles.IntervalListRows | exon_capture_overlap.py:27-35 | `get_interval_list` yields at most one row per line of the stripped text, and no row joined back with tabs contains '@' |
| IntervalFiles.LowCoverageRowsFromMarkedLines | exon_capture_overlap.py:21-24 | every record read from a coverage report comes from a line marked `LOW_COVERAGE` |
| IntervalFiles.IntervalListRowsSkipHeaders | exon_capture_overlap.py:32-35 | no row read from a target list has an '@' in any column, so header lines are skipped |
| IntervalFiles.JoinHoldsPiece | exon_capture_overlap.py:35 | every character of a column appears in the line it was split from |
| IntervalIndex.GroupIsGrouping | exon_capture_overlap.py:44-55 | the reference index holds every target under its chromosome and nothing else |
| IntervalIndex.GroupingKeysFromRows | exon_capture_overlap.py:51-52 | every chromosome key of the index is the chromosome of some target |
| IntervalIndex.GroupingIsUnique | exon_capture_overlap.py:44-55 | any map that holds exactly the targets under their chromosomes is the reference index |
| IntervalIndex.GroupingStep | exon_capture_overlap.py:51-53 | creating an entry for a new chromosome and adding a target's bounds keeps the grouping exact |
| IntervalIndex.CreateIntervalTrees | exon_capture_overlap.py:38-55 | the loop produces a complete grouping of the targets by chromosome, with nothing else in it |
| IntervalIndex.ExampleIndex | exon_capture_overlap.py:38-55 | three targets on chromosomes "1" and "2" give an index with two entries |
| IntervalIndex.ExampleQuery | exon_capture_overlap.py:110 | on that index a query on "1" answers with its only overlapping interval, and "3" has no entry |
| Samples.RecordNonOverlap | exon_capture_overlap.py:109-121 | one record adds its full length when its chromosome is not indexed or nothing overlaps it; for a record with `start <= stop` it adds nothing exactly when the reported overlap contains the whole record |
| Samples.TotalsStep | exon_capture_overlap.py:107-121 | one more record adds its length and its per-reference share to the totals |
| Samples.RecordNonOverlapBounded | exon_capture_overlap.py:109-121 | one record adds between 0 and its full length to each reference counter |
| Samples.TotalNonOverlapBounded | exon_capture_overlap.py:95-121 | each reference counter lies between 0 and the low-coverage base count |
| Samples.UnindexedCountsEverything | exon_capture_overlap.py:112-121 | against a reference indexing none of the records' chromosomes, the counter equals the low-coverage base count |
| Samples.TotalNonOverlapLocal | exon_capture_overlap.py:109-121 | a reference counter depends only on that reference's entries for the records' chromosomes |
| Samples.TotalsAdditive | exon_capture_overlap.py:95-121 | all three counters are sums over records: splitting the records splits each counter |
| Samples.AccumulateCounts | exon_capture_overlap.py:95-121 | the loop leaves exactly the sum of record lengths and the two sums of per-reference shares |
| Samples.ProcessSample | exon_capture_overlap.py:95-125 | one sample's summary has its id and the three exact sums over its low-coverage records |
| Samples.SummariesLength | exon_capture_overlap.py:92-126 | there is one summary per sample |
| Samples.SummaryAt | exon_capture_overlap.py:93-126 | the i-th summary is the i-th sample's |
| Samples.SummariesInOrder | exon_capture_overlap.py:92-126 | the list of summaries has the samples' length and order, each entry the summary of its sample |
| Samples.SummariesStep | exon_capture_overlap.py:126 | one more sample appends its summary to the list |
| Samples.ProcessSamples | exon_capture_overlap.py:92-126 | the loop over the samples appends each sample's summary in order |
| Samples.SummaryLines | exon_capture_overlap.py:131 | one tab-joined line per summary, in order |
| Samples.SummaryTextLines | exon_capture_overlap.py:131 | for one or more summaries with plain ids, splitting the file's text at newlines gives back exactly the summary lines |
| Samples.NumeralIsPlain | exon_capture_overlap.py:125 | a written count contains neither a tab nor a newline |
| Samples.SummaryFieldsPlain | exon_capture_overlap.py:125 | no field of a summary line holds a tab or a newline |
| Samples.SummaryLineSplits | exon_capture_overlap.py:125-131 | a summary line has no newline and splits at its tabs into exactly its four fields |
| Samples.SummaryLineRoundTrip | exon_capture_overlap.py:125-131 | a summary line has no newline and reads back as the summary it was written from |
| Samples.SummaryLinesPlain | exon_capture_overlap.py:131 | no summary line contains a newline |
| Samples.ParseSummaryLinesPointwise | exon_capture_overlap.py:131 | lines that each read back as the matching summary read back as the whole list, in order |
| Samples.SummaryLinesRoundTrip | exon_capture_overlap.py:131 | the list of summary lines reads back as the summaries, in order |
| Samples.SummaryRoundTrip | exon_capture_overlap.py:131 | the summary file reads back as the summaries it was written from, in order |
| Samples.SummaryLineExample | exon_capture_overlap.py:125-131 | the summary (sample_id, 1000, 300, 450) is written as `sample_id\t1000\t300\t450` |
| Samples.SummaryTextSingle | exon_capture_overlap.py:131 | a single summary is written as its line alone, with no newline added |
| Samples.SummaryFieldsExample | exon_capture_overlap.py:125 | the summary (sample_id, 1000, 300, 450) has the fields `sample_id`, `1000`, `300`, `450` |
| Samples.JoinExample | exon_capture_overlap.py:131 | those four fields joined with tabs give `sample_id\t1000\t300\t450` |
| Samples.NumeralExamples | exon_capture_overlap.py:125 | `str` writes 1000, 300 and 450 as their usual decimals |
| Samples.Run | exon_capture_overlap.py:78-131 | the script's sample entries are the per-sample summaries against the grouped target lists, and the output is their summary table |

## Left out

- The interval tree library's internals are not modelled. The index holds the set of each chromosome's intervals, and the overlap query is the parameter `first`. Which overlapping interval `overlap(bounds)[0]` returns first is left open, beyond it being one that overlaps.
- The closed-interval reading of `overlap` is an assumption. Intervals are taken to overlap when they share at least one base, ends included.
- File I/O, `gzip` decompression and `glob` are not modelled. The texts of the two target lists and the list of coverage files (path plus decompressed text) are parameters of `Run`. The summary file's contents are its result.
- The three `print` statements (lines 83, 91 and 127) are left out.
- The hard-coded paths are left out.
- `int()` failures are not modelled as exceptions. Malformed rows (fewer than three columns, or a bound that is not an integer) are excluded by the `WellFormedRows` and `Readable` preconditions; in the source they would end the script with a traceback.
- `int()` is modelled only for surrounding whitespace, an optional sign and decimal digits. Python 2's `int()` also accepts whitespace between the sign and the digits (`"- 5"`). The model rejects that form, so `WellFormedRows` excludes rows that use it.
- The bare `except` is modelled as an explicit `Option` from the query, plus a check that the chromosome is indexed. Any other exception it might swallow is out of scope.
- AccumulateCounts: the loop runs over records parsed beforehand (`Rows`), not parsing `int(interval[1])` inside the loop as the source does. The result is the same, because parsing cannot fail under the precondition.
- Samples.SummaryRoundTrip: requires at least one sample. With none, the program writes an empty file, and `"".split('\n')` is `[""]`, which is not an empty list of lines.
- `ParseSummary` and `ParseSummaryLine` are not part of the program. They exist only as the inverse against which the summary table is proved.
- Intervals.NonOverlappingCount: when the reference lies strictly inside a query, the source counts only the start-side excess. The model keeps this behaviour, a known approximation, rather than correcting it. `NonOverlapStraddling` proves it and also proves how far it falls short of the true count.
- Sample identifiers containing a tab or a newline would corrupt the table. The round-trip lemmas require plain identifiers (`NoTabOrNewline`).
- Python 2's byte-string semantics are left out. Strings are sequences of characters.
