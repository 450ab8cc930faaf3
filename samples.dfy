/** The script's main loop: the three counters of each sample, the list of
    sample summaries and the summary table written at the end. */
module Samples {
  import opened Wrappers
  import opened Strings
  import opened Numerals
  import opened Paths
  import opened Intervals
  import opened IntervalFiles
  import opened IntervalIndex

  /** What one reference adds to its counter for one low-coverage record:
      the bases outside the first overlapping interval, or the whole record
      when the chromosome is not indexed or nothing overlaps. */
  function RecordNonOverlap(index: Index, first: OverlapQuery, row: Row): (n: int)
    ensures (row.chrom !in index || first(index[row.chrom], Bounds(row)).None?) ==> n == Length(Bounds(row))
    ensures row.start <= row.end ==>
      (n == 0 <==> row.chrom in index && first(index[row.chrom], Bounds(row)).Some? &&
                   Within(Bounds(row), first(index[row.chrom], Bounds(row)).value))
  {
    var bounds := Bounds(row);
    if row.chrom in index then
      match first(index[row.chrom], bounds)
      case Some(r) => NonOverlappingCount(bounds, r)
      case None => Length(bounds)
    else Length(bounds)
  }

  /** Sum of the records' lengths `stop - start + 1`. */
  function TotalLength(rows: seq<Row>): int
  {
    if |rows| == 0 then 0
    else TotalLength(rows[..|rows| - 1]) + Length(Bounds(rows[|rows| - 1]))
  }

  /** Sum of what one reference adds for each record. */
  function TotalNonOverlap(index: Index, first: OverlapQuery, rows: seq<Row>): int
  {
    if |rows| == 0 then 0
    else TotalNonOverlap(index, first, rows[..|rows| - 1]) + RecordNonOverlap(index, first, rows[|rows| - 1])
  }

  /** Extending the records by one adds that record's share to each total. */
  lemma TotalsStep(index: Index, first: OverlapQuery, rows: seq<Row>, i: nat)
    requires i < |rows|
    ensures TotalLength(rows[..i + 1]) == TotalLength(rows[..i]) + Length(Bounds(rows[i]))
    ensures TotalNonOverlap(index, first, rows[..i + 1])
         == TotalNonOverlap(index, first, rows[..i]) + RecordNonOverlap(index, first, rows[i])
  {
    assert rows[..i + 1][..i] == rows[..i];
  }

  /** Records with `start <= stop` get between nothing and their full length. */
  lemma RecordNonOverlapBounded(index: Index, first: OverlapQuery, row: Row)
    requires IsFirstOverlap(first)
    requires row.start <= row.end
    ensures 0 <= RecordNonOverlap(index, first, row) <= Length(Bounds(row))
  {
    if row.chrom in index {
      assert AnswersOverlap(first(index[row.chrom], Bounds(row)), index[row.chrom], Bounds(row));
    }
  }

  /** Each reference counter lies between 0 and the low-coverage total. */
  lemma {:induction false} TotalNonOverlapBounded(index: Index, first: OverlapQuery, rows: seq<Row>)
    requires IsFirstOverlap(first)
    requires forall i :: 0 <= i < |rows| ==> rows[i].start <= rows[i].end
    ensures 0 <= TotalNonOverlap(index, first, rows) <= TotalLength(rows)
  {
    if |rows| > 0 {
      TotalNonOverlapBounded(index, first, rows[..|rows| - 1]);
      RecordNonOverlapBounded(index, first, rows[|rows| - 1]);
    }
  }

  /** A reference that indexes none of the records' chromosomes counts every
      low-coverage base as outside it. */
  lemma {:induction false} UnindexedCountsEverything(index: Index, first: OverlapQuery, rows: seq<Row>)
    requires forall i :: 0 <= i < |rows| ==> rows[i].chrom !in index
    ensures TotalNonOverlap(index, first, rows) == TotalLength(rows)
  {
    if |rows| > 0 {
      UnindexedCountsEverything(index, first, rows[..|rows| - 1]);
    }
  }

  /** A reference counter depends on nothing but that reference's entries
      for the records' chromosomes: two indexes that agree there give the
      same total, whatever else they hold. */
  lemma {:induction false} TotalNonOverlapLocal(index1: Index, index2: Index, first: OverlapQuery, rows: seq<Row>)
    requires forall i :: 0 <= i < |rows| ==>
      (rows[i].chrom in index1 <==> rows[i].chrom in index2) &&
      (rows[i].chrom in index1 ==> index1[rows[i].chrom] == index2[rows[i].chrom])
    ensures TotalNonOverlap(index1, first, rows) == TotalNonOverlap(index2, first, rows)
  {
    if |rows| > 0 {
      TotalNonOverlapLocal(index1, index2, first, rows[..|rows| - 1]);
    }
  }

  /** The counters are sums over records: splitting the records splits them. */
  lemma {:induction false} TotalsAdditive(index: Index, first: OverlapQuery, a: seq<Row>, b: seq<Row>)
    ensures TotalLength(a + b) == TotalLength(a) + TotalLength(b)
    ensures TotalNonOverlap(index, first, a + b) == TotalNonOverlap(index, first, a) + TotalNonOverlap(index, first, b)
    decreases |b|
  {
    if |b| == 0 {
      assert a + b == a;
    } else {
      TotalsAdditive(index, first, a, b[..|b| - 1]);
      assert (a + b)[..|a + b| - 1] == a + b[..|b| - 1];
    }
  }

  /** The loop over the parsed low-coverage records of one sample. */
  method AccumulateCounts(rows: seq<Row>, reference1: Index, reference2: Index, first: OverlapQuery)
    returns (lowCoverageBaseCount: int, nonOverlapCount1: int, nonOverlapCount2: int)
    ensures lowCoverageBaseCount == TotalLength(rows)
    ensures nonOverlapCount1 == TotalNonOverlap(reference1, first, rows)
    ensures nonOverlapCount2 == TotalNonOverlap(reference2, first, rows)
  {
    lowCoverageBaseCount, nonOverlapCount1, nonOverlapCount2 := 0, 0, 0;
    var i := 0;
    while i < |rows|
      invariant 0 <= i <= |rows|
      invariant lowCoverageBaseCount == TotalLength(rows[..i])
      invariant nonOverlapCount1 == TotalNonOverlap(reference1, first, rows[..i])
      invariant nonOverlapCount2 == TotalNonOverlap(reference2, first, rows[..i])
    {
      var row := rows[i];
      var bounds := (row.start, row.end);
      var count1, count2;
      if row.chrom in reference1 && first(reference1[row.chrom], bounds).Some? {
        count1 := NonOverlappingCount(bounds, first(reference1[row.chrom], bounds).value);
      } else {
        count1 := row.end - row.start + 1;
      }
      if row.chrom in reference2 && first(reference2[row.chrom], bounds).Some? {
        count2 := NonOverlappingCount(bounds, first(reference2[row.chrom], bounds).value);
      } else {
        count2 := row.end - row.start + 1;
      }
      lowCoverageBaseCount := lowCoverageBaseCount + row.end - row.start + 1;
      nonOverlapCount1 := nonOverlapCount1 + count1;
      nonOverlapCount2 := nonOverlapCount2 + count2;
      TotalsStep(reference1, first, rows, i);
      TotalsStep(reference2, first, rows, i);
      i := i + 1;
    }
    assert rows[..i] == rows;
  }

  /** A coverage file: its path and its decompressed text. */
  datatype SampleFile = SampleFile(path: string, contents: string)

  /** One line of the summary table. */
  datatype SampleSummary = SampleSummary(
    sampleId: string,
    lowCoverageBaseCount: int,
    nonOverlapCount1: int,
    nonOverlapCount2: int)

  predicate Readable(sample: SampleFile)
  {
    WellFormedRows(LowCoverageRows(sample.contents))
  }

  /** The summary the program computes for one sample. */
  function Summarize(sample: SampleFile, reference1: Index, reference2: Index, first: OverlapQuery): SampleSummary
    requires Readable(sample)
  {
    var rows := Rows(LowCoverageRows(sample.contents));
    SampleSummary(SampleId(sample.path), TotalLength(rows),
                  TotalNonOverlap(reference1, first, rows), TotalNonOverlap(reference2, first, rows))
  }

  /** One pass of the loop over the sample files: read the low-coverage
      records, count, and assemble the summary. */
  method ProcessSample(sample: SampleFile, reference1: Index, reference2: Index, first: OverlapQuery)
    returns (summary: SampleSummary)
    requires Readable(sample)
    ensures summary == Summarize(sample, reference1, reference2, first)
  {
    var lowCoverageIntervals := LowCoverageRows(sample.contents);
    var records := Rows(lowCoverageIntervals);
    var count, count1, count2 := AccumulateCounts(records, reference1, reference2, first);
    summary := SampleSummary(SampleId(sample.path), count, count1, count2);
  }

  predicate AllReadable(samples: seq<SampleFile>)
  {
    forall i :: 0 <= i < |samples| ==> Readable(samples[i])
  }

  /** The list `sample_entries` after the given samples. */
  function Summaries(samples: seq<SampleFile>, reference1: Index, reference2: Index, first: OverlapQuery): seq<SampleSummary>
    requires AllReadable(samples)
  {
    if |samples| == 0 then []
    else Summaries(samples[..|samples| - 1], reference1, reference2, first)
         + [Summarize(samples[|samples| - 1], reference1, reference2, first)]
  }

  lemma {:induction false} SummariesLength(samples: seq<SampleFile>, reference1: Index, reference2: Index, first: OverlapQuery)
    requires AllReadable(samples)
    ensures |Summaries(samples, reference1, reference2, first)| == |samples|
  {
    if |samples| > 0 {
      SummariesLength(samples[..|samples| - 1], reference1, reference2, first);
    }
  }

  lemma {:induction false} SummaryAt(samples: seq<SampleFile>, reference1: Index, reference2: Index, first: OverlapQuery, i: nat)
    requires AllReadable(samples) && i < |samples|
    ensures i < |Summaries(samples, reference1, reference2, first)|
    ensures Summaries(samples, reference1, reference2, first)[i] == Summarize(samples[i], reference1, reference2, first)
  {
    var earlier := samples[..|samples| - 1];
    SummariesLength(earlier, reference1, reference2, first);
    var before := Summaries(earlier, reference1, reference2, first);
    var last := Summarize(samples[|samples| - 1], reference1, reference2, first);
    assert Summaries(samples, reference1, reference2, first) == before + [last];
    if i < |earlier| {
      SummaryAt(earlier, reference1, reference2, first, i);
      assert earlier[i] == samples[i];
      assert (before + [last])[i] == before[i];
    } else {
      assert i == |samples| - 1;
      assert (before + [last])[i] == last;
    }
  }

  /** One summary per sample, in the samples' order. */
  lemma SummariesInOrder(samples: seq<SampleFile>, reference1: Index, reference2: Index, first: OverlapQuery)
    requires AllReadable(samples)
    ensures |Summaries(samples, reference1, reference2, first)| == |samples|
    ensures forall i :: 0 <= i < |samples| ==>
      Summaries(samples, reference1, reference2, first)[i] == Summarize(samples[i], reference1, reference2, first)
  {
    SummariesLength(samples, reference1, reference2, first);
    forall i | 0 <= i < |samples| ensures Summaries(samples, reference1, reference2, first)[i] == Summarize(samples[i], reference1, reference2, first) {
      SummaryAt(samples, reference1, reference2, first, i);
    }
  }

  /** One more sample appends its summary. */
  lemma SummariesStep(samples: seq<SampleFile>, reference1: Index, reference2: Index, first: OverlapQuery, i: nat)
    requires AllReadable(samples) && i < |samples|
    ensures Summaries(samples[..i + 1], reference1, reference2, first)
         == Summaries(samples[..i], reference1, reference2, first) + [Summarize(samples[i], reference1, reference2, first)]
  {
    var next := samples[..i + 1];
    assert next[..i] == samples[..i] && next[i] == samples[i];
  }

  /** The loop over the sample files, in the order they are listed. */
  method ProcessSamples(samples: seq<SampleFile>, reference1: Index, reference2: Index, first: OverlapQuery)
    returns (sampleEntries: seq<SampleSummary>)
    requires AllReadable(samples)
    ensures sampleEntries == Summaries(samples, reference1, reference2, first)
  {
    sampleEntries := [];
    var i := 0;
    while i < |samples|
      invariant 0 <= i <= |samples|
      invariant sampleEntries == Summaries(samples[..i], reference1, reference2, first)
    {
      var summary := ProcessSample(samples[i], reference1, reference2, first);
      SummariesStep(samples, reference1, reference2, first, i);
      sampleEntries := sampleEntries + [summary];
      i := i + 1;
    }
    assert samples[..i] == samples;
  }

  /** `[sample_id, str(count), str(count1), str(count2)]`. */
  function SummaryFields(entry: SampleSummary): seq<string>
  {
    [entry.sampleId, IntToString(entry.lowCoverageBaseCount),
     IntToString(entry.nonOverlapCount1), IntToString(entry.nonOverlapCount2)]
  }

  function SummaryLines(entries: seq<SampleSummary>): (lines: seq<string>)
    ensures |lines| == |entries|
    ensures forall i :: 0 <= i < |entries| ==> lines[i] == Join(SummaryFields(entries[i]), '\t')
  {
    if |entries| == 0 then []
    else [Join(SummaryFields(entries[0]), '\t')] + SummaryLines(entries[1..])
  }

  /** The contents of the summary file. */
  function SummaryText(entries: seq<SampleSummary>): string
  {
    Join(SummaryLines(entries), '\n')
  }

  /** For one or more summaries with plain identifiers, splitting the file's
      text at newlines gives back exactly the summary lines. */
  lemma SummaryTextLines(entries: seq<SampleSummary>)
    requires |entries| >= 1
    requires forall i :: 0 <= i < |entries| ==> NoTabOrNewline(entries[i].sampleId)
    ensures Split(SummaryText(entries), '\n') == SummaryLines(entries)
  {
    SummaryLinesPlain(entries);
    SplitOfJoin(SummaryLines(entries), '\n');
  }

  /** Reading a summary line back: four tab-separated fields, the last three
      integers. */
  function ParseSummaryLine(line: string): Option<SampleSummary>
  {
    var fields := Split(line, '\t');
    if |fields| != 4 then None
    else match (ParseInt(fields[1]), ParseInt(fields[2]), ParseInt(fields[3]))
      case (Some(count), Some(count1), Some(count2)) => Some(SampleSummary(fields[0], count, count1, count2))
      case _ => None
  }

  function ParseSummaryLines(lines: seq<string>): Option<seq<SampleSummary>>
  {
    if |lines| == 0 then Some([])
    else match (ParseSummaryLine(lines[0]), ParseSummaryLines(lines[1..]))
      case (Some(entry), Some(rest)) => Some([entry] + rest)
      case _ => None
  }

  /** Reading a whole summary file back. */
  function ParseSummary(text: string): Option<seq<SampleSummary>>
  {
    ParseSummaryLines(Split(text, '\n'))
  }

  /** Neither a tab nor a newline: a field that can be written into the table unambiguously. */
  predicate NoTabOrNewline(s: string)
  {
    '\t' !in s && '\n' !in s
  }

  /** A decimal numeral holds neither a tab nor a newline. */
  lemma NumeralIsPlain(n: int)
    ensures NoTabOrNewline(IntToString(n))
  {
    var s := IntToString(n);
    assert forall k :: 0 <= k < |s| ==> s[k] != '\t' && s[k] != '\n';
  }

  /** No field of a summary line holds a tab or a newline. */
  lemma SummaryFieldsPlain(entry: SampleSummary)
    requires NoTabOrNewline(entry.sampleId)
    ensures forall i :: 0 <= i < |SummaryFields(entry)| ==> NoTabOrNewline(SummaryFields(entry)[i])
  {
    NumeralIsPlain(entry.lowCoverageBaseCount);
    NumeralIsPlain(entry.nonOverlapCount1);
    NumeralIsPlain(entry.nonOverlapCount2);
  }

  /** A summary line has no newline and splits at its tabs into its fields. */
  lemma SummaryLineSplits(entry: SampleSummary)
    requires NoTabOrNewline(entry.sampleId)
    ensures '\n' !in Join(SummaryFields(entry), '\t')
    ensures Split(Join(SummaryFields(entry), '\t'), '\t') == SummaryFields(entry)
  {
    SummaryFieldsPlain(entry);
    JoinAvoids(SummaryFields(entry), '\t', '\n');
    SplitOfJoin(SummaryFields(entry), '\t');
  }

  lemma SummaryLineRoundTrip(entry: SampleSummary)
    requires NoTabOrNewline(entry.sampleId)
    ensures '\n' !in Join(SummaryFields(entry), '\t')
    ensures ParseSummaryLine(Join(SummaryFields(entry), '\t')) == Some(entry)
  {
    SummaryLineSplits(entry);
    ParseIntToString(entry.lowCoverageBaseCount);
    ParseIntToString(entry.nonOverlapCount1);
    ParseIntToString(entry.nonOverlapCount2);
  }

  lemma SummaryLinesPlain(entries: seq<SampleSummary>)
    requires forall i :: 0 <= i < |entries| ==> NoTabOrNewline(entries[i].sampleId)
    ensures forall i :: 0 <= i < |entries| ==> '\n' !in SummaryLines(entries)[i]
  {
    forall i | 0 <= i < |entries| ensures '\n' !in SummaryLines(entries)[i] {
      SummaryLineRoundTrip(entries[i]);
    }
  }

  /** Lines that each read back as the matching summary read back as the list. */
  lemma {:induction false} ParseSummaryLinesPointwise(lines: seq<string>, entries: seq<SampleSummary>)
    requires |lines| == |entries|
    requires forall i :: 0 <= i < |lines| ==> ParseSummaryLine(lines[i]) == Some(entries[i])
    ensures ParseSummaryLines(lines) == Some(entries)
  {
    if |lines| > 0 {
      ParseSummaryLinesPointwise(lines[1..], entries[1..]);
      assert [entries[0]] + entries[1..] == entries;
    }
  }

  lemma SummaryLinesRoundTrip(entries: seq<SampleSummary>)
    requires forall i :: 0 <= i < |entries| ==> NoTabOrNewline(entries[i].sampleId)
    ensures ParseSummaryLines(SummaryLines(entries)) == Some(entries)
  {
    var lines := SummaryLines(entries);
    forall i | 0 <= i < |lines| ensures ParseSummaryLine(lines[i]) == Some(entries[i]) {
      SummaryLineRoundTrip(entries[i]);
    }
    ParseSummaryLinesPointwise(lines, entries);
  }

  /** The summary table can be read back into the summaries it was written
      from, in order, when there is at least one sample. */
  lemma SummaryRoundTrip(entries: seq<SampleSummary>)
    requires |entries| >= 1
    requires forall i :: 0 <= i < |entries| ==> NoTabOrNewline(entries[i].sampleId)
    ensures ParseSummary(SummaryText(entries)) == Some(entries)
  {
    SummaryTextLines(entries);
    SummaryLinesRoundTrip(entries);
  }

  /** One summary written as a line of the table. */
  lemma SummaryLineExample()
    ensures SummaryText([SampleSummary("sample_id", 1000, 300, 450)]) == "sample_id\t1000\t300\t450"
  {
    SummaryTextSingle(SampleSummary("sample_id", 1000, 300, 450));
    SummaryFieldsExample();
    JoinExample();
  }

  /** A single summary is written as its line alone. */
  lemma SummaryTextSingle(entry: SampleSummary)
    ensures SummaryText([entry]) == Join(SummaryFields(entry), '\t')
  {
    assert SummaryLines([entry]) == [Join(SummaryFields(entry), '\t')];
  }

  lemma SummaryFieldsExample()
    ensures SummaryFields(SampleSummary("sample_id", 1000, 300, 450)) == ["sample_id", "1000", "300", "450"]
  {
    NumeralExamples();
  }

  lemma JoinExample()
    ensures Join(["sample_id", "1000", "300", "450"], '\t') == "sample_id\t1000\t300\t450"
  {
    var fields := ["sample_id", "1000", "300", "450"];
    assert Join(fields[3..], '\t') == "450";
    assert Join(fields[2..], '\t') == "300" + "\t" + "450" == "300\t450";
    assert Join(fields[1..], '\t') == "1000" + "\t" + "300\t450" == "1000\t300\t450";
    assert Join(fields, '\t') == "sample_id" + "\t" + "1000\t300\t450";
  }

  lemma NumeralExamples()
    ensures IntToString(1000) == "1000" && IntToString(300) == "300" && IntToString(450) == "450"
  {
    assert NatToString(10) == "10";
    assert NatToString(100) == "100";
    assert NatToString(1000) == "1000";
    assert NatToString(30) == "30";
    assert NatToString(300) == "300";
    assert NatToString(45) == "45";
    assert NatToString(450) == "450";
  }

  /** The whole script, given the two reference files' texts, the listed
      coverage files and the overlap query of the tree library. */
  method Run(referenceText1: string, referenceText2: string, samples: seq<SampleFile>, first: OverlapQuery)
    returns (sampleEntries: seq<SampleSummary>, output: string)
    requires WellFormedRows(IntervalListRows(referenceText1))
    requires WellFormedRows(IntervalListRows(referenceText2))
    requires AllReadable(samples)
    ensures sampleEntries == Summaries(samples, Group(Rows(IntervalListRows(referenceText1))),
                                       Group(Rows(IntervalListRows(referenceText2))), first)
    ensures output == SummaryText(sampleEntries)
  {
    var reference1 := CreateIntervalTrees(IntervalListRows(referenceText1));
    var reference2 := CreateIntervalTrees(IntervalListRows(referenceText2));
    sampleEntries := ProcessSamples(samples, reference1, reference2, first);
    output := SummaryText(sampleEntries);
  }
}
