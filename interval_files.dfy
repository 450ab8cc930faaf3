/** Reading the two kinds of tab-separated interval files: the line filters of
    `get_low_coverage_intervals` and `get_interval_list`, and the conversion of
    a row's first three columns to `(chromosome, start, end)`. */
module IntervalFiles {
  import opened Wrappers
  import opened Strings
  import opened Numerals

  /** A row's chromosome column and integer bounds. */
  datatype Row = Row(chrom: string, start: int, end: int)

  /** `interval[0]`, `int(interval[1])`, `int(interval[2])`; None where Python
      would raise (too few columns, a bound that is not an integer). */
  function ParseRow(fields: seq<string>): (r: Option<Row>)
    ensures r.Some? <==> |fields| >= 3 && ParseInt(fields[1]).Some? && ParseInt(fields[2]).Some?
    ensures r.Some? ==>
      r.value.chrom == fields[0] && ParseInt(fields[1]) == Some(r.value.start) && ParseInt(fields[2]) == Some(r.value.end)
  {
    if |fields| < 3 then None
    else match (ParseInt(fields[1]), ParseInt(fields[2]))
      case (Some(start), Some(end)) => Some(Row(fields[0], start, end))
      case _ => None
  }

  predicate WellFormed(fields: seq<string>)
  {
    ParseRow(fields).Some?
  }

  predicate WellFormedRows(rows: seq<seq<string>>)
  {
    forall i :: 0 <= i < |rows| ==> WellFormed(rows[i])
  }

  function RowOf(fields: seq<string>): Row
    requires WellFormed(fields)
  {
    ParseRow(fields).value
  }

  /** All rows, converted. */
  function Rows(rows: seq<seq<string>>): (parsed: seq<Row>)
    requires WellFormedRows(rows)
    ensures |parsed| == |rows|
    ensures forall i :: 0 <= i < |rows| ==>
      parsed[i].chrom == rows[i][0] &&
      ParseInt(rows[i][1]) == Some(parsed[i].start) && ParseInt(rows[i][2]) == Some(parsed[i].end)
  {
    seq(|rows|, i requires 0 <= i < |rows| => RowOf(rows[i]))
  }

  /** The three columns the program reads, written back out. */
  function FormatRow(row: Row): seq<string>
  {
    [row.chrom, IntToString(row.start), IntToString(row.end)]
  }

  /** Reading a row gives back what was written. */
  lemma ParseFormatRow(row: Row, extra: seq<string>)
    ensures ParseRow(FormatRow(row) + extra) == Some(row)
  {
    var fields := FormatRow(row) + extra;
    assert |fields| >= 3 && fields[0] == row.chrom;
    assert fields[1] == IntToString(row.start) && fields[2] == IntToString(row.end);
    ParseIntToString(row.start);
    ParseIntToString(row.end);
  }

  /** `[x.split('\t') for x in lines if keep(x)]`. */
  function SplitKept(lines: seq<string>, keep: string -> bool): (rows: seq<seq<string>>)
    ensures |rows| <= |lines|
    ensures forall j :: 0 <= j < |rows| ==> keep(Join(rows[j], '\t'))
  {
    if |lines| == 0 then []
    else
      JoinOfSplit(lines[0], '\t');
      (if keep(lines[0]) then [Split(lines[0], '\t')] else []) + SplitKept(lines[1..], keep)
  }

  /** The comprehension keeps the order of the lines. */
  lemma {:induction false} SplitKeptAppend(a: seq<string>, b: seq<string>, keep: string -> bool)
    ensures SplitKept(a + b, keep) == SplitKept(a, keep) + SplitKept(b, keep)
  {
    if |a| > 0 {
      assert (a + b)[1..] == a[1..] + b;
      SplitKeptAppend(a[1..], b, keep);
    } else {
      assert a + b == b;
    }
  }

  /** A row is produced exactly when some kept line splits to it. */
  lemma {:induction false} SplitKeptMembership(lines: seq<string>, keep: string -> bool, row: seq<string>)
    ensures row in SplitKept(lines, keep)
        <==> exists i :: 0 <= i < |lines| && keep(lines[i]) && Split(lines[i], '\t') == row
  {
    if |lines| > 0 {
      SplitKeptMembership(lines[1..], keep, row);
      if row in SplitKept(lines[1..], keep) {
        var i :| 0 <= i < |lines[1..]| && keep(lines[1..][i]) && Split(lines[1..][i], '\t') == row;
        assert lines[i + 1] == lines[1..][i];
      }
      if exists i :: 0 <= i < |lines| && keep(lines[i]) && Split(lines[i], '\t') == row {
        var i :| 0 <= i < |lines| && keep(lines[i]) && Split(lines[i], '\t') == row;
        if i > 0 {
          assert lines[1..][i - 1] == lines[i];
        }
      }
    }
  }

  /** Lines of a coverage report that the program reads. */
  predicate IsLowCoverageLine(line: string)
  {
    Contains(line, "LOW_COVERAGE")
  }

  /** Lines of a target interval list that are not header lines. */
  predicate IsTargetLine(line: string)
  {
    '@' !in line
  }

  /** `get_low_coverage_intervals`, given the decompressed text of the file. */
  function LowCoverageRows(text: string): (rows: seq<seq<string>>)
    ensures |rows| <= |Split(text, '\n')|
    ensures forall j :: 0 <= j < |rows| ==> Contains(Join(rows[j], '\t'), "LOW_COVERAGE")
  {
    SplitKept(Split(text, '\n'), IsLowCoverageLine)
  }

  /** `get_interval_list`, given the text of the file. */
  function IntervalListRows(text: string): (rows: seq<seq<string>>)
    ensures |rows| <= |Split(Strip(text), '\n')|
    ensures forall j :: 0 <= j < |rows| ==> '@' !in Join(rows[j], '\t')
  {
    SplitKept(Split(Strip(text), '\n'), IsTargetLine)
  }

  /** Every row read from a coverage report is a line of it marked
      LOW_COVERAGE, split at its tabs. */
  lemma LowCoverageRowsFromMarkedLines(text: string, row: seq<string>)
    requires row in LowCoverageRows(text)
    ensures exists i :: 0 <= i < |Split(text, '\n')| &&
              Contains(Split(text, '\n')[i], "LOW_COVERAGE") &&
              Split(Split(text, '\n')[i], '\t') == row
    ensures exists k: nat :: OccursAt(Join(row, '\t'), "LOW_COVERAGE", k)
  {
    SplitKeptMembership(Split(text, '\n'), IsLowCoverageLine, row);
    var j :| 0 <= j < |LowCoverageRows(text)| && LowCoverageRows(text)[j] == row;
    ContainsIff(Join(row, '\t'), "LOW_COVERAGE");
  }

  /** A row read from an interval list never comes from a header line. */
  lemma IntervalListRowsSkipHeaders(text: string, row: seq<string>)
    requires row in IntervalListRows(text)
    ensures forall k :: 0 <= k < |row| ==> '@' !in row[k]
  {
    var j :| 0 <= j < |IntervalListRows(text)| && IntervalListRows(text)[j] == row;
    forall k | 0 <= k < |row| ensures '@' !in row[k] {
      JoinHoldsPiece(row, '\t', k);
    }
  }

  /** Every piece's characters appear in the joined string. */
  lemma {:induction false} JoinHoldsPiece(parts: seq<string>, sep: char, k: nat)
    requires k < |parts|
    ensures forall c :: c in parts[k] ==> c in Join(parts, sep)
  {
    if |parts| > 1 {
      if k > 0 {
        JoinHoldsPiece(parts[1..], sep, k - 1);
      }
    }
  }
}
