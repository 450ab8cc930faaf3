/** The per-chromosome reference index of `create_interval_trees` and the
    contract of its overlap query. */
module IntervalIndex {
  import opened Wrappers
  import opened Intervals
  import opened IntervalFiles

  /** Chromosome name to the set of `(start, end)` pairs on it; the balanced
      tree of each entry is represented by the set it holds. */
  type Index = map<string, set<Interval>>

  function Bounds(row: Row): Interval
  {
    (row.start, row.end)
  }

  /** `index` holds every row under its chromosome, and nothing else: no key
      without an interval, no pair that is not some row's. */
  ghost predicate IsGrouping(index: Index, rows: seq<Row>)
  {
    (forall r :: r in rows ==> r.chrom in index && Bounds(r) in index[r.chrom]) &&
    (forall k :: k in index ==> index[k] != {}) &&
    (forall k, p :: k in index && p in index[k] ==> Row(k, p.0, p.1) in rows)
  }

  function Chromosomes(rows: seq<Row>): set<string>
  {
    set r | r in rows :: r.chrom
  }

  function IntervalsOn(rows: seq<Row>, chrom: string): set<Interval>
  {
    set r | r in rows && r.chrom == chrom :: Bounds(r)
  }

  /** Reference definition of the index built from `rows`. */
  function Group(rows: seq<Row>): Index
  {
    map k | k in Chromosomes(rows) :: IntervalsOn(rows, k)
  }

  lemma GroupIsGrouping(rows: seq<Row>)
    ensures IsGrouping(Group(rows), rows)
  {
    var g := Group(rows);
    forall r | r in rows ensures r.chrom in g && Bounds(r) in g[r.chrom] {
      assert r.chrom in Chromosomes(rows);
      assert Bounds(r) in IntervalsOn(rows, r.chrom);
    }
    forall k | k in g ensures g[k] != {} {
      var r :| r in rows && r.chrom == k;
      assert Bounds(r) in g[k];
    }
  }

  /** Every key of a grouping is the chromosome of some row. */
  lemma GroupingKeysFromRows(index: Index, rows: seq<Row>, k: string)
    requires IsGrouping(index, rows) && k in index
    ensures exists i :: 0 <= i < |rows| && rows[i].chrom == k
  {
    var p :| p in index[k];
    var i :| 0 <= i < |rows| && rows[i] == Row(k, p.0, p.1);
  }

  /** A grouping is determined by its rows: it is the reference index. */
  lemma GroupingIsUnique(index: Index, rows: seq<Row>)
    requires IsGrouping(index, rows)
    ensures index == Group(rows)
  {
    var g := Group(rows);
    forall k ensures k in index <==> k in g {
      if k in index {
        var p :| p in index[k];
        assert Row(k, p.0, p.1) in rows;
      }
    }
    forall k | k in index ensures index[k] == g[k] {
      forall p ensures p in index[k] <==> p in g[k] {
        if p in index[k] {
          assert Row(k, p.0, p.1) in rows;
        }
      }
    }
  }

  /** The index after one row: a fresh empty entry if the chromosome is new,
      then the row's pair is added to that entry. */
  function AddRow(index: Index, row: Row): Index
  {
    var created := if row.chrom !in index then index[row.chrom := {}] else index;
    created[row.chrom := created[row.chrom] + {Bounds(row)}]
  }

  /** Adding one row's pair under its chromosome keeps the grouping exact. */
  lemma GroupingStep(index: Index, rows: seq<Row>, i: nat)
    requires i < |rows| && IsGrouping(index, rows[..i])
    ensures IsGrouping(AddRow(index, rows[i]), rows[..i + 1])
  {
    var row := rows[i];
    assert rows[..i + 1] == rows[..i] + [row];
    var next := AddRow(index, row);
    forall k: string, p: Interval | k in next && p in next[k] ensures Row(k, p.0, p.1) in rows[..i] + [row] {
      if k == row.chrom && p == Bounds(row) {
        assert Row(k, p.0, p.1) == row;
      } else {
        assert k in index && p in index[k];
      }
    }
  }

  /** `create_interval_trees(interval_list)`. */
  method CreateIntervalTrees(intervalList: seq<seq<string>>) returns (index: Index)
    requires WellFormedRows(intervalList)
    ensures IsGrouping(index, Rows(intervalList))
    ensures index == Group(Rows(intervalList))
  {
    ghost var rows := Rows(intervalList);
    index := map[];
    var i := 0;
    while i < |intervalList|
      invariant 0 <= i <= |intervalList|
      invariant IsGrouping(index, rows[..i])
    {
      var row := RowOf(intervalList[i]);
      assert row == rows[i];
      GroupingStep(index, rows, i);
      ghost var expected := AddRow(index, row);
      if row.chrom !in index {
        index := index[row.chrom := {}];
      }
      index := index[row.chrom := index[row.chrom] + {Bounds(row)}];
      assert index == expected;
      i := i + 1;
    }
    assert rows[..i] == rows;
    GroupingIsUnique(index, rows);
  }

  /** `index[chrom].overlap(bounds)[0]`, given the tree's contents: an
      interval of the set, or None where the program catches the failure. */
  type OverlapQuery = (set<Interval>, Interval) -> Option<Interval>

  /** The answer names an overlapping member, or there is none. */
  ghost predicate AnswersOverlap(answer: Option<Interval>, intervals: set<Interval>, query: Interval)
  {
    match answer
    case Some(r) => r in intervals && Overlaps(query, r)
    case None => forall r :: r in intervals ==> !Overlaps(query, r)
  }

  /** The query behaves as the tree's overlap search followed by `[0]`; which
      overlapping interval comes first is left open. */
  ghost predicate IsFirstOverlap(first: OverlapQuery)
  {
    forall intervals, query :: AnswersOverlap(first(intervals, query), intervals, query)
  }

  function ExampleRows(): seq<Row>
  {
    [Row("1", 100, 200), Row("1", 300, 400), Row("2", 50, 60)]
  }

  /** A small target list of three intervals on two chromosomes, grouped. */
  lemma ExampleIndex()
    ensures Group(ExampleRows()) == map["1" := {(100, 200), (300, 400)}, "2" := {(50, 60)}]
  {
    var rows := ExampleRows();
    var index: Index := map["1" := {(100, 200), (300, 400)}, "2" := {(50, 60)}];
    assert "1" != "2" by { assert "1"[0] != "2"[0]; }
    forall k, p | k in index && p in index[k] ensures Row(k, p.0, p.1) in rows {
      if k == "1" {
        assert p == (100, 200) || p == (300, 400);
        assert rows[0] == Row("1", 100, 200) && rows[1] == Row("1", 300, 400);
      } else {
        assert rows[2] == Row(k, p.0, p.1);
      }
    }
    forall r | r in rows ensures r.chrom in index && Bounds(r) in index[r.chrom] {
      var i :| 0 <= i < |rows| && rows[i] == r;
    }
    assert IsGrouping(index, rows);
    GroupingIsUnique(index, rows);
  }

  /** Querying the example index: chromosome "1" answers with its only
      overlapping interval, chromosome "3" is absent. */
  lemma ExampleQuery(first: OverlapQuery)
    requires IsFirstOverlap(first)
    ensures var index := Group(ExampleRows());
      "1" in index && first(index["1"], (150, 180)) == Some((100, 200)) && "3" !in index
  {
    ExampleIndex();
    var s: set<Interval> := {(100, 200), (300, 400)};
    assert "3" != "1" by { assert "3"[0] != "1"[0]; }
    assert "3" != "2" by { assert "3"[0] != "2"[0]; }
    assert AnswersOverlap(first(s, (150, 180)), s, (150, 180));
    assert Overlaps((150, 180), (100, 200));
  }
}
