/** What the aligned table promises about the raw series it was built
    from: when it fails, which columns and rows it has, what each cell
    holds, and which input fields it depends on. */
module AlignmentTheorems {
  import opened EnergyData
  import opened Periods
  import opened Aligner

  /** The number of series in `raw` with at least one record. */
  function CountNonEmpty(raw: seq<Series>): nat
  {
    if raw == [] then 0
    else CountNonEmpty(raw[1..]) + (if raw[0].records == [] then 0 else 1)
  }

  /** Some record of the list is labelled `p`. */
  ghost predicate InRecords(records: seq<Record>, p: Period)
  {
    exists k :: 0 <= k < |records| && records[k].period == p
  }

  /** Some record of some series is labelled `p`. */
  ghost predicate HasPeriod(raw: seq<Series>, p: Period)
  {
    exists i :: 0 <= i < |raw| && InRecords(raw[i].records, p)
  }

  // ---- the collected frames ----

  lemma {:induction false} ColumnsLast(raw: seq<Series>)
    requires raw != []
    ensures Columns(raw) == Columns(raw[..|raw| - 1]) +
              (if raw[|raw| - 1].records == [] then [] else [ToColumn(raw[|raw| - 1])])
  {
  }

  lemma {:induction false} CountNonEmptyLast(raw: seq<Series>)
    requires raw != []
    ensures CountNonEmpty(raw) == CountNonEmpty(raw[..|raw| - 1]) +
              (if raw[|raw| - 1].records == [] then 0 else 1)
  {
    if |raw| > 1 {
      CountNonEmptyLast(raw[1..]);
      assert raw[1..][..|raw[1..]| - 1] == raw[..|raw| - 1][1..];
    }
  }

  /** One frame is collected per non-empty series. */
  lemma {:induction false} ColumnsCount(raw: seq<Series>)
    ensures |Columns(raw)| == CountNonEmpty(raw)
  {
    if raw != [] {
      ColumnsCount(raw[..|raw| - 1]);
      CountNonEmptyLast(raw);
    }
  }

  lemma {:induction false} ColumnsEmptyIff(raw: seq<Series>)
    ensures Columns(raw) == [] <==> forall i :: 0 <= i < |raw| ==> raw[i].records == []
  {
    if raw != [] {
      var init := raw[..|raw| - 1];
      ColumnsEmptyIff(init);
      assert forall i :: 0 <= i < |init| ==> init[i] == raw[i];
    }
  }

  /** The frames collected from a prefix of the dictionary are a prefix
      of the frames collected from all of it. */
  lemma {:induction false} ColumnsPrefix(raw: seq<Series>, n: nat)
    requires n <= |raw|
    ensures Columns(raw[..n]) <= Columns(raw)
  {
    if n < |raw| {
      var init := raw[..|raw| - 1];
      assert init[..n] == raw[..n];
      ColumnsPrefix(init, n);
    } else {
      assert raw[..n] == raw;
    }
  }

  lemma ColumnOfSeries(raw: seq<Series>, i: nat)
    requires i < |raw| && raw[i].records != []
    ensures |Columns(raw[..i])| < |Columns(raw)|
    ensures Columns(raw)[|Columns(raw[..i])|] == ToColumn(raw[i])
  {
    assert raw[..i + 1][..i] == raw[..i];
    ColumnsLast(raw[..i + 1]);
    ColumnsPrefix(raw, i + 1);
  }

  lemma {:induction false} SeriesOfColumn(raw: seq<Series>, j: nat)
    requires j < |Columns(raw)|
    ensures exists i :: 0 <= i < |raw| && raw[i].records != [] &&
              |Columns(raw[..i])| == j && Columns(raw)[j] == ToColumn(raw[i])
  {
    var init := raw[..|raw| - 1];
    if j < |Columns(init)| {
      SeriesOfColumn(init, j);
      var i :| 0 <= i < |init| && init[i].records != [] &&
               |Columns(init[..i])| == j && Columns(init)[j] == ToColumn(init[i]);
      assert init[..i] == raw[..i];
    } else {
      assert raw[..|raw| - 1] == init;
    }
  }

  lemma ColumnOrder(raw: seq<Series>, i: nat, i': nat)
    requires i < i' < |raw| && raw[i].records != []
    ensures |Columns(raw[..i])| < |Columns(raw[..i'])|
  {
    assert raw[..i + 1][..i] == raw[..i];
    assert raw[..i'][..i + 1] == raw[..i + 1];
    ColumnsPrefix(raw[..i'], i + 1);
  }

  // ---- the row index ----

  lemma {:induction false} AllPeriodsAppend(cols: seq<Column>, extra: seq<Column>)
    requires |extra| <= 1
    ensures AllPeriods(cols + extra) ==
              AllPeriods(cols) + (if extra == [] then [] else EntryPeriods(extra[0].entries))
  {
    if extra == [] {
      assert cols + extra == cols;
    } else {
      assert (cols + extra)[..|cols + extra| - 1] == cols;
    }
  }

  lemma ColumnPeriods(series: Series, p: Period)
    ensures p in EntryPeriods(ToColumn(series).entries) <==> InRecords(series.records, p)
  {
    var ps := EntryPeriods(ToColumn(series).entries);
    if p in ps {
      var k :| 0 <= k < |ps| && ps[k] == p;
      assert series.records[k].period == p;
    }
    if InRecords(series.records, p) {
      var k :| 0 <= k < |series.records| && series.records[k].period == p;
      assert ps[k] == p;
    }
  }

  lemma HasPeriodLast(raw: seq<Series>, p: Period)
    requires raw != []
    ensures HasPeriod(raw, p) <==>
              HasPeriod(raw[..|raw| - 1], p) || InRecords(raw[|raw| - 1].records, p)
  {
  }

  lemma {:induction false} PeriodsOfColumns(raw: seq<Series>, p: Period)
    ensures p in AllPeriods(Columns(raw)) <==> HasPeriod(raw, p)
  {
    if raw != [] {
      var init, last := raw[..|raw| - 1], raw[|raw| - 1];
      PeriodsOfColumns(init, p);
      HasPeriodLast(raw, p);
      ColumnPeriods(last, p);
      var extra := if last.records == [] then [] else [ToColumn(last)];
      AllPeriodsAppend(Columns(init), extra);
    }
  }

  /** A successful result is the filled join of the collected frames. */
  lemma AlignedTable(raw: seq<Series>)
    requires Aligned(raw).Success?
    ensures FirstLacking(raw) == None && Columns(raw) != []
    ensures Aligned(raw).value == FillNa(OuterJoin(Columns(raw)), MissingGeneration)
  {
  }

  // ---- the theorems ----

  /** The transform fails with NoData exactly when no series has a record,
      which includes the empty dictionary. */
  lemma AlignedFailsIffNoData(raw: seq<Series>)
    ensures Aligned(raw) == Failure(NoData) <==> forall i :: 0 <= i < |raw| ==> raw[i].records == []
  {
    ColumnsEmptyIff(raw);
  }

  /** A series with records none of which has a `generation` field makes
      the transform fail with a KeyError, and the error names the first
      such series in dictionary order. */
  lemma AlignedMissingColumn(raw: seq<Series>)
    ensures (Aligned(raw).Failure? && Aligned(raw).error.MissingColumn?) <==>
              exists i :: 0 <= i < |raw| && LacksGeneration(raw[i])
    ensures forall i ::
              (0 <= i < |raw| && LacksGeneration(raw[i]) &&
               forall k :: 0 <= k < i ==> !LacksGeneration(raw[k])) ==>
              Aligned(raw) == Failure(MissingColumn(raw[i].name))
  {
    if Aligned(raw).Failure? && Aligned(raw).error.MissingColumn? {
      var i := FirstLacking(raw).value;
      assert LacksGeneration(raw[i]);
    }
  }

  /** Column fidelity, count: one column per series with records. */
  lemma AlignedColumnCount(raw: seq<Series>)
    requires Aligned(raw).Success?
    ensures |Aligned(raw).value.columns| == CountNonEmpty(raw)
  {
    ColumnsCount(raw);
  }

  /** Column fidelity, each series: a series with records has a column
      named after it, preceded by exactly one column per non-empty series
      before it in the dictionary. */
  lemma AlignedColumnOfSeries(raw: seq<Series>, i: nat)
    requires Aligned(raw).Success?
    requires i < |raw| && raw[i].records != []
    ensures var t := Aligned(raw).value;
      CountNonEmpty(raw[..i]) < |t.columns| && t.columns[CountNonEmpty(raw[..i])] == raw[i].name
  {
    ColumnsCount(raw[..i]);
    ColumnOfSeries(raw, i);
  }

  /** Column fidelity, each column: every column belongs to a series with
      records, the one with as many non-empty series before it as there
      are columns before the column. */
  lemma AlignedSeriesOfColumn(raw: seq<Series>, j: nat)
    requires Aligned(raw).Success?
    requires j < |Aligned(raw).value.columns|
    ensures exists i :: 0 <= i < |raw| && raw[i].records != [] &&
              CountNonEmpty(raw[..i]) == j && Aligned(raw).value.columns[j] == raw[i].name
  {
    var cols := Columns(raw);
    SeriesOfColumn(raw, j);
    var i :| 0 <= i < |raw| && raw[i].records != [] &&
             |Columns(raw[..i])| == j && cols[j] == ToColumn(raw[i]);
    ColumnsCount(raw[..i]);
    assert Aligned(raw).value.columns[j] == raw[i].name;
  }

  /** Column order: a non-empty series' column comes before the column
      of any later series. */
  lemma ColumnPositionsIncrease(raw: seq<Series>, i: nat, i': nat)
    requires i < i' < |raw| && raw[i].records != []
    ensures CountNonEmpty(raw[..i]) < CountNonEmpty(raw[..i'])
  {
    ColumnsCount(raw[..i]);
    ColumnsCount(raw[..i']);
    ColumnOrder(raw, i, i');
  }

  /** Outer-join completeness and the sort: the rows are exactly the
      periods that occur in some series, strictly ascending. */
  lemma AlignedRows(raw: seq<Series>)
    requires Aligned(raw).Success?
    ensures var t := Aligned(raw).value;
      && StrictlySorted(t.index)
      && (forall p :: p in t.index <==> HasPeriod(raw, p))
      && |t.values| == |t.index|
      && (forall r :: 0 <= r < |t.values| ==> |t.values[r]| == |t.columns|)
  {
    forall p {
      PeriodsOfColumns(raw, p);
    }
  }

  /** A cell of the filled join, read through the frame it comes from. */
  lemma TableCell(cols: seq<Column>, row: nat, c: nat)
    requires c < |cols| && row < |OuterJoin(cols).index|
    ensures var t := FillNa(OuterJoin(cols), MissingGeneration);
      && row < |t.values| && c < |t.values[row]|
      && t.values[row][c] ==
           (match JoinedCell(cols[c].entries, t.index[row]) case Some(v) => v case None => MissingGeneration)
  {
  }

  /** In the frame of a series without repeated periods, the row of a
      record's period holds that record's generation field. */
  lemma LookupOfRecord(s: Series, k: nat)
    requires UniquePeriods(s.records) && k < |s.records|
    ensures Lookup(ToColumn(s).entries, s.records[k].period) == Some(FieldValue(s.records[k].generation))
  {
    var entries, p := ToColumn(s).entries, s.records[k].period;
    assert entries[k].period == p;
    var k' :| 0 <= k' < |entries| && entries[k'] == Entry(p, Lookup(entries, p).value);
    assert s.records[k'].period == p;
  }

  lemma LookupOfAbsentPeriod(s: Series, p: Period)
    requires forall k :: 0 <= k < |s.records| ==> s.records[k].period != p
    ensures Lookup(ToColumn(s).entries, p) == None
  {
    var entries := ToColumn(s).entries;
    assert forall k :: 0 <= k < |entries| ==> entries[k].period != p;
  }

  /** Zero fill: in the column of a series without repeated periods, the
      cell of a row holds the generation of that series' record for the
      row's period when it is a number, and 0 when the record's field is
      null or absent or the series has no record for the period. */
  lemma AlignedCell(raw: seq<Series>, i: nat, row: nat)
    requires Aligned(raw).Success?
    requires i < |raw| && raw[i].records != [] && UniquePeriods(raw[i].records)
    requires row < |Aligned(raw).value.index|
    ensures var t, c, recs := Aligned(raw).value, CountNonEmpty(raw[..i]), raw[i].records;
      && c < |t.columns| && row < |t.values| && c < |t.values[row]|
      && (forall k :: 0 <= k < |recs| && recs[k].period == t.index[row] ==>
            t.values[row][c] ==
              (if recs[k].generation.Number? then recs[k].generation.amount else MissingGeneration))
      && ((forall k :: 0 <= k < |recs| ==> recs[k].period != t.index[row]) ==>
            t.values[row][c] == MissingGeneration)
  {
    AlignedTable(raw);
    var t, recs := Aligned(raw).value, raw[i].records;
    var cols := Columns(raw);
    ColumnsCount(raw[..i]);
    ColumnOfSeries(raw, i);
    var c := |Columns(raw[..i])|;
    assert cols[c] == ToColumn(raw[i]);
    TableCell(cols, row, c);
    var p := t.index[row];
    forall k | 0 <= k < |recs| && recs[k].period == p
      ensures t.values[row][c] ==
                (if recs[k].generation.Number? then recs[k].generation.amount else MissingGeneration)
    {
      LookupOfRecord(raw[i], k);
    }
    if forall k :: 0 <= k < |recs| ==> recs[k].period != p {
      LookupOfAbsentPeriod(raw[i], p);
    }
  }

  /** Two dictionaries that agree on every series name and on the period
      and generation of every record. */
  predicate SameObservations(raw: seq<Series>, raw': seq<Series>)
  {
    && |raw| == |raw'|
    && (forall i :: 0 <= i < |raw| ==>
          raw[i].name == raw'[i].name && |raw[i].records| == |raw'[i].records|)
    && (forall i, k :: 0 <= i < |raw| && 0 <= k < |raw[i].records| && k < |raw'[i].records| ==>
          raw[i].records[k].period == raw'[i].records[k].period &&
          raw[i].records[k].generation == raw'[i].records[k].generation)
  }

  lemma {:induction false} ColumnsProjection(raw: seq<Series>, raw': seq<Series>)
    requires SameObservations(raw, raw')
    ensures Columns(raw) == Columns(raw')
  {
    if raw != [] {
      var n := |raw| - 1;
      assert SameObservations(raw[..n], raw'[..n]);
      ColumnsProjection(raw[..n], raw'[..n]);
      assert ToColumn(raw[n]).entries == ToColumn(raw'[n]).entries;
    }
  }

  /** Only the `period` and `generation` fields of a record, and the
      series names, affect the result; every other field is ignored. */
  lemma AlignedIgnoresOtherFields(raw: seq<Series>, raw': seq<Series>)
    requires SameObservations(raw, raw')
    ensures Aligned(raw) == Aligned(raw')
  {
    ColumnsProjection(raw, raw');
    assert forall i :: 0 <= i < |raw| ==> (LacksGeneration(raw[i]) <==> LacksGeneration(raw'[i]));
    assert FirstLacking(raw) == FirstLacking(raw');
  }

  lemma ExampleSolarWindColumns(solar: Series, wind: Series)
    requires solar == Series("Solar", [Record("2020", Number(5), map[]), Record("2021", Number(7), map[])])
    requires wind == Series("Wind", [Record("2021", Number(3), map[])])
    ensures Columns([solar, wind]) ==
              [Column("Solar", [Entry("2020", Some(5)), Entry("2021", Some(7))]), Column("Wind", [Entry("2021", Some(3))])]
  {
    assert [solar, wind][..1] == [solar] && [solar][..0] == [];
    assert Columns([solar]) == [ToColumn(solar)];
    assert Columns([solar, wind]) == [ToColumn(solar), ToColumn(wind)];
    var es := ToColumn(solar).entries;
    assert |es| == 2 && es[0] == Entry("2020", Some(5)) && es[1] == Entry("2021", Some(7));
    assert es == [Entry("2020", Some(5)), Entry("2021", Some(7))];
    var ew := ToColumn(wind).entries;
    assert |ew| == 1 && ew[0] == Entry("2021", Some(3));
    assert ew == [Entry("2021", Some(3))];
  }

  lemma ExampleSolarWindIndex(cols: seq<Column>)
    requires cols == [Column("Solar", [Entry("2020", Some(5)), Entry("2021", Some(7))]), Column("Wind", [Entry("2021", Some(3))])]
    ensures OuterJoin(cols).index == ["2020", "2021"]
  {
    assert cols[..1] == [cols[0]] && cols[..1][..0] == [];
    assert AllPeriods([cols[0]]) == ["2020", "2021"];
    var ps: seq<Period> := ["2020", "2021", "2021"];
    assert AllPeriods(cols) == ps;
    assert Less("2020", "2021") && !Less("2021", "2020");
    assert Insert([], "2020") == ["2020"];
    assert ["2020"][1..] == [] && ["2020", "2021"][1..] == ["2021"];
    assert Insert(["2020"], "2021") == ["2020", "2021"];
    assert Insert(["2020", "2021"], "2021") == ["2020", "2021"];
    assert ps[1..] == ["2021", "2021"] && ps[1..][1..] == ["2021"] && ps[1..][1..][1..] == [];
    assert InsertAll(["2020", "2021"], ["2021"]) == ["2020", "2021"];
    assert InsertAll(["2020"], ["2021", "2021"]) == ["2020", "2021"];
    assert InsertAll([], ps) == ["2020", "2021"];
  }

  lemma ExampleSolarWindCells(cols: seq<Column>)
    requires cols == [Column("Solar", [Entry("2020", Some(5)), Entry("2021", Some(7))]), Column("Wind", [Entry("2021", Some(3))])]
    ensures OuterJoin(cols).cells == [[Some(5), None], [Some(7), Some(3)]]
  {
    ExampleSolarWindIndex(cols);
    var f := OuterJoin(cols);
    var es, ew := cols[0].entries, cols[1].entries;
    assert es[1..] == [Entry("2021", Some(7))] && es[1..][1..] == [] && ew[1..] == [];
    assert Lookup(es, "2020") == Some(Some(5)) && Lookup(es, "2021") == Some(Some(7));
    assert Lookup(ew, "2020") == None && Lookup(ew, "2021") == Some(Some(3));
    assert f.cells[0] == [Some(5), None];
    assert f.cells[1] == [Some(7), Some(3)];
    assert f.cells == [[Some(5), None], [Some(7), Some(3)]];
  }

  /** Two series of unequal coverage: the missing Wind year is filled. */
  lemma ExampleSolarWind(solar: Series, wind: Series)
    requires solar == Series("Solar", [Record("2020", Number(5), map[]), Record("2021", Number(7), map[])])
    requires wind == Series("Wind", [Record("2021", Number(3), map[])])
    ensures Aligned([solar, wind]) ==
              Success(Table(["2020", "2021"], ["Solar", "Wind"], [[5, 0], [7, 3]]))
  {
    assert !LacksGeneration(solar) by { assert solar.records[0].generation == Number(5); }
    assert !LacksGeneration(wind) by { assert wind.records[0].generation == Number(3); }
    ExampleSolarWindColumns(solar, wind);
    var cols := Columns([solar, wind]);
    ExampleSolarWindIndex(cols);
    ExampleSolarWindCells(cols);
    var f := OuterJoin(cols);
    assert f.columns == ["Solar", "Wind"];
    var t := FillNa(f, MissingGeneration);
    assert t.values[0] == [5, 0] && t.values[1] == [7, 3];
    assert t.values == [[5, 0], [7, 3]];
  }

  /** A dictionary whose only series is empty has nothing to combine. */
  lemma ExampleOnlyEmptySeries()
    ensures Aligned([Series("Solar", [])]) == Failure(NoData)
  {
  }

  lemma ExampleNullColumns(solar: Series)
    requires solar == Series("Solar", [Record("2020", Null, map[])])
    ensures Columns([solar]) == [Column("Solar", [Entry("2020", None)])]
  {
    assert [solar][..0] == [];
    assert Columns([solar]) == [ToColumn(solar)];
    var es := ToColumn(solar).entries;
    assert |es| == 1 && es[0] == Entry("2020", None);
    assert es == [Entry("2020", None)];
  }

  lemma ExampleNullFrame(cols: seq<Column>)
    requires cols == [Column("Solar", [Entry("2020", None)])]
    ensures OuterJoin(cols) == Frame(["2020"], ["Solar"], [[None]])
  {
    assert AllPeriods(cols) == ["2020"] by { assert cols[..0] == []; }
    assert SortedUnion(["2020"]) == ["2020"] by { assert ["2020"][1..] == []; }
    var f := OuterJoin(cols);
    assert Lookup(cols[0].entries, "2020") == Some(None);
    assert f.cells[0] == [None];
    assert f.cells == [[None]];
  }

  /** A null generation is NaN in the frame and 0 after the fill. */
  lemma ExampleNullGeneration(solar: Series)
    requires solar == Series("Solar", [Record("2020", Null, map[])])
    ensures Aligned([solar]) == Success(Table(["2020"], ["Solar"], [[0]]))
  {
    assert !LacksGeneration(solar) by { assert solar.records[0].generation == Null; }
    ExampleNullColumns(solar);
    ExampleNullFrame(Columns([solar]));
    var t := FillNa(Frame(["2020"], ["Solar"], [[None]]), MissingGeneration);
    assert t.values[0] == [0];
    assert t.values == [[0]];
  }

  /** A series whose records all lack the field has no column to select. */
  lemma ExampleMissingColumn(solar: Series, wind: Series)
    requires solar == Series("Solar", [Record("2020", Number(5), map[])])
    requires wind == Series("Wind", [Record("2020", Absent, map[])])
    ensures Aligned([solar, wind]) == Failure(MissingColumn("Wind"))
  {
    assert !LacksGeneration(solar) by { assert solar.records[0].generation == Number(5); }
    assert LacksGeneration(wind);
    AlignedMissingColumn([solar, wind]);
  }
}
