/** The alignment step of the analysis (`process_data_to_dataframe`):
    each non-empty series becomes a period -> generation column, the
    columns are outer-joined on period, the rows are sorted by period and
    every missing cell is filled with 0. */
module Aligner {
  import opened EnergyData
  import opened Periods

  /** One row of a single-series frame: its index label and its value,
      `None` standing for NaN. */
  datatype Entry = Entry(period: Period, value: Option<int>)

  /** A single-series frame indexed by period, its value column renamed
      to the series name. */
  datatype Column = Column(name: string, entries: seq<Entry>)

  /** The joined frame before the fill: a missing cell is `None` (NaN). */
  datatype Frame = Frame(index: seq<Period>, columns: seq<string>, cells: seq<seq<Option<int>>>)

  /** The aligned table: `values[i][j]` is the cell of row `index[i]`,
      column `columns[j]`. */
  datatype Table = Table(index: seq<Period>, columns: seq<string>, values: seq<seq<int>>)

  /** Selecting the `generation` column of a frame that has none raises
      a KeyError; concatenating an empty list of frames raises too. */
  datatype AlignError = MissingColumn(series: string) | NoData

  /** The value every missing cell receives. */
  const MissingGeneration := 0

  /** A frame built from a list of records has a `generation` column when
      at least one record has that field; a record without it, or with a
      null there, gets NaN in the column. */
  predicate LacksGeneration(s: Series)
  {
    s.records != [] && forall k :: 0 <= k < |s.records| ==> s.records[k].generation == Absent
  }

  function FieldValue(f: Field): Option<int>
  {
    match f
    case Number(g) => Some(g)
    case _ => None
  }

  /** Keeps the `period` and `generation` fields of every record, in
      record order, under the series name. */
  function ToColumn(s: Series): Column
  {
    Column(s.name, seq(|s.records|, k requires 0 <= k < |s.records| =>
      Entry(s.records[k].period, FieldValue(s.records[k].generation))))
  }

  /** The position of the first series whose frame would have no
      `generation` column, if there is one. */
  function FirstLacking(raw: seq<Series>): (r: Option<nat>)
    ensures r.Some? ==> r.value < |raw| && LacksGeneration(raw[r.value])
    ensures forall k :: 0 <= k < |raw| && (r.None? || k < r.value) ==> !LacksGeneration(raw[k])
  {
    if raw == [] then None
    else
      var init := raw[..|raw| - 1];
      assert forall k :: 0 <= k < |init| ==> init[k] == raw[k];
      match FirstLacking(init)
      case Some(i) => Some(i)
      case None => if LacksGeneration(raw[|raw| - 1]) then Some(|raw| - 1) else None
  }

  /** The frames that the loop over the raw dictionary collects: one per
      series with a non-empty record list, in dictionary order. */
  function Columns(raw: seq<Series>): seq<Column>
  {
    if raw == [] then []
    else
      var last := raw[|raw| - 1];
      Columns(raw[..|raw| - 1]) + (if last.records == [] then [] else [ToColumn(last)])
  }

  function Names(cols: seq<Column>): seq<string>
  {
    seq(|cols|, j requires 0 <= j < |cols| => cols[j].name)
  }

  function EntryPeriods(entries: seq<Entry>): seq<Period>
  {
    seq(|entries|, k requires 0 <= k < |entries| => entries[k].period)
  }

  /** The index labels of all frames, frame by frame. */
  function AllPeriods(cols: seq<Column>): seq<Period>
  {
    if cols == [] then []
    else AllPeriods(cols[..|cols| - 1]) + EntryPeriods(cols[|cols| - 1].entries)
  }

  /** The value of the first row labelled `p`, or `None` when the frame
      has no such row. */
  function Lookup(entries: seq<Entry>, p: Period): (v: Option<Option<int>>)
    ensures v.Some? <==> exists k :: 0 <= k < |entries| && entries[k].period == p
    ensures v.Some? ==> exists k :: 0 <= k < |entries| && entries[k] == Entry(p, v.value)
  {
    if entries == [] then None
    else if entries[0].period == p then Some(entries[0].value)
    else
      var v := Lookup(entries[1..], p);
      assert forall k :: 1 <= k < |entries| ==> entries[k] == entries[1..][k - 1];
      v
  }

  /** The joined cell of a frame for period `p`: NaN when the frame has
      no row labelled `p`, else that row's value. */
  function JoinedCell(entries: seq<Entry>, p: Period): Option<int>
  {
    match Lookup(entries, p)
    case Some(v) => v
    case None => None
  }

  /** Outer join of the frames on their index, rows in ascending period
      order: the row set is the union of every frame's periods and a
      frame without a row for a period contributes NaN there. */
  function OuterJoin(cols: seq<Column>): (f: Frame)
    ensures StrictlySorted(f.index)
    ensures forall p :: p in f.index <==> p in AllPeriods(cols)
  {
    var index := SortedUnion(AllPeriods(cols));
    Frame(index, Names(cols),
      seq(|index|, i requires 0 <= i < |index| =>
        seq(|cols|, j requires 0 <= j < |cols| => JoinedCell(cols[j].entries, index[i]))))
  }

  /** Replaces every missing cell by `fill`; present cells are kept. */
  function FillNa(f: Frame, fill: int): (t: Table)
    ensures t.index == f.index && t.columns == f.columns && |t.values| == |f.cells|
    ensures forall i, j :: 0 <= i < |f.cells| && 0 <= j < |f.cells[i]| ==>
              |t.values[i]| == |f.cells[i]| &&
              t.values[i][j] == (match f.cells[i][j] case Some(v) => v case None => fill)
  {
    Table(f.index, f.columns,
      seq(|f.cells|, i requires 0 <= i < |f.cells| =>
        seq(|f.cells[i]|, j requires 0 <= j < |f.cells[i]| =>
          match f.cells[i][j] case Some(v) => v case None => fill)))
  }

  /** What the whole transform computes. */
  function Aligned(raw: seq<Series>): Result<Table, AlignError>
  {
    match FirstLacking(raw)
    case Some(i) => Failure(MissingColumn(raw[i].name))
    case None =>
      var cols := Columns(raw);
      if cols == [] then Failure(NoData)
      else Success(FillNa(OuterJoin(cols), MissingGeneration))
  }

  /** Once a prefix of the dictionary has a series without the column,
      the whole dictionary has that same first one. */
  lemma {:induction false} FirstLackingPrefix(raw: seq<Series>, n: nat)
    requires n <= |raw| && FirstLacking(raw[..n]).Some?
    ensures FirstLacking(raw) == FirstLacking(raw[..n])
  {
    if n < |raw| {
      var init := raw[..|raw| - 1];
      assert init[..n] == raw[..n];
      FirstLackingPrefix(init, n);
    } else {
      assert raw[..n] == raw;
    }
  }

  /** The transform as the script runs it: a loop that collects one frame
      per non-empty series, skipping the empty ones, then the join, the
      sort and the fill. */
  method ProcessDataToDataFrame(raw: seq<Series>) returns (r: Result<Table, AlignError>)
    ensures r == Aligned(raw)
  {
    var processed: seq<Column> := [];
    var i := 0;
    while i < |raw|
      invariant 0 <= i <= |raw|
      invariant processed == Columns(raw[..i])
      invariant FirstLacking(raw[..i]) == None
    {
      assert raw[..i + 1][..i] == raw[..i];
      if raw[i].records != [] {
        if LacksGeneration(raw[i]) {
          FirstLackingPrefix(raw, i + 1);
          return Failure(MissingColumn(raw[i].name));
        }
        processed := processed + [ToColumn(raw[i])];
      }
      i := i + 1;
    }
    assert raw[..|raw|] == raw;
    if processed == [] {
      return Failure(NoData);
    }
    var joined := OuterJoin(processed);
    r := Success(FillNa(joined, MissingGeneration));
  }
}
