/** The table of `load_data`: the scraped header and rows, the pandas
    DataFrame built from them, and the in-place steps that turn it into the
    cleaned table (four renames, then one column reassignment after another). */
module Frames {
  import opened Wrappers
  import opened Extraction
  import opened Schema
  import opened PyStrings
  import opened Cleanup

  /** Why a step fails: a column that is not there (pandas' `KeyError`), a
      scraped row whose width is not the header's, or a comparison key that
      no row has (the `IndexError` of `.values[0]`). */
  datatype Error = MissingColumn(name: string) | RaggedRows | NoMatchingRow(key: string)

  /** A table of text cells: column labels and rows. */
  datatype Table = Table(columns: seq<string>, rows: seq<seq<string>>)

  /** Every row has one cell per column. */
  predicate Rectangular(t: Table) {
    forall i :: 0 <= i < |t.rows| ==> |t.rows[i]| == |t.columns|
  }

  /** The position of the first column labelled `name`. */
  function IndexOf(names: seq<string>, name: string): (r: Option<nat>)
    ensures r.Some? <==> name in names
    ensures r.Some? ==> r.value < |names| && names[r.value] == name && name !in names[..r.value]
  {
    if names == [] then None
    else if names[0] == name then Some(0)
    else match IndexOf(names[1..], name)
      case None => None
      case Some(i) =>
        assert names[..i + 1] == [names[0]] + names[1..][..i];
        Some(i + 1)
  }

  /** `df[name] = f(df[name])` on a value: the first column labelled `name`
      has `f` applied to each of its cells and nothing else changes; a
      missing column is a `KeyError`. */
  function ApplyColumn(t: Table, name: string, f: string -> string): (r: Result<Table, Error>)
    requires Rectangular(t)
    ensures r.Ok? <==> name in t.columns
    ensures r.Err? ==> r.error == MissingColumn(name)
    ensures r.Ok? ==> r.value.columns == t.columns && |r.value.rows| == |t.rows| && Rectangular(r.value)
    ensures r.Ok? ==> forall i, j :: 0 <= i < |t.rows| && 0 <= j < |t.columns| ==>
      r.value.rows[i][j] == if t.columns[j] == name && name !in t.columns[..j] then f(t.rows[i][j]) else t.rows[i][j]
  {
    match IndexOf(t.columns, name)
    case None => Err(MissingColumn(name))
    case Some(k) =>
      var rows := seq(|t.rows|, i requires 0 <= i < |t.rows| => t.rows[i][k := f(t.rows[i][k])]);
      assert forall j :: 0 <= j < |t.columns| ==> (t.columns[j] == name && name !in t.columns[..j] <==> j == k) by {
        forall j | 0 <= j < |t.columns|
          ensures t.columns[j] == name && name !in t.columns[..j] <==> j == k
        {
          if j < k {
            assert t.columns[..k][j] == t.columns[j];
          } else if j > k {
            assert t.columns[..j][k] == t.columns[k];
          }
        }
      }
      Ok(Table(t.columns, rows))
  }

  /** The cleanup of lines 62-95 on a value: the ten column reassignments,
      in the script's order, stopping at the first missing column. It keeps
      the labels, the number of rows and the shape of the table. */
  function Clean(t: Table): (r: Result<Table, Error>)
    requires Rectangular(t)
    ensures r.Ok? ==> r.value.columns == t.columns && |r.value.rows| == |t.rows| && Rectangular(r.value)
  {
    var t1 :- ApplyColumn(t, "EPS dil growthTTM YoY", EpsGrowth);
    var t2 :- ApplyColumn(t1, "Market cap", MarketCap);
    var t3 :- ApplyColumn(t2, "Price", Price);
    var t4 :- ApplyColumn(t3, "Change", Change);
    var t5 :- ApplyColumn(t4, "Volume", VolumeThousands);
    // the first Volume step found the column, so the second cannot fail
    var t6 := ApplyColumn(t5, "Volume", VolumeMillions).value;
    var t7 :- ApplyColumn(t6, "Rel Volume", RelVolume);
    var t8 :- ApplyColumn(t7, "P/E", PriceEarnings);
    var t9 :- ApplyColumn(t8, "EPS dilTTM", EpsDiluted);
    ApplyColumn(t9, "DivyieldTTM", DivYield)
  }

  /** Every column the cleanup reassigns is present. */
  predicate Cleanable(columns: seq<string>) {
    "EPS dil growthTTM YoY" in columns && "Market cap" in columns && "Price" in columns &&
    "Change" in columns && "Volume" in columns && "Rel Volume" in columns &&
    "P/E" in columns && "EPS dilTTM" in columns && "DivyieldTTM" in columns
  }

  /** One cell's text after the whole cleanup of its column: the column's
      chain (both Volume assignments for "Volume"), or the text as it is for
      "Rel Volume" and for the columns the cleanup does not touch. */
  function CleanCell(column: string, s: string): string {
    if column == "EPS dil growthTTM YoY" then EpsGrowth(s)
    else if column == "Market cap" then MarketCap(s)
    else if column == "Price" then Price(s)
    else if column == "Change" then Change(s)
    else if column == "Volume" then VolumeMillions(VolumeThousands(s))
    else if column == "P/E" then PriceEarnings(s)
    else if column == "EPS dilTTM" then EpsDiluted(s)
    else if column == "DivyieldTTM" then DivYield(s)
    else s
  }

  /** The cleanup succeeds exactly when every reassigned column is present. */
  lemma CleanSucceeds(t: Table)
    requires Rectangular(t)
    ensures Clean(t).Ok? <==> Cleanable(t.columns)
  {
    var t1 := ApplyColumn(t, "EPS dil growthTTM YoY", EpsGrowth);
    if t1.Err? { return; }
    var t2 := ApplyColumn(t1.value, "Market cap", MarketCap);
    if t2.Err? { return; }
    var t3 := ApplyColumn(t2.value, "Price", Price);
    if t3.Err? { return; }
    var t4 := ApplyColumn(t3.value, "Change", Change);
    if t4.Err? { return; }
    var t5 := ApplyColumn(t4.value, "Volume", VolumeThousands);
    if t5.Err? { return; }
    var t6 := ApplyColumn(t5.value, "Volume", VolumeMillions);
    var t7 := ApplyColumn(t6.value, "Rel Volume", RelVolume);
    if t7.Err? { return; }
    var t8 := ApplyColumn(t7.value, "P/E", PriceEarnings);
    if t8.Err? { return; }
    var t9 := ApplyColumn(t8.value, "EPS dilTTM", EpsDiluted);
    if t9.Err? { return; }
  }

  /** A successful cleanup keeps the labels and the rows, and turns each cell
      of the first column of each label into that column's cleaned text. */
  lemma CleanCellwise(t: Table)
    requires Rectangular(t) && Cleanable(t.columns)
    ensures Clean(t).Ok? && Clean(t).value.columns == t.columns && |Clean(t).value.rows| == |t.rows|
    ensures forall i, j :: 0 <= i < |t.rows| && 0 <= j < |t.columns| ==>
      Clean(t).value.rows[i][j] == if t.columns[j] !in t.columns[..j] then CleanCell(t.columns[j], t.rows[i][j]) else t.rows[i][j]
  {
    assert Clean(t).Ok? by { CleanSucceeds(t); }
    forall i, j | 0 <= i < |t.rows| && 0 <= j < |t.columns|
      ensures Clean(t).value.rows[i][j] == if t.columns[j] !in t.columns[..j] then CleanCell(t.columns[j], t.rows[i][j]) else t.rows[i][j]
    {
      CleanCellAt(t, i, j);
    }
  }

  /** One cell of a successful cleanup. */
  lemma CleanCellAt(t: Table, i: nat, j: nat)
    requires Rectangular(t) && Cleanable(t.columns) && i < |t.rows| && j < |t.columns|
    ensures Clean(t).Ok? && Clean(t).value.columns == t.columns && |Clean(t).value.rows| == |t.rows|
    ensures Clean(t).value.rows[i][j] == if t.columns[j] !in t.columns[..j] then CleanCell(t.columns[j], t.rows[i][j]) else t.rows[i][j]
  {
    var t1 := ApplyColumn(t, "EPS dil growthTTM YoY", EpsGrowth).value;
    var t2 := ApplyColumn(t1, "Market cap", MarketCap).value;
    var t3 := ApplyColumn(t2, "Price", Price).value;
    var t4 := ApplyColumn(t3, "Change", Change).value;
    var t5 := ApplyColumn(t4, "Volume", VolumeThousands).value;
    var t6 := ApplyColumn(t5, "Volume", VolumeMillions).value;
    var t7 := ApplyColumn(t6, "Rel Volume", RelVolume).value;
    var t8 := ApplyColumn(t7, "P/E", PriceEarnings).value;
    var t9 := ApplyColumn(t8, "EPS dilTTM", EpsDiluted).value;
    var u := Clean(t).value;
    assert u == ApplyColumn(t9, "DivyieldTTM", DivYield).value;
    var n := t.columns[j];
    var first := n !in t.columns[..j];
    var x := t.rows[i][j];
    var x1 := t1.rows[i][j];
    assert x1 == if n == "EPS dil growthTTM YoY" && first then EpsGrowth(x) else x;
    var x2 := t2.rows[i][j];
    assert x2 == if n == "Market cap" && first then MarketCap(x1) else x1;
    var x3 := t3.rows[i][j];
    assert x3 == if n == "Price" && first then Price(x2) else x2;
    var x4 := t4.rows[i][j];
    assert x4 == if n == "Change" && first then Change(x3) else x3;
    var x5 := t5.rows[i][j];
    assert x5 == if n == "Volume" && first then VolumeThousands(x4) else x4;
    var x6 := t6.rows[i][j];
    assert x6 == if n == "Volume" && first then VolumeMillions(x5) else x5;
    var x7 := t7.rows[i][j];
    assert x7 == if n == "Rel Volume" && first then RelVolume(x6) else x6;
    var x8 := t8.rows[i][j];
    assert x8 == if n == "P/E" && first then PriceEarnings(x7) else x7;
    var x9 := t9.rows[i][j];
    assert x9 == if n == "EPS dilTTM" && first then EpsDiluted(x8) else x8;
    assert u.rows[i][j] == if n == "DivyieldTTM" && first then DivYield(x9) else x9;
  }

  /** The rows the extractor produces from the table's `tr` elements, header
      row skipped. */
  function DataRows(trs: seq<seq<Cell>>): seq<seq<string>> {
    if trs == [] then []
    else seq(|trs| - 1, i requires 0 <= i < |trs| - 1 => seq(|trs[i + 1]|, j requires 0 <= j < |trs[i + 1]| => CellValue(trs[i + 1][j])))
  }

  /** `load_data` on values: extract, build the frame (which fails on a row
      of the wrong width), rename, clean. */
  function Load(headers: seq<string>, trs: seq<seq<Cell>>): Result<Table, Error> {
    var rows := DataRows(trs);
    if !Rectangular(Table(headers, rows)) then Err(RaggedRows)
    else Clean(Table(RenameHeaders(headers), rows))
  }

  /** The extracted rows fit a header exactly when every `tr` after the
      first has one cell per label. */
  lemma DataRowsFit(headers: seq<string>, trs: seq<seq<Cell>>)
    ensures Rectangular(Table(headers, DataRows(trs))) <==> forall i :: 1 <= i < |trs| ==> |trs[i]| == |headers|
  {
    var rows := DataRows(trs);
    if forall i :: 1 <= i < |trs| ==> |trs[i]| == |headers| {
      forall i | 0 <= i < |rows|
        ensures |rows[i]| == |headers|
      {
        assert |rows[i]| == |trs[i + 1]|;
      }
    }
    if Rectangular(Table(headers, rows)) {
      forall i | 1 <= i < |trs|
        ensures |trs[i]| == |headers|
      {
        assert |rows[i - 1]| == |trs[i]|;
      }
    }
  }

  /** The load fails on a ragged table, and otherwise exactly when a
      reassigned column is missing after the renames; a successful load has
      the canonical labels and one row per data row. */
  lemma LoadShape(headers: seq<string>, trs: seq<seq<Cell>>)
    ensures (exists i :: 1 <= i < |trs| && |trs[i]| != |headers|) ==> Load(headers, trs) == Err(RaggedRows)
    ensures Load(headers, trs).Ok? <==>
      (forall i :: 1 <= i < |trs| ==> |trs[i]| == |headers|) &&
      Cleanable(RenameHeaders(headers))
    ensures Load(headers, trs).Ok? ==>
      Load(headers, trs).value.columns == RenameHeaders(headers) &&
      |Load(headers, trs).value.rows| == (if trs == [] then 0 else |trs| - 1)
  {
    DataRowsFit(headers, trs);
    var t0 := Table(RenameHeaders(headers), DataRows(trs));
    if Rectangular(Table(headers, DataRows(trs))) {
      assert Load(headers, trs) == Clean(t0);
      CleanSucceeds(t0);
      if Clean(t0).Ok? {
        CleanCellwise(t0);
      }
    }
  }

  /** What must not be left in a cell of a cleaned column: the characters
      and markers its chain removes or substitutes. */
  predicate ResidueFree(column: string, s: string) {
    (column == "EPS dil growthTTM YoY" ==>
      EmDash !in s && '%' !in s && MinusSign !in s && '+' !in s && ',' !in s) &&
    (column == "Market cap" ==> NarrowNoBreakSpace !in s) &&
    (column == "Price" ==> ',' !in s) &&
    (column == "Change" ==> '%' !in s && MinusSign !in s) &&
    (column == "Volume" ==> 'M' !in s && ' ' !in s) &&
    (column == "P/E" ==> EmDash !in s) &&
    (column == "EPS dilTTM" ==> EmDash !in s && MinusSign !in s) &&
    (column == "DivyieldTTM" ==> '%' !in s)
  }

  /** Every column's cleanup leaves its cell residue-free. */
  lemma CleanCellResidueFree(column: string, s: string)
    ensures ResidueFree(column, CleanCell(column, s))
  {
    if column == "EPS dil growthTTM YoY" {
      EpsGrowthClean(s);
    } else if column == "Market cap" {
      MarketCapKeepsCommas(s);
    } else if column == "Price" {
      PriceClean(s);
    } else if column == "Change" {
      ChangeClean(s);
    } else if column == "Volume" {
      VolumeClean(s);
    } else if column == "P/E" {
      SubstituteRemoves(s, EmDash, '0');
    } else if column == "EPS dilTTM" {
      EpsDilutedClean(s);
    } else if column == "DivyieldTTM" {
      DivYieldClean(s);
    }
  }

  /** In a cleaned table no cleaned column keeps the text its chain removes. */
  lemma CleanedTableResidueFree(t: Table)
    requires Rectangular(t) && Cleanable(t.columns)
    ensures Clean(t).Ok?
    ensures forall i, j :: 0 <= i < |t.rows| && 0 <= j < |t.columns| && t.columns[j] !in t.columns[..j] ==>
      ResidueFree(t.columns[j], Clean(t).value.rows[i][j])
  {
    assert Clean(t).Ok? by { CleanSucceeds(t); }
    forall i, j | 0 <= i < |t.rows| && 0 <= j < |t.columns| && t.columns[j] !in t.columns[..j]
      ensures ResidueFree(t.columns[j], Clean(t).value.rows[i][j])
    {
      CleanCellAt(t, i, j);
      CleanCellResidueFree(t.columns[j], t.rows[i][j]);
    }
  }

  /** Rows built as the extraction loops build them are `DataRows`. */
  lemma ExtractedRows(trs: seq<seq<Cell>>, rows: seq<seq<string>>)
    requires |rows| == if trs == [] then 0 else |trs| - 1
    requires forall i :: 0 <= i < |rows| ==> |rows[i]| == |trs[i + 1]|
    requires forall i, j :: 0 <= i < |rows| && 0 <= j < |rows[i]| ==> rows[i][j] == CellValue(trs[i + 1][j])
    ensures rows == DataRows(trs)
  {
    forall i | 0 <= i < |rows|
      ensures rows[i] == DataRows(trs)[i]
    {
    }
  }

  /** The DataFrame, which the script changes in place. */
  class Frame {
    var columns: seq<string>
    var rows: seq<seq<string>>

    function Snapshot(): Table
      reads this
    {
      Table(columns, rows)
    }

    ghost predicate Valid()
      reads this
    {
      Rectangular(Snapshot())
    }

    /** `pd.DataFrame(rows, columns=headers)` for rows that fit the header. */
    constructor (columns: seq<string>, rows: seq<seq<string>>)
      requires Rectangular(Table(columns, rows))
      ensures Valid() && Snapshot() == Table(columns, rows)
    {
      this.columns := columns;
      this.rows := rows;
    }

    /** `df.rename(columns = {from: to}, inplace = True)`. */
    method Rename(from: string, to: string)
      requires Valid()
      modifies this
      ensures Valid()
      ensures columns == Relabel(old(columns), from, to) && rows == old(rows)
    {
      columns := Relabel(columns, from, to);
    }

    /** The four renames of lines 56-59: afterwards every label is its
      canonical name and the rows are as they were. */
    method Normalize()
      requires Valid()
      modifies this
      ensures Valid()
      ensures columns == RenameHeaders(old(columns)) && rows == old(rows)
    {
      Rename("Symbol", "Company");
      Rename("Analyst Rating", "AnalystRating");
      Rename("Change %", "Change");
      Rename("Div yield %TTM", "DivyieldTTM");
      SequentialRenames(old(columns));
    }

    /** `df[name] = f(df[name])`: `ok` is false (the `KeyError`) exactly when
        there is no such column, and then nothing changes. */
    method Transform(name: string, f: string -> string) returns (ok: bool)
      requires Valid()
      modifies this
      ensures Valid()
      ensures ok <==> name in old(columns)
      ensures ok ==> ApplyColumn(old(Snapshot()), name, f) == Ok(Snapshot())
      ensures !ok ==> columns == old(columns) && rows == old(rows)
    {
      var updated := ApplyColumn(Snapshot(), name, f);
      if updated.Err? {
        return false;
      }
      rows := updated.value.rows;
      ok := true;
    }
  }

  /** `load_data`: a fresh frame holding `Load(headers, trs)`, or the error
      with which it stops. */
  method LoadData(headers: seq<string>, trs: seq<seq<Cell>>) returns (result: Result<Frame, Error>)
    ensures result.Ok? <==> Load(headers, trs).Ok?
    ensures result.Ok? ==> fresh(result.value) && result.value.Valid() && result.value.Snapshot() == Load(headers, trs).value
    ensures result.Err? ==> result.error == Load(headers, trs).error
  {
    var rows := ExtractRows(trs);
    ExtractedRows(trs, rows);
    if !Rectangular(Table(headers, rows)) {
      return Err(RaggedRows);
    }
    var df := new Frame(headers, rows);
    df.Normalize();
    ghost var t0 := df.Snapshot();
    assert t0 == Table(RenameHeaders(headers), rows);
    var ok := df.Transform("EPS dil growthTTM YoY", EpsGrowth);
    if !ok { return Err(MissingColumn("EPS dil growthTTM YoY")); }
    ok := df.Transform("Market cap", MarketCap);
    if !ok { return Err(MissingColumn("Market cap")); }
    ok := df.Transform("Price", Price);
    if !ok { return Err(MissingColumn("Price")); }
    ok := df.Transform("Change", Change);
    if !ok { return Err(MissingColumn("Change")); }
    ok := df.Transform("Volume", VolumeThousands);
    if !ok { return Err(MissingColumn("Volume")); }
    // the first Volume step found the column, so the second cannot fail
    ok := df.Transform("Volume", VolumeMillions);
    ok := df.Transform("Rel Volume", RelVolume);
    if !ok { return Err(MissingColumn("Rel Volume")); }
    ok := df.Transform("P/E", PriceEarnings);
    if !ok { return Err(MissingColumn("P/E")); }
    ok := df.Transform("EPS dilTTM", EpsDiluted);
    if !ok { return Err(MissingColumn("EPS dilTTM")); }
    ok := df.Transform("DivyieldTTM", DivYield);
    if !ok { return Err(MissingColumn("DivyieldTTM")); }
    return Ok(df);
  }
}
