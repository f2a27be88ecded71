/** What the dashboard does with the cleaned table: the sidebar filter that
    keeps the rows whose Company, Sector and AnalystRating are all among the
    chosen values, and the per-metric lookups of the comparison charts. */
module Selection {
  import opened Wrappers
  import opened Sequences
  import opened Frames

  /** The three multiselect choices. */
  datatype Choice = Choice(companies: set<string>, sectors: set<string>, ratings: set<string>)

  /** Positions of the Company, Sector and AnalystRating columns. */
  datatype Keys = Keys(company: nat, sector: nat, rating: nat)

  /** The row's three categorical values are each among the chosen ones. */
  predicate Keeps(row: seq<string>, keys: Keys, choice: Choice) {
    keys.company < |row| && keys.sector < |row| && keys.rating < |row| &&
    row[keys.company] in choice.companies && row[keys.sector] in choice.sectors && row[keys.rating] in choice.ratings
  }

  /** The boolean mask of line 119 applied to the rows. */
  function FilterRows(rows: seq<seq<string>>, keys: Keys, choice: Choice): (r: seq<seq<string>>)
    ensures forall i :: 0 <= i < |r| ==> r[i] in rows
  {
    if rows == [] then []
    else if Keeps(rows[0], keys, choice) then [rows[0]] + FilterRows(rows[1..], keys, choice)
    else FilterRows(rows[1..], keys, choice)
  }

  /** The filter is stable and exact: its result is a subsequence of the
      rows, it holds a row exactly when the row passes all three
      memberships, and then as often as the input does. */
  lemma {:induction false} FilterRowsSpec(rows: seq<seq<string>>, keys: Keys, choice: Choice)
    ensures IsSubsequence(FilterRows(rows, keys, choice), rows)
    ensures forall row :: row in FilterRows(rows, keys, choice) <==> row in rows && Keeps(row, keys, choice)
    ensures forall row :: multiset(FilterRows(rows, keys, choice))[row] == if Keeps(row, keys, choice) then multiset(rows)[row] else 0
  {
    if rows != [] {
      FilterRowsSpec(rows[1..], keys, choice);
      var tail := FilterRows(rows[1..], keys, choice);
      assert rows == [rows[0]] + rows[1..];
      if Keeps(rows[0], keys, choice) {
        assert ([rows[0]] + tail)[1..] == tail;
      } else {
        SubsequenceSkip(tail, rows);
      }
    }
  }

  /** A filter that every row passes returns all the rows. */
  lemma {:induction false} FilterKeepsAll(rows: seq<seq<string>>, keys: Keys, choice: Choice)
    requires forall i :: 0 <= i < |rows| ==> Keeps(rows[i], keys, choice)
    ensures FilterRows(rows, keys, choice) == rows
  {
    if rows != [] {
      assert Keeps(rows[0], keys, choice);
      FilterKeepsAll(rows[1..], keys, choice);
    }
  }

  /** A filter that no row passes returns no row. */
  lemma {:induction false} FilterKeepsNone(rows: seq<seq<string>>, keys: Keys, choice: Choice)
    requires forall i :: 0 <= i < |rows| ==> !Keeps(rows[i], keys, choice)
    ensures FilterRows(rows, keys, choice) == []
  {
    if rows != [] {
      assert !Keeps(rows[0], keys, choice);
      FilterKeepsNone(rows[1..], keys, choice);
    }
  }

  /** `nifty_data.Company`, `.Sector`, `.AnalystRating`: the columns the
      filter needs, or the first one missing. */
  function KeyColumns(columns: seq<string>): (r: Result<Keys, Error>)
    ensures r.Ok? <==> "Company" in columns && "Sector" in columns && "AnalystRating" in columns
    ensures r.Ok? ==> r.value.company < |columns| && columns[r.value.company] == "Company" &&
                      r.value.sector < |columns| && columns[r.value.sector] == "Sector" &&
                      r.value.rating < |columns| && columns[r.value.rating] == "AnalystRating"
    ensures "Company" !in columns ==> r == Err(MissingColumn("Company"))
    ensures "Company" in columns && "Sector" !in columns ==> r == Err(MissingColumn("Sector"))
    ensures "Company" in columns && "Sector" in columns && "AnalystRating" !in columns ==> r == Err(MissingColumn("AnalystRating"))
  {
    match (IndexOf(columns, "Company"), IndexOf(columns, "Sector"), IndexOf(columns, "AnalystRating"))
    case (None, _, _) => Err(MissingColumn("Company"))
    case (Some(_), None, _) => Err(MissingColumn("Sector"))
    case (Some(_), Some(_), None) => Err(MissingColumn("AnalystRating"))
    case (Some(c), Some(s), Some(a)) => Ok(Keys(c, s, a))
  }

  /** `nifty_data_stats` of line 119: the rows that pass the three
      memberships, in table order, under the same columns. */
  function Select(t: Table, choice: Choice): (r: Result<Table, Error>)
    requires Rectangular(t)
    ensures r.Ok? ==> r.value.columns == t.columns && Rectangular(r.value)
  {
    var keys :- KeyColumns(t.columns);
    Ok(Table(t.columns, FilterRows(t.rows, keys, choice)))
  }

  /** The selected table keeps the columns and keeps, in order and as often
      as the table holds them, exactly the rows whose Company, Sector and
      AnalystRating are chosen. */
  lemma SelectSpec(t: Table, choice: Choice)
    requires Rectangular(t)
    ensures Select(t, choice).Ok? <==> KeyColumns(t.columns).Ok?
    ensures Select(t, choice).Ok? ==>
      var keys := KeyColumns(t.columns).value;
      var s := Select(t, choice).value;
      s.columns == t.columns && Rectangular(s) && IsSubsequence(s.rows, t.rows) &&
      (forall row :: row in s.rows <==> row in t.rows && Keeps(row, keys, choice)) &&
      (forall row :: multiset(s.rows)[row] == if Keeps(row, keys, choice) then multiset(t.rows)[row] else 0)
  {
    if KeyColumns(t.columns).Ok? {
      var keys := KeyColumns(t.columns).value;
      FilterRowsSpec(t.rows, keys, choice);
    }
  }

  /** The values in one column: what a multiselect offers, and selects by
      default. */
  function Values(rows: seq<seq<string>>, k: nat): set<string> {
    set row | row in rows && k < |row| :: row[k]
  }

  /** The sidebar's default: every value of each of the three columns. */
  function DefaultChoice(t: Table, keys: Keys): Choice {
    Choice(Values(t.rows, keys.company), Values(t.rows, keys.sector), Values(t.rows, keys.rating))
  }

  /** With the default choices the filter returns the whole table. */
  lemma DefaultSelectsAll(t: Table)
    requires Rectangular(t) && KeyColumns(t.columns).Ok?
    ensures Select(t, DefaultChoice(t, KeyColumns(t.columns).value)) == Ok(t)
  {
    var keys := KeyColumns(t.columns).value;
    var choice := DefaultChoice(t, keys);
    forall i | 0 <= i < |t.rows|
      ensures Keeps(t.rows[i], keys, choice)
    {
      var row := t.rows[i];
      assert row in t.rows;
      assert row[keys.company] in choice.companies && row[keys.sector] in choice.sectors && row[keys.rating] in choice.ratings;
    }
    FilterKeepsAll(t.rows, keys, choice);
  }

  /** Choosing no company leaves no row. */
  lemma NoCompanySelectsNothing(t: Table, choice: Choice)
    requires Rectangular(t) && KeyColumns(t.columns).Ok? && choice.companies == {}
    ensures Select(t, choice).Ok? && Select(t, choice).value.rows == []
  {
    FilterKeepsNone(t.rows, KeyColumns(t.columns).value, choice);
  }

  /** The position of the first row whose column `k` holds `key`. */
  function FirstMatch(rows: seq<seq<string>>, k: nat, key: string): (r: Option<nat>)
    requires forall i :: 0 <= i < |rows| ==> k < |rows[i]|
    ensures r.Some? <==> exists i :: 0 <= i < |rows| && rows[i][k] == key
    ensures r.Some? ==> r.value < |rows| && rows[r.value][k] == key && forall i :: 0 <= i < r.value ==> rows[i][k] != key
  {
    if rows == [] then None
    else if rows[0][k] == key then Some(0)
    else match FirstMatch(rows[1..], k, key)
      case None => None
      case Some(i) => Some(i + 1)
  }

  /** `t.loc[t['Company'] == key, metric].values[0]`: the metric of the first
      row whose Company is `key`; a missing column is a `KeyError` and no
      matching row the `IndexError` of `values[0]`. */
  function Lookup(t: Table, key: string, metric: string): (r: Result<string, Error>)
    requires Rectangular(t)
    ensures "Company" !in t.columns ==> r == Err(MissingColumn("Company"))
    ensures "Company" in t.columns && metric !in t.columns ==> r == Err(MissingColumn(metric))
    ensures "Company" in t.columns && metric in t.columns ==>
      var c := IndexOf(t.columns, "Company").value;
      var m := IndexOf(t.columns, metric).value;
      (r.Ok? <==> exists i :: 0 <= i < |t.rows| && t.rows[i][c] == key) &&
      (r.Err? ==> r.error == NoMatchingRow(key)) &&
      (r.Ok? ==> exists i :: 0 <= i < |t.rows| && t.rows[i][c] == key && r.value == t.rows[i][m] &&
                            forall j :: 0 <= j < i ==> t.rows[j][c] != key)
  {
    match (IndexOf(t.columns, "Company"), IndexOf(t.columns, metric))
    case (None, _) => Err(MissingColumn("Company"))
    case (Some(_), None) => Err(MissingColumn(metric))
    case (Some(c), Some(m)) =>
      match FirstMatch(t.rows, c, key)
      case None => Err(NoMatchingRow(key))
      case Some(i) => Ok(t.rows[i][m])
  }

  /** The four metrics the comparison charts, in the order they are drawn. */
  const Metrics: seq<string> := ["Market cap", "Change", "Volume", "DivyieldTTM"]

  /** The paired values of the comparison charts for `metrics`: for each,
      the value of the first and of the second stock, stopping at the first
      lookup that fails. */
  function ComparePairs(t: Table, first: string, second: string, metrics: seq<string>): (r: Result<seq<(string, string)>, Error>)
    requires Rectangular(t)
    ensures r.Ok? ==> |r.value| == |metrics|
  {
    if metrics == [] then Ok([])
    else
      var a :- Lookup(t, first, metrics[0]);
      var b :- Lookup(t, second, metrics[0]);
      var rest :- ComparePairs(t, first, second, metrics[1..]);
      Ok([(a, b)] + rest)
  }

  /** The pairs succeed exactly when every lookup does, and then hold, metric
      by metric, the first stock's value and the second's. */
  lemma {:induction false} ComparePairsSpec(t: Table, first: string, second: string, metrics: seq<string>)
    requires Rectangular(t)
    ensures ComparePairs(t, first, second, metrics).Ok? <==>
      forall i :: 0 <= i < |metrics| ==> Lookup(t, first, metrics[i]).Ok? && Lookup(t, second, metrics[i]).Ok?
    ensures ComparePairs(t, first, second, metrics).Ok? ==>
      forall i :: 0 <= i < |metrics| ==>
        ComparePairs(t, first, second, metrics).value[i] == (Lookup(t, first, metrics[i]).value, Lookup(t, second, metrics[i]).value)
    decreases |metrics|
  {
    if metrics != [] {
      var tail := metrics[1..];
      ComparePairsSpec(t, first, second, tail);
      assert forall i :: 1 <= i < |metrics| ==> metrics[i] == tail[i - 1];
    }
  }

  /** The comparison section: the pairs of the four charts, in the order
      they are drawn, each the first stock's value then the second's. */
  function Compare(t: Table, first: string, second: string): (r: Result<seq<(string, string)>, Error>)
    requires Rectangular(t)
    ensures r.Ok? <==> forall m :: m in Metrics ==> Lookup(t, first, m).Ok? && Lookup(t, second, m).Ok?
    ensures r.Ok? ==> (|r.value| == 4 &&
      forall i :: 0 <= i < 4 ==> r.value[i] == (Lookup(t, first, Metrics[i]).value, Lookup(t, second, Metrics[i]).value))
  {
    ComparePairsSpec(t, first, second, Metrics);
    var r := ComparePairs(t, first, second, Metrics);
    assert (forall m :: m in Metrics ==> Lookup(t, first, m).Ok? && Lookup(t, second, m).Ok?) <==>
           (forall i :: 0 <= i < |Metrics| ==> Lookup(t, first, Metrics[i]).Ok? && Lookup(t, second, Metrics[i]).Ok?);
    r
  }

  /** Comparing a stock with itself is not refused: every chart gets two
      equal bars. */
  lemma SameStockTwice(t: Table, stock: string)
    requires Rectangular(t) && Compare(t, stock, stock).Ok?
    ensures forall i :: 0 <= i < |Compare(t, stock, stock).value| ==> Compare(t, stock, stock).value[i].0 == Compare(t, stock, stock).value[i].1
  {
  }

  /** Stock 1 is picked from the chosen companies, but its rows may all be
      filtered out by the sector or rating choice; the lookup of any metric
      then finds no row. */
  lemma FilteredOutStockHasNoMatch(t: Table, choice: Choice, stock: string, metric: string)
    requires Rectangular(t) && KeyColumns(t.columns).Ok? && metric in t.columns
    requires forall i :: 0 <= i < |t.rows| && t.rows[i][KeyColumns(t.columns).value.company] == stock ==>
      !Keeps(t.rows[i], KeyColumns(t.columns).value, choice)
    ensures Select(t, choice).Ok? && Lookup(Select(t, choice).value, stock, metric) == Err(NoMatchingRow(stock))
  {
    var keys := KeyColumns(t.columns).value;
    var s := Select(t, choice).value;
    FilterRowsSpec(t.rows, keys, choice);
    var c := IndexOf(t.columns, "Company").value;
    assert c == keys.company by {
      assert t.columns[keys.company] == "Company";
    }
    forall i | 0 <= i < |s.rows|
      ensures s.rows[i][c] != stock
    {
      assert s.rows[i] in s.rows;
    }
  }

  /** Choosing no sector leaves no row. */
  lemma NoSectorSelectsNothing(t: Table, choice: Choice)
    requires Rectangular(t) && KeyColumns(t.columns).Ok? && choice.sectors == {}
    ensures Select(t, choice).Ok? && Select(t, choice).value.rows == []
  {
    FilterKeepsNone(t.rows, KeyColumns(t.columns).value, choice);
  }
}
