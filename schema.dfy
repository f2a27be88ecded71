/** The schema normalizer of `load_data`: four `DataFrame.rename` calls, each
    renaming the columns whose name is exactly (case-sensitively) one
    scraped name to its canonical name. */
module Schema {

  /** The renames, in the order the script applies them. */
  const Renames: map<string, string> := map[
    "Symbol" := "Company",
    "Analyst Rating" := "AnalystRating",
    "Change %" := "Change",
    "Div yield %TTM" := "DivyieldTTM"
  ]

  /** The canonical name of one header name. */
  function Canonical(name: string): string {
    if name in Renames then Renames[name] else name
  }

  /** `df.rename(columns = {from: to})`: every name equal to `from` becomes
      `to`; a mapping whose key is not a column is ignored. */
  function Relabel(labels: seq<string>, from: string, to: string): (r: seq<string>)
    ensures |r| == |labels|
    ensures forall i :: 0 <= i < |labels| ==> r[i] == (if labels[i] == from then to else labels[i])
  {
    if labels == [] then []
    else [if labels[0] == from then to else labels[0]] + Relabel(labels[1..], from, to)
  }

  /** The whole rename table applied to a header list, name by name. */
  function RenameHeaders(labels: seq<string>): (r: seq<string>)
    ensures |r| == |labels|
  {
    if labels == [] then [] else [Canonical(labels[0])] + RenameHeaders(labels[1..])
  }

  /** Each of the four scraped names becomes its canonical name, every other
      name is kept, and the number and order of the columns are kept. */
  lemma {:induction false} RenameHeadersAt(labels: seq<string>)
    ensures |RenameHeaders(labels)| == |labels|
    ensures forall i :: 0 <= i < |labels| && labels[i] in Renames ==> RenameHeaders(labels)[i] == Renames[labels[i]]
    ensures forall i :: 0 <= i < |labels| && labels[i] !in Renames ==> RenameHeaders(labels)[i] == labels[i]
  {
    if labels != [] {
      RenameHeadersAt(labels[1..]);
      var r := RenameHeaders(labels);
      forall i | 0 < i < |labels|
        ensures r[i] == RenameHeaders(labels[1..])[i - 1] && labels[i] == labels[1..][i - 1]
      {
      }
    }
  }

  /** No canonical name is itself a scraped name that gets renamed. */
  lemma NoTargetIsSource()
    ensures forall name :: name in Renames ==> Renames[name] !in Renames
  {
  }

  /** Renaming twice is renaming once. */
  lemma {:induction false} RenameIdempotent(labels: seq<string>)
    ensures RenameHeaders(RenameHeaders(labels)) == RenameHeaders(labels)
  {
    if labels != [] {
      RenameIdempotent(labels[1..]);
      NoTargetIsSource();
      var r := RenameHeaders(labels);
      assert r[0] == Canonical(labels[0]) && r[1..] == RenameHeaders(labels[1..]);
      assert Canonical(r[0]) == r[0];
    }
  }

  /** The four `rename` calls, one after another in the script's order,
      rename exactly as the rename table does, label by label. */
  lemma {:induction false} SequentialRenames(labels: seq<string>)
    ensures Relabel(Relabel(Relabel(Relabel(labels, "Symbol", "Company"), "Analyst Rating", "AnalystRating"),
                            "Change %", "Change"), "Div yield %TTM", "DivyieldTTM")
         == RenameHeaders(labels)
  {
    if labels != [] {
      SequentialRenames(labels[1..]);
    }
  }
}
