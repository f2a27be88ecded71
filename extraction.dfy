/** The table extractor of `load_data`: every table cell, once the HTML has
    been parsed, is reduced to one string. The parsed cell is abstracted to
    what the rule looks at: the text of its first anchor, if it has one, and
    the whitespace-stripped text fragments of all its descendants, in
    document order. */
module Extraction {
  import opened Wrappers

  /** A parsed `td` cell: `anchor` is the text of the cell's first `a` tag
      (absent when there is none), `fragments` are the cell's
      `stripped_strings`, which include the text of any `sup` tag. */
  datatype Cell = Cell(anchor: Option<string>, fragments: seq<string>)

  /** `''.join(fragments)`. */
  function Join(fragments: seq<string>): string
  {
    if fragments == [] then "" else fragments[0] + Join(fragments[1..])
  }

  /** `text.split(' ')[0]`: the text up to its first ASCII space. It is a
      prefix of the text without a space in it, and it is either the whole
      text or stops right at a space. */
  function FirstToken(text: string): (token: string)
    ensures |token| <= |text| && token == text[..|token|]
    ensures ' ' !in token
    ensures |token| == |text| || text[|token|] == ' '
  {
    if text == [] || text[0] == ' ' then "" else [text[0]] + FirstToken(text[1..])
  }

  /** The value the extractor records for one cell: the anchor's text when
      the cell has an anchor; otherwise the joined fragments up to, and not
      including, the first space. */
  function CellValue(cell: Cell): (value: string)
    ensures cell.anchor.Some? ==> value == cell.anchor.value
    ensures cell.anchor.None? ==>
      |value| <= |Join(cell.fragments)| && value == Join(cell.fragments)[..|value|] && ' ' !in value &&
      (|value| == |Join(cell.fragments)| || Join(cell.fragments)[|value|] == ' ') &&
      (' ' !in Join(cell.fragments) ==> value == Join(cell.fragments))
  {
    match cell.anchor
    case Some(text) => text
    case None =>
      var token := FirstToken(Join(cell.fragments));
      assert ' ' !in Join(cell.fragments) ==> |token| == |Join(cell.fragments)|;
      token
  }

  /** The nested loops of `load_data`: skip the header row (`[1:]`), and for
      every further row append the value of each of its cells to
      `row_data`, then append `row_data` to `rows`. */
  method ExtractRows(trs: seq<seq<Cell>>) returns (rows: seq<seq<string>>)
    ensures |rows| == if trs == [] then 0 else |trs| - 1
    ensures forall i :: 0 <= i < |rows| ==> |rows[i]| == |trs[i + 1]|
    ensures forall i, j :: 0 <= i < |rows| && 0 <= j < |rows[i]| ==> rows[i][j] == CellValue(trs[i + 1][j])
  {
    rows := [];
    var body := if trs == [] then [] else trs[1..];
    var r := 0;
    while r < |body|
      invariant 0 <= r <= |body|
      invariant |rows| == r
      invariant forall i :: 0 <= i < r ==> |rows[i]| == |body[i]|
      invariant forall i, j :: 0 <= i < r && 0 <= j < |rows[i]| ==> rows[i][j] == CellValue(body[i][j])
    {
      var cells := body[r];
      var rowData := [];
      var c := 0;
      while c < |cells|
        invariant 0 <= c <= |cells|
        invariant |rowData| == c
        invariant forall j :: 0 <= j < c ==> rowData[j] == CellValue(cells[j])
      {
        var cell := cells[c];
        match cell.anchor {
          case Some(text) =>
            rowData := rowData + [text];
          case None =>
            var text := Join(cell.fragments);
            rowData := rowData + [FirstToken(text)];
        }
        c := c + 1;
      }
      rows := rows + [rowData];
      r := r + 1;
    }
  }
}
