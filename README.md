# Nifty 50 finance stats explorer: the scrape-and-clean pipeline in Dafny

The dashboard scrapes the table of Nifty 50 constituents, builds a pandas
DataFrame from it, normalises four column labels, strips units and
placeholders from the numeric columns with chains of `str.replace`, and lets
the user filter rows by Company, Sector and AnalystRating and then compare
two stocks on four metrics. This project models that pipeline on text values
and proves what each step guarantees.

Modules, in pipeline order:

- `Wrappers`: the `Option` and `Result` types used for the error paths.
- `Sequences`: order-preserving subsequences.
- `PyStrings`: Python's `str.replace` (single pass, left to right,
  non-overlapping; the empty pattern included) and `in` on strings, with
  lemmas on deleting and substituting characters and on cutting off a
  suffix.
- `Extraction`: a table cell reduced to the text of its first anchor and its
  stripped strings; the value the extractor records for it; the nested loops
  that build the rows (a method with loop invariants).
- `Schema`: the four renames.
- `Cleanup`: the chain of each numeric column, up to the float conversion.
- `Frames`: the table as a value (`Table`, `ApplyColumn`, `Clean`, `Load`)
  and the DataFrame as a class (`Frame`) whose methods rename and reassign
  in place; `LoadData` is `load_data` as a method and is proved to produce
  `Load`.
- `Selection`: the row filter of the sidebar and the first-match lookups of
  the comparison charts.

Modelling choices:

- Every pandas `.str.replace` call is modelled as Python's literal
  `str.replace`. The script never passes `regex`. Before pandas 2.0 a
  one-character pattern, '+' included, is read literally, and from pandas
  2.0 `regex` defaults to False. No multi-character pattern in the
  script ("BUSD", "INR", "USD", narrow no-break space followed by 'K')
  contains a regular-expression metacharacter.
- `if anchor:` holds for every anchor found, even one with empty text.
  The anchor's text is then the value.
- The comment on line 44 says superscript text is ignored. `stripped_strings`
  yields it all the same, and the model follows the code.
- A column is addressed through the first column with its label.
- A row whose width differs from the header's is reported as the error
  `RaggedRows`.
- The Market cap chain deletes the narrow no-break space (U+202F), not the
  ASCII space, and has no rule for the thousands separator, so
  "1,234.5 BUSD" reaches `astype(float)` as "1,234.5 "
  (`Cleanup.MarketCapKeepsCommas`, `Cleanup.MarketCapSample`).
- "Rel Volume" has no text cleanup; its step is the identity.

## Model

| member | source | states |
|---|---|---|
| Extraction.FirstToken | Nifty50_EDA.py:46 | `split(' ')[0]` is a prefix of the text with no space in it, and it is either the whole text or stops at a space |
| Extraction.Join | Nifty50_EDA.py:45 | `''.join(cell.stripped_strings)`; `CellValue`'s contract states what is taken from it |
| Extraction.CellValue | Nifty50_EDA.py:39-46 | with an anchor the value is its text; without one it is the joined fragments up to, and not including, the first space: a space-free prefix that is the whole join or is followed by a space |
| Extraction.ExtractRows | Nifty50_EDA.py:33-47 | the loops skip the first `tr` and give one row per further `tr`, with one value per cell, each the cell's `CellValue` |
| Schema.Canonical | Nifty50_EDA.py:56-59 | the rename table applied to one label: a scraped name becomes its canonical name, any other label stays; `RenameHeaders` maps it over the header and `RenameHeadersAt` states the result |
| Schema.Relabel | Nifty50_EDA.py:56 | one `rename` turns every label equal to its key into its value and keeps the others and their positions; `SequentialRenames` ties the script's four to `RenameHeaders` |
| Schema.RenameHeaders | Nifty50_EDA.py:56-59 | the rename table applied label by label keeps the number of labels; `RenameHeadersAt` and `RenameIdempotent` state its meaning |
| Schema.RenameHeadersAt | Nifty50_EDA.py:56-59 | the four scraped names become their canonical names, every other label is kept, and the count and order of labels are kept |
| Schema.NoTargetIsSource | Nifty50_EDA.py:56-59 | no canonical name is itself renamed |
| Schema.RenameIdempotent | Nifty50_EDA.py:56-59 | renaming twice is renaming once |
| Schema.SequentialRenames | Nifty50_EDA.py:56-59 | the four `rename` calls in a row equal the rename table applied label by label |
| Frames.Frame.Rename | Nifty50_EDA.py:56 | one in-place rename relabels every matching column and leaves the rows unchanged |
| Frames.Frame.Normalize | Nifty50_EDA.py:56-59 | after the four in-place renames the labels are the canonical ones and the rows are unchanged |
| PyStrings.Replace | Nifty50_EDA.py:62-95 | `str.replace` in one left-to-right pass over non-overlapping occurrences; the `PyStrings` lemmas below state what it removes, substitutes and keeps |
| PyStrings.Interleave | Nifty50_EDA.py:62-95 | `str.replace` with the empty pattern inserts the replacement before every character and at the end, so the length grows by one replacement per gap |
| PyStrings.ReplaceAbsent | Nifty50_EDA.py:73 | a string without the pattern comes back unchanged |
| PyStrings.DeleteSuffix | Nifty50_EDA.py:73 | deleting a border-free pattern from `s + pat`, where `s` lacks the pattern, gives `s` |
| PyStrings.DeleteChar | Nifty50_EDA.py:65 | deleting a character leaves none behind, shortens the text by its count and keeps every other character's count |
| PyStrings.DeleteCharKeepsOrder | Nifty50_EDA.py:65 | deleting a character keeps the other characters in their order |
| PyStrings.SubstituteChar | Nifty50_EDA.py:64 | substituting a character keeps the length and changes exactly the positions that held it |
| PyStrings.SubstituteRemoves | Nifty50_EDA.py:66 | after substituting a different character none of the old one is left |
| PyStrings.ReplaceKeepsAbsent | Nifty50_EDA.py:62-69 | a replacement never brings in a character absent from both the text and the replacement |
| PyStrings.ReplaceKeepsCount | Nifty50_EDA.py:73 | a character outside the pattern and the replacement occurs as often afterwards |
| Cleanup.EpsGrowth | Nifty50_EDA.py:62-69 | the EPS-growth chain in the script's order; `EpsGrowthClean` states its result |
| Cleanup.MarketCap | Nifty50_EDA.py:73 | the Market cap chain; `MarketCapKeepsCommas` and `MarketCapSample` state its result |
| Cleanup.Price | Nifty50_EDA.py:76 | the Price chain; `PriceClean` states its result |
| Cleanup.Change | Nifty50_EDA.py:79 | the Change chain; `ChangeClean` and `ChangeSample` state its result |
| Cleanup.VolumeThousands | Nifty50_EDA.py:82 | the first Volume assignment; `UnitSuffixRemoved` and `UnitSuffixAbsent` state its result |
| Cleanup.VolumeMillions | Nifty50_EDA.py:83 | the second Volume assignment; `VolumeClean` states the result of both |
| Cleanup.RelVolume | Nifty50_EDA.py:86 | "Rel Volume" goes to the float conversion without any text cleanup |
| Cleanup.PriceEarnings | Nifty50_EDA.py:89 | the P/E step; `PriceEarningsAt` and `PriceEarningsSample` state its result |
| Cleanup.EpsDiluted | Nifty50_EDA.py:92 | the EPS-diluted chain; `EpsDilutedClean` and `EpsDilutedSample` state its result |
| Cleanup.DivYield | Nifty50_EDA.py:95 | the dividend-yield step; `DivYieldClean` states its result |
| Cleanup.EpsGrowthClean | Nifty50_EDA.py:62-69 | the EPS-growth chain leaves no em dash, '%', minus sign, '+' or ',' |
| Cleanup.MarketCapKeepsCommas | Nifty50_EDA.py:73 | the Market cap chain leaves no narrow no-break space, and keeps every ',' and every ASCII space |
| Cleanup.PriceClean | Nifty50_EDA.py:76 | the Price chain leaves no ',' |
| Cleanup.ChangeClean | Nifty50_EDA.py:79 | the Change chain leaves neither '%' nor a minus sign |
| Cleanup.VolumeClean | Nifty50_EDA.py:82-83 | the two Volume assignments together leave no 'M' and no ASCII space |
| Cleanup.PriceEarningsAt | Nifty50_EDA.py:89 | the P/E step keeps the length, turns each em dash into '0' and keeps every other character in place |
| Cleanup.EpsDilutedClean | Nifty50_EDA.py:92 | the EPS-diluted chain leaves neither an em dash nor a minus sign |
| Cleanup.DivYieldClean | Nifty50_EDA.py:95 | the dividend-yield step leaves no '%' |
| Cleanup.SuffixesBorderFree | Nifty50_EDA.py:73-92 | "BUSD", "INR", "USD" and the narrow no-break space followed by 'K' cannot overlap themselves |
| Cleanup.UnitSuffixRemoved | Nifty50_EDA.py:73-92 | each unit suffix is cut off exactly from a value that does not contain it |
| Cleanup.UnitSuffixAbsent | Nifty50_EDA.py:73-92 | a value without "BUSD", "INR", "USD" or the narrow no-break space followed by 'K' passes that deletion unchanged |
| Cleanup.SinglePass | Nifty50_EDA.py:73 | the deletion makes one pass: "BBUSDUSD" becomes "BUSD", which still holds the pattern |
| Cleanup.MarketCapSample | Nifty50_EDA.py:73 | "1,234.5 BUSD" becomes "1,234.5 ", and "1,234.5", a narrow no-break space and "BUSD" becomes "1,234.5" |
| Cleanup.ChangeSample | Nifty50_EDA.py:79 | "−3.2%" written with a minus sign becomes "-3.2" |
| Cleanup.PriceEarningsSample | Nifty50_EDA.py:89 | the em dash placeholder becomes "0" |
| Cleanup.EpsDilutedSample | Nifty50_EDA.py:92 | "12.3 USD" becomes "12.3 " |
| Frames.IndexOf | Nifty50_EDA.py:62 | `df[name]` finds a column exactly when the label is present, and finds the first such column |
| Frames.Clean | Nifty50_EDA.py:62-95 | a successful cleanup keeps the labels, the number of rows and the shape of the table |
| Frames.ApplyColumn | Nifty50_EDA.py:62-95 | a reassignment succeeds exactly when the label is present (else `MissingColumn`), keeps labels and shape, and changes only the cells of the first column with that label |
| Frames.CleanCell | Nifty50_EDA.py:62-95 | one cell's text after its column's whole chain; `CleanCellAt` ties it to `Clean` and `CleanCellResidueFree` states what it leaves out |
| Frames.CleanSucceeds | Nifty50_EDA.py:62-95 | the cleanup succeeds exactly when all nine reassigned columns are present |
| Frames.CleanCellAt | Nifty50_EDA.py:62-95 | when every reassigned column is present the cleanup succeeds, and one cell is then its column's whole chain applied to the scraped text (the first column of each label only) |
| Frames.CleanCellwise | Nifty50_EDA.py:62-95 | when every reassigned column is present the cleanup succeeds, keeps the labels and the rows, turns every cell of the first column of each label into its column's chain applied to the scraped text, and leaves the cells of repeated labels as scraped |
| Frames.CleanCellResidueFree | Nifty50_EDA.py:62-95 | each column's chain leaves none of the characters it removes or substitutes (for Market cap, the narrow no-break space) |
| Frames.CleanedTableResidueFree | Nifty50_EDA.py:62-95 | when every reassigned column is present the cleanup succeeds, and no cleaned column then keeps a character its chain removes |
| Frames.DataRows | Nifty50_EDA.py:33-47 | the values of the cells of every `tr` after the first; `ExtractedRows` ties it to the loops and `DataRowsFit` to the header |
| Frames.ExtractedRows | Nifty50_EDA.py:33-47 | rows built as the extraction loops build them are the header-skipping `DataRows` of the `tr` elements |
| Frames.DataRowsFit | Nifty50_EDA.py:50 | the extracted rows fit the header exactly when every `tr` after the first has one cell per label |
| Frames.Load | Nifty50_EDA.py:24-98 | `load_data` on values: extract, build the frame, rename, clean; `LoadShape` states when it fails and what it holds, and `LoadData` is proved to compute it |
| Frames.LoadShape | Nifty50_EDA.py:24-98 | a ragged table is `RaggedRows`; otherwise the load succeeds exactly when every reassigned column is present after the renames, with canonical labels and one row per data row (the `ValueError` of `astype(float)` is not modelled, so success does not mean `load_data` returns) |
| Frames.Frame.constructor | Nifty50_EDA.py:50 | the frame holds the given labels and rows |
| Frames.Frame.Transform | Nifty50_EDA.py:62-95 | an in-place reassignment changes the frame as `ApplyColumn` does, and leaves it unchanged on a missing column |
| Frames.LoadData | Nifty50_EDA.py:24-98 | `load_data` run step by step on a fresh frame gives exactly `Load`, or the error at which it stops |
| Selection.Keeps | Nifty50_EDA.py:119 | one row passes the mask exactly when its Company, Sector and AnalystRating are each among the chosen values; `FilterRowsSpec` and `SelectSpec` state the selection through it |
| Selection.FilterRows | Nifty50_EDA.py:119 | every row of the filtered table is a row of the input |
| Selection.FilterRowsSpec | Nifty50_EDA.py:119 | the filter returns an order-preserving subsequence holding a row exactly when all three memberships hold, as often as the input does |
| Selection.FilterKeepsAll | Nifty50_EDA.py:119 | a filter that every row passes returns all rows |
| Selection.FilterKeepsNone | Nifty50_EDA.py:119 | a filter no row passes returns no row |
| Selection.KeyColumns | Nifty50_EDA.py:110-119 | the filter's three columns are found exactly when present, and the first missing one is the error |
| Selection.Select | Nifty50_EDA.py:119 | the selected table keeps the labels and its rows fit them |
| Selection.SelectSpec | Nifty50_EDA.py:119 | the selection keeps, in order and as often as the table holds them, exactly the rows whose Company, Sector and AnalystRating are chosen |
| Selection.Values | Nifty50_EDA.py:110-117 | the set of values in one column, which each multiselect offers (`sorted` only orders them, which a set of choices does not need); `DefaultChoice` and `DefaultSelectsAll` use it |
| Selection.DefaultChoice | Nifty50_EDA.py:110-117 | the multiselects' defaults: every value of the Company, Sector and AnalystRating columns; `DefaultSelectsAll` proves the filter then keeps the whole table |
| Selection.DefaultSelectsAll | Nifty50_EDA.py:110-119 | with every value chosen, as the sidebar starts, the whole table is selected |
| Selection.NoCompanySelectsNothing | Nifty50_EDA.py:111-119 | choosing no company selects no row |
| Selection.NoSectorSelectsNothing | Nifty50_EDA.py:114-119 | choosing no sector selects no row |
| Selection.FirstMatch | Nifty50_EDA.py:149 | finds a row exactly when one has the key, and the first such row |
| Selection.Lookup | Nifty50_EDA.py:149-150 | the metric of the first row whose Company is the key; a missing column or no matching row is an error |
| Selection.ComparePairs | Nifty50_EDA.py:149-236 | a successful comparison has one pair per metric |
| Selection.ComparePairsSpec | Nifty50_EDA.py:149-236 | the comparison succeeds exactly when every lookup succeeds, and then pairs, metric by metric, the first stock's value with the second's |
| Selection.Compare | Nifty50_EDA.py:149-236 | the four charts get Market cap, Change, Volume and DivyieldTTM, each as the first stock's value then the second's |
| Selection.SameStockTwice | Nifty50_EDA.py:133-150 | the same stock in both boxes is not refused and gives two equal bars per chart |
| Selection.FilteredOutStockHasNoMatch | Nifty50_EDA.py:133-149 | when every row of a stock fails the sector or rating choice, the lookup of any present metric in the selected table is `NoMatchingRow` |

## Left out

- The HTTP request and its status check (lines 13-14) are network I/O.
- HTML parsing (lines 17, 27-35) is a foreign library. The table arrives as
  header labels and, per `tr`, a sequence of cells, each reduced to its
  first anchor's text and its stripped strings.
- The float conversion, the ×100 of the dividend yield and the bar labels
  are floating point. The model stops at the text handed to `astype(float)`.
  The `ValueError` that conversion raises on text that is not a number is
  not modelled, so a successful `Load` does not mean `load_data` returns:
  a Market cap with a thousands separator, such as "1,234.5 ", makes it
  raise.
- Frames.Load: pandas pads rows shorter than the widest row with missing
  values, and the model does not capture this. Any row whose width differs
  from the header's is reported as `RaggedRows`.
- Frames.ApplyColumn: pandas returns a sub-frame for a duplicated label.
  The model does not capture this and always uses the first column with the
  label.
- The CSV and base64 download link (lines 100-104) only wraps `to_csv` and
  `base64`.
- The Streamlit page is UI glue and is not modelled. This covers the layout,
  the widgets, the cache of `load_data`, the stock select boxes and the
  repeated 'Sector' widget label on line 117. The choices reach the model as
  parameters.
- The drawing of the charts, including the green/red colours, is
  presentation.
