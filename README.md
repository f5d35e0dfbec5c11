# FIFA World Cup finals dashboard — data model

This project models the data-shaping core of a small dashboard of FIFA World
Cup finals. The dashboard loads a table of finals (`Year`, `Winners`,
`Runners-up`). It adds two alias columns that rename "West Germany" to
"Germany" and "England" to "United Kingdom" so that the names match current
map regions. It counts wins per aliased winner for a choropleth map. It also
offers two dropdowns whose callbacks answer in one sentence: how often a
country won, and who won and lost the final of a year.

The loaded table is a `seq<FinalRecord>` taken as given. Every operation is a
pure function of that sequence and the current selection:

- `wrappers.dfy`, module `Wrappers`: `Option` (a dropdown value that may be
  absent) and `Result` (a lookup that may raise).
- `finals.dfy`, module `Finals`: the record, the fixed alias table, the
  table with its two alias columns, and the column projections.
- `win_counts.dfy`, module `WinCounts`: `value_counts` of the aliased winners
  as a sequence of `(Country, Wins)` rows, specified by the multiset of that
  column.
- `options.dfy`, module `Options`: `sorted(unique())` of the `Winners` and
  `Year` columns. Python's ordering of strings is modelled as `LexLess`,
  lexicographic by code point.
- `decimal.dfy`, module `Decimal`: the decimal text an f-string gives an
  `int`, with the parse that reads it back.
- `lookups.dfy`, module `Lookups`: the two text callbacks.

The model keeps an asymmetry that the code has. The map counts wins under
ALIASED names. Both text callbacks read the ORIGINAL names. So selecting
"West Germany" reports only the rows literally labelled so, while the map
shows those rows under "Germany" (`CountryTextUsesOriginalNames`,
`WestGermanyExample`).

A year that no row has makes `iloc[0]` raise. `DisplayFinal` returns
`Err(IndexError)` for it instead of requiring that the year exists.
"No selection" follows Python truthiness: `None` or `""` for the country, and
`None` or `0` for the year.

## Model

| member | source | states |
|---|---|---|
| Finals.Alias | CP321_Assignment7.py:10-17 | "West Germany" becomes "Germany", "England" becomes "United Kingdom", every other name is unchanged; the result is never a key of the alias table, and it equals the input exactly when the input is not a key |
| Finals.AliasIdempotent | CP321_Assignment7.py:10-13 | aliasing an aliased name changes nothing |
| Finals.WithMapColumns | CP321_Assignment7.py:9-17 | adding the alias columns keeps the row count and each original row (Year, Winners, Runners-up) untouched; both new columns are the aliased names of their own row, with the same table |
| Finals.MapColumnsAreAliasFree | CP321_Assignment7.py:10-17 | no historical name is left in `Map_Winners` or `Map_RunnersUp`, and aliasing those columns again leaves them as they are |
| Finals.Winners | CP321_Assignment7.py:85 | the `Winners` column selection has one cell per row, each the row's original winner, in table order |
| Finals.Years | CP321_Assignment7.py:95 | the `Year` column selection has one cell per row, each the row's year, in table order |
| Finals.MapWinners | CP321_Assignment7.py:20 | the `Map_Winners` column selection has one cell per row, each the row's aliased winner, in table order |
| WinCounts.IndexOf | CP321_Assignment7.py:20 | the position found holds the sought country and no earlier row does; the length of the table means no row holds it |
| WinCounts.Bump | CP321_Assignment7.py:20 | one counting step of `value_counts`: the row of the counted country gains one win and every other row keeps its country and wins; a country with no row gets a new last row with one win; countries stay distinct |
| WinCounts.SumWinsUpdate | CP321_Assignment7.py:20 | replacing one row changes the total of `Wins` by the difference of the two rows' wins |
| WinCounts.BumpKeepsValueCounts | CP321_Assignment7.py:20 | counting one more value keeps the table a value count of the longer column |
| WinCounts.BumpAddsOneWin | CP321_Assignment7.py:20 | one counting step raises the total of `Wins` by exactly one |
| WinCounts.ValueCounts | CP321_Assignment7.py:20 | one row per distinct value of the column, no country twice, each `Wins` equal to the value's number of occurrences, and the `Wins` sum to the column's length |
| WinCounts.WinCountsOf | CP321_Assignment7.py:20-21 | `win_counts` has one row per distinct aliased winner and no country twice; every row's `Wins` is at least 1 and equals the number of finals whose aliased winner is that country; no row is under a historical name; the `Wins` sum to the number of finals |
| WinCounts.MapWinnersColumn | CP321_Assignment7.py:10-20 | the column that `win_counts` counts holds the aliased winner of every final and no historical name |
| WinCounts.MapWinsVersusOriginal | CP321_Assignment7.py:10-20 | the map's count for "Germany" is the original rows of "Germany" plus those of "West Germany", likewise "United Kingdom" and "England"; the two historical names count nothing; any other name counts exactly its original rows |
| Options.LexLessIrreflexive | CP321_Assignment7.py:34 | no string sorts before itself |
| Options.LexLessTransitive | CP321_Assignment7.py:34 | the string ordering used by `sorted` is transitive |
| Options.LexLessTotal | CP321_Assignment7.py:34 | of two different strings one sorts before the other |
| Options.LexLessIsStrictOrder | CP321_Assignment7.py:34 | Python's ordering of strings is a strict total order |
| Options.InsertDistinct | CP321_Assignment7.py:34 | inserting into a strictly ascending list keeps it strictly ascending and adds exactly the new value |
| Options.SortedDistinct | CP321_Assignment7.py:34 | `sorted(unique(column))` is strictly ascending and holds exactly the column's values |
| Options.AscendingIsUnique | CP321_Assignment7.py:34 | two strictly ascending lists with the same values are equal, so those two facts determine the option list |
| Options.WinnerOptions | CP321_Assignment7.py:32-35 | the country options are strictly ascending, so have no duplicates, and are exactly the original `Winners` values |
| Options.YearOptions | CP321_Assignment7.py:40-43 | the year options are strictly ascending and are exactly the `Year` values |
| Decimal.NatToString | CP321_Assignment7.py:86 | the count is printed as at least one decimal digit with no leading zero |
| Decimal.NatToStringRoundTrip | CP321_Assignment7.py:86 | reading the printed count back as a decimal gives the count |
| Decimal.IntToString | CP321_Assignment7.py:96 | the printed year starts with a minus sign exactly when the year is negative |
| Decimal.IntToStringIsSignedDecimal | CP321_Assignment7.py:96 | the printed year is the canonical decimal text of the year: digits without a leading zero, a minus sign exactly for negatives |
| Decimal.IntToStringRoundTrip | CP321_Assignment7.py:96 | reading the printed year back gives the year |
| Decimal.IntToStringInjective | CP321_Assignment7.py:96 | different years print differently |
| Lookups.RowsWonBy | CP321_Assignment7.py:85 | the mask filter keeps exactly the rows whose original winner is the selection, and its row count is the number of times that name occurs in `Winners` |
| Lookups.RowsOfYear | CP321_Assignment7.py:95 | the mask filter keeps exactly the rows of the year, and its first row is the first row of that year in table order |
| Lookups.WinsSentence | CP321_Assignment7.py:86 | gives exactly the f-string text "<country> has won the World Cup <n> time(s)." with n printed as the canonical decimal text of the count |
| Lookups.FinalSentence | CP321_Assignment7.py:96 | gives exactly the f-string text "In <year>, the winner was <Winners> and the runner-up was <Runners-up>." with the year printed as its canonical decimal text and the row's original names |
| Lookups.DisplayCountryWins | CP321_Assignment7.py:82-86 | no selection (`None` or `""`) gives `""`; otherwise the sentence "<country> has won the World Cup <n> time(s)." with n the number of rows whose unaliased winner is the selection |
| Lookups.DisplayFinal | CP321_Assignment7.py:92-96 | no selection (`None` or `0`) gives `""`; a year no row has raises `IndexError`, and only such a year does; otherwise the sentence names the original winner and runner-up of the first row of that year |
| Lookups.DisplayFinalOfUniqueYear | CP321_Assignment7.py:92-96 | when years are unique, the year callback reports the one final of the selected year |
| Lookups.CountryTextUsesOriginalNames | CP321_Assignment7.py:82-86 | the text never reports more wins than the map shows for the aliased name; a historical name gets no map count of its own, and under its alias the map shows the historical name's rows plus the alias's own, while the text counts only the historical name's rows |
| Lookups.Final1966Example | CP321_Assignment7.py:92-96 | the 1966 final, England over West Germany, is reported under those names with the year printed as "1966" |
| Lookups.WestGermanyExample | CP321_Assignment7.py:82-86 | with one "West Germany" and one "Germany" win, selecting "West Germany" gives exactly "West Germany has won the World Cup 1 time(s)." while the map shows two under "Germany" |

## Left out

- CSV loading (line 7) is file I/O; the table is a parameter of every function.
- The Dash app, its layout and the callback decorators (lines 23-51, 78-81, 88-91) are UI wiring. Each dropdown option is a `{"label": v, "value": v}` pair; the model keeps only the list of values.
- `update_map` and the Plotly choropleth, geo and layout calls (lines 52-76) are rendering through an outside library. `update_map` ignores its argument, so the map data does not depend on the selection. The model has this by construction: `WinCounts.WinCountsOf` takes no selection.
- Server start-up and the `PORT` environment variable (lines 98-102) are process and network plumbing.
- WinCounts.WinCountsOf: does not state the row order. `value_counts` sorts rows by descending count, and the model lists rows in order of first occurrence. Nothing in the program depends on that order.
- Pandas dtype handling, missing cells (NaN) and non-integer years are left out. Years are integers and names are strings.
