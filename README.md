# Party games market analysis: the table logic, verified

This project models the data pipeline of `party_games_analysis.py`. The script takes two monthly tables: concurrent users (CCU) per game, and review-based sales estimates per game. It cleans them, builds a per-game lifetime units and revenue summary, and chooses which rows its charts annotate.

The model covers four stages:

- **Load** (`Loader`). `load_data` adds a first-of-month `date` column to each frame that has both `year` and `month`, in place.
- **Clean** (`Cleaning`). `prepare_data` renames a `Game` column to `game`, drops every "Fall Guys (Paid Era)" row from both tables, and guarantees `est_sales_x30` on the sales table: kept if present, else `positive_reviews * 30`, else an error.
- **Summarise** (`Revenue`, `RevenueProperties`). `build_revenue_summary` sums units per game and sorts them largest first. It prices each game from `STEAM_PRICES_GBP`, drops unpriced games, then assigns four columns in place: realised price, revenue, revenue in millions and units in thousands.
- **Chart selection** (`Charts`). The per-game sales peak annotated on the sales chart, the Human Fall Flat peak annotated on the CCU chart, and the descending-revenue bar order.

A DataFrame is modelled positionally (`Frames`). A `Table` holds its column labels and its rows, and each row holds one cell per column, in column order. A cell is text, an exact real number, a first-of-month date or a missing value (NaN).

Stages that assign columns into a frame work on `Frames.Frame`, a class whose `columns` and `rows` change in place; `Frame.SetColumn` is `df[name] = values`. Stages that build new frames (`rename`, boolean masks, the `groupby` sum, `sort_values`, `map`, `idxmax`) are functions over `Table` values. Each method except `Charts.SalesPeaks` is proved equal to the function that specifies it. `SalesPeaks`, the annotation loop over `groupby("game")`, is specified directly: it picks one maximal row for each non-NaN group key. The properties the script relies on are proved as lemmas about those functions.

Three behaviours of the code are worth naming, and the model follows each:

- `prepare_data` fails in two ways: the `ValueError` at line 95 when the sales table has neither `est_sales_x30` nor `positive_reviews`, and a `KeyError` on `df["game"]` (lines 87-88) when a table has neither a `game` nor a `Game` column. The model reports the second as `MissingGameColumn`.
- The bar chart does not keep the summary's units order: it re-sorts the summary by `revenue_gbp` (line 261), and the model does the same.
- `groupby("game")` drops rows whose game is NaN (lines 114 and 236). Such a row survives the exclusion mask, since NaN differs from every name, but it forms no group, gets no annotation and counts towards no game's units.

## Model

| member | source | states |
|---|---|---|
| Frames.WithColumn | party_games_analysis.py:134-137 | `df[name] = values` overwrites an existing column in place or appends a new one last. Row `i` gets `values[i]`, every other cell and the row count stay, and the frame stays well formed. |
| Frames.Frame.SetColumn | party_games_analysis.py:93 | The in-place column assignment leaves the frame equal to `WithColumn` of its old contents. |
| Seqs.Filter | party_games_analysis.py:87-88 | A boolean mask keeps only elements that satisfy it, keeps every element that does, and never grows the sequence. |
| Seqs.FilterSelectsInOrder | party_games_analysis.py:87-88 | The mask keeps exactly the satisfying positions, in ascending order. Each kept element is the one at its position. |
| Seqs.FilterKeepsSortedDesc | party_games_analysis.py:132 | Masking a sequence sorted largest-first leaves it sorted. |
| Seqs.FilterMap | party_games_analysis.py:127-132 | Masking the rows built from a list is building rows from the masked list, when the two masks agree. |
| Seqs.PermutationKeepsDistinctBy | party_games_analysis.py:116 | Reordering a sequence whose keys are distinct keeps them distinct. |
| Seqs.SortDesc | party_games_analysis.py:116 | `sort_values(ascending=False)`: the result is sorted largest first and is a permutation of the input. |
| Loader.TruncToInt | party_games_analysis.py:61-63 | `astype(int)` truncates toward zero. The result is within one of the input, never past it away from zero. |
| Loader.DateOf | party_games_analysis.py:60-65 | A row's date exists exactly when its year and month are numbers. It is then the first of month `(int(year), int(month))`. |
| Loader.DateColumn | party_games_analysis.py:60-65 | The date column exists exactly when every row's date does. It then holds each row's date at that row's position. |
| Loader.WithDate | party_games_analysis.py:59-65 | Without both `year` and `month` the frame is unchanged. Otherwise the step fails exactly when some year or month is not a number. On success every row gets its date, and all other cells stay. The columns are the old ones, with `date` appended last unless it was already there. |
| Loader.AddDate | party_games_analysis.py:59-65 | One pass of the loop changes the frame in place to `WithDate` of its old contents, and reports whether that succeeded. |
| Loader.LoadData | party_games_analysis.py:58-65 | The loop succeeds exactly when both frames' date steps do. Each frame then holds `WithDate` of its old contents. |
| Cleaning.Rename | party_games_analysis.py:82 | `rename(columns={"Game": "game"})` relabels `Game` where it stands and changes no other label and no row. `game` then holds the old `Game` cells. |
| Cleaning.NormaliseGameColumn | party_games_analysis.py:81-84 | The rename happens only when `game` is absent and `Game` present, and otherwise the table is unchanged. Afterwards `game` exists exactly when either label did, and other columns and cells are kept. |
| Cleaning.DropExcluded | party_games_analysis.py:87-88 | The mask keeps a position exactly when its game is not "Fall Guys (Paid Era)". Kept rows come in ascending order of position, unchanged, and no excluded row remains. |
| Cleaning.UnitsFromReviews | party_games_analysis.py:93 | Each row's derived units are its `positive_reviews` times 30. |
| Cleaning.EnsureUnits | party_games_analysis.py:91-95 | An existing `est_sales_x30` leaves the table untouched. Otherwise `positive_reviews * 30` is assigned, and with neither column the result is `MissingUnitsSource`. On success every previous cell is kept. |
| Cleaning.EnsureUnitsInPlace | party_games_analysis.py:91-95 | The in-place version succeeds exactly when `EnsureUnits` does, and then leaves the frame equal to its result. |
| Cleaning.CleanFailsExactly | party_games_analysis.py:81-95 | Cleaning fails with `MissingGameColumn` exactly when a table has neither game label. It fails with `MissingUnitsSource` exactly when the labels exist but the sales table has neither count column. |
| Cleaning.CleanCcuKeepsRowsInOrder | party_games_analysis.py:81-87 | The cleaned CCU table keeps each row of another game unchanged and in order, and nothing else; no excluded row remains. |
| Cleaning.CleanSalesGuaranteesUnits | party_games_analysis.py:88-95 | After cleaning, no sales row is of the excluded game, and every row has a numeric `est_sales_x30`. |
| Cleaning.CleanSalesDerivesUnits | party_games_analysis.py:91-93 | Without `est_sales_x30` the sales table must have had `positive_reviews`. Every cleaned row's `est_sales_x30` is then 30 times its `positive_reviews`. |
| Cleaning.CleanSalesKeepsRowsInOrder | party_games_analysis.py:88-93 | The cleaned sales table holds the kept rows in their original order, with every cell each row had. Its columns are the renamed table's, plus at most `est_sales_x30`. |
| Cleaning.CleanCcu | party_games_analysis.py:81-87 | The cleaned CCU table is well formed, has a `game` column, is no longer than the input, and holds no excluded row. Row order and contents: `CleanCcuKeepsRowsInOrder`. |
| Cleaning.CleanSales | party_games_analysis.py:83-95 | Cleaning the sales table fails exactly when it has neither `est_sales_x30` nor `positive_reviews`, and then with `MissingUnitsSource`. Its rows and units: `CleanSalesGuaranteesUnits`, `CleanSalesDerivesUnits`, `CleanSalesKeepsRowsInOrder`. |
| Cleaning.Clean | party_games_analysis.py:74-97 | `prepare_data` on values succeeds exactly when both tables have a game label and the sales table has a count column, and then returns `CleanCcu` and `CleanSales` of the inputs. Which error is raised when: `CleanFailsExactly`. |
| Cleaning.PrepareData | party_games_analysis.py:74-97 | `prepare_data` on frames fails with `MissingGameColumn` when a table lacks both game labels. Otherwise it fails exactly as `CleanSales` does, or returns two new frames equal to `CleanCcu` and `CleanSales` of the inputs, which it leaves alone. |
| Revenue.GameKeys | party_games_analysis.py:114 | The `groupby` keys: each non-NaN game of the table exactly once, and no other value; NaN forms no group. |
| Revenue.Units | party_games_analysis.py:114-115 | The reference group sum: `est_sales_x30` added over the rows of one game. It has no contract of its own; `SummaryUnitsAreSums`, `UnitsOfAbsentGame` and `UnitsConserved` state what it gives. |
| Revenue.Totals | party_games_analysis.py:113-115 | `groupby("game")["est_sales_x30"].sum()`, one entry per key. Its contract is `RevenueProperties.TotalsAreGroupSums`. |
| Revenue.LifetimeUnits | party_games_analysis.py:113-117 | The group sums sorted largest first: sorted by units and a permutation of `Totals`. |
| Revenue.PriceCell | party_games_analysis.py:127 | `map(price_series)` gives a number exactly for a game the price list names, and that number is its list price; otherwise NaN. |
| Revenue.SummaryOf | party_games_analysis.py:127-137 | The summary record of one priced group. Its four derived figures: `RevenueProperties.FiguresOf`. |
| Revenue.RevenueSummary | party_games_analysis.py:121-137 | What `build_revenue_summary` returns, as records. Its contents, order and figures: `SummaryOfPricedGroups`, `SummaryGamesExactly`, `SummaryUnitsAreSums`, `SummarySortedByUnits` and `SummaryFigures` in `RevenueProperties`. |
| Revenue.PricedBase | party_games_analysis.py:121-132 | Masking the summary rows on a missing price is the same as dropping the unpriced groups before building rows. |
| Revenue.FilterLeavesPriced | party_games_analysis.py:132 | After the mask every remaining group is priced. |
| Revenue.RealisedColumn | party_games_analysis.py:134 | `price_gbp * REALISATION_RATE` gives each row the realised price of its record. |
| Revenue.RevenueColumn | party_games_analysis.py:135 | `estimated_units * realised_price_gbp` gives each row the revenue of its record. |
| Revenue.RevenueMillionsColumn | party_games_analysis.py:136 | `revenue_gbp / 1e6` gives each row its revenue in millions. |
| Revenue.UnitsThousandsColumn | party_games_analysis.py:137 | `estimated_units / 1e3` gives each row its units in thousands. |
| Revenue.AddDerivedColumns | party_games_analysis.py:134-137 | The four in-place assignments turn the priced frame into exactly the summary table of its groups. |
| Revenue.BuildRevenueSummary | party_games_analysis.py:104-142 | `build_revenue_summary` returns a new frame equal to the summary table of `RevenueSummary` of the sales. |
| RevenueProperties.TotalsAreGroupSums | party_games_analysis.py:113-115 | Every group sum is for a game that occurs in the table, and its units are that game's `est_sales_x30` sum. |
| RevenueProperties.SummaryOfPricedGroups | party_games_analysis.py:121-132 | Summary row `k` is the record of the `k`-th priced group, in the sorted order: same game, same units. |
| RevenueProperties.SummaryGamesDistinct | party_games_analysis.py:113-125 | No game has two summary rows. |
| RevenueProperties.SummaryHasEveryPricedGame | party_games_analysis.py:119-132 | Every game present in the sales table and named by the price list has a summary row. |
| RevenueProperties.SummaryGamesExactly | party_games_analysis.py:119-132 | A game has a summary row exactly when it occurs in the sales table and the price list names it. Its `price_gbp` is its list price. |
| RevenueProperties.SummaryUnitsAreSums | party_games_analysis.py:113-125 | Each row's `estimated_units` is the sum of `est_sales_x30` over that game's sales rows. |
| RevenueProperties.SummarySortedByUnits | party_games_analysis.py:116-132 | Summary rows are in non-increasing order of `estimated_units`, even after unpriced games are dropped. |
| RevenueProperties.FiguresOf | party_games_analysis.py:134-137 | One record's realised price is price × 0.5, and its revenue is units × realised price. Its millions times 1e6 give the revenue back, and its thousands times 1e3 give the units back. |
| RevenueProperties.SummaryFigures | party_games_analysis.py:134-137 | Every summary row satisfies those four relations. |
| RevenueProperties.UnitsOfAbsentGame | party_games_analysis.py:114-115 | A non-NaN game that is not a group key has a zero sum. |
| RevenueProperties.UnitsConserved | party_games_analysis.py:113-115 | The group sums plus the sum over the NaN-game rows that `groupby` drops add up to the sum of the whole `est_sales_x30` column, so no unit of a named game is lost or counted twice. |
| Charts.PeakRow | party_games_analysis.py:198 | `idxmax` over one game's rows is none exactly when the game has no row. Otherwise it is a row of that game whose value is at least every other of its rows and above every earlier one, so it is the first maximum. |
| Charts.SalesPeaks | party_games_analysis.py:236-237 | The annotation loop picks one row per group key, so none for a NaN game. Each pick is a row of that game whose `est_sales_x30` is at least that of every row of the game. |
| Charts.CcuAnnotation | party_games_analysis.py:195-198 | The CCU annotation exists exactly when Human Fall Flat has a row. It then points at such a row, and its value is that row's `peak_ccu`, the game's maximum. |
| Charts.BarOrder | party_games_analysis.py:261 | The bars are the summary rows reordered (a permutation), in non-increasing `revenue_gbp`. |

## Left out

- Reading the two CSV files and writing the summary CSV (lines 54-55 and 140), and creating the output directory at import (line 30). This is file I/O; the model receives frames already read.
- All Plotly figure construction, theming, annotation styling, `write_html`, the dashboard page and `main`'s sequencing and printing. These are rendering, I/O and a foreign library.
- `pd.to_datetime` parsing. A date is the pair `(year, month)` with day 1, and no calendar validation is done, so a month of 13 is not rejected.
- IEEE floating point. Prices, counts and the revenue arithmetic are exact reals, and display rounding and string formatting are not modelled. `astype(int)` truncation is modelled by `Loader.TruncToInt`.
- Pandas row index labels. `idxmax` yields a row position, and the selected row is that position's row.
- Cells of the count columns that are not numbers (such as NaN or text, where pandas would repeat a string or propagate NaN). `Cleaning.CountsAreNumbers`, `Revenue.SalesReady` and `Charts.CcuReady` require these columns to hold numbers.
- Loader.LoadData: says nothing about the frames when it fails. In the source, the CCU frame can already hold its `date` column when the sales frame's conversion raises.
- Revenue.GameKeys: lists games in order of first appearance, while `groupby` sorts its keys. The difference only affects how tied totals are ordered after the descending sort and the order annotations are added. Neither is promised by the script.
- Seqs.SortDesc: orders tied keys in one particular way, and its contract promises only sortedness and a permutation. Pandas' default sort is not stable and the script promises no tie order.
- Charts.SalesPeaks: annotates the games in `GameKeys` order rather than `groupby`'s sorted order. The set of games annotated is the same, NaN excluded in both.
- Charts.PeakRow: states the first maximal row, which is the row `idxmax` documents choosing. The script itself does not rely on which of several equal peaks is chosen.
