# Fundamentus ranking pipeline: a Dafny model

This project models the ranking pipeline of the Fundamentus stock crawler,
the class `FundamentusScraper` in `fundamentus_crawler/scrapper.py`. The
pipeline starts from the indicator table of the Fundamentus listing page and
runs these stages in the order `main` runs them:

- rename the headers and parse the six percentage columns ("12,3%" becomes 12.3);
- keep only the companies with a positive EV/EBIT;
- fill in sector, sub-sector, company name and last-quote date from a ticker
  cache, fetching the tickers the cache lacks;
- derive market value, share count, EBIT and enterprise value from the ratios;
- drop companies whose last quote is not after the cutoff date;
- flag the small caps;
- rank by EV/EBIT (ascending) and by ROIC (descending);
- add the "magic" score (the sum of the two ranks) and rank by it;
- estimate, for every company outside the top 30, the share price at which
  it would reach the magic score of the 30th company.

The scraper object keeps two pieces of state, the working table `df` and the
ticker cache `tickerDict`. The model keeps them as the fields of the class
`Scraper.FundamentusScraper`, with one method per stage. Each method is proved
to leave the state that a pure function of the `Pipeline` module describes.
`RunAll` runs the stages in order and is proved to leave a table with at
least 30 rows where:

- every row has a positive EV/EBIT and a correct small-cap flag;
- the EV/EBIT, ROIC and magic rank columns each hold 1..N exactly once;
- the rows are in magic-score order;
- every estimate is 0 inside the top 30 and otherwise 0 or at most the
  current price;
- a company outside the top 30 that has shares, where some company holds the
  EV/EBIT rank it would need, gets the target price the code computes
  against that company, or 0 when that price is above its current price.

Modules:

- `Wrappers`: the `Option` type.
- `Seqs`: sequence helpers (search, filter, map, the sequence 1..N).
- `Percent`: the percentage text format and its parser.
- `RawTable`: the raw table, the header renaming, the percentage columns and the EV/EBIT filter.
- `Rows`: the company row, the valuation chain and the small-cap flag.
- `Metadata`: the ticker cache.
- `Dates`: the date rewrite and the cutoff.
- `Ranking`: sorting and rank columns.
- `TopThirty`: the top-30 price estimate.
- `Pipeline`: the stages as table functions and the whole-run properties.
- `Scraper`: the scraper object.

Inputs that are not part of the table become parameters:

- the ticker detail fetch is `fetch: string -> TickerInfo`;
- the cache file contents are `cache`;
- today's date is `year` and `month`;
- the table read from the listing page is `raw`.

A run that would raise in the source returns `None` (or `ok == false`).
This covers:

- a column the source reads outside any error handling that is missing or repeated;
- a cell in such a column that is not a number;
- a last-quote date with fewer than three parts;
- a table without a 30th row.

The cases where the model aborts and the source does not are listed under
"Left out".

Three behaviours of the code are kept as written:

- A last-quote date with fewer than three '/'-separated parts raises
  `IndexError` in the row function (scrapper.py:286-289), outside any error
  handling, so the whole run stops. The model's run fails there too.
- `sort_values` (scrapper.py:250, 260, 279) is not a stable sort, so the
  model promises nothing about the order of rows with equal keys.
- The estimate computes net debt as market value minus enterprise value
  (scrapper.py:332). The pipeline's estimate column uses this sign. The
  estimate with the sign corrected is modelled beside it and reported under
  Findings.

## Model

| member | source | states |
|---|---|---|
| Scraper.FundamentusScraper.RunAll | fundamentus_crawler/scrapper.py:84-97 | the stages in `main` order. The run succeeds exactly when the pure pipeline `Run` does. The table is then `Run`'s result and the cache is the old cache plus an entry for every kept ticker. The table meets `RunOutcome`: at least 30 rows, screened rows, rank columns 1..N once each, magic order, estimates 0 in the top 30 and otherwise bounded by the price, and the target price as the code computes it wherever the target rank is held |
| Scraper.FundamentusScraper.Prepare | fundamentus_crawler/scrapper.py:85-93 | setup, metadata, valuation, staleness filter and small-cap flag. Succeeds exactly when `Prepared` does and leaves its table; the cache is the merged cache |
| Scraper.FundamentusScraper.RankAndEstimate | fundamentus_crawler/scrapper.py:94-97 | the three rankings then the estimate column as the code computes it. Fails exactly when the ranked table has no 30th row; the cache is unchanged |
| Scraper.FundamentusScraper.constructor | fundamentus_crawler/scrapper.py:80-82 | the scraper starts with an empty table and an empty cache |
| Scraper.FundamentusScraper.Setup | fundamentus_crawler/scrapper.py:112-132 | the cache becomes the loaded one. Succeeds exactly when `SetupRows` does, leaving its rows; on failure the model leaves the table as it was, unlike the source, which keeps its partial rename and parse (see "Left out") |
| RawTable.ParsePercentageFields | fundamentus_crawler/scrapper.py:115-130 | the loop over the six percentage columns. Succeeds exactly when each of the six columns exists once and every cell in it reads as a percentage. Each row is then `ParsedRow`: the percentage cells replaced by their numbers, every other cell unchanged |
| RawTable.ParsePercentageColumn | fundamentus_crawler/scrapper.py:115-117 | one column parsed. Succeeds exactly when the column exists once and all its cells parse; only that column's cells change |
| RawTable.NormalisedTable | fundamentus_crawler/scrapper.py:122-130 | succeeds exactly when all six columns parse; keeps the columns and the row count |
| RawTable.ParseStep | fundamentus_crawler/scrapper.py:129-130 | parsing the next column of the list extends the parsed prefix of columns by one |
| RawTable.ParseStepFails | fundamentus_crawler/scrapper.py:129-130 | a column that fails to parse part-way means the whole table does not normalise |
| RawTable.ParsedAll | fundamentus_crawler/scrapper.py:129-130 | once all six columns are parsed, the table is the normalised table |
| RawTable.PercentageFieldsDistinct | fundamentus_crawler/scrapper.py:122-127 | the six percentage columns are six different names |
| Percent.FormatParseRoundTrip | fundamentus_crawler/scrapper.py:116-117 | parsing a locale-formatted percentage gives back its value, for every sign, every whole part (with '.' thousands groups) and every ',' fraction |
| Percent.FormattedText | fundamentus_crawler/scrapper.py:116-117 | strip '%', delete '.', replace ',' by '.' turns a formatted percentage into sign, whole digits, '.', fraction digits |
| Percent.ParseUnsignedDecimal | fundamentus_crawler/scrapper.py:117 | `astype(float)` on "digits.digits" gives the decimal value |
| Percent.ParseSigned | fundamentus_crawler/scrapper.py:117 | a leading '-' negates the parsed value |
| Percent.DeleteGroupSeparators | fundamentus_crawler/scrapper.py:116 | deleting '.' from a grouped number leaves its digits |
| Percent.StripFormatted | fundamentus_crawler/scrapper.py:116 | `strip('%')` removes exactly the trailing '%' of a formatted value |
| Percent.ReplaceFormatted | fundamentus_crawler/scrapper.py:116-117 | replacing ',' by '.' turns the decimal comma into a decimal point and touches nothing else |
| Percent.ParseExample | fundamentus_crawler/scrapper.py:115-117 | "12,3%" parses to 12.3 |
| Percent.StripLeading | fundamentus_crawler/scrapper.py:116 | removes exactly the leading run of the character |
| Percent.StripTrailing | fundamentus_crawler/scrapper.py:116 | removes exactly the trailing run of the character |
| Percent.DeleteChar | fundamentus_crawler/scrapper.py:116 | the result holds every character of the input except the deleted one |
| RawTable.RenameColumns | fundamentus_crawler/scrapper.py:119-120 | every header is renamed through the table of canonical names, headers without an entry are kept; the rows are untouched |
| RawTable.RenameIdempotent | fundamentus_crawler/scrapper.py:43-77 | renaming twice is renaming once: no canonical name is itself a page header |
| RawTable.CanonicalNamesAreNotHeaders | fundamentus_crawler/scrapper.py:43-77 | no canonical column name is a key of the renaming table |
| RawTable.ColumnIndex | fundamentus_crawler/scrapper.py:116 | a column is found exactly when its name heads exactly one column, and then at that position |
| RawTable.FilterPositiveEvEbit | fundamentus_crawler/scrapper.py:132 | succeeds exactly when the EV/EBIT column exists once and is numeric; keeps the rows whose EV/EBIT is positive |
| RawTable.FilterPositiveEvEbitKeeps | fundamentus_crawler/scrapper.py:132 | a row is kept exactly when its EV/EBIT is positive, and kept rows stay in order |
| Rows.ToRows | fundamentus_crawler/scrapper.py:132 | every raw row is read as a company row, or the run fails; row i of the result is row i read |
| Rows.NumberAt | fundamentus_crawler/scrapper.py:190 | the cell of the named column, when the column exists once and holds a number |
| Pipeline.SetupRows | fundamentus_crawler/scrapper.py:112-132 | setup keeps at most the raw rows, and every kept row has EV/EBIT > 0 |
| Pipeline.KeptRowsPositive | fundamentus_crawler/scrapper.py:132 | every row read from the filtered table has a positive EV/EBIT |
| Scraper.FundamentusScraper.GetTicker | fundamentus_crawler/scrapper.py:145-161 | answers a cached ticker from the cache, else stores and returns the fetched five-field entry; the cache gains exactly that entry |
| Metadata.TickerData | fundamentus_crawler/scrapper.py:152-158 | a fetched entry has exactly the five fields, each from the fetched record |
| Scraper.FundamentusScraper.GetRowValue | fundamentus_crawler/scrapper.py:163-170 | the field of the row's ticker entry, or "" when the entry lacks it; the cache gains the row's ticker |
| Metadata.MetaField | fundamentus_crawler/scrapper.py:167-170 | the field when the entry has it, "" otherwise |
| Scraper.FundamentusScraper.MetadataColumn | fundamentus_crawler/scrapper.py:172-179 | `df.apply` over the rows: each value is the field of that row's entry in the cache as it was before the column, and the cache ends as the old cache merged with every row's ticker |
| Scraper.FundamentusScraper.RowValueInTurn | fundamentus_crawler/scrapper.py:172-173 | the lookup for row i after rows 0..i-1 gives what the lookup gave at the start, and extends the merge to row i |
| Scraper.FundamentusScraper.CrawlStockData | fundamentus_crawler/scrapper.py:143-185 | the four metadata columns are the fields of each row's entry in the original cache (`WithMetadata`); the cache is the old one plus every row's ticker |
| Scraper.ColumnOfMerged | fundamentus_crawler/scrapper.py:174-179 | a column read after an earlier pass equals the column the original cache gives: later passes fetch nothing new |
| Scraper.ColumnsAreMetadata | fundamentus_crawler/scrapper.py:181-184 | writing the four columns gives each row its cache entry's fields |
| Scraper.NextRowMerged | fundamentus_crawler/scrapper.py:163-165 | one more row looked up extends the merged cache by that row's ticker |
| Metadata.MergedCache | fundamentus_crawler/scrapper.py:145-161 | the cache after a pass holds the old keys plus every looked-up name, and old entries unchanged |
| Metadata.MergeIdempotent | fundamentus_crawler/scrapper.py:145-161 | looking the same names up a second time leaves the cache as it is |
| Metadata.MergeAppend | fundamentus_crawler/scrapper.py:145-161 | looking up one more name after a pass is the pass over the longer list |
| Metadata.EntryForStable | fundamentus_crawler/scrapper.py:146-148 | once a ticker has an entry, lookups return that entry |
| Metadata.FieldSource | fundamentus_crawler/scrapper.py:145-170 | an uncached ticker gets the fetched sector, sub-sector, name and date; a cached one gets the cached fields |
| Pipeline.MetadataSource | fundamentus_crawler/scrapper.py:172-184 | each row's four metadata columns come from the fetch for uncached tickers and from the cache otherwise |
| Pipeline.WithMetadata | fundamentus_crawler/scrapper.py:172-184 | one row out per row in, each with its entry's metadata |
| Pipeline.RowWithMetadata | fundamentus_crawler/scrapper.py:181-184 | only the four metadata fields of the row change |
| Scraper.FundamentusScraper.SetValorMercadoColumn | fundamentus_crawler/scrapper.py:187-196 | every row gets market value = P/VP times net equity; the cache is unchanged |
| Scraper.FundamentusScraper.SetNumeroAcoesColumn | fundamentus_crawler/scrapper.py:198-209 | every row gets its share count; the cache is unchanged |
| Scraper.FundamentusScraper.SetEbitColumn | fundamentus_crawler/scrapper.py:211-222 | every row gets its EBIT; the cache is unchanged |
| Scraper.FundamentusScraper.SetValorFirmaColumn | fundamentus_crawler/scrapper.py:224-235 | every row gets its enterprise value; the cache is unchanged |
| Rows.NumeroAcoes | fundamentus_crawler/scrapper.py:199-203 | share count times price is the market value; 0 when the price is 0 |
| Rows.Ebit | fundamentus_crawler/scrapper.py:212-216 | EBIT times P/EBIT is price times share count; 0 when P/EBIT or the share count is 0 |
| Rows.ValuationChain | fundamentus_crawler/scrapper.py:187-235 | after the four stages, market value = P/VP times equity, shares times price = market value, EBIT times P/EBIT = market value, enterprise value = EBIT times EV/EBIT; a zero price or P/EBIT zeroes what depends on it |
| Pipeline.ValuationStages | fundamentus_crawler/scrapper.py:88-91 | the four column stages in order compute the valuation chain on every row |
| Scraper.FundamentusScraper.RemoveOldTickers | fundamentus_crawler/scrapper.py:284-310 | succeeds exactly when every date splits into three parts and the cutoff exists; the table becomes `RemoveOld`'s result and the cache is unchanged |
| Dates.Split | fundamentus_crawler/scrapper.py:286 | at least one piece, and no piece contains the separator |
| Dates.SplitJoin | fundamentus_crawler/scrapper.py:286 | joining the pieces gives the string back |
| Dates.ReformatDate | fundamentus_crawler/scrapper.py:285-290 | fails exactly when the date has fewer than three '/' pieces |
| Dates.ReformatDateText | fundamentus_crawler/scrapper.py:285-290 | "DD/MM/YYYY" becomes "YYYY-MM-DD" |
| Dates.MinimumDate | fundamentus_crawler/scrapper.py:297-300 | the first of the current month outside January, 1 December of the year before in January, missing exactly in January of year 1. Every date before it is before the first of the current month |
| Dates.PadOrder | fundamentus_crawler/scrapper.py:306 | zero-padded numbers compare as strings the way the numbers compare |
| Dates.StrLessConcat | fundamentus_crawler/scrapper.py:305-306 | string order on equal-length prefixes: prefix first, then the rest |
| Dates.IsoOrder | fundamentus_crawler/scrapper.py:305-306 | ISO date strings compare as the dates do |
| Dates.RecentIffAfterCutoff | fundamentus_crawler/scrapper.py:284-306 | a quote date in listing form is kept exactly when it is strictly after the cutoff |
| Dates.JanuaryGracePeriod | fundamentus_crawler/scrapper.py:297-298 | on a January run of 2024 the cutoff is 1 December 2023, and a 5 January quote is kept |
| Pipeline.ReformatDates | fundamentus_crawler/scrapper.py:285-293 | succeeds exactly when every row's date reformats; each row gets its rewritten date and nothing else changes |
| Pipeline.RemoveOld | fundamentus_crawler/scrapper.py:284-310 | succeeds exactly when all dates reformat and the cutoff exists; never adds rows |
| Pipeline.StaleRowsDropped | fundamentus_crawler/scrapper.py:304-306 | a row survives, with its ISO date, exactly when its quote date is after the cutoff |
| Pipeline.RemoveOldKeepsPositive | fundamentus_crawler/scrapper.py:304-306 | every row left by the staleness filter still has a positive EV/EBIT |
| Scraper.FundamentusScraper.SetSmallCapColumn | fundamentus_crawler/scrapper.py:237-247 | every row gets its small-cap flag; the cache is unchanged |
| Rows.IsSmallCap | fundamentus_crawler/scrapper.py:238-241 | small cap exactly when net equity is at most 300,000,000.00 |
| Rows.SmallCapBoundary | fundamentus_crawler/scrapper.py:239 | net equity of exactly 300,000,000.00 is small cap |
| Scraper.FundamentusScraper.SetEvEbitRanking | fundamentus_crawler/scrapper.py:259-267 | the table becomes `RankByEvEbit` of it; the cache is unchanged |
| Scraper.FundamentusScraper.SetRoicRanking | fundamentus_crawler/scrapper.py:249-257 | the table becomes `RankByRoic` of it; the cache is unchanged |
| Scraper.FundamentusScraper.SetMagicRanking | fundamentus_crawler/scrapper.py:269-282 | the table becomes `RankByMagic` of it; the cache is unchanged |
| Ranking.RankByEvEbit | fundamentus_crawler/scrapper.py:259-267 | the rows sorted by ascending EV/EBIT, rank i+1 at position i, and apart from the rank column a permutation of the input |
| Ranking.RankByRoic | fundamentus_crawler/scrapper.py:249-257 | the rows sorted by descending ROIC, rank i+1 at position i, a permutation of the input apart from the rank |
| Ranking.RankByMagic | fundamentus_crawler/scrapper.py:269-282 | every row's magic score is its EV/EBIT rank plus its ROIC rank; rows sorted by ascending score with magic rank i+1 at position i; a permutation of the scored input |
| Ranking.WithMagicValue | fundamentus_crawler/scrapper.py:270-278 | sets the score to the sum of the two ranks and changes nothing else |
| Ranking.RankBy | fundamentus_crawler/scrapper.py:250-255 | sorted by the key, rank i+1 at position i, and a permutation of the input once the rank column is set aside |
| Ranking.SortIsSorted | fundamentus_crawler/scrapper.py:260 | the sort orders the rows by the key |
| Ranking.SortPermutes | fundamentus_crawler/scrapper.py:260 | the sort keeps every row, as a multiset |
| Ranking.InsertSorted | fundamentus_crawler/scrapper.py:260 | inserting into a sorted list keeps it sorted |
| Ranking.InsertPermutes | fundamentus_crawler/scrapper.py:260 | inserting adds exactly the one row |
| Ranking.SortSorted | fundamentus_crawler/scrapper.py:260 | sorting an already sorted table changes nothing |
| Ranking.RankByIdempotent | fundamentus_crawler/scrapper.py:259-267 | ranking an already ranked table changes nothing |
| Ranking.FirstRankedIsBest | fundamentus_crawler/scrapper.py:259-267 | the row ranked 1 has the best key of all rows |
| Ranking.RankedRowsAreInputRows | fundamentus_crawler/scrapper.py:259-267 | every ranked row is an input row with a new rank |
| Ranking.ScoresSurviveRanking | fundamentus_crawler/scrapper.py:278-280 | sorting by score keeps every row's score equal to its rank sum |
| Ranking.PositionalUnranked | fundamentus_crawler/scrapper.py:263-265 | writing the rank column changes nothing else |
| Pipeline.RankedColumnsArePermutations | fundamentus_crawler/scrapper.py:94-96 | after the three rankings, the EV/EBIT and ROIC rank columns still hold 1..N exactly once |
| Pipeline.RankedGuarantees | fundamentus_crawler/scrapper.py:94-96 | the ranked table is screened, magic-ranked 1..N in score order, with distinct EV/EBIT and ROIC ranks in 1..N |
| Pipeline.RankKeepsScreened | fundamentus_crawler/scrapper.py:249-282 | ranking keeps positive EV/EBIT and correct small-cap flags |
| Seqs.PermutationOfOneTo | fundamentus_crawler/scrapper.py:253-255 | a permutation of 1..N holds each of 1..N exactly once |
| Scraper.FundamentusScraper.GetCotacaoToTopColumn | fundamentus_crawler/scrapper.py:312-349 | fails exactly when no row holds magic rank 30; otherwise the table becomes `CotacaoToTopColumn` of it, the estimate as the code computes it |
| TopThirty.TopScore | fundamentus_crawler/scrapper.py:314-315 | missing exactly when no row has magic rank 30; otherwise the score of such a row |
| TopThirty.TargetPrice | fundamentus_crawler/scrapper.py:333-336 | at the target price, shares times price plus net debt is EBIT times the target multiple |
| TopThirty.EstimateWith | fundamentus_crawler/scrapper.py:317-343 | 0 for a row in the top 30, for a target rank below 1, when no row holds the target rank, and for a row without shares. Otherwise, with `j` the first row at the target rank (`.iloc[0]`), the estimate is the target price against row `j` when that is at most the current price, and 0 when it is above |
| TopThirty.CotacaoToTopAsWritten | fundamentus_crawler/scrapper.py:317-343 | the estimate as the code computes it, with net debt = market value - enterprise value. It is 0 in the top 30, otherwise the target price against the first row at the target rank, or 0 above the current price. At a nonzero estimate the target is missed by twice the real net debt |
| TopThirty.CotacaoToTop | fundamentus_crawler/scrapper.py:317-343 | the estimate with net debt = enterprise value - market value, with the same cases. At a nonzero estimate, market value plus net debt is EBIT times the target row's EV/EBIT |
| TopThirty.BarRowKeepsItsPrice | fundamentus_crawler/scrapper.py:322-341 | the row setting the bar, with consistent valuation fields, is estimated at its current price |
| TopThirty.BarRowAsWrittenHalvesPrice | fundamentus_crawler/scrapper.py:332-336 | as written, the net-cash row at the bar is estimated at 10.0 although its price is 20.0 |
| TopThirty.BarRowCorrectedKeepsPrice | fundamentus_crawler/scrapper.py:332-336 | with the corrected sign the same row is estimated at its price |
| TopThirty.NetCashBarRowIsValued | fundamentus_crawler/scrapper.py:187-235 | the example row's valuation fields are the ones the chain computes |
| TopThirty.CotacaoToTopColumn | fundamentus_crawler/scrapper.py:312-348 | fails exactly when there is no 30th row (line 314 raises). Otherwise every row gets the estimate as the code computes it against the score of the 30th row, and nothing else changes; 0 in the top 30, else 0 or at most the price |
| TopThirty.BarRowColumnAsWritten | fundamentus_crawler/scrapper.py:312-348 | the pipeline's estimate column asks the net-cash company at the 30th place for 10.0, half its price |
| Pipeline.EstimateColumnShape | fundamentus_crawler/scrapper.py:345-348 | the estimate column writes one field per row |
| Pipeline.EstimatesKeepRanking | fundamentus_crawler/scrapper.py:345-348 | adding the estimates keeps every ranking guarantee, and the estimates are 0 in the top 30 and otherwise 0 or at most the price |
| Pipeline.EstimatesArePriced | fundamentus_crawler/scrapper.py:312-348 | in a ranked table with a 30th row, each row outside the top 30 that has shares, facing the row `j` that holds its target rank, is estimated at the target price against `j` (net debt as written), or 0 above its price |
| Pipeline.EstimateAt | fundamentus_crawler/scrapper.py:317-343 | one row of the estimate column meets that statement |
| Pipeline.UniqueRankFound | fundamentus_crawler/scrapper.py:329-330 | with distinct EV/EBIT ranks, the lookup `.iloc[0]` of a rank finds the one row holding it |
| Pipeline.RowEstimate | fundamentus_crawler/scrapper.py:319-341 | a row outside the top 30 whose target rank is held by row `j` is estimated at the target price against `j`, or 0 above its price |
| Pipeline.BarScore | fundamentus_crawler/scrapper.py:314-315 | in a table ranked 1..N by position, the bar is the score of the row at position 30 |
| Pipeline.TopRowExists | fundamentus_crawler/scrapper.py:314 | a table ranked 1..N has a 30th row only when N >= 30 |
| Pipeline.PreparedScreened | fundamentus_crawler/scrapper.py:85-93 | every row that reaches the rankings has a positive EV/EBIT and a correct small-cap flag |
| Pipeline.RunGuarantees | fundamentus_crawler/scrapper.py:84-97 | a completed run meets `RunOutcome`: at least 30 rows, the ranking guarantees, bounded estimates and estimates priced as the code computes them |
| Pipeline.Run | fundamentus_crawler/scrapper.py:84-97 | a completed run never has more rows than the raw table |

## Left out

- The listing page download and HTML parsing (`get_initial_data`): the raw table is a parameter.
- The ticker detail page scraper: `fundamentus_crawler/ticker_scrapper.py` is not part of this model. Its result is the function parameter `fetch`, assumed deterministic.
- Loading the cache file (`get_initial_ticker_dict`) and writing results (`save_results`): the cache contents are a parameter, and the results are the final table.
- The console output of every stage.
- Today's date: the run takes the year and month as parameters.
- Floating point: numbers are exact reals, with no rounding or overflow. A zero divisor is not a gap. `apply(..., axis=1)` over columns of mixed types hands each row function an object-dtype row, so its cells are Python floats. Dividing one by 0.0 raises `ZeroDivisionError`, and the bare `except` returns 0 (scrapper.py:199-203, 212-216, 317-343). `Rows.NumeroAcoes`, `Rows.Ebit` and `TopThirty.EstimateWith` give that same 0.
- Scraper.FundamentusScraper.Setup: on failure the model leaves the table as it was. By the time `astype(float)` raises, the source has already renamed the headers and written the percentage columns parsed so far into `self.df` (scrapper.py:119-130). Nothing reads that partial state, because the run stops there.
- Rows.ToRows: a listing without a `cotacao` or `pByEbit` column, or with text in one of them, aborts the run here. The source reads those two columns only inside `try`/`except` (scrapper.py:199-203, 212-216, 317-343) and completes with share count, EBIT and estimate 0. The model reads both columns when it builds the rows.
- RawTable.ParsePercentageFields: a number cell in a percentage column aborts the run here. When the column also holds text, pandas' `.str` accessor turns that cell into NaN and the run goes on. NaN is not modelled.
- Percent.ParsePercentage: the text forms that Python's `float()` also accepts (exponents, "inf", "nan", surrounding spaces, '_' digit groups) are not modelled. Such a cell fails to parse and aborts the run.
- A text cell in a numeric column, or a repeated column name, aborts the run. pandas may coerce the value or return a sub-table there.
- The order of rows with equal keys after each sort: `sort_values` does not promise one.
- The constants `VALOR_FIRMA` and the second `VALOR_MERCADO` are one-element tuples in the source, so those columns get tuple names. The model uses plain column names, which changes only the output headers.
- The class-level `df` and `ticker_dict`, shared between instances in the source, are instance fields here.
- The cutoff for a run in January of year 1 does not exist, and the run then fails. The source raises there.

## Findings

| source | as written | input that shows it | evidently intended | confidence | as-written member | corrected member |
|---|---|---|---|---|---|---|
| fundamentus_crawler/scrapper.py:332-334 | net debt is market value - enterprise value, subtracted from the target market value | `NetCashBarRow`, the row ranked 30th: market value 200, enterprise value 150, 10 shares at 20.0, EV/EBIT 15. It is asked for 10.0 to reach the place it holds | net debt = enterprise value - market value, so that target market value + net debt = EBIT × target EV/EBIT; the same row is then asked for its own price of 20.0 | medium, not executed | TopThirty.BarRowColumnAsWritten | TopThirty.BarRowCorrectedKeepsPrice |
