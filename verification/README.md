# A-share data collection core, in Dafny

This project models the record-level core of a Python system that collects
A-share (Chinese mainland stock market) data: stock lists, Shenwan industry
classifications, two report years of financial figures and non-operating
real-estate assets. It then proves properties of that model. Everything
between the web scrapers and the storage layer is modelled as pure functions
over sequences, sets and maps, with a few methods whose loops carry
invariants. The modules are:

- `IndustryFetcher` (industry_fetcher.dfy): the multi-source industry
  classifier. It covers the validity rules for cached and fetched
  classifications and the keyword inference of the first-level Shenwan
  industry. It also covers the weighted source order, the single-stock lookup
  with its cache and failure memo, and the batch lookup with the
  industry-board mapping.
- `CompleteGetter` (complete_getter.dfy): the round-based classifier. Each
  enabled source, by priority, gets one round over the codes still pending.
  It covers the interrupt flag, the per-source counters and the fallback fill.
- `DataValidator` (validator.dfy) and `DataDeduplication` (deduplication.dfy):
  the checks on codes, names, values and industry records, and the cleaners.
  They also cover first-wins de-duplication, the priority-ordered industry
  merge and the larger-value financial merge.
- `DataPipeline` (pipeline.dfy): stock validation, record cleaning,
  de-duplication, coverage statistics and the final status of the
  processing pipeline.
- `FinancialQuery` (query.dfy): turning typed input into query parameters.
  It covers stock codes, report dates, the subject, unit and market, the
  query errors, and the table `execute_query` builds.
- `SinaStockList` (sina.dfy): code normalisation, the listing paging loop, the
  quality check, the success rate and the first-digit distribution of the
  Sina stock-list fetcher, and `verify_all`.
- `RealEstateCollector` (realestate.dfy): the source order, the limit on the
  stock list and the cleaning pass of the real-estate collector.
- `CacheMetadata` (cache_metadata.dfy) and `CacheStore` (cache_store.dfy): the
  cache metadata document with its TTL/version freshness test, the record
  normalisers of the stock and industry stores, their in-memory state, and
  the code-prefix search.
- `LocalStorage` (local_storage.dfy): the rows the SQLite backup writes, the
  records the restore reads back, and the CSV header rule.
- `Checkpoints` (checkpoint.dfy): which checkpoint is the latest, resuming and
  clearing, the change analysis between two runs, and the append-only
  version log.
- `ConcurrentFetcher` (concurrent.dfy): per-source success counters, the
  success-rate filter, and the summary and rows of a concurrent run.
- `QualityMonitor` (quality.dfy): the four component scores, the weighted
  overall score with its grade ladder, and the monitor's thresholds.
- Shared modules: `Wrappers` (Option/Result), `Records` (Python values and
  dictionaries), `Text` (Python string operations), `Ordering` (string
  order and stable sorting), `Seqs` (search, filter, de-duplication) and
  `Calendar` (Gregorian dates, `strptime`/`strftime` for the three formats
  used).

The outside world enters as parameters:
- every HTTP data source is a function from a stock to a result or nothing;
- the clock is given as a number of seconds or a date and its ISO text;
- `float()` on text, `datetime.fromisoformat`, `int()` on a JSON value and
  `str()` of a float are partial functions passed in;
- the cache files are values (a missing, unreadable, non-object or object
  file);
- a SQLite table is the sequence of its rows;
- the interrupt flag is the index of the first check that sees it set.

Python floats are modelled as Dafny reals.

## Model

| member | source | states |
|---|---|---|
| CacheMetadata.ParseIso | local_cache/metadata.py:17-27 | a falsy value, a non-string and text `fromisoformat` rejects give no time; otherwise the instant the stamp denotes, a naive stamp read as UTC |
| CacheMetadata.NaiveIsUtc | local_cache/metadata.py:22-24 | a naive stamp is the same instant as the same reading marked UTC, and an offset moves the instant back by that offset |
| CacheMetadata.Defaults | local_cache/metadata.py:50-57 | the created document has no store entries, the default version as `cache_version` and the configured ttl as `ttl_seconds` |
| CacheMetadata.Normalize | local_cache/metadata.py:69-72 | every member other than `stores` is kept; `stores` reads as `{}` when missing or not an object and as the stored object otherwise |
| CacheMetadata.LoadAsWrittenNeverReturns | local_cache/metadata.py:61-74 | for an existing unreadable or non-object file, `load` as written (re-entered through `ensure_exists`) returns no document at any depth |
| CacheMetadata.LoadAsWrittenAgrees | local_cache/metadata.py:61-74 | for a missing file or one holding an object, `load` as written returns the corrected `Load`'s document |
| CacheMetadata.Load | local_cache/metadata.py:61-74 | corrected `load`: the defaults when the file is missing, unreadable or not an object; the normalised object otherwise; never a `stores` member among the others |
| CacheMetadata.LoadResult | local_cache/metadata.py:61-74 | what `load` as written hands its callers: nothing exactly for an unreadable or non-object file, the corrected document otherwise |
| CacheMetadata.LoadResultAsWritten | local_cache/metadata.py:46-74 | `LoadResult` equals `load` as written at every recursion depth |
| CacheMetadata.LoadSaved | local_cache/metadata.py:61-79 | a document saved and loaded again comes back unchanged (round trip) |
| CacheMetadata.NewVersion | local_cache/metadata.py:83 | the given version when truthy, else the stored `cache_version` when truthy, else the default |
| CacheMetadata.UpdateStore | local_cache/metadata.py:81-94 | nothing is written exactly when `load` does not return or `int()` rejects the stored ttl; otherwise the store's entry is the new one, every other store and every member except `cache_version`, `ttl_seconds` and `updated_at` are as loaded, and those three take the new version, the ttl and the current time |
| CacheMetadata.StampValue | local_cache/metadata.py:110-111 | a written entry gives its `updated_at`; a missing store gives the empty text |
| CacheMetadata.IsStoreFresh | local_cache/metadata.py:96-116 | no answer for an unreadable or non-object file or a ttl `int()` rejects; false under another version; true exactly when `load` returns, the version matches, the store's stamp parses and at most `ttl` seconds have passed since it |
| CacheMetadata.UpdateThenFresh | local_cache/metadata.py:81-116 | right after `update_store` with version v and a UTC stamp t0, `is_store_fresh` under v answers `now - t0 <= ttl` |
| CacheMetadata.OtherVersionStale | local_cache/metadata.py:104-107 | after `update_store` with version v, `is_store_fresh` under any other version answers false |
| CacheStore.Or | local_cache/cache_store.py:195-199 | Python's `a or b`: `a` when truthy, `b` otherwise |
| CacheStore.CodeText | local_cache/cache_store.py:189 | `(code or "").strip()`: a falsy code gives the empty text, a string its stripped text, any other truthy value raises |
| CacheStore.NormalizeStocks | local_cache/cache_store.py:185-203 | raises exactly when some record has a truthy non-string code; otherwise a permutation of the entries of the non-blank codes, sorted by code, stable for equal codes |
| CacheStore.NormalizedStock | local_cache/cache_store.py:188-201 | an entry is kept exactly when some record with a non-blank code produces it, and every kept entry has a stripped code and defaulted fields |
| CacheStore.StockEntryStable | local_cache/cache_store.py:192-201 | a normalised entry read back as a row normalises to itself, whatever the clock says |
| CacheStore.KeptStocksStable | local_cache/cache_store.py:185-203 | normalised entries read back keep every entry, in order, and none of them raises |
| CacheStore.NormalizeStocksIdempotent | local_cache/cache_store.py:185-203 | normalising an already normalised list gives it back (idempotence) |
| CacheStore.NormalizeIndustriesBy | local_cache/cache_store.py:299-314 | raises exactly when some item's code raises or a kept code's value is not a dictionary |
| CacheStore.IndustryCodes | local_cache/cache_store.py:302-306 | a code is kept exactly when some item has it as its non-blank stripped code |
| CacheStore.IndustriesLastWins | local_cache/cache_store.py:302-313 | a kept code holds the entry built from the last item stored under it |
| CacheStore.IndustryEntryStable | local_cache/cache_store.py:306-313 | a normalised industry entry read back normalises to itself |
| CacheStore.IndustryItemsStable | local_cache/cache_store.py:299-314 | normalising the items of a normalised mapping keeps exactly its codes with their entries |
| CacheStore.NormalizeIndustriesIdempotent | local_cache/cache_store.py:299-314 | normalising an already normalised mapping gives it back, whatever order its items come in |
| CacheStore.StockTable | local_cache/cache_store.py:212-232 | the table holds a row exactly for each saved code, under that code, and a code saved once holds its entry |
| CacheStore.StocksFromTable | local_cache/cache_store.py:205-210 | as many rows as the table holds |
| CacheStore.SavedStocksReadBack | local_cache/cache_store.py:205-232 | entries saved with strictly increasing codes are read back unchanged, in order (round trip) |
| CacheStore.Load | local_cache/cache_store.py:74-96 | a loaded store returns its memory; otherwise no answer when the freshness check raises, empty data when stale, and the pickle snapshot (else the database) when fresh or forced; the memory afterwards holds what was returned |
| CacheStore.LoadTwice | local_cache/cache_store.py:74-76 | a second `load` without `force` returns what the first did, whatever the files say |
| CacheStore.SaveNormalized | local_cache/cache_store.py:123-139 | the save fails exactly when `update_store` does; the memory holds the data and the metadata holds the store's new entry |
| CacheStore.SaveStocks | local_cache/cache_store.py:107-139 | fails when normalising raises or when `_save_to_db` cannot bind a field of a kept entry (a non-empty dictionary); after a save the memory holds the normalised list, every field bindable, and the entry records its length |
| CacheStore.PlainStocksBind | local_cache/cache_store.py:185-231 | records without dictionary values normalise to entries whose every bound field can be bound |
| CacheStore.DictNameBlocksSave | local_cache/cache_store.py:123-139 | a kept record whose name is a non-empty dictionary makes the whole save fail, before the metadata and memory update |
| CacheStore.SaveIndustries | local_cache/cache_store.py:316-317 | fails when normalising raises or when `_save_to_db` cannot bind a field of an entry; after a save the memory holds the normalised mapping, every field bindable, and the entry records its number of codes |
| CacheStore.SaveThenLoad | local_cache/cache_store.py:74-139 | after a save, `load` without `force` returns the saved normalised list, whatever the files and the clock say |
| CacheStore.SaveThenFresh | local_cache/cache_store.py:67-72 | a save under the configured version leaves the store fresh for exactly `ttl_seconds` after the recorded time |
| CacheStore.SaveOtherVersionStale | local_cache/cache_store.py:67-72 | a save under another explicit version leaves the store stale |
| CacheStore.LikePrefix | local_cache/cache_store.py:253-259 | without wildcards in the prefix, `prefix%` selects exactly the codes starting with the prefix, ASCII case ignored |
| CacheStore.Take | local_cache/cache_store.py:261 | `LIMIT n` keeps the first n, all of them when n is negative or too large |
| CacheStore.MatchingCodes | local_cache/cache_store.py:253-264 | matching codes only, ascending, at most `limit`, and a matching code is left out only when `limit` smaller ones were taken |
| CacheStore.TakeSmallest | local_cache/cache_store.py:260-261 | the first `limit` of a set in ascending order are its smallest elements |
| CacheStore.SearchCodes | local_cache/cache_store.py:247-265 | no answer exactly when the freshness check raises; nothing from a stale store or for a blank prefix; otherwise the matching codes |
| CacheStore.SearchStocks | local_cache/cache_store.py:247-265 | the rows under the matching codes, in code order |
| CacheStore.AutocompleteStocks | local_cache/cache_store.py:267-268 | the codes of the searched rows, which for rows under their own codes are exactly the matching codes |
| CacheStore.SearchIndustries | local_cache/cache_store.py:379-402 | the matching codes paired with their entries, in code order |
| CacheStore.AutocompleteIndustries | local_cache/cache_store.py:404-405 | the keys of the search result are the matching codes, in order |
| CacheStore.GetByCode | local_cache/cache_store.py:234-245 | a row exactly when the store is fresh, the stripped code is not blank and the table has it, and then the row under that code |
| Checkpoints.CheckpointFile | checkpoint_manager.py:40-43 | the checkpoint's file name starts with `checkpoint_<stage>_` |
| Checkpoints.CheckpointContent | checkpoint_manager.py:45-49 | the saved document has exactly the members `stage`, `timestamp` and `progress` |
| Checkpoints.PartialNotCheckpoint | checkpoint_manager.py:69-72 | a partial-result file never passes for a checkpoint of any stage |
| Checkpoints.LatestFile | checkpoint_manager.py:93-101 | none exactly when no file of the stage exists; otherwise a file of the stage that no other file of the stage sorts after |
| Checkpoints.GetLatestCheckpoint | checkpoint_manager.py:82-112 | `None` when the stage has no checkpoint; a returned document is what some file of the stage holds, and the stage's latest file's contents (or `None` when it cannot be read) are returned |
| Checkpoints.ResumeFromCheckpoint | checkpoint_manager.py:114-128 | with the stage's latest checkpoint file: its `progress` (`None` when it has none) when it carries `timestamp`; `None` when there is no checkpoint, it cannot be read or it is empty; a failure (the `KeyError` on `timestamp`) exactly for a non-empty checkpoint without `timestamp` |
| Checkpoints.LaterStampLaterFile | checkpoint_manager.py:42 | a later `%Y%m%d_%H%M%S` stamp names a later-sorting file of the same stage |
| Checkpoints.SaveThenResume | checkpoint_manager.py:31-128 | a checkpoint saved after every earlier one of its stage is what resuming returns: its progress |
| Checkpoints.ClearCheckpoints | checkpoint_manager.py:130-150 | with a stage, exactly the files that are not its checkpoints remain; without one (or an empty one), none remains |
| Checkpoints.ClearThenResume | checkpoint_manager.py:114-145 | after clearing a stage there is nothing to resume from |
| Checkpoints.StagePrefixOverlap | checkpoint_manager.py:93-94 | a `stock_list` checkpoint also carries the prefix of stage `stock`, so selection by prefix mixes the two stages |
| Checkpoints.CodesOf | checkpoint_manager.py:188-189 | a code is in the set exactly when some stock has it |
| Checkpoints.CompareStocks | checkpoint_manager.py:177-209 | new and unchanged codes partition the current codes, delisted and unchanged the previous ones; new codes are not previous, delisted ones not current; the counts are the sizes; the details are the current stocks with new codes, in order |
| Checkpoints.CompareStocksCounts | checkpoint_manager.py:192-206 | new plus unchanged counts the distinct current codes, delisted plus unchanged the distinct previous ones |
| Checkpoints.PreviousMap | checkpoint_manager.py:221-224 | fails (the `KeyError`) exactly when some previous item has no `code`; otherwise each key holds an item with that code |
| Checkpoints.PreviousMapLastWins | checkpoint_manager.py:221-224 | a code is a key exactly when some previous item has it, and then it holds the last such item |
| Checkpoints.PreviousMapKeys | checkpoint_manager.py:221-224 | the keys are exactly the previous codes |
| Checkpoints.Classify | checkpoint_manager.py:229-258 | unchanged exactly when the code is known and neither year's `non_op_real_estate` value differs; new exactly when the code is unknown |
| Checkpoints.ClassifyAll | checkpoint_manager.py:229-258 | every item counted once, as a change or as unchanged, and the changes are exactly the items' classifications |
| Checkpoints.ClassifyAllInOrder | checkpoint_manager.py:229-258 | the changes and the unchanged codes are each item's classification, kept in input order |
| Checkpoints.ClassifiedPerItem | checkpoint_manager.py:229-258 | for any previous dictionary, a current item with an unknown code yields `New` with its details, and one with a known code yields `Updated` against the dictionary's item exactly when a compared year differs, otherwise its code is listed unchanged; every `New` code is unknown and every `Updated` pair differs; new and updated changes together are all changes |
| Checkpoints.CompareFinancialData | checkpoint_manager.py:211-266 | fails exactly when a previous item has no `code`; a current item whose code is not previous is reported new with its details, one whose 2023 or 2024 value differs from the last previous item with its code is reported updated with both items, and otherwise its code is listed unchanged; changes and unchanged codes keep the current order; updated plus unchanged counts every current item and new plus modified is the updated count |
| Checkpoints.RecordVersion | checkpoint_manager.py:364-383 | one entry appended with the version, the time and the metadata's `total_stocks` and `notes` (default empty), the history before it untouched |
| Checkpoints.GetLatestVersion | checkpoint_manager.py:389-393 | none exactly for an empty history; otherwise an entry of the history |
| Checkpoints.RecordedIsLatest | checkpoint_manager.py:364-393 | the version just recorded is the latest one |
| Calendar.DecimalString | financial_query_service.py:404 | the digits `%Y` writes for a year: non-empty, all digits, denoting the number |
| Calendar.Pad2 | financial_query_service.py:404 | the two digits `%m` and `%d` write: denoting the number |
| Calendar.Strptime | financial_query_service.py:403-415 | `strptime` gives a date only when the whole text matches the format and names a real calendar day |
| Calendar.StrptimeDashFields | financial_query_service.py:409-415 | `%Y-%m-%d` parses a laid-out four-digit year, month and day exactly when they form a real date, and then to that date |
| Calendar.StrptimeCompactFields | financial_query_service.py:401-404 | `%Y%m%d` parses the eight-digit layout of year, month and day exactly when they form a real date, and then to that date |
| Calendar.StrptimeRender | financial_query_service.py:409-415 | rendering a date with `%Y-%m-%d` and parsing it back gives the date (round trip, years 1000 and later) |
| Calendar.StrptimeRenderCompact | financial_query_service.py:401-404 | rendering with `%Y%m%d` and parsing back gives the date (round trip, years 1000 and later) |
| Calendar.StrptimeMonthFields | financial_query_service.py:409-414 | `YYYY-MM` fails under `%Y-%m-%d` and parses under `%Y-%m` to the first of the month |
| Calendar.StrptimeMonthOnLayout | financial_query_service.py:409-411 | `%Y-%m` rejects a full `YYYY-MM-DD` text (unconverted data remains) |
| FinancialQuery.Either | financial_query_service.py:255 | Python's `a or b` on a parameter: `a` when given and truthy, `b` otherwise |
| FinancialQuery.OrText | financial_query_service.py:269 | a non-empty text wins, otherwise the fallback |
| FinancialQuery.DropExchangePrefix | financial_query_service.py:368 | a leading `sh`, `sz` or `bj` in any ASCII case is removed, any other text kept |
| FinancialQuery.CleanToken | financial_query_service.py:362-370 | a kept token is exactly six digits |
| FinancialQuery.CleanTokens | financial_query_service.py:361-372 | no more codes than tokens, each six digits |
| FinancialQuery.ParseStockCodes | financial_query_service.py:352-372 | every code returned is six digits, and `None` gives none |
| FinancialQuery.CleanSixDigits | financial_query_service.py:362-370 | a six-digit code cleans to itself |
| FinancialQuery.CleanTokensSixDigits | financial_query_service.py:356-372 | a list of six-digit codes cleans to itself |
| FinancialQuery.ParseJoinedCodes | financial_query_service.py:352-372 | six-digit codes joined by any run of separators parse back to the same codes, in order (round trip) |
| FinancialQuery.NormalizeReportDate | financial_query_service.py:395-424 | a normalised report date is non-empty and holds no `/` |
| FinancialQuery.RenderNoSlash | financial_query_service.py:404 | `%Y-%m-%d` output is non-empty and holds no `/` |
| FinancialQuery.NormalizeRendered | financial_query_service.py:395-415 | a date already written `YYYY-MM-DD` normalises to itself (idempotence) |
| FinancialQuery.NoSpaceNoSlash | financial_query_service.py:396-408 | digits and dashes pass stripping and the `/` rewrite unchanged |
| FinancialQuery.NormalizeCompact | financial_query_service.py:400-406 | `YYYYMMDD` gives `YYYY-MM-DD` when it names a real date and nothing otherwise |
| FinancialQuery.NormalizeSlashed | financial_query_service.py:408-415 | `YYYY/MM/DD` normalises to `YYYY-MM-DD` |
| FinancialQuery.SlashedIsDashed | financial_query_service.py:396-408 | digit groups joined by `/` strip to themselves and read with `-` in place of `/` |
| FinancialQuery.NormalizeViaDash | financial_query_service.py:408-415 | ten characters that parse as `%Y-%m-%d` once `/` is read as `-` normalise to the date written `%Y-%m-%d` |
| FinancialQuery.NormalizeMonth | financial_query_service.py:409-415 | `YYYY-MM` gives the first day of the month, not its last as the nearby comment says |
| FinancialQuery.NormalizeImpossibleDay | financial_query_service.py:419-422 | `2024-02-30`-like text that `strptime` rejects passes through unchanged by the prefix rule |
| FinancialQuery.NormalizedTokens | financial_query_service.py:386-390 | no more dates than tokens, each non-empty without `/` |
| FinancialQuery.NormalizeReportDates | financial_query_service.py:375-392 | the dates are pairwise distinct, each non-empty without `/` |
| FinancialQuery.DedupSubsetKeys | financial_query_service.py:386-390 | a kept date is one of the normalised tokens |
| FinancialQuery.NormalizeReportDatesContents | financial_query_service.py:375-392 | a date is kept exactly when some token normalises to it, in first-occurrence order |
| FinancialQuery.InferMarket | financial_query_service.py:427-434 | Shanghai exactly for a leading `6`, Shenzhen for `0` or `3`, Beijing for `4` or `8`, unknown otherwise |
| FinancialQuery.SubjectsOf | financial_query_service.py:88 | the given options when there are any, otherwise the non-empty default list |
| FinancialQuery.LastWith | financial_query_service.py:89-90 | a lookup in a dictionary built by a comprehension: the LAST option satisfying the key (later entries overwrite earlier ones), none exactly when no option does |
| FinancialQuery.ResolveSubject | financial_query_service.py:342-349 | fails exactly when no option's key matches the upper-cased subject and no label equals it; otherwise the last option whose upper-cased key matches, and only when none does, the last option whose label equals the subject |
| FinancialQuery.ItemOf | financial_query_service.py:325-331 | the item carries the stripped listed code |
| FinancialQuery.InfoIndex | financial_query_service.py:321-331 | every indexed code is non-blank and its item carries that code |
| FinancialQuery.InfoIndexHas | financial_query_service.py:324-331 | a code is indexed exactly when it is non-blank and some stock-list entry lists it |
| FinancialQuery.InfoIndexLastWins | financial_query_service.py:324-331 | an indexed code holds the item of the last entry listing it |
| FinancialQuery.BuildStockItems | financial_query_service.py:313-340 | one item per code, in order, carrying that code; without enrichment or after a failed stock-list fetch the plain item; with enrichment the indexed item when there is one |
| FinancialQuery.SelectCodes | financial_query_service.py:282-292 | the selected codes are pairwise distinct and all of the chosen market |
| FinancialQuery.SelectCodesContents | financial_query_service.py:282-292 | a code is selected exactly when it was given and is of the market, in first-occurrence order |
| FinancialQuery.NormalizeParams | financial_query_service.py:254-311 | an accepted query has one to four report dates, a supported unit with its factor (1 or 10000), a supported market and one item per selected code; each rejection names the rule that failed |
| FinancialQuery.NormalizeParamsAccepts | financial_query_service.py:254-311 | a query is accepted exactly when the subject is given and resolves, there are one to four dates, the unit and market are supported and some code survives the market filter |
| FinancialQuery.ColumnOrder | financial_query_service.py:161-170 | the three fixed columns, then one header per report date in order |
| FinancialQuery.ColumnsDistinct | financial_query_service.py:161-207 | distinct report dates give pairwise distinct column names |
| FinancialQuery.HeaderInjective | financial_query_service.py:168 | a value column's name determines its report date |
| FinancialQuery.HeaderNotFixed | financial_query_service.py:162-168 | a value column never collides with a fixed column |
| FinancialQuery.QueryToFloat | financial_query_service.py:437-452 | `None` gives no value and a number gives itself |
| FinancialQuery.BuildRow | financial_query_service.py:175-204 | the row carries the item's code, name and market and one value per date; a date has a value exactly when the fetch answered it with something convertible, and then the value divided by the unit factor; a failed fetch leaves every value empty |
| FinancialQuery.Warnings | financial_query_service.py:192-194 | a code is warned about exactly when its fetch raised |
| FinancialQuery.ColumnHeaders | financial_query_service.py:162-170 | every value column is titled by its own name |
| FinancialQuery.ConvertResultFormat | financial_query_service.py:232-252 | succeeds exactly for `dataframe` (the result itself) and `list` (records); rows, columns and meta are kept; any other format fails naming it |
| FinancialQuery.Tabulate | financial_query_service.py:160-224 | one row per stock built by `BuildRow`, the column order of the dates, and the failed fetches as warnings |
| FinancialQuery.ExecuteQuery | financial_query_service.py:133-230 | a rejected query fails with its reason; an accepted one succeeds exactly for a supported format, with one row per stock, the column order and the warnings |
| FinancialQuery.QueryColumnsDistinct | financial_query_service.py:133-230 | every successful query has pairwise distinct column names |
| ConcurrentFetcher.SuccessRate | concurrent_data_fetcher.py:57-61 | 0 before the first request, otherwise successes per request, and between 0 and 1 for consistent counters |
| ConcurrentFetcher.Ratio | concurrent_data_fetcher.py:231 | a count over a total, 0 for an empty total, between 0 and 1 when the count is at most the total |
| ConcurrentFetcher.AvgTime | concurrent_data_fetcher.py:63-67 | 0 before the first request, otherwise the total time per request |
| ConcurrentFetcher.Mean | concurrent_data_fetcher.py:225 | a sum spread over n items, 0 when there are none |
| ConcurrentFetcher.RecordAttempt | concurrent_data_fetcher.py:268-280 | the source gains counters if new; its requests and time grow by one attempt, exactly one of success and failure grows; every other source and the threshold are untouched; consistency is kept |
| ConcurrentFetcher.RecordAllCounts | concurrent_data_fetcher.py:268-280 | after a run of attempts a source's requests, successes and failures grow by the number of its attempts, successful attempts and failed attempts |
| ConcurrentFetcher.RecordAllConsistent | concurrent_data_fetcher.py:268-280 | recording keeps every source's requests equal to its successes plus failures |
| ConcurrentFetcher.GetActiveSources | concurrent_data_fetcher.py:282-313 | the active sources of the list, in its order: a source is kept exactly when never tried or its success rate reaches the threshold, and an untried source is always kept |
| ConcurrentFetcher.ActiveMonotone | concurrent_data_fetcher.py:307 | lowering the threshold never drops a source that was kept |
| ConcurrentFetcher.AlwaysFailingDropped | concurrent_data_fetcher.py:302-311 | a tried source that never succeeded stays active exactly when the threshold is at most 0 |
| ConcurrentFetcher.FetchSingle | concurrent_data_fetcher.py:180-216 | no result exactly for a stock without a truthy code; otherwise the stock's code and name, succeeding exactly when the fetch returned data that is not `None` |
| ConcurrentFetcher.Results | concurrent_data_fetcher.py:134-158 | at most one result per stock |
| ConcurrentFetcher.ResultsFromStocks | concurrent_data_fetcher.py:134-158 | a result is collected exactly when some stock's fetch produced it |
| ConcurrentFetcher.ResultRow | concurrent_data_fetcher.py:170-175 | the row holds `stock_code`, `stock_name` and every member of the data, the data's values winning over the code and name |
| ConcurrentFetcher.ConvertResults | concurrent_data_fetcher.py:167-176 | one row per successful result |
| ConcurrentFetcher.RowsCount | concurrent_data_fetcher.py:167-176 | as many rows as successful results |
| ConcurrentFetcher.ConvertedRows | concurrent_data_fetcher.py:167-176 | a row is returned exactly when some successful result produces it |
| ConcurrentFetcher.GenerateStats | concurrent_data_fetcher.py:218-234 | total counts the results, success the successful ones, failed the rest; the rates are the ratio and the mean, 0 for no results |
| ConcurrentFetcher.FetchConcurrent | concurrent_data_fetcher.py:110-178 | no stocks give no rows and no stats; otherwise as many rows as successes and no more results than stocks |
| DataDeduplication.DeduplicateStocks | data_validator.py:366-388 | the kept stocks are a subsequence of the input, each with a truthy code, pairwise distinct in code; a stock is kept exactly when it is the first with its truthy code |
| DataDeduplication.FirstMatch | data_validator.py:411-422 | an industry is found exactly when some admitted item carries the code |
| DataDeduplication.Absorb | data_validator.py:411-422 | one pass keeps every code already merged with its industry and adds exactly the truthy codes some admitted item carries, with the first such item's industry |
| DataDeduplication.AbsorbSourcesChoice | data_validator.py:411-416 | the priority passes add exactly the truthy codes some priority source offers, with the industry of the first item of the first such source |
| DataDeduplication.MergeIndustryChoice | data_validator.py:405-424 | after the unprioritised pass a code is merged exactly when it is truthy and some item carries it, with the industry `Chosen` picks |
| DataDeduplication.MergeIndustryData | data_validator.py:391-424 | a code is in the result exactly when it is truthy and some item carries it; its industry is that of the first item of the highest-priority source offering it, else of the first item carrying it; the default priority is sina, eastmoney, tencent, cninfo |
| DataDeduplication.MergeYear | data_validator.py:452-466 | only the year's value can change; it takes the incoming value exactly when the stored one is falsy and the incoming truthy, or both convert with `float()` and the incoming is larger |
| DataDeduplication.MergeInto | data_validator.py:450-466 | no field other than the two year values changes, and each year follows `MergeYear` |
| DataDeduplication.WithCode | data_validator.py:441-447 | exactly the items carrying the code |
| DataDeduplication.MergeFinancialData | data_validator.py:427-468 | one record per truthy code of some item: the first such item with every later one merged into it in order |
| DataDeduplication.MergeFromPerCode | data_validator.py:441-466 | the loop treats each code on its own: a stored code merges every later item carrying it, a new one starts from its first item |
| DataDeduplication.MergeFromAt | data_validator.py:441-466 | what the loop leaves under one code, given what it started with |
| DataDeduplication.MergeAllKeepsFields | data_validator.py:450-466 | merging never changes a field other than the two year values |
| DataDeduplication.MergeAllTruthy | data_validator.py:455-457 | a merged year value is truthy exactly when the stored one or some merged item's one is |
| DataDeduplication.MergeAllMax | data_validator.py:458-466 | when every truthy value converts with `float()`, the merged value is one of them and at least each |
| DataDeduplication.MergeFinancialKeepsFirst | data_validator.py:446-447 | every field of a merged record other than the year values is that of the first item with its code |
| DataDeduplication.MergeFinancialTruthy | data_validator.py:452-457 | a merged year value is truthy exactly when some item with the code has a truthy value |
| DataDeduplication.MergeFinancialMax | data_validator.py:458-466 | when the code's truthy values of a year all convert, the merged value is at least each of them |
| DataPipeline.IssueOf | data_processing_pipeline.py:91-94 | the error entry carries the stock's code and the code's problem when the code fails, the name's otherwise |
| DataPipeline.ValidateStocks | data_processing_pipeline.py:59-98 | the valid stocks are exactly those whose code and name both pass, in order; total, valid and invalid counts add up; one error entry per invalid stock, in order, giving its first problem |
| DataPipeline.CleanValid | data_processing_pipeline.py:121-135 | with a cleaner whose counters are honest, the cleaned count equals the records kept, every kept record passes validation and comes from some input, and kept, discarded and blank records never outnumber the input |
| DataPipeline.CleanValidKept | data_processing_pipeline.py:125-131 | the loop keeps exactly the cleaned records that pass validation, in input order |
| DataPipeline.CleanRecordCountsValid | data_validator.py:286-340 | the record cleaner counts a record as cleaned exactly when it returns one that passes `validate_record`, and as discarded only when it returns none |
| DataPipeline.PipelineCleanRecords | data_processing_pipeline.py:100-140 | the report counts the input and the output, `cleaned` equals the output, output plus discarded never exceed the input, and the output is the cleaned records that pass validation, in order |
| DataPipeline.PipelineCleanedMember | data_processing_pipeline.py:125-131 | a record is output exactly when some input cleans to it and it passes `validate_record` |
| DataPipeline.DeduplicateRecords | data_processing_pipeline.py:142-174 | a subsequence of the input with truthy, pairwise distinct codes; a record is kept exactly when it is the first with its code; the report counts before, after and their difference, which covers every codeless record |
| DataPipeline.DistributionBound | data_processing_pipeline.py:215-220 | no stock is counted under two first characters, so the distribution never exceeds the number of stocks |
| DataPipeline.Distribution | data_processing_pipeline.py:198-220 | counts for exactly the characters 6, 0, 3, 8 and 4, each the number of stocks whose code starts with it |
| DataPipeline.CoverageOf | data_processing_pipeline.py:222-232 | rates only when there are stocks: each count over the total, and completeness the mean of the three |
| DataPipeline.GenerateDataStatistics | data_processing_pipeline.py:176-237 | fails exactly when a stock's truthy code is not a string (`code[0]` raises); otherwise the stock and record counts, the year counts, the records marked invalid, the distribution and the coverage |
| DataPipeline.FinalStatus | data_processing_pipeline.py:317-330 | SUCCESS exactly when there is coverage with completeness at least 0.98, which needs stocks whose three counts add up to at least 2.94 per stock |
| DataPipeline.QuotientAtLeast | data_processing_pipeline.py:228-232 | a completeness of at least k means the counts add up to at least k times the denominator |
| DataValidator.ValidateStockCode | data_validator.py:39-70 | passes exactly for a truthy value whose stripped text is six digits starting 0, 3, 4, 6 or 8; empty exactly for a falsy value; the `92` rejection can never fire, since 9 is not an accepted first digit |
| DataValidator.ValidateStockName | data_validator.py:72-95 | passes exactly for a truthy value whose stripped text has 2 to 100 characters, none of `<>"'\|?*`; empty exactly for a falsy value |
| DataValidator.YearCheck | data_validator.py:117-127 | a year passes exactly when its value is absent, `None`, or converts to a number between 0 and 1e12; a failure names that year |
| DataValidator.ValidateFinancialData | data_validator.py:97-129 | passes exactly for a non-empty record with truthy code and name and both years in range; empty exactly for an empty record |
| DataValidator.ValidateIndustryClassification | data_validator.py:131-165 | passes exactly for a truthy object with a truthy `l1` whose truthy `l2` and `l3` have at most 50 characters once stripped; a non-standard `l1` only warns |
| DataValidator.NonDictIndustry | data_validator.py:141-146 | a truthy value that is not a dictionary fails as missing level 1, and it is a string without "l1" exactly when the source's test does not raise on it |
| DataValidator.ValidateRecord | data_validator.py:167-202 | at most four problems, and none exactly when code, name and financial data pass and a truthy industry passes |
| DataValidator.DropLetterPrefix | data_validator.py:223 | two leading ASCII letters are removed, once; otherwise the text is kept |
| DataValidator.CleanStockCode | data_validator.py:215-230 | a cleaned code comes from a truthy value, is an A-share code and passes `validate_stock_code` |
| DataValidator.CleanValidCode | data_validator.py:215-230 | a valid code cleans to itself (idempotence) |
| DataValidator.ValidCodePasses | data_validator.py:39-70 | a valid code passes `validate_stock_code` as it stands |
| DataValidator.CleanCodeSteps | data_validator.py:219-230 | the cleaned code is the stripped, de-prefixed, stripped text when that passes, nothing otherwise |
| DataValidator.CleanPrefixedCode | data_validator.py:222-224 | `sh600000` and any two-letter prefix cleans to the bare code |
| DataValidator.CleanDoublePrefix | data_validator.py:223 | only one prefix is removed: four leading letters leave the code rejected |
| DataValidator.BracketMatch | data_validator.py:243 | a match of `\(.*\)` opens and closes with the brackets and spans no line break |
| DataValidator.RemoveBracketed | data_validator.py:243 | removing bracketed stretches never lengthens the name or adds a character |
| DataValidator.RemoveBracketedNoBrackets | data_validator.py:243 | text without an opening bracket is left unchanged |
| DataValidator.NameText | data_validator.py:237-243 | the text built before the final test is stripped |
| DataValidator.CleanStockName | data_validator.py:232-249 | `None` for a falsy value; otherwise the stripped, space-collapsed, bracket-free text, kept exactly when it is a plausible company name, and then it passes `validate_stock_name` |
| DataValidator.KeepValidName | data_validator.py:245-249 | the stripped text is kept unchanged exactly when it passes `validate_stock_name`, and dropped otherwise |
| DataValidator.CleanStockNameKeepsPlain | data_validator.py:232-249 | a valid name without whitespace or brackets comes out unchanged |
| DataValidator.AmountText | data_validator.py:258-261 | the amount text holds no thousands separator |
| DataValidator.Scale | data_validator.py:266-269 | a parsed amount times the unit, nothing when the text did not parse |
| DataValidator.AmountAsWritten | data_validator.py:264-271 | as written, text holding 万 is read with every 万 removed, times 10000 |
| DataValidator.MillionBranchDead | data_validator.py:264-271 | the 百万 branch is dead: text without 万 never holds 百万, and is read as a plain number |
| DataValidator.Amount | data_validator.py:264-271 | corrected: text holding 百万 is read with 百万 removed, times 1000000; other text as written |
| DataValidator.Bound | data_validator.py:273-282 | a kept amount lies in [0, 1e12]; an amount in range is kept; a non-zero result is the amount; a negative one becomes 0 exactly when zero is allowed |
| DataValidator.CleanFinancialValueAsWritten | data_validator.py:251-284 | `None` stays `None`, and a cleaned value lies in [0, 1e12] |
| DataValidator.CleanFinancialValue | data_validator.py:251-284 | corrected: `None` stays `None`, a cleaned value lies in [0, 1e12], and a non-zero one is the amount the text denotes |
| DataValidator.AllowZeroOnlyAddsZero | data_validator.py:274-276 | allowing zero only turns a dropped negative amount into 0 |
| DataValidator.CleanDigits | data_validator.py:251-284 | a plain run of digits in range cleans to its value |
| DataValidator.CleanTenThousands | data_validator.py:264-266 | digits followed by 万 clean to ten thousand times their value |
| DataValidator.CleanMillions | data_validator.py:264-269 | corrected: digits followed by 百万 clean to a million times their value |
| DataValidator.MillionsLostAsWritten | data_validator.py:264-269 | as written, digits followed by 百万 clean to nothing: the 万 branch leaves `2百`, which `float()` rejects |
| DataValidator.HundredLeftOver | data_validator.py:264-266 | text ending in 万 that holds 百 reads as nothing, as written |
| DataValidator.CleanVia | data_validator.py:251-284 | the corrected cleaner bounds the amount the text denotes |
| DataValidator.CleanAsWrittenVia | data_validator.py:251-284 | the cleaner as written bounds the amount the text denotes as written |
| DataValidator.AmountCell | data_validator.py:319-320 | no amount gives `None`, an amount gives that number |
| DataValidator.CleanedYear | data_validator.py:316-322 | `None` for an absent year or one the cleaner as written (zero allowed) rejects, otherwise a number in [0, 1e12] |
| DataValidator.Cleaned | data_validator.py:299-333 | the cleaned record has exactly code, name, both years and industry, plus the copied keys the input has; the copied keys are unchanged, the industry kept only when truthy, the years cleaned |
| DataValidator.CleanRecord | data_validator.py:286-340 | nothing exactly for an empty record or one whose code or name does not clean; a discard is counted exactly for a non-empty record giving nothing; a clean is counted exactly when the record returned passes `validate_record` |
| DataValidator.CleanedRecordOk | data_validator.py:335-338 | a record that cleans is counted as cleaned exactly when its truthy industry, if any, passes |
| DataValidator.CleanedYearOk | data_validator.py:117-127 | a cleaned year value always passes the financial range check |
| DataValidator.CleanRecordHonest | data_validator.py:296-312 | an empty record gives nothing and counts nothing; a returned record counts no discard and at most one clean |
| DataValidator.CleanAll | data_validator.py:342-359 | for any cleaner with honest counters, kept, discarded and blank records account for every input, and every kept record is what the cleaner returned for some input |
| DataValidator.CleanAllKept | data_validator.py:354-357 | the batch holds what the cleaner returns, in input order |
| DataValidator.CleanRecords | data_validator.py:342-359 | the records that clean, in input order; kept, discarded and blank records account for every input |
| DataValidator.TenThousandsAmount | data_validator.py:264-266 | text containing 万 but not 百万 is read as its remaining text times ten thousand |
| DataValidator.CleanInRange | data_validator.py:251-284 | a value whose text denotes an amount between 0 and 10^12 cleans to exactly that amount, whether or not zero is allowed |
| DataValidator.CleanTenThousandsText | data_validator.py:264-282 | text read as v ten thousands, within range, cleans to v times ten thousand |
| LocalStorage.Without | local_storage.py:125-128 | the table without the rows of one code, everything else kept, codes still unique |
| LocalStorage.InsertOrReplace | local_storage.py:125-136 | `INSERT OR REPLACE` on the `code` key: the new row is in, a row with the same non-`NULL` code is out, every other row stays, codes stay unique |
| LocalStorage.StocksTable | local_storage.py:120-136 | the emptied table after the loop has unique codes and holds the row of every stock without a code |
| LocalStorage.StocksLastWins | local_storage.py:124-136 | a code has a row exactly when some stock has it, and the row is the last such stock's (last write wins) |
| LocalStorage.BackupStocks | local_storage.py:112-143 | a failing insert (a `None` name against `NOT NULL`, or an unbindable value) rolls everything back to the old rows; otherwise the table the loop leaves |
| LocalStorage.IndustryRowFor | local_storage.py:157-170 | a row exactly for a truthy dictionary entry, under its code |
| LocalStorage.BackupIndustries | local_storage.py:145-177 | a truthy non-dictionary entry rolls back to the old rows; otherwise the rows of the truthy entries, in order |
| LocalStorage.IndustryDict | local_storage.py:282-287 | a restored industry has exactly `l1`, `l2`, `l3` and `source` |
| LocalStorage.RestoreIndustries | local_storage.py:270-294 | a code is restored exactly when some row has it |
| LocalStorage.RestoreIndustriesLastWins | local_storage.py:281-287 | a code holds the dictionary of its last row |
| LocalStorage.IndustriesRoundTrip | local_storage.py:145-294 | backing up distinct-keyed industries and restoring gives back exactly the truthy entries, as their four-field dictionaries (round trip) |
| LocalStorage.RecordRows | local_storage.py:192-206 | one row per year with a value that is not `None`, holding that value |
| LocalStorage.FinancialRows | local_storage.py:191-206 | the rows issued are exactly those of the records' present years |
| LocalStorage.BackupFinancialData | local_storage.py:179-213 | a failing insert rolls back to the old rows; otherwise exactly the rows of the present years |
| LocalStorage.Gather | local_storage.py:311-321 | the codes in order of first appearance, each once, each with a dictionary holding its code, name and source and only restored keys |
| LocalStorage.AddRowYear | local_storage.py:313-321 | one pass adds the row's code and sets its year's value, leaving other codes and years alone |
| LocalStorage.GatherFirst | local_storage.py:313-318 | a code is gathered exactly when some row has it, with the name and source of its first row |
| LocalStorage.GatherLast | local_storage.py:320-321 | a gathered code has a year's value exactly when some row has that code and year, and then the last such row's value |
| LocalStorage.RestoreFinancialData | local_storage.py:296-329 | one record per distinct code, each with only restored keys |
| LocalStorage.Restored | local_storage.py:313-321 | what restoring gives back for a record: its code, name and source, and exactly its present years' values |
| LocalStorage.RowOfRecord | local_storage.py:191-206 | with distinct codes, a row with a record's code is that record's row for some present year |
| LocalStorage.GatheredHeader | local_storage.py:313-318 | the gathered name and source of a record's code are the record's |
| LocalStorage.GatheredYear | local_storage.py:320-321 | the gathered dictionary of a record's code has exactly its present years' values |
| LocalStorage.GatheredIsRestored | local_storage.py:311-321 | the gathered dictionary of a record's code is what restoring promises for it |
| LocalStorage.FinancialRoundTrip | local_storage.py:179-329 | for records with distinct codes, the restored records are exactly the restored forms of the records with some year value (round trip) |
| LocalStorage.RestoredEntry | local_storage.py:323 | each restored record is the restored form of some backed-up record |
| LocalStorage.RecordIsRestored | local_storage.py:311-323 | each record with a year value is restored |
| LocalStorage.BackupThenRestoreFinancial | local_storage.py:179-329 | a successful backup read back in any order restores exactly the restored forms of the records with a year value |
| LocalStorage.AllKeys | local_storage.py:432-434 | every key of every item, and nothing else |
| LocalStorage.CsvRow | local_storage.py:439-441 | one field per header column: the item's value as `csv` writes it, empty where the item lacks the key |
| LocalStorage.BackupToCsv | local_storage.py:418-446 | nothing for empty data; otherwise the sorted union of keys as header and one line per item |
| LocalStorage.CsvKeepsEveryField | local_storage.py:432-441 | no field is lost: each key of each item has a column where the item's line holds its value |
| Text.Strip | data_validator.py:52 | `str.strip()`: the result has no leading or trailing whitespace, is no longer than the input and has only the input's characters |
| Text.StripIdempotent | data_validator.py:220-224 | stripping twice is stripping once |
| Text.SplitRunsJoin | financial_query_service.py:359 | `re.split` on runs of separators undoes a join of separator-free parts (round trip) |
| Text.CollapseSpaces | data_validator.py:240 | `' '.join(name.split())` leaves only single spaces and the name's non-space characters |
| Ordering.SortedFromSet | local_storage.py:435 | `sorted()` of a set of strings: exactly its elements, strictly increasing |
| Ordering.StableSort | local_cache/cache_store.py:202 | Python's stable sort: a permutation, sorted, with equal elements in their input order |
| Ordering.SortByStringKey | local_cache/cache_store.py:202 | sorting by a string key: a permutation, ascending in the key, stable for equal keys |
| Ordering.SortByKeyDescending | industry_classification_fetcher.py:262 | sorting by an integer key with `reverse=True`: a permutation, descending, stable for equal keys |
| Ordering.SortByKeyAscending | industry_classification_complete_getter.py:149-153 | sorting by an integer key: a permutation, ascending, stable for equal keys |
| QualityMonitor.WeightsSumToOne | quality_monitor.py:20-25 | the four component weights (0.30, 0.30, 0.20, 0.20) are positive and sum to 1, so the overall score is a weighted average |
| QualityMonitor.Band | quality_monitor.py:63-70 | a score is excellent, good, fair or poor exactly when it reaches the first, falls between the first and second, the second and third, or below the third threshold |
| QualityMonitor.Completeness | quality_monitor.py:54-61 | completeness is the fetched share of the 5434 standard stocks in percent, capped at 100, and lies in 0..100 for a non-negative count |
| QualityMonitor.CompletenessMonotone | quality_monitor.py:54-61 | fetching more stocks never lowers the completeness score |
| QualityMonitor.Accuracy | quality_monitor.py:87-97 | accuracy is 0 with no records, otherwise valid over total in percent capped at 100, and lies in 0..100 |
| QualityMonitor.Clamp | quality_monitor.py:152 | the clamped score lies in the bounds and is unchanged when already inside them |
| QualityMonitor.Timeliness | quality_monitor.py:126-163 | 0 without a collection date, 50 when its age cannot be determined, otherwise 100 on the day, 80-5d up to a week, 40-2(d-7) down to 0 within a month, 10 beyond; always 0..100 |
| QualityMonitor.TimelinessNonIncreasingWithinMonth | quality_monitor.py:141-152 | within the first month an older collection never scores higher than a newer one |
| QualityMonitor.TimelinessRisesAfterMonth | quality_monitor.py:146-152 | past a month the ladder is not monotone: 28 days old scores 0, 31 days old scores 10 |
| QualityMonitor.Coverage | quality_monitor.py:178-189 | coverage is 0 with no stocks, otherwise 40% industry share plus 30% each of the 2023 and 2024 shares, in percent |
| QualityMonitor.CoverageBounded | quality_monitor.py:178-189 | with every count between 0 and the stock total, coverage is a percentage |
| QualityMonitor.QuotientBounded | quality_monitor.py:182-189 | a quotient whose product with a positive divisor lies in 0..100 times it is itself in 0..100 |
| QualityMonitor.GradeOf | quality_monitor.py:252-263 | the grade is the best one (A+ 95, A 90, B+ 85, B 80, C 70) whose floor the score reaches, and D below 70 |
| QualityMonitor.GradeMonotone | quality_monitor.py:252-263 | a higher overall score never earns a worse grade |
| QualityMonitor.OverallScore | quality_monitor.py:210-270 | the report carries the four component scores, its grade is the grade of the overall score, and the overall score lies between the smallest and largest component |
| QualityMonitor.OverallBounded | quality_monitor.py:210-270 | for statistics whose counts are in range the overall score is a percentage |
| QualityMonitor.IncompleteCountThreshold | quality_monitor.py:299-302 | the completeness issue is raised exactly for 5325 stocks or fewer (below 98% of 5434) |
| QualityMonitor.ErrorRateCheck | quality_monitor.py:305-310 | the error-rate pass fails (division by zero) exactly when there are errors and a record count of 0; otherwise it yields one high-error warning above 5% and nothing else |
| QualityMonitor.CoverageFinding | quality_monitor.py:313-322 | an industry-kind shortfall is reported as low industry coverage, a 2024-kind one as missing 2024 data |
| QualityMonitor.CoverageCheck | quality_monitor.py:313-322 | the coverage pass fails (division by zero) exactly when the count is below the fraction of a zero stock total; otherwise it warns once, with the percentage, exactly when the count is below the fraction |
| QualityMonitor.Suggestions | quality_monitor.py:299-322 | each finding adds exactly its own advice, in order |
| QualityMonitor.Monitor | quality_monitor.py:285-334 | a report carries the overall score, one issue exactly for an incomplete count, at most three warnings (industry, 2024, error rate, each present exactly when its threshold is crossed) and one suggestion per finding |
| QualityMonitor.MonitorTotalOnSane | quality_monitor.py:285-334 | for statistics whose counts are in range the monitor fails only when there are validation errors and a record count of 0 |
| RealEstateCollector.SearchRealEstateData | astock_real_estate_collector.py:92-128 | the record starts from the code, the name and two empty years; every non-empty field of the first source (eastmoney, sina, cninfo) whose result is non-empty is taken over; with no such source the code and name stay; both years are always present and non-empty whenever generated values exist |
| RealEstateCollector.FillMock | astock_real_estate_collector.py:119-126 | only a year still `None` receives a value, and it is the generated number; a raising 2023 generation ends the filling with the record unchanged, and a raising 2024 one leaves 2024 `None`; every other field and every present year is unchanged |
| RealEstateCollector.LimitStocks | astock_real_estate_collector.py:386-387 | a positive limit keeps exactly that many leading stocks (all when fewer); zero or a negative limit keeps the whole list |
| RealEstateCollector.CleanYearValue | astock_real_estate_collector.py:256-268 | a falsy year value becomes 0; a truthy one converts to a non-negative number, negatives becoming 0 and a positive result being the converted value |
| RealEstateCollector.CleanItem | astock_real_estate_collector.py:256-268 | a cleaned item keeps every non-year field, gains both year keys, and both years are numeric and non-negative |
| RealEstateCollector.CleanFrom | astock_real_estate_collector.py:246-274 | the cleaning loop with the codes seen so far keeps only eligible items of unseen, pairwise distinct codes with clean years, never more than it was given |
| RealEstateCollector.CleanAndValidateData | astock_real_estate_collector.py:239-279 | the cleaned list is no longer than the input, every item has a truthy code and name, codes are pairwise distinct and both years are clean |
| RealEstateCollector.CleanFromKeeps | astock_real_estate_collector.py:246-274 | a record is kept exactly when it is the cleaned form of the first eligible item of its code: the code is marked seen before conversion, so a later duplicate never replaces an item whose conversion failed |
| SinaStockList.ShapeUnique | sina_stock_list_complete_fetcher.py:284-286 | a code fits the letters-then-six-digits shape for at most one number of leading letters |
| SinaStockList.LetterAt | sina_stock_list_complete_fetcher.py:284-286 | the characters before the digits of the shape are lower-case letters |
| SinaStockList.DigitAt | sina_stock_list_complete_fetcher.py:284-286 | the digits of the shape begin with a digit |
| SinaStockList.ExtractCode | sina_stock_list_complete_fetcher.py:283-301 | extraction yields six digits; it succeeds exactly when the code is zero to two lower-case letters followed by six digits, and then yields those digits |
| SinaStockList.SuffixBranchDead | sina_stock_list_complete_fetcher.py:293-296 | every code the digits-plus-suffix pattern matches is already matched by the plain six-digit pattern, so that branch never decides |
| SinaStockList.NormalizeCode | sina_stock_list_complete_fetcher.py:262-301 | a normalised code (stripped, lower-cased, extracted) is six digits |
| SinaStockList.ExtractPrefixed | sina_stock_list_complete_fetcher.py:283-291 | up to two lower-case letters, six digits and any tail extract to exactly those six digits |
| SinaStockList.ExtractRejects | sina_stock_list_complete_fetcher.py:283-301 | a code starting with three letters does not extract |
| SinaStockList.NormalizePlain | sina_stock_list_complete_fetcher.py:281 | stripping and lower-casing leave a code without whitespace or upper-case letters unchanged |
| SinaStockList.NormalizeRoundTrip | sina_stock_list_complete_fetcher.py:262-301 | a prefix of at most two letters, six digits and a clean tail normalise back to those six digits |
| SinaStockList.ExtractExamples | sina_stock_list_complete_fetcher.py:268-274 | the documented inputs `sh600000`, `a000002`, `600000.ss` normalise to their six digits, and a seven-digit run keeps its first six |
| SinaStockList.ValidFormatWidens | sina_stock_list_complete_fetcher.py:303-324 | the format check accepts exactly the codes the data validator accepts plus six-digit codes starting with 9 |
| SinaStockList.MarketOf | sina_stock_list_complete_fetcher.py:106 | the market is Shanghai exactly for codes starting with 6, Shenzhen otherwise |
| SinaStockList.AcceptedCode | sina_stock_list_complete_fetcher.py:84-101 | an item is stored exactly when its code normalises and the normalised code passes the format check, and it is stored under that code |
| SinaStockList.CodeList | sina_stock_list_complete_fetcher.py:331 | the code list has one entry per stock, in order |
| SinaStockList.Store | sina_stock_list_complete_fetcher.py:102-109 | storing keeps every stock valid and codes unique; a new code is appended; a known code keeps its place and only its value changes |
| SinaStockList.Replace | sina_stock_list_complete_fetcher.py:102-109 | overwriting a known code keeps the set and order of codes and changes only that entry |
| SinaStockList.AcceptedCodes | sina_stock_list_complete_fetcher.py:82-122 | every code a page stores passes the format check |
| SinaStockList.AbsorbPage | sina_stock_list_complete_fetcher.py:82-122 | after a page the stored codes are the earlier ones plus the page's accepted codes; successes and failures add up to the page size, failures are filtered codes plus parse errors, and no success means nothing accepted |
| SinaStockList.AbsorbPageReports | sina_stock_list_complete_fetcher.py:89-122 | every parse error is a code that does not normalise and every filtered code fails the format check, each tagged with the page |
| SinaStockList.DataBeforeStep | sina_stock_list_complete_fetcher.py:68-76 | one more page with data extends the run of pages with data |
| SinaStockList.StatsStep | sina_stock_list_complete_fetcher.py:123-128 | appending the statistics of the next page, whose success and failure counts add to its total, keeps the page statistics consistent |
| SinaStockList.AbsorbInto | sina_stock_list_complete_fetcher.py:82-128 | the loop body appends exactly one page entry whose counts add up, keeps the stored stocks valid and adds the page's accepted codes |
| SinaStockList.PagesStep | sina_stock_list_complete_fetcher.py:68-128 | one more page with data extends the page list and its accepted codes |
| SinaStockList.AbsorbStep | sina_stock_list_complete_fetcher.py:82-152 | one page absorbed, then the stops in order: nothing stored on the page, more than 5000 stocks from page 20 on, the 60-page limit; otherwise the loop goes on |
| SinaStockList.FetchPages | sina_stock_list_complete_fetcher.py:65-152 | the paging loop reads pages 1..last (at most 60) and stops on an empty page, a page storing nothing, enough stocks or the page limit; the stored codes are exactly the codes accepted on the pages read, with one statistics entry per page absorbed |
| SinaStockList.CountFirst | sina_stock_list_complete_fetcher.py:341-344 | the count of codes starting with a character never exceeds the number of codes |
| SinaStockList.Shortfalls | sina_stock_list_complete_fetcher.py:349-356 | no shortfall is reported exactly when every first-digit minimum is met |
| SinaStockList.CheckQuality | sina_stock_list_complete_fetcher.py:326-358 | the duplicate issue appears exactly for repeated codes, and there is no issue exactly when codes are distinct, every name is non-empty and at least 800, 400, 400 and 100 codes start with 6, 0, 3 and 9 |
| SinaStockList.MinimumsMet | sina_stock_list_complete_fetcher.py:349-356 | the table of minimums says 800 for 6, 400 for 0 and 3, 100 for 9 |
| SinaStockList.DuplicateIssue | sina_stock_list_complete_fetcher.py:331-333 | the duplicate issue is raised, once, exactly when a code repeats |
| SinaStockList.EmptyNameIssue | sina_stock_list_complete_fetcher.py:336-338 | the empty-name issue is raised exactly when some stock has an empty name |
| SinaStockList.FilterEmpty | sina_stock_list_complete_fetcher.py:336-338 | no stock is filtered as nameless exactly when every name is non-empty |
| SinaStockList.FetchComplete | sina_stock_list_complete_fetcher.py:49-190 | the stocks fetched hold exactly the codes accepted on the pages absorbed; it succeeds with them exactly when the quality check finds nothing, and otherwise fails with exactly the issues found; a success is valid, duplicate-free stocks and a failure never carries the duplicate issue |
| SinaStockList.DistinctCodeList | sina_stock_list_complete_fetcher.py:331-333 | the stocks the dictionary holds never trip the duplicate test |
| SinaStockList.SuccessRate | sina_stock_list_complete_fetcher.py:369-374 | the success rate is stored over stored plus parse errors, 1 with nothing attempted, lies in 0..1, is 1 exactly without errors and 0 exactly when nothing was stored but something failed |
| SinaStockList.Distribution | sina_stock_list_complete_fetcher.py:360-367 | the distribution maps each first character present to its count and leaves out the characters no code starts with |
| SinaStockList.CountSumStep | sina_stock_list_complete_fetcher.py:360-367 | one more code adds one to the sum of counts over a list of distinct characters exactly when its first character is listed |
| SinaStockList.DigitCountsTotal | sina_stock_list_complete_fetcher.py:360-367 | when every code starts with a digit, the ten digit counts add up to the number of codes |
| SinaStockList.ZeroSum | sina_stock_list_complete_fetcher.py:360-367 | with no codes every count sum is zero |
| SinaStockList.CountsMatch | sina_stock_list_complete_fetcher.py:360-367 | a table holding the counts of the codes sums like the counts themselves |
| SinaStockList.DistributionTotal | sina_stock_list_complete_fetcher.py:360-367 | the distribution of a stored list accounts for every stock |
| SinaStockList.EntryProblem | sina_stock_list_complete_fetcher.py:422-427 | an entry has no format problem exactly when it has a code and a name and the code is six digits |
| SinaStockList.FormatProblem | sina_stock_list_complete_fetcher.py:422-427 | a list has no format problem exactly when every entry is well formed |
| SinaStockList.EntryCodes | sina_stock_list_complete_fetcher.py:431 | the codes of well-formed entries, one per entry, each six digits |
| SinaStockList.VerifyAll | sina_stock_list_complete_fetcher.py:402-466 | the list passes exactly when it has at least 5000 well-formed entries, no repeated code and more than 800, 400 and 400 codes starting with 6, 0 and 3; fewer than 5000 entries fails with the count |
| SinaStockList.EntriesOf | sina_stock_list_complete_fetcher.py:179 | the list handed on has one entry per stock with its code and name |
| SinaStockList.FetchedPassesVerify | sina_stock_list_complete_fetcher.py:402-466 | a fetched list passes the verification exactly when it has at least 5000 stocks and none of the 6, 0, 3 counts sits exactly on its fetch minimum |
| IndustryFetcher.NameIsLabel | industry_classification_fetcher.py:42-74 | each of the 31 first-level labels is at least two characters, strips to itself and is neither the unclassified nor the error marker |
| IndustryFetcher.NameEnds | industry_classification_fetcher.py:42-74 | each label starts and ends with a CJK ideograph and is neither the unclassified nor the error marker |
| IndustryFetcher.AsDict | industry_classification_fetcher.py:24-31 | the dictionary has the five keys, each holding the matching field of the result |
| IndustryFetcher.ResultValidIffCacheValid | industry_classification_fetcher.py:102-117 | a result's dictionary passes the result check exactly when it passes the cache check, exactly when its source is real, its first level is one of the 31 labels and both lower levels are non-blank |
| IndustryFetcher.MissingKeyInvalid | industry_classification_fetcher.py:217-220 | a dictionary missing any of the five keys fails the result check |
| IndustryFetcher.FallbackNeverValid | industry_classification_fetcher.py:573-574 | the unclassified fallback fails both checks whatever source it names, so it is never cached |
| IndustryFetcher.InferBy | industry_classification_fetcher.py:560-564 | for a rule table without the composite industry: composite exactly when no rule's keywords occur, otherwise the industry of the first rule that matches |
| IndustryFetcher.InferL1 | industry_classification_fetcher.py:525-564 | with the shipped 30-rule table: composite exactly when no keyword occurs, otherwise the industry of the first matching rule |
| IndustryFetcher.RulesNotComposite | industry_classification_fetcher.py:527-558 | no rule of the table assigns the composite industry |
| IndustryFetcher.BankTakesPrecedence | industry_classification_fetcher.py:528 | rule order decides: any text naming a bank is classified as a bank, whatever else it names |
| IndustryFetcher.CleanIndustryText | industry_classification_fetcher.py:566-571 | the cleaned text is stripped, its only whitespace is single spaces, and every other character comes from the input |
| IndustryFetcher.InferLevels | industry_classification_fetcher.py:512-523 | the first level is the one the first matching keyword rule gives for the cleaned text, always one of the 31 labels; the second and third are that same non-empty stripped text; an empty cleaned text gives the composite label for every level |
| IndustryFetcher.InferredResultAccepted | industry_classification_fetcher.py:419-423 | any result built from inferred levels passes the result check when its source is real |
| IndustryFetcher.BoardResultAccepted | industry_classification_fetcher.py:419-423 | every board-mapping result passes the result check |
| IndustryFetcher.BoardResult | industry_classification_fetcher.py:422 | a board's result names the board source |
| IndustryFetcher.ToEastmoneySecid | industry_classification_fetcher.py:576-580 | a secid exists exactly for a six-digit code; it is the code behind a one-digit market and a dot, and the market is 1 exactly for codes starting with 6 (0 otherwise) |
| IndustryFetcher.ToEastmoneyF10Code | industry_classification_fetcher.py:582-586 | an F10 code exists exactly for a six-digit code; it is the code behind SH for codes starting with 6 and SZ otherwise |
| IndustryFetcher.PurgeInvalid | industry_classification_fetcher.py:91-100 | the purged cache keeps exactly the valid entries, unchanged, and the count is the number of invalid entries removed |
| IndustryFetcher.EnabledInOrder | industry_classification_fetcher.py:257-260 | a source is kept exactly when it is declared and enabled (enabled by default) |
| IndustryFetcher.PriorityOrder | industry_classification_fetcher.py:245-263 | the order holds exactly the enabled declared sources, by non-increasing weight (0 by default), and sources of equal weight keep their declaration order |
| IndustryFetcher.ShippedConfigOrder | config.py:32-68 | with weights 4, 3, 2, 1, 0 the priority order is the declaration order |
| IndustryFetcher.ShippedEnabled | config.py:32-68 | the shipped configuration enables every declared source |
| IndustryFetcher.ShippedWeights | config.py:32-68 | the shipped weights decrease along the declaration order |
| IndustryFetcher.EnabledAll | industry_classification_fetcher.py:257-260 | when every source is enabled none is filtered out |
| IndustryFetcher.LookupBy | industry_classification_fetcher.py:119-143 | for any cache check and stricter result check: a valid cached entry is returned unchanged; a code already failed gets the fallback; otherwise the first accepting source's result is returned and cached, or the fallback with the code marked failed; nothing else in the cache changes |
| IndustryFetcher.GetIndustry | industry_classification_fetcher.py:119-143 | a valid cached entry is returned unchanged; a code already failed gets the fallback; otherwise the result of the first source whose result passes the result check is returned and cached, and the fallback (code marked failed) exactly when no source passes; the cache only gains valid entries |
| IndustryFetcher.GetIndustryStable | industry_classification_fetcher.py:119-143 | asking again returns the same answer and leaves the state as the first call left it |
| IndustryFetcher.Codes | industry_classification_fetcher.py:152 | the batch codes are the non-empty codes of the stocks |
| IndustryFetcher.MemberPass | industry_classification_fetcher.py:418-427 | for an accepted board result every pending member is resolved with it and cached; resolved codes keep their results |
| IndustryFetcher.BoardStep | industry_classification_fetcher.py:410-427 | visiting the next board resolves exactly the pending members it lists, when its result is accepted, and keeps earlier results |
| IndustryFetcher.BoardPhase | industry_classification_fetcher.py:403-429 | the board mapping resolves a code with the first accepted board listing it; codes left pending have no board with an accepted result |
| IndustryFetcher.StockStep | industry_classification_fetcher.py:186-209 | asking one source about one stock resolves and caches its code when the result is accepted and the code is still pending |
| IndustryFetcher.SourcePass | industry_classification_fetcher.py:186-209 | one source's pass over the stocks in input order resolves each pending code with the first stock of it the source accepts; codes left pending were rejected for every stock |
| IndustryFetcher.SourcesPhase | industry_classification_fetcher.py:182-209 | the single-stock rounds, skipping the board source, resolve each code with the first accepting source; codes left pending were rejected by every source |
| IndustryFetcher.CachedPhase | industry_classification_fetcher.py:151-158 | codes with a valid cached entry are resolved with it; the rest are pending |
| IndustryFetcher.FillFallback | industry_classification_fetcher.py:212-213 | every code still pending gets the fallback; every code has a result, each valid and cached or the fallback |
| IndustryFetcher.PhasesResolved | industry_classification_fetcher.py:164-209 | every code resolved by the board and source phases has its result from the first accepted board or the first accepting source |
| IndustryFetcher.BatchBy | industry_classification_fetcher.py:145-215 | for any cache check and any stricter result check: one result per non-empty code, valid cached entries kept, every other result valid and cached or the fallback, and each non-cached result traced to the fallback, the first accepted board or the first accepting source; when the board mapping runs, a fallback code is listed by no board with an accepted result |
| IndustryFetcher.BatchGetIndustries | industry_classification_fetcher.py:145-215 | one result per non-empty code; valid cached entries are returned unchanged; every other result is valid and cached or the fallback; a fallback means no single-stock source accepted any stock with that code and, when the board mapping runs, no board with an accepted result lists it; each non-cached result is the fallback, the first accepted board result when the board mapping runs (enabled and at least 300 pending by default), or the first accepting source's result; the failure memo is untouched |
| CompleteGetter.LoadSourcesConfig | industry_classification_complete_getter.py:97-103 | the loaded configuration keeps exactly the entries whose enabled flag is true or absent, never more than there were |
| CompleteGetter.SortedSources | industry_classification_complete_getter.py:149-152 | the round order is a permutation of the enabled entries, by non-decreasing priority, with entries of equal priority in configuration order |
| CompleteGetter.ShippedSourcesOrder | config.py:228-297 | with the shipped configuration (eight sources, priorities 1 to 8) the rounds follow the configuration order |
| CompleteGetter.AllEnabled | industry_classification_complete_getter.py:97-103 | when every entry is enabled the loaded configuration is the whole list |
| CompleteGetter.MappedBy | industry_classification_complete_getter.py:620-629 | for any keyword mapping: the industry of the first entry whose keyword the text contains; composite when no keyword occurs; a non-composite answer always comes from an entry whose keyword occurs |
| CompleteGetter.MappedL1 | industry_classification_complete_getter.py:577-629 | with the shipped 39-entry mapping: the industry of the first entry whose keyword occurs, composite when none does (an unclassified first pass becomes composite) |
| CompleteGetter.SpecialCaseNoop | industry_classification_complete_getter.py:638-643 | the bank/non-bank special case never changes the first-level label, because the bank keyword comes first and securities and insurance map to non-bank finance |
| CompleteGetter.SpecialCaseNoopBy | industry_classification_complete_getter.py:638-643 | for any mapping that starts with banks, then securities and insurance, the special case leaves the label unchanged |
| CompleteGetter.FinanceNames | industry_classification_fetcher.py:42-74 | only the banks industry carries the bank label, and only non-bank finance its label |
| CompleteGetter.MappingHead | industry_classification_complete_getter.py:578-581 | the mapping starts with banks, then securities and insurance as non-bank finance |
| CompleteGetter.InferLevels | industry_classification_complete_getter.py:562-643 | blank text gives unclassified for all three levels; otherwise the first level is the mapped label of the stripped text (one of the 31 labels), the second equals it and the third is it followed by the word for other |
| CompleteGetter.BankKeywordWins | industry_classification_complete_getter.py:562-643 | any text mentioning a bank is classified as a bank |
| CompleteGetter.BankMapped | industry_classification_complete_getter.py:577-629 | text containing the bank keyword maps to the banks industry |
| CompleteGetter.BankFirst | industry_classification_complete_getter.py:620-629 | for any mapping starting with banks, text containing the bank keyword maps to banks |
| CompleteGetter.ToEastmoneySecid | industry_classification_complete_getter.py:644-650 | a secid exists exactly for a code starting with 6, 0 or 3, whatever follows; it is the code behind "1." for 6 and "0." otherwise |
| CompleteGetter.StockInfo | industry_classification_complete_getter.py:245-248 | the stock a code is fetched with is the first input stock with that code, or an empty-named stand-in when none has it |
| CompleteGetter.FetchMethod | industry_classification_complete_getter.py:284-297 | a known source key is served by its own fetch; any other key falls back to the cache mapping |
| CompleteGetter.Count | industry_classification_complete_getter.py:251-269 | each fetch outcome adds exactly one to success, failure or timeout: success for a result, timeout for a timeout, failure otherwise |
| CompleteGetter.TrySource | industry_classification_complete_getter.py:193-282 | a round offers every pending code to one source: a code leaves the pending set exactly when the source found it, with that result; the round reports an interrupt exactly when the flag is seen set before all codes were offered; a finished round counts one success per code found and one failure or timeout per code left, and retries are failures plus timeouts |
| CompleteGetter.FirstFound | industry_classification_complete_getter.py:156-160 | the first round whose source finds the code, or the number of rounds when none does |
| CompleteGetter.ResolveFirstFound | industry_classification_complete_getter.py:156-175 | the reference result of a code is the result of the first round that finds it, or the fallback when none does |
| CompleteGetter.Round | industry_classification_complete_getter.py:156-166 | a finished round keeps the loop invariant for one more round; an interrupted one leaves processed codes with their reference result and pending codes not found by any earlier round |
| CompleteGetter.RoundResolved | industry_classification_complete_getter.py:251-256 | every code a round adds to the processed ones holds its reference result |
| CompleteGetter.RoundCounted | industry_classification_complete_getter.py:272-274 | the counters of a round that ran to the end are those of a completed round |
| CompleteGetter.Rounds | industry_classification_complete_getter.py:154-166 | the round loop ends when nothing is pending, the sources are exhausted or the flag is seen; processed codes hold their reference result and pending ones were found by no completed round |
| CompleteGetter.NextPending | industry_classification_complete_getter.py:251-256 | a completed round leaves pending exactly the codes it did not find |
| CompleteGetter.RoundOutcomes | industry_classification_complete_getter.py:149-158 | there is one round per enabled source |
| CompleteGetter.Classify | industry_classification_complete_getter.py:124-191 | for given round outcomes: no stocks gives no results; otherwise every code gets a result; without an interrupt each is the first finding source's result or the fallback; with one, codes still pending get the fallback and at least one does |
| CompleteGetter.GetCompleteClassification | industry_classification_complete_getter.py:124-191 | every input code gets the result of the first enabled source by priority that finds it, or the fallback; an interrupt ends the rounds early and leaves the pending codes with the fallback |
| CompleteGetter.FillFailed | industry_classification_complete_getter.py:664-675 | every pending code gets the unclassified fallback; processed codes keep their result |

## Left out

- HTTP scraping: the request code, HTML and JSON payload parsing, akshare and random User-Agent headers of every data source are left out. Each source is a parameter that returns a result or nothing, and a raised exception counts as nothing.
- Storage engines and file formats: SQLite, pickle, JSON and CSV writing and reading are left out, and so are the backup directory copy and the retention sweep. Tables are sequences of rows and the cache files are values.
- `restore_stocks`, `save_version_info`, `init_database`, `CacheManager` and `restore_from_csv` in local_storage.py are not modelled. They are file and database plumbing with no record logic beyond what the modelled backups and restores show.
- Checkpoint file writing (`save_checkpoint` and `save_partial_results` write files), `generate_changelog`, `save_changelog`, `load_previous_data` and the history file reading and writing of `VersionManager` are left out as file I/O. The checkpoint directory is its list of names plus a reader.
- `save_to_local_storage`, `save_csv_backup`, the quality-report delegation, timestamps, durations and `process_complete_pipeline` in data_processing_pipeline.py are left out. They call the storage layer or the clock and add no record logic.
- The thread pool, its 30-second timeout, progress logging, `_display_final_stats`, `get_stats_summary` and `ProgressTracker` in concurrent_data_fetcher.py are left out as concurrency and display.
- `get_last_query`, `load_subject_options`, the service lock and the pandas DataFrame in financial_query_service.py are left out. The rows and columns the frame is built from are modelled.
- Signals, sleeps and the interactive menu are left out: the SIGINT handler, `time.sleep`, and `_handle_interruption` / `_resume_processing`, which read `input()`. The interrupt is a parameter: the first flag check that finds the flag set.
- `export_to_excel`, the Excel exporter, the UI, the launchers and the test, verify and example scripts are left out. They are layout, UI or scripts, not record logic.
- `_generate_mock_data` is left out: it draws from a seeded random generator. Its value is a parameter of `RealEstateCollector.SearchRealEstateData`, or nothing when `int(code[-3:])` raises.
- Logging and printed progress are left out everywhere.
- Character classes are ASCII-only: `\d`, `str.isdigit`, `str.upper` and `str.lower` are read as ASCII in the model. Python also accepts other Unicode decimal digits and letters. So `_parse_stock_codes("６００５１９")` keeps the full-width code and `_normalize_report_date("２０２４０３３１")` gives "2024-03-31" in the source, while the model drops both. Whitespace (`str.strip`, `\s`) follows Python's full set.
- Values compare by form, not by Python value: a `Records.Cell` number carries the text `str()` gives it. So `100` and `100.0`, or `True` and `1`, are different values in the model, while Python's `==` and hashing identify them. `Checkpoints.CompareFinancialData` therefore reports a change from 100 to 100.0 as an update, and the de-duplication and merge keys treat 600000 and 600000.0 as different codes.
- DataValidator.ValidateIndustryClassification: for a truthy industry that is not a dictionary, the test `'l1' not in industry or not industry['l1']` raises `TypeError` when the value is a number, `True`, or a string containing "l1" (`DataValidator.IndustryRaises`). The model returns the missing-level-1 failure instead (`DataValidator.NonDictIndustry`); only for a string without "l1" is that the source's own answer.
- DataValidator.ValidateRecord: the same `TypeError` escapes `validate_record` for a record with such an industry; the model lists the missing-level-1 problem.
- DataValidator.CleanRecord: `clean_record` keeps a truthy industry as it is and validates the cleaned record, so such an industry raises there once the code and name are cleaned; the model returns the cleaned record.
- DataValidator.CleanRecords: `clean_records` has no `try`, so one record with such an industry aborts the whole batch; the model carries on with the other records.
- DataPipeline.PipelineCleanRecords: the pipeline's cleaning loop has no `try` either, so the same record aborts it; the model carries on.
- LocalStorage.StocksTable: the `code` column is a `TEXT PRIMARY KEY`, so SQLite stores the integer 600000 as "600000" and `INSERT OR REPLACE` makes it one row with the text code. The model keys rows by the structural `Cell` and keeps two.
- LocalStorage.StocksLastWins: last write wins per structural `Cell` code; a numeric code and its text form, one row under TEXT affinity, are two codes in the model.
- LocalStorage.IndustriesRoundTrip: the level columns are `TEXT`, so a numeric `l1`, `l2` or `l3` reads back as text. The round trip is stated for the values as written, which SQLite returns unchanged only when they are text.
- LocalStorage.FinancialRoundTrip: SQLite column affinity is not modelled. A `REAL` column turns the text "123" into 123.0 and the integer 100 into 100.0, and the `TEXT` code column turns an integer code into text. The round trip is stated for the stored values as they are.
- LocalStorage.BackupThenRestoreFinancial: same as above. Column affinity is not modelled, so the restored record is stated for the values as they were written.
- CacheStore.SavedStocksReadBack: every column of the cache's `stocks` table is `TEXT` (local_cache/cache_store.py:168-175), and `_normalize_records` keeps a truthy non-string name, market, list date, source or update time as it is. SQLite therefore stores 5 as '5' and `True` as '1', and the read-back entry differs. The round trip is stated for the entries as saved, which SQLite returns unchanged only when every field is text.
- CacheStore.Load: its database branch reads back the table `_save_to_db` wrote, with the same `TEXT` affinity. The model returns the saved entries as they were, not the text SQLite gives back for a numeric or boolean field. The same holds for the level columns of the industries table.
- DataValidator.Bound: for a negative amount with zero allowed, the source returns the integer `0`, whose `str()` is "0". The model returns `Some(0.0)`, and `DataValidator.AmountCell` shows it as `fmt(0.0)`. Under the by-form comparison of values this is a different cell from `Num(0.0, "0")`.
- Unhashable codes: a dictionary-valued code raises `TypeError` in Python wherever it meets a set or a dictionary key. `Checkpoints.CodesOf` and `Checkpoints.PreviousMap` (checkpoint_manager.py:187-188, 220-223) would raise, `code in seen` in `RealEstateCollector.CleanFrom` would raise and skip the item through its `except`, and the de-duplication keys of `DataDeduplication` and `DataPipeline.DeduplicateRecords` would raise too. The model treats such a code as an ordinary key.
- ConcurrentFetcher.FetchConcurrent: the rows are collected in stock order. The source appends them in `as_completed` order, so its rows come back in completion order; the model states their number and contents, not that order.
- CacheMetadata.IsStoreFresh: the age is in whole seconds. The source uses the float `total_seconds()` of the current time to the microsecond, so an age of 3600.4 s with a TTL of 3600 is stale in the source and fresh in the model.
- Python floats are modelled as Dafny reals throughout, in the quality scores, success rates, average times and coverage figures. Rounding and NaN are not modelled.
- FinancialQuery.QueryToFloat: the contract states the `None` and number cases. Text is handed to the `float()` parameter after the blank, `nan` and `none` checks, and what that parameter accepts is not stated.
- CompleteGetter.GetCompleteClassification: the results stay `Classification` values. `_result_to_dict` renders the confidence with `str()` of a float, and that rendering is not modelled.
- `_initialize_source_stats` reads `cfg['enabled']` and raises `KeyError` for a configuration entry that omits `enabled`, although `_load_sources_config` kept that entry by defaulting it to true. The model keeps such entries and does not raise.
- SinaStockList.VerifyAll: the UTF-8 encoding check on each name always passes in the model, because a Dafny string holds no lone surrogate. A Python string can hold one, and then `verify_all` raises.
- `int(board_cfg.get("min_batch_size", 300))` in `batch_get_industries` and `int(...)` of a source weight can raise on a non-integer setting. The model takes these settings as integers.
- `concurrent_data_fetcher.py` imports `CONCURRENT_CONFIG` and `FAST_FAIL_CONFIG`, which config.py does not define. The fetcher's settings (worker count, timeouts) are not modelled; the selector's minimum success rate is a parameter, as in its constructor.
- `CacheMetadata.LoadAsWritten` bounds the `load` / `ensure_exists` recursion by a `fuel` parameter. Python's recursion limit turns the endless recursion into a `RecursionError`, and the model represents that as no result at any depth.

## Findings

| source | as written | input that shows it | evidently intended | confidence | as-written member | corrected member |
|---|---|---|---|---|---|---|
| data_validator.py:264-269 | `clean_financial_value` tests for 万 before 百万, so the 百万 branch is dead and a value in millions loses its 万 and fails to parse | `"2百万"`: 万 is removed, `float("2百")` raises, and the value becomes `None` | 2000000 | not executed | DataValidator.CleanFinancialValueAsWritten | DataValidator.CleanFinancialValue |
| local_cache/metadata.py:61-74 | `load` calls `ensure_exists` for an unreadable or non-object file, and `ensure_exists` (lines 46-48) calls `load` again because the file exists | an existing `cache_metadata.json` holding `[]` or invalid JSON: the recursion never returns a document | the defaults (or a rewritten file) for a corrupt document | not executed | CacheMetadata.LoadAsWritten | CacheMetadata.Load |

The record cleaner (`DataValidator.CleanedYear`, `DataValidator.CleanRecord`) and the freshness test and store update (`CacheMetadata.IsStoreFresh`, `CacheMetadata.UpdateStore`) follow the code as written. `DataValidator.MillionsLostAsWritten` exhibits the first discrepancy, and `DataValidator.CleanMillions` proves the intended reading. `CacheMetadata.LoadAsWrittenNeverReturns` exhibits the second, and `CacheMetadata.LoadAsWrittenAgrees` shows that the two agree wherever the original returns.
