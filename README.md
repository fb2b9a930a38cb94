# Daily page statistics store

A Dafny model of the per-page daily statistics store of Fathom's SQL datastore
(`pkg/datastore/sqlstore/page_stats.go`). The store keeps one bucket per
(site, hostname, pathname, day) with pageviews, visitors, entries, bounce
rate, average duration and known durations. It offers four operations:

- `GetPageStats` looks a bucket up by its exact key.
- `SavePageStats` writes a bucket back. The caller's `New` flag alone routes it
  to `insertPageStats` (add a row) or `updatePageStats` (overwrite the row's six
  counter and rate columns).
- `GetAggregatedPageStats` reports one site over an inclusive range of days.
  It groups the rows by resolved hostname and pathname names (outer joins, so a
  name may be absent), sums the counters, and computes the entry-weighted bounce
  rate and the pageview-weighted average duration. It orders the lines by
  pageviews and cuts the report to `limit` lines.
- `GetAggregatedPageStatsPageviews` totals the pageviews of one site over such
  a range.

The SQL statements are modelled as operations on an in-memory table:

- `models.dfy` (module `Models`): the value types. These are a bucket key with
  the date as a day number, the counters, the record with its `isNew` flag, a
  report line with optional names and an optional average duration, and the
  error kinds.
- `table.dfy` (module `Table`): the `daily_page_stats` rows as a sequence.
  - `UniqueKeys` is the table's uniqueness constraint.
  - `TableOf` is the keyed view, a map from bucket key to counters.
  - `Find` is the exact-key `SELECT ... LIMIT 1`.
  - `Overwrite` is the `UPDATE ... WHERE <key>`.
  - Lemmas relate these three to the keyed view.
- `aggregation.dfy` (module `Aggregation`): the two reporting queries as
  functions. It holds the `WHERE` filter, `GROUP BY` done as a one-pass
  grouping, the `SELECT` list of a group, `ORDER BY pageviews DESC` as an
  insertion sort, and `LIMIT`. `IsReport` says what a report must be: one line
  per group, each line the summary of exactly its group's rows, no group twice,
  pageviews non-increasing, cut to `limit`, and every group left out no larger
  than any line kept.
- `sqlstore.dfy` (module `SqlStore`): the class `PageStatsStore`. It holds the
  rows as a field, and the hostnames and pathnames tables it joins as constants.
  - `GetPageStats` and the two aggregation queries are functions that read the
    store.
  - `SavePageStats`, `InsertPageStats` and `UpdatePageStats` are methods that
    modify it.
  - The methods state the new keyed table through `InsertOutcome` and
    `UpdateOutcome`, and keep `Valid()` (unique keys).

A record that has been inserted keeps `isNew`, because `insertPageStats` does
not clear the caller's flag. Saving the same record a second time therefore
inserts again, and the model answers `DuplicateKey`.

## Model

| member | source | states |
|---|---|---|
| `SqlStore.PageStatsStore.GetPageStats` | pkg/datastore/sqlstore/page_stats.go:10-19 | Fails with NotFound exactly when no bucket has the key. Otherwise it returns that bucket's counters under the same key, with the New flag false. |
| `SqlStore.PageStatsStore.SavePageStats` | pkg/datastore/sqlstore/page_stats.go:21-27 | A new record gets the insert effect and any other record the update effect; the choice rests on the flag alone. A new record on a fresh key, or an existing record on an existing key, reads back through GetPageStats with exactly its counters and the flag false. |
| `SqlStore.PageStatsStore.InsertPageStats` | pkg/datastore/sqlstore/page_stats.go:29-33 | A fresh key is appended as one row, and the keyed table gains exactly that bucket. A key already present fails with DuplicateKey and leaves the rows unchanged. Unique keys are kept. |
| `SqlStore.PageStatsStore.UpdatePageStats` | pkg/datastore/sqlstore/page_stats.go:35-39 | Never fails. The bucket with the record's key takes the record's six counters outright, and every other bucket is unchanged. With no such bucket nothing changes and the row count stays the same. |
| `SqlStore.PageStatsStore.GetAggregatedPageStats` | pkg/datastore/sqlstore/page_stats.go:41-59 | The result is a report (IsReport) over the site's rows in [startDate, endDate]. |
| `SqlStore.PageStatsStore.GetAggregatedPageStatsPageviews` | pkg/datastore/sqlstore/page_stats.go:61-66 | Equals the summed pageviews of the grouped report's groups over the same rows. It is 0 when no row of the site lies in the range. |
| `Table.Find` | pkg/datastore/sqlstore/page_stats.go:12-16 | Finds nothing exactly when no row carries the key. What it finds is the counters of a row carrying the key. |
| `Table.FindAgreesWithTable` | pkg/datastore/sqlstore/page_stats.go:12-16 | On a table with unique keys, the lookup returns exactly the keyed view's entry for the key, or nothing when the key is absent. |
| `Table.TableOfKeys` | pkg/datastore/sqlstore/page_stats.go:12 | A key is in the keyed view exactly when some row carries it. |
| `Table.TableOfRow` | pkg/datastore/sqlstore/page_stats.go:12 | With unique keys, the keyed view maps each row's key to that row's own counters. |
| `Table.AppendFreshKey` | pkg/datastore/sqlstore/page_stats.go:30-31 | Appending a row under a fresh key keeps keys unique, and adds exactly that bucket to the keyed view. |
| `Table.Overwrite` | pkg/datastore/sqlstore/page_stats.go:36-37 | Keeps the number of rows and every row's key. Rows with the key get the new counters; all other rows are untouched. |
| `Table.OverwriteTable` | pkg/datastore/sqlstore/page_stats.go:36-37 | In the keyed view, overwriting replaces the key's counters when the key is present. Otherwise the view is unchanged: no bucket is created and none is merged. |
| `Aggregation.InRange` | pkg/datastore/sqlstore/page_stats.go:54 | A row is selected exactly when it has the site and startDate <= date <= endDate, inclusive at both ends. |
| `Aggregation.Members` | pkg/datastore/sqlstore/page_stats.go:52-55 | The members of a group are exactly the rows whose resolved (hostname, pathname) names are that group. |
| `Aggregation.AccumulateEffect` | pkg/datastore/sqlstore/page_stats.go:55 | Adding a row into the groups adds its counters to its own group, or appends the group when it is new. Every other group is unchanged. |
| `Aggregation.GroupByKeys` | pkg/datastore/sqlstore/page_stats.go:52-55 | Grouping gives one group for each resolved name pair among the rows, including absent names, and no pair twice. |
| `Aggregation.GroupByTotals` | pkg/datastore/sqlstore/page_stats.go:46-50 | Every group's sums (pageviews, visitors, entries and the two weights) are the sums over exactly that group's rows. |
| `Aggregation.InsertByPageviews` | pkg/datastore/sqlstore/page_stats.go:56 | Inserting into a list sorted by descending pageviews keeps it sorted, and adds exactly the one element. |
| `Aggregation.SortByPageviews` | pkg/datastore/sqlstore/page_stats.go:56 | The result is ordered by non-increasing pageviews and is a permutation of the input. |
| `Aggregation.ReportCorrect` | pkg/datastore/sqlstore/page_stats.go:43-56 | Its length is min(limit, number of groups). Each line is the summary of its own group's rows; no group appears twice; pageviews never increase; a group left out has no more pageviews than any line kept. |
| `Aggregation.ReportLeftOut` | pkg/datastore/sqlstore/page_stats.go:56 | Cutting to limit keeps the groups with the most pageviews: a group without a line has no more pageviews than every line. |
| `Aggregation.LeftOutBelow` | pkg/datastore/sqlstore/page_stats.go:56 | The same bound, for one group left out and one line kept. |
| `Aggregation.BounceWeightBounds` | pkg/datastore/sqlstore/page_stats.go:48-49 | Take rows with non-negative entries and rates in [lo, hi]. Then Σentries >= 0, and Σ(entries·bounce_rate) lies between lo·Σentries and hi·Σentries. |
| `Aggregation.BounceRateWithinRowRates` | pkg/datastore/sqlstore/page_stats.go:49 | A group's bounce rate is exactly 0 when its entries sum to 0. Otherwise it lies within the range of its rows' rates, so rates in [0, 1] give a rate in [0, 1]. |
| `Aggregation.DurationWeightBounds` | pkg/datastore/sqlstore/page_stats.go:50 | Take rows with non-negative pageviews and durations in [lo, hi]. Then Σpageviews >= 0, and Σ(pageviews·avg_duration) lies between lo·Σpageviews and hi·Σpageviews. |
| `Aggregation.AvgDurationWithinRowDurations` | pkg/datastore/sqlstore/page_stats.go:50 | A group's average duration is present exactly when its pageviews do not sum to 0. When present, it lies within the range of its rows' durations. |
| `Aggregation.RangeSplit` | pkg/datastore/sqlstore/page_stats.go:63 | Splitting an inclusive range at a day splits the pageview total: no day is missed and none is counted twice. |
| `Aggregation.GroupByPageviews` | pkg/datastore/sqlstore/page_stats.go:46 | The pageviews of the groups add up to the pageviews of the rows. |
| `Aggregation.WeightedBounceExample` | pkg/datastore/sqlstore/page_stats.go:49 | Two days of one page, with 5 entries at rate 0.4 and 10 at rate 0.6, report a bounce rate of 8/15. |
| `Aggregation.OrderAndLimitExample` | pkg/datastore/sqlstore/page_stats.go:56 | Pages with 50, 10 and 30 pageviews and a limit of 2 report the 50 page and then the 30 page. |
| `Aggregation.ExampleGroups` | pkg/datastore/sqlstore/page_stats.go:55 | Three rows with three distinct pathnames form three groups, in row order, each with its own sums. |
| `Aggregation.RangeWithGapsExample` | pkg/datastore/sqlstore/page_stats.go:63 | Buckets on days 1 and 3 of the range [1, 3] both count. A range with no bucket totals 0. |

## Left out

- The SQL text, `Rebind`, the driver calls `Get`, `Select` and `Exec`, and `mapError` are not modelled. The in-memory table replaces them, so storage faults other than NotFound and DuplicateKey do not occur in the model.
- `time.Time` and its `YYYY-MM-DD` formatting are not modelled. A date is an integer day number with no timezone.
- The database's floating-point arithmetic is not modelled. Rates and weighted sums are exact `real` values.
- Division by a zero sum of pageviews is not resolved. In the source, `avg_duration` divides by `SUM(pageviews)` with no `NULLIF` guard, unlike `bounce_rate`. Some engines give NULL there, which `COALESCE` turns into 0; others raise an error. The model returns `None` for such a group and does not pick either outcome. Where an engine yields NULL, the `COALESCE(..., 0.00)` around the division reports 0.
- SqlStore.PageStatsStore.GetAggregatedPageStats: takes `limit` as a natural number. A negative `LIMIT` means "no limit" in some SQL engines and is an error in others.
- SqlStore.PageStatsStore.GetAggregatedPageStats: promises only non-increasing pageviews. Groups with equal pageviews come out in whatever order the insertion sort leaves them, because the query has no secondary sort key.
- The counters are unbounded integers. Overflow of 64-bit sums is not modelled.
- Concurrent `SavePageStats` calls on the same key are not modelled, nor is the engine's isolation level.
- The schema file is not part of this model. An insert on an existing key is modelled as refused with `DuplicateKey`, as the uniqueness constraint on (site_id, hostname_id, pathname_id, date) would do.
- `pkg/models` is not part of this model. Report lines carry optional names. How the Go record type scans an absent name is not modelled.
