/** Value types of the daily per-page statistics store. */
module Models {

  datatype Option<+T> = None | Some(value: T)

  /** The composite key of one bucket. A day is a day number: the store only
      ever compares dates as YYYY-MM-DD text, which orders as day numbers do. */
  datatype Key = Key(siteID: int, hostnameID: int, pathnameID: int, date: int)

  /** The counter and rate columns of one bucket. */
  datatype Counters = Counters(
    pageviews: int,
    visitors: int,
    entries: int,
    bounceRate: real,
    avgDuration: real,
    knownDurations: int)

  /** A bucket record as the store hands it out and takes it back. `isNew` is
      the transient flag that routes a save to an insert or an update; it is
      not stored. */
  datatype PageStats = PageStats(isNew: bool, key: Key, counters: Counters)

  /** One line of the aggregated report. A name is absent when the id of the
      bucket has no row in the hostnames or pathnames table (outer join).
      `avgDuration` is None where the query divides by a zero sum of
      pageviews, whose outcome depends on the SQL engine. */
  datatype AggregatedStats = AggregatedStats(
    hostname: Option<string>,
    pathname: Option<string>,
    pageviews: int,
    visitors: int,
    entries: int,
    bounceRate: real,
    avgDuration: Option<real>)

  /** NotFound: a lookup matched no bucket. DuplicateKey: an insert hit the
      uniqueness constraint on (site, hostname, pathname, date). */
  datatype StoreError = NotFound | DuplicateKey

  datatype Result<+T> = Success(value: T) | Failure(error: StoreError)

  datatype Outcome = Pass | Fail(error: StoreError)
}
