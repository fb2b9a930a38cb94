/** The page statistics operations of the SQL datastore, over an in-memory
    daily_page_stats table and the hostnames and pathnames tables it joins. */
module SqlStore {
  import opened Models
  import opened Table
  import opened Aggregation

  class PageStatsStore {
    /** The rows of daily_page_stats. */
    var rows: seq<Row>
    /** The hostnames and pathnames tables, id to name; this store only reads them. */
    const hostnames: map<int, string>
    const pathnames: map<int, string>

    /** The uniqueness constraint on (site_id, hostname_id, pathname_id, date). */
    ghost predicate Valid()
      reads this
    {
      UniqueKeys(rows)
    }

    /** The table as a map from bucket key to counters. */
    ghost function Contents(): map<Key, Counters>
      reads this
    {
      TableOf(rows)
    }

    constructor (hostnames: map<int, string>, pathnames: map<int, string>)
      ensures Valid() && Contents() == map[]
      ensures this.hostnames == hostnames && this.pathnames == pathnames
    {
      rows := [];
      this.hostnames := hostnames;
      this.pathnames := pathnames;
    }

    /** The bucket of one key, with the existence flag cleared, or NotFound
        when the table holds no such bucket. */
    function GetPageStats(siteID: int, date: int, hostnameID: int, pathnameID: int): (r: Result<PageStats>)
      reads this
      requires Valid()
      ensures var k := Key(siteID, hostnameID, pathnameID, date);
        && (r.Failure? <==> k !in Contents())
        && (r.Failure? ==> r.error == NotFound)
        && (r.Success? ==> r.value == PageStats(false, k, Contents()[k]))
    {
      var k := Key(siteID, hostnameID, pathnameID, date);
      FindAgreesWithTable(rows, k);
      match Find(rows, k)
      case Some(c) => Success(PageStats(false, k, c))
      case None => Failure(NotFound)
    }

    /** Routes on the caller's flag alone: an insert when the record is new,
        an update otherwise. */
    method SavePageStats(s: PageStats) returns (err: Outcome)
      requires Valid()
      modifies this
      ensures Valid()
      ensures s.isNew ==> InsertOutcome(old(Contents()), s, Contents(), err)
      ensures !s.isNew ==> UpdateOutcome(old(Contents()), s, Contents(), err)
      ensures (s.isNew && s.key !in old(Contents())) || (!s.isNew && s.key in old(Contents())) ==>
        GetPageStats(s.key.siteID, s.key.date, s.key.hostnameID, s.key.pathnameID) ==
          Success(PageStats(false, s.key, s.counters))
    {
      if s.isNew {
        err := InsertPageStats(s);
      } else {
        err := UpdatePageStats(s);
      }
    }

    /** Adds the row of a new bucket; a key already in the table is refused
        by its uniqueness constraint and nothing changes. */
    method InsertPageStats(s: PageStats) returns (err: Outcome)
      requires Valid()
      modifies this
      ensures Valid()
      ensures InsertOutcome(old(Contents()), s, Contents(), err)
      ensures err.Pass? ==> rows == old(rows) + [Row(s.key, s.counters)]
      ensures err.Fail? ==> rows == old(rows)
    {
      if Find(rows, s.key).Some? {
        FindAgreesWithTable(rows, s.key);
        err := Fail(DuplicateKey);
      } else {
        FindAgreesWithTable(rows, s.key);
        AppendFreshKey(rows, s.key, s.counters);
        rows := rows + [Row(s.key, s.counters)];
        err := Pass;
      }
    }

    /** Overwrites every counter and rate of the bucket with the record's key;
        when there is no such bucket nothing changes and no row is created. */
    method UpdatePageStats(s: PageStats) returns (err: Outcome)
      requires Valid()
      modifies this
      ensures Valid()
      ensures UpdateOutcome(old(Contents()), s, Contents(), err)
      ensures |rows| == |old(rows)|
    {
      OverwriteTable(rows, s.key, s.counters);
      rows := Overwrite(rows, s.key, s.counters);
      err := Pass;
    }

    /** The grouped report of one site over [startDate, endDate]: one line per
        resolved (hostname, pathname) of its rows, ordered by pageviews,
        at most `limit` lines. */
    function GetAggregatedPageStats(siteID: int, startDate: int, endDate: int, limit: nat): (r: seq<AggregatedStats>)
      reads this
      ensures IsReport(InRange(rows, siteID, startDate, endDate), hostnames, pathnames, limit, r)
    {
      ReportCorrect(InRange(rows, siteID, startDate, endDate), hostnames, pathnames, limit);
      Report(InRange(rows, siteID, startDate, endDate), hostnames, pathnames, limit)
    }

    /** The total of pageviews of one site over [startDate, endDate]: the
        pageviews of the report's groups added up, and 0 when no row is in
        the range. */
    function GetAggregatedPageStatsPageviews(siteID: int, startDate: int, endDate: int): (r: int)
      reads this
      ensures r == GroupPageviews(GroupBy(InRange(rows, siteID, startDate, endDate), hostnames, pathnames))
      ensures (forall x :: x in rows ==> x.key.siteID != siteID || x.key.date < startDate || endDate < x.key.date) ==> r == 0
    {
      GroupByPageviews(InRange(rows, siteID, startDate, endDate), hostnames, pathnames);
      TotalPageviews(rows, siteID, startDate, endDate)
    }
  }

  /** The effect of an insert on the keyed table: a fresh key is added with
      the record's counters; an existing key fails with DuplicateKey and
      leaves the table as it was. */
  ghost predicate InsertOutcome(before: map<Key, Counters>, s: PageStats, after: map<Key, Counters>, err: Outcome) {
    if s.key in before then err == Fail(DuplicateKey) && after == before
    else err == Pass && after == before[s.key := s.counters]
  }

  /** The effect of an update on the keyed table: the bucket with the
      record's key takes the record's counters, replacing the old ones
      outright; without such a bucket nothing changes. It never fails. */
  ghost predicate UpdateOutcome(before: map<Key, Counters>, s: PageStats, after: map<Key, Counters>, err: Outcome) {
    && err == Pass
    && after == if s.key in before then before[s.key := s.counters] else before
  }
}
