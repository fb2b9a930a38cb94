/** The two reporting queries over the table: the per-page report grouped by
    resolved hostname and pathname, and the total of pageviews. */
module Aggregation {
  import opened Models
  import opened Table

  // ---------------------------------------------------------------------
  // Selection: WHERE site_id = ? AND date >= ? AND date <= ?

  /** The rows of one site whose day lies in [startDate, endDate], both ends included. */
  function InRange(rows: seq<Row>, siteID: int, startDate: int, endDate: int): (r: seq<Row>)
    ensures forall x :: x in r <==> x in rows && x.key.siteID == siteID && startDate <= x.key.date <= endDate
  {
    if rows == [] then []
    else
      var prefix, last := rows[..|rows| - 1], rows[|rows| - 1];
      assert rows == prefix + [last];
      InRange(prefix, siteID, startDate, endDate)
        + (if last.key.siteID == siteID && startDate <= last.key.date <= endDate then [last] else [])
  }

  // ---------------------------------------------------------------------
  // Sums: SUM(pageviews), SUM(visitors), SUM(entries), SUM(entries*bounce_rate),
  // SUM(pageviews*avg_duration)

  /** The sums one group of rows contributes to the report. */
  datatype Totals = Totals(
    pageviews: int,
    visitors: int,
    entries: int,
    bounceWeight: real,
    durationWeight: real)

  const ZERO: Totals := Totals(0, 0, 0, 0.0, 0.0)

  /** Adds one row's counters into the running sums. */
  function Add(t: Totals, c: Counters): Totals {
    Totals(
      t.pageviews + c.pageviews,
      t.visitors + c.visitors,
      t.entries + c.entries,
      t.bounceWeight + c.entries as real * c.bounceRate,
      t.durationWeight + c.pageviews as real * c.avgDuration)
  }

  /** The sums over a sequence of rows. */
  function TotalsOf(rows: seq<Row>): Totals {
    if rows == [] then ZERO else Add(TotalsOf(rows[..|rows| - 1]), rows[|rows| - 1].counters)
  }

  // ---------------------------------------------------------------------
  // Groups: LEFT JOIN hostnames, pathnames ... GROUP BY hostname, pathname

  /** The group of a row: its hostname and pathname names. */
  datatype GroupKey = GroupKey(hostname: Option<string>, pathname: Option<string>)

  /** LEFT JOIN on an id: the name when the id has a row in the names table,
      no name otherwise. */
  function Resolve(names: map<int, string>, id: int): Option<string> {
    if id in names then Some(names[id]) else None
  }

  function GroupOf(x: Row, hostnames: map<int, string>, pathnames: map<int, string>): GroupKey {
    GroupKey(Resolve(hostnames, x.key.hostnameID), Resolve(pathnames, x.key.pathnameID))
  }

  /** The groups that the rows fall into. */
  function GroupKeys(rows: seq<Row>, hostnames: map<int, string>, pathnames: map<int, string>): set<GroupKey> {
    set x | x in rows :: GroupOf(x, hostnames, pathnames)
  }

  /** The rows that fall into group `g`. */
  function Members(rows: seq<Row>, g: GroupKey, hostnames: map<int, string>, pathnames: map<int, string>): (r: seq<Row>)
    ensures forall x :: x in r <==> x in rows && GroupOf(x, hostnames, pathnames) == g
  {
    if rows == [] then []
    else
      var prefix, last := rows[..|rows| - 1], rows[|rows| - 1];
      assert rows == prefix + [last];
      Members(prefix, g, hostnames, pathnames)
        + (if GroupOf(last, hostnames, pathnames) == g then [last] else [])
  }

  /** A group no row falls into has no members. */
  lemma {:induction false} NoMembers(rows: seq<Row>, g: GroupKey, hostnames: map<int, string>, pathnames: map<int, string>)
    requires g !in GroupKeys(rows, hostnames, pathnames)
    ensures Members(rows, g, hostnames, pathnames) == []
  {
    if rows != [] {
      var prefix, last := rows[..|rows| - 1], rows[|rows| - 1];
      assert GroupOf(last, hostnames, pathnames) in GroupKeys(rows, hostnames, pathnames);
      assert forall x :: x in prefix ==> x in rows;
      NoMembers(prefix, g, hostnames, pathnames);
    }
  }

  datatype Group = Group(key: GroupKey, totals: Totals)

  predicate DistinctGroups(groups: seq<Group>) {
    forall i, j :: 0 <= i < j < |groups| ==> groups[i].key != groups[j].key
  }

  function KeysOfGroups(groups: seq<Group>): set<GroupKey> {
    set i | 0 <= i < |groups| :: groups[i].key
  }

  /** The position of group `g`, if the sequence holds it. */
  function GroupIndex(groups: seq<Group>, g: GroupKey): (r: Option<nat>)
    ensures r.Some? ==> r.value < |groups| && groups[r.value].key == g
    ensures r.None? ==> forall i :: 0 <= i < |groups| ==> groups[i].key != g
  {
    if groups == [] then None
    else if groups[|groups| - 1].key == g then Some(|groups| - 1)
    else GroupIndex(groups[..|groups| - 1], g)
  }

  /** Adds one row, of group `g`, into the groups built so far. */
  function Accumulate(groups: seq<Group>, g: GroupKey, c: Counters): seq<Group> {
    match GroupIndex(groups, g)
    case Some(i) => groups[i := Group(g, Add(groups[i].totals, c))]
    case None => groups + [Group(g, Add(ZERO, c))]
  }

  /** GROUP BY in one pass over the rows. */
  function GroupBy(rows: seq<Row>, hostnames: map<int, string>, pathnames: map<int, string>): seq<Group> {
    if rows == [] then []
    else
      var last := rows[|rows| - 1];
      Accumulate(GroupBy(rows[..|rows| - 1], hostnames, pathnames), GroupOf(last, hostnames, pathnames), last.counters)
  }

  /** Splitting off the last row splits off its contribution to its group. */
  lemma MembersOfLast(rows: seq<Row>, g: GroupKey, hostnames: map<int, string>, pathnames: map<int, string>)
    requires rows != []
    ensures var prefix, last := rows[..|rows| - 1], rows[|rows| - 1];
      TotalsOf(Members(rows, g, hostnames, pathnames)) ==
        if GroupOf(last, hostnames, pathnames) == g
        then Add(TotalsOf(Members(prefix, g, hostnames, pathnames)), last.counters)
        else TotalsOf(Members(prefix, g, hostnames, pathnames))
  {
    var prefix, last := rows[..|rows| - 1], rows[|rows| - 1];
    var m := Members(prefix, g, hostnames, pathnames);
    if GroupOf(last, hostnames, pathnames) == g {
      assert (m + [last])[..|m|] == m;
    } else {
      assert m + [] == m;
    }
  }

  /** What adding one row does to the groups: the row's group gets the row's
      counters added, or is appended when it was not there; every other group
      stays as it was. */
  lemma AccumulateEffect(groups: seq<Group>, g: GroupKey, c: Counters)
    requires DistinctGroups(groups)
    ensures var a := Accumulate(groups, g, c);
      && |groups| <= |a| <= |groups| + 1
      && (forall i :: 0 <= i < |groups| ==> a[i].key == groups[i].key)
      && (forall i :: 0 <= i < |groups| && groups[i].key != g ==> a[i] == groups[i])
      && (forall i :: 0 <= i < |groups| && groups[i].key == g ==> a[i].totals == Add(groups[i].totals, c))
      && (|a| == |groups| + 1 <==> g !in KeysOfGroups(groups))
      && (|a| == |groups| + 1 ==> a[|groups|] == Group(g, Add(ZERO, c)))
  {
    match GroupIndex(groups, g)
    case Some(k) =>
      assert g in KeysOfGroups(groups);
    case None =>
      assert g !in KeysOfGroups(groups);
  }

  /** Adding one row of group `g` keeps the groups distinct and adds `g` to their keys. */
  lemma AccumulateKeys(groups: seq<Group>, g: GroupKey, c: Counters)
    requires DistinctGroups(groups)
    ensures DistinctGroups(Accumulate(groups, g, c))
    ensures KeysOfGroups(Accumulate(groups, g, c)) == KeysOfGroups(groups) + {g}
  {
    var a := Accumulate(groups, g, c);
    AccumulateEffect(groups, g, c);
    forall i, j | 0 <= i < j < |a| ensures a[i].key != a[j].key {
      if j == |groups| {
        assert groups[i].key in KeysOfGroups(groups);
      }
    }
    forall h | h in KeysOfGroups(a) ensures h in KeysOfGroups(groups) + {g} {
      var i :| 0 <= i < |a| && a[i].key == h;
      if i < |groups| {
        assert groups[i].key == h;
      }
    }
    forall h | h in KeysOfGroups(groups) ensures h in KeysOfGroups(a) {
      var i :| 0 <= i < |groups| && groups[i].key == h;
      assert a[i].key == h;
    }
    if |a| == |groups| {
      var i :| 0 <= i < |groups| && groups[i].key == g;
      assert a[i].key == g;
    } else {
      assert a[|groups|].key == g;
    }
  }

  /** The group keys of the rows are those of all but the last row, and the last row's. */
  lemma GroupKeysSnoc(rows: seq<Row>, hostnames: map<int, string>, pathnames: map<int, string>)
    requires rows != []
    ensures GroupKeys(rows, hostnames, pathnames) ==
      GroupKeys(rows[..|rows| - 1], hostnames, pathnames) + {GroupOf(rows[|rows| - 1], hostnames, pathnames)}
  {
    assert rows == rows[..|rows| - 1] + [rows[|rows| - 1]];
  }

  /** The grouping pass yields one group per group key of the rows, no key twice. */
  lemma {:induction false} GroupByKeys(rows: seq<Row>, hostnames: map<int, string>, pathnames: map<int, string>)
    ensures DistinctGroups(GroupBy(rows, hostnames, pathnames))
    ensures KeysOfGroups(GroupBy(rows, hostnames, pathnames)) == GroupKeys(rows, hostnames, pathnames)
  {
    if rows != [] {
      var prefix, last := rows[..|rows| - 1], rows[|rows| - 1];
      GroupByKeys(prefix, hostnames, pathnames);
      AccumulateKeys(GroupBy(prefix, hostnames, pathnames), GroupOf(last, hostnames, pathnames), last.counters);
      GroupKeysSnoc(rows, hostnames, pathnames);
    }
  }

  /** Each group's sums are the sums over exactly the rows of that group. */
  lemma {:induction false} GroupByTotals(rows: seq<Row>, hostnames: map<int, string>, pathnames: map<int, string>)
    ensures forall i :: 0 <= i < |GroupBy(rows, hostnames, pathnames)| ==>
      GroupBy(rows, hostnames, pathnames)[i].totals ==
        TotalsOf(Members(rows, GroupBy(rows, hostnames, pathnames)[i].key, hostnames, pathnames))
  {
    if rows != [] {
      var prefix := rows[..|rows| - 1];
      GroupByTotals(prefix, hostnames, pathnames);
      GroupByKeys(prefix, hostnames, pathnames);
      forall i | 0 <= i < |GroupBy(rows, hostnames, pathnames)|
        ensures GroupBy(rows, hostnames, pathnames)[i].totals ==
          TotalsOf(Members(rows, GroupBy(rows, hostnames, pathnames)[i].key, hostnames, pathnames))
      {
        GroupTotalsStep(rows, hostnames, pathnames, i);
      }
    }
  }

  /** The induction step of GroupByTotals for the group at position `i`. */
  lemma GroupTotalsStep(rows: seq<Row>, hostnames: map<int, string>, pathnames: map<int, string>, i: nat)
    requires rows != []
    requires var g0 := GroupBy(rows[..|rows| - 1], hostnames, pathnames);
      && DistinctGroups(g0)
      && KeysOfGroups(g0) == GroupKeys(rows[..|rows| - 1], hostnames, pathnames)
      && forall j :: 0 <= j < |g0| ==> g0[j].totals == TotalsOf(Members(rows[..|rows| - 1], g0[j].key, hostnames, pathnames))
    requires i < |GroupBy(rows, hostnames, pathnames)|
    ensures GroupBy(rows, hostnames, pathnames)[i].totals ==
      TotalsOf(Members(rows, GroupBy(rows, hostnames, pathnames)[i].key, hostnames, pathnames))
  {
    var prefix, last := rows[..|rows| - 1], rows[|rows| - 1];
    var g0 := GroupBy(prefix, hostnames, pathnames);
    var g := GroupOf(last, hostnames, pathnames);
    var gs := GroupBy(rows, hostnames, pathnames);
    AccumulateEffect(g0, g, last.counters);
    MembersOfLast(rows, gs[i].key, hostnames, pathnames);
    if i == |g0| {
      assert g !in KeysOfGroups(g0);
      NoMembers(prefix, g, hostnames, pathnames);
    }
  }

  /** Distinct keys: the number of groups is the number of group keys. */
  lemma {:induction false} DistinctGroupsCount(groups: seq<Group>)
    requires DistinctGroups(groups)
    ensures |KeysOfGroups(groups)| == |groups|
  {
    if groups != [] {
      var n := |groups| - 1;
      var prefix := groups[..n];
      DistinctGroupsCount(prefix);
      assert KeysOfGroups(groups) == KeysOfGroups(prefix) + {groups[n].key} by {
        assert forall i :: 0 <= i < n ==> prefix[i] == groups[i];
      }
      assert groups[n].key !in KeysOfGroups(prefix);
    }
  }

  // ---------------------------------------------------------------------
  // The SELECT list of one group

  /** One line of the report for a group: plain sums of the counters; the
      entry-weighted bounce rate, 0 when the group has no entries
      (COALESCE(... / NULLIF(SUM(entries), 0), 0.00)); the pageview-weighted
      average duration, absent when the group's pageviews sum to 0, since
      that division has no guard. */
  function Summary(grp: Group): AggregatedStats {
    var t := grp.totals;
    AggregatedStats(
      grp.key.hostname,
      grp.key.pathname,
      t.pageviews,
      t.visitors,
      t.entries,
      if t.entries == 0 then 0.0 else t.bounceWeight / t.entries as real,
      if t.pageviews == 0 then None else Some(t.durationWeight / t.pageviews as real))
  }

  function KeyOf(a: AggregatedStats): GroupKey {
    GroupKey(a.hostname, a.pathname)
  }

  /** The groups that have a line in a report. */
  function LineKeys(r: seq<AggregatedStats>): set<GroupKey> {
    set i | 0 <= i < |r| :: KeyOf(r[i])
  }

  /** The report line of group `g` over the selected rows. */
  function GroupSummary(sel: seq<Row>, g: GroupKey, hostnames: map<int, string>, pathnames: map<int, string>): AggregatedStats {
    Summary(Group(g, TotalsOf(Members(sel, g, hostnames, pathnames))))
  }

  function Summaries(groups: seq<Group>): (r: seq<AggregatedStats>)
    ensures |r| == |groups|
    ensures forall i :: 0 <= i < |groups| ==> r[i] == Summary(groups[i])
  {
    seq(|groups|, i requires 0 <= i < |groups| => Summary(groups[i]))
  }

  // ---------------------------------------------------------------------
  // ORDER BY pageviews DESC LIMIT ?

  predicate SortedByPageviews(s: seq<AggregatedStats>) {
    forall i, j :: 0 <= i < j < |s| ==> s[i].pageviews >= s[j].pageviews
  }

  function InsertByPageviews(x: AggregatedStats, s: seq<AggregatedStats>): (r: seq<AggregatedStats>)
    requires SortedByPageviews(s)
    ensures SortedByPageviews(r)
    ensures multiset(r) == multiset(s) + multiset{x}
    ensures forall y :: y in r <==> y == x || y in s
  {
    if s == [] || s[0].pageviews <= x.pageviews then
      SortedCons(x, s);
      [x] + s
    else
      var rest := InsertByPageviews(x, s[1..]);
      InsertBehind(x, s, rest);
      [s[0]] + rest
  }

  /** A head with at least the pageviews of the first element of a sorted
      tail gives a sorted sequence. */
  lemma SortedCons(h: AggregatedStats, t: seq<AggregatedStats>)
    requires SortedByPageviews(t)
    requires t == [] || h.pageviews >= t[0].pageviews
    ensures SortedByPageviews([h] + t)
  {
    var w := [h] + t;
    forall i, j | 0 <= i < j < |w| ensures w[i].pageviews >= w[j].pageviews {
      assert w[j] == t[j - 1];
      if i > 0 {
        assert w[i] == t[i - 1];
      }
    }
  }

  /** Inserting behind a head with more pageviews: the head stays first and
      `rest`, the insertion into the tail, follows it. */
  lemma InsertBehind(x: AggregatedStats, s: seq<AggregatedStats>, rest: seq<AggregatedStats>)
    requires SortedByPageviews(s) && s != [] && s[0].pageviews > x.pageviews
    requires SortedByPageviews(rest)
    requires multiset(rest) == multiset(s[1..]) + multiset{x}
    requires forall y :: y in rest <==> y == x || y in s[1..]
    ensures SortedByPageviews([s[0]] + rest)
    ensures multiset([s[0]] + rest) == multiset(s) + multiset{x}
    ensures forall y :: y in [s[0]] + rest <==> y == x || y in s
  {
    assert s == [s[0]] + s[1..];
    if rest != [] {
      assert rest[0] in rest;
      if rest[0] != x {
        var k :| 0 <= k < |s[1..]| && s[1..][k] == rest[0];
        assert s[1..][k] == s[k + 1];
      }
    }
    SortedCons(s[0], rest);
  }

  /** Orders by pageviews, largest first; ties come out in some order. */
  function SortByPageviews(s: seq<AggregatedStats>): (r: seq<AggregatedStats>)
    ensures SortedByPageviews(r)
    ensures multiset(r) == multiset(s)
    ensures forall y :: y in r <==> y in s
  {
    if s == [] then []
    else
      assert s == [s[0]] + s[1..];
      InsertByPageviews(s[0], SortByPageviews(s[1..]))
  }

  /** The report over the selected rows: summaries of the groups, ordered by
      pageviews, at most `limit` of them. */
  function Report(sel: seq<Row>, hostnames: map<int, string>, pathnames: map<int, string>, limit: nat): seq<AggregatedStats> {
    var sorted := SortByPageviews(Summaries(GroupBy(sel, hostnames, pathnames)));
    if |sorted| <= limit then sorted else sorted[..limit]
  }

  /** What the report promises: one line per group of the selected rows, cut
      to `limit`; each line the summary of its group; no group twice;
      pageviews non-increasing; every group left out has no more pageviews
      than any line kept. */
  ghost predicate IsReport(sel: seq<Row>, hostnames: map<int, string>, pathnames: map<int, string>, limit: nat, r: seq<AggregatedStats>) {
    var keys := GroupKeys(sel, hostnames, pathnames);
    && |r| == (if |keys| <= limit then |keys| else limit)
    && SortedByPageviews(r)
    && (forall i :: 0 <= i < |r| ==> KeyOf(r[i]) in keys && r[i] == GroupSummary(sel, KeyOf(r[i]), hostnames, pathnames))
    && (forall i, j :: 0 <= i < j < |r| ==> KeyOf(r[i]) != KeyOf(r[j]))
    && (forall g, i :: g in keys && g !in LineKeys(r) && 0 <= i < |r| ==>
          GroupSummary(sel, g, hostnames, pathnames).pageviews <= r[i].pageviews)
  }

  predicate NoDuplicates(s: seq<AggregatedStats>) {
    forall i, j :: 0 <= i < j < |s| ==> s[i] != s[j]
  }

  lemma {:induction false} NoDuplicatesCount(s: seq<AggregatedStats>, y: AggregatedStats)
    requires NoDuplicates(s)
    ensures multiset(s)[y] <= 1
  {
    if s != [] {
      var rest := s[1..];
      assert s == [s[0]] + rest;
      assert NoDuplicates(rest) by {
        assert forall i :: 0 <= i < |rest| ==> rest[i] == s[i + 1];
      }
      NoDuplicatesCount(rest, y);
      if y == s[0] {
        assert y !in rest;
      }
    }
  }

  /** A reordering of a sequence without duplicates has none either. */
  lemma PermutationNoDuplicates(s: seq<AggregatedStats>, t: seq<AggregatedStats>)
    requires multiset(s) == multiset(t) && NoDuplicates(t)
    ensures NoDuplicates(s)
  {
    forall i, j | 0 <= i < j < |s| ensures s[i] != s[j] {
      if s[i] == s[j] {
        assert s == s[..j] + [s[j]] + s[j + 1..];
        assert s[i] in s[..j];
        assert multiset(s) == multiset(s[..j]) + multiset{s[j]} + multiset(s[j + 1..]);
        assert multiset(s)[s[i]] >= 2;
        NoDuplicatesCount(t, s[i]);
      }
    }
  }

  /** Each line of the ordered summaries is the line of one group of the rows. */
  lemma SortedLines(sel: seq<Row>, hostnames: map<int, string>, pathnames: map<int, string>)
    ensures var sorted := SortByPageviews(Summaries(GroupBy(sel, hostnames, pathnames)));
      && NoDuplicates(sorted)
      && |sorted| == |GroupKeys(sel, hostnames, pathnames)|
      && forall y :: y in sorted ==>
           KeyOf(y) in GroupKeys(sel, hostnames, pathnames) && y == GroupSummary(sel, KeyOf(y), hostnames, pathnames)
  {
    var groups := GroupBy(sel, hostnames, pathnames);
    var sums := Summaries(groups);
    var sorted := SortByPageviews(sums);
    GroupByKeys(sel, hostnames, pathnames);
    GroupByTotals(sel, hostnames, pathnames);
    DistinctGroupsCount(groups);
    assert |sorted| == |sums| by {
      assert |multiset(sorted)| == |multiset(sums)|;
    }
    assert NoDuplicates(sums) by {
      forall i, j | 0 <= i < j < |sums| ensures sums[i] != sums[j] {
        assert KeyOf(sums[i]) == groups[i].key && KeyOf(sums[j]) == groups[j].key;
      }
    }
    PermutationNoDuplicates(sorted, sums);
    forall y | y in sorted
      ensures KeyOf(y) in GroupKeys(sel, hostnames, pathnames) && y == GroupSummary(sel, KeyOf(y), hostnames, pathnames)
    {
      LineIsSummary(sel, hostnames, pathnames, y);
    }
  }

  lemma LineIsSummary(sel: seq<Row>, hostnames: map<int, string>, pathnames: map<int, string>, y: AggregatedStats)
    requires y in SortByPageviews(Summaries(GroupBy(sel, hostnames, pathnames)))
    ensures KeyOf(y) in GroupKeys(sel, hostnames, pathnames) && y == GroupSummary(sel, KeyOf(y), hostnames, pathnames)
  {
    var groups := GroupBy(sel, hostnames, pathnames);
    var sums := Summaries(groups);
    GroupByKeys(sel, hostnames, pathnames);
    GroupByTotals(sel, hostnames, pathnames);
    assert y in sums;
    var k :| 0 <= k < |sums| && sums[k] == y;
    assert KeyOf(y) == groups[k].key;
    assert groups[k].key in KeysOfGroups(groups);
  }

  lemma ReportCorrect(sel: seq<Row>, hostnames: map<int, string>, pathnames: map<int, string>, limit: nat)
    ensures IsReport(sel, hostnames, pathnames, limit, Report(sel, hostnames, pathnames, limit))
  {
    var keys := GroupKeys(sel, hostnames, pathnames);
    var sorted := SortByPageviews(Summaries(GroupBy(sel, hostnames, pathnames)));
    var r := Report(sel, hostnames, pathnames, limit);
    SortedLines(sel, hostnames, pathnames);
    ReportPrefix(sel, hostnames, pathnames, limit);
    assert |r| == (if |keys| <= limit then |keys| else limit);
    assert SortedByPageviews(r) by {
      forall i, j | 0 <= i < j < |r| ensures r[i].pageviews >= r[j].pageviews {
        assert r[i] == sorted[i] && r[j] == sorted[j];
      }
    }
    assert forall i :: 0 <= i < |r| ==>
      KeyOf(r[i]) in keys && r[i] == GroupSummary(sel, KeyOf(r[i]), hostnames, pathnames)
    by {
      forall i | 0 <= i < |r|
        ensures KeyOf(r[i]) in keys && r[i] == GroupSummary(sel, KeyOf(r[i]), hostnames, pathnames)
      {
        assert r[i] == sorted[i];
        assert sorted[i] in sorted;
      }
    }
    assert forall i, j :: 0 <= i < j < |r| ==> KeyOf(r[i]) != KeyOf(r[j]) by {
      forall i, j | 0 <= i < j < |r| ensures KeyOf(r[i]) != KeyOf(r[j]) {
        assert r[i] == sorted[i] && r[j] == sorted[j];
        assert sorted[i] in sorted && sorted[j] in sorted;
        assert sorted[i] != sorted[j];
      }
    }
    ReportLeftOut(sel, hostnames, pathnames, limit);
  }

  /** A group without a line in the report has no more pageviews than any line in it. */
  lemma ReportLeftOut(sel: seq<Row>, hostnames: map<int, string>, pathnames: map<int, string>, limit: nat)
    ensures var r := Report(sel, hostnames, pathnames, limit);
      forall g, i :: g in GroupKeys(sel, hostnames, pathnames) && g !in LineKeys(r) && 0 <= i < |r| ==>
        GroupSummary(sel, g, hostnames, pathnames).pageviews <= r[i].pageviews
  {
    var r := Report(sel, hostnames, pathnames, limit);
    forall g, i | g in GroupKeys(sel, hostnames, pathnames) && g !in LineKeys(r) && 0 <= i < |r|
      ensures GroupSummary(sel, g, hostnames, pathnames).pageviews <= r[i].pageviews
    {
      LeftOutBelow(sel, hostnames, pathnames, limit, g, i);
    }
  }

  lemma LeftOutBelow(sel: seq<Row>, hostnames: map<int, string>, pathnames: map<int, string>, limit: nat, g: GroupKey, i: nat)
    requires g in GroupKeys(sel, hostnames, pathnames)
    requires g !in LineKeys(Report(sel, hostnames, pathnames, limit))
    requires i < |Report(sel, hostnames, pathnames, limit)|
    ensures GroupSummary(sel, g, hostnames, pathnames).pageviews <= Report(sel, hostnames, pathnames, limit)[i].pageviews
  {
    var sorted := SortByPageviews(Summaries(GroupBy(sel, hostnames, pathnames)));
    var r := Report(sel, hostnames, pathnames, limit);
    ReportPrefix(sel, hostnames, pathnames, limit);
    LineOfEveryGroup(sel, hostnames, pathnames, g);
    var m :| 0 <= m < |sorted| && KeyOf(sorted[m]) == g;
    assert sorted[m] in sorted;
    LineIsSummary(sel, hostnames, pathnames, sorted[m]);
    PrefixBelow(sorted, r, m, i);
  }

  /** The report is the first lines of the ordered summaries, `limit` of them
      or all when there are fewer. */
  lemma ReportPrefix(sel: seq<Row>, hostnames: map<int, string>, pathnames: map<int, string>, limit: nat)
    ensures var sorted := SortByPageviews(Summaries(GroupBy(sel, hostnames, pathnames)));
      var r := Report(sel, hostnames, pathnames, limit);
      && |r| == (if |sorted| <= limit then |sorted| else limit)
      && forall j :: 0 <= j < |r| ==> r[j] == sorted[j]
  {
  }

  /** In a prefix of a sequence sorted by pageviews, every line has at least
      the pageviews of a line beyond the prefix. */
  lemma PrefixBelow(sorted: seq<AggregatedStats>, r: seq<AggregatedStats>, m: nat, i: nat)
    requires SortedByPageviews(sorted)
    requires |r| <= |sorted| && forall j :: 0 <= j < |r| ==> r[j] == sorted[j]
    requires m < |sorted| && KeyOf(sorted[m]) !in LineKeys(r)
    requires i < |r|
    ensures sorted[m].pageviews <= r[i].pageviews
  {
    forall j | 0 <= j < |r| ensures KeyOf(r[j]) != KeyOf(sorted[m]) {
      assert KeyOf(r[j]) in LineKeys(r);
    }
    assert r[i] == sorted[i];
  }

  /** Every group of the rows has a line among the ordered summaries. */
  lemma LineOfEveryGroup(sel: seq<Row>, hostnames: map<int, string>, pathnames: map<int, string>, g: GroupKey)
    requires g in GroupKeys(sel, hostnames, pathnames)
    ensures exists m :: (0 <= m < |SortByPageviews(Summaries(GroupBy(sel, hostnames, pathnames)))| &&
      KeyOf(SortByPageviews(Summaries(GroupBy(sel, hostnames, pathnames)))[m]) == g)
  {
    var groups := GroupBy(sel, hostnames, pathnames);
    var sums := Summaries(groups);
    var sorted := SortByPageviews(sums);
    GroupByKeys(sel, hostnames, pathnames);
    assert g in KeysOfGroups(groups);
    var k :| 0 <= k < |groups| && groups[k].key == g;
    assert sums[k] in sorted;
    var m :| 0 <= m < |sorted| && sorted[m] == sums[k];
    assert KeyOf(sorted[m]) == g;
  }

  // ---------------------------------------------------------------------
  // The weighted means

  /** A non-negative weight scales a value in [lo, hi] into [lo, hi] times the weight. */
  lemma ScaleBetween(w: real, v: real, lo: real, hi: real)
    requires w >= 0.0 && lo <= v <= hi
    ensures lo * w <= w * v <= hi * w
  {
    assert (v - lo) * w >= 0.0;
    assert (hi - v) * w >= 0.0;
  }

  /** One step of a weighted sum: adding a value in [lo, hi] with a
      non-negative weight keeps the sum within [lo, hi] times the total weight. */
  lemma WeightStep(w0: real, s0: real, w: real, v: real, lo: real, hi: real)
    requires lo * w0 <= s0 <= hi * w0
    requires w >= 0.0 && lo <= v <= hi
    ensures lo * (w0 + w) <= s0 + w * v <= hi * (w0 + w)
  {
    ScaleBetween(w, v, lo, hi);
    assert lo * (w0 + w) == lo * w0 + lo * w;
    assert hi * (w0 + w) == hi * w0 + hi * w;
  }

  /** Dividing a sum in [lo, hi] times a positive weight by that weight lands in [lo, hi]. */
  lemma QuotientBetween(s: real, w: real, lo: real, hi: real)
    requires w > 0.0 && lo * w <= s <= hi * w
    ensures lo <= s / w <= hi
  {
    var q := s / w;
    assert q * w == s;
    assert (q - lo) * w >= 0.0;
    assert (hi - q) * w >= 0.0;
  }

  /** Sums with non-negative entries whose entry weight lies within [lo, hi]
      times the entries. */
  predicate BounceWithin(t: Totals, lo: real, hi: real) {
    t.entries >= 0 && lo * t.entries as real <= t.bounceWeight <= hi * t.entries as real
  }

  /** Adding a row with non-negative entries and a rate in [lo, hi] keeps the sums within. */
  lemma BounceStep(t0: Totals, c: Counters, lo: real, hi: real)
    requires BounceWithin(t0, lo, hi)
    requires c.entries >= 0 && lo <= c.bounceRate <= hi
    ensures BounceWithin(Add(t0, c), lo, hi)
  {
    var w0, w := t0.entries as real, c.entries as real;
    assert Add(t0, c).entries as real == w0 + w;
    WeightStep(w0, t0.bounceWeight, w, c.bounceRate, lo, hi);
  }

  /** If every row has non-negative entries and a bounce rate in [lo, hi],
      the summed entry weight lies between lo and hi times the summed entries. */
  lemma {:induction false} BounceWeightBounds(rows: seq<Row>, lo: real, hi: real)
    requires forall i :: 0 <= i < |rows| ==> rows[i].counters.entries >= 0 && lo <= rows[i].counters.bounceRate <= hi
    ensures BounceWithin(TotalsOf(rows), lo, hi)
  {
    if rows != [] {
      var prefix, last := rows[..|rows| - 1], rows[|rows| - 1];
      assert forall i :: 0 <= i < |prefix| ==> prefix[i] == rows[i];
      BounceWeightBounds(prefix, lo, hi);
      BounceStep(TotalsOf(prefix), last.counters, lo, hi);
    }
  }

  /** The bounce rate of a group is a mean of its rows' rates weighted by
      entries: it lies within the range of those rates, and is 0 when the
      group has no entries. So rates in [0, 1] give a group rate in [0, 1]. */
  lemma BounceRateWithinRowRates(rows: seq<Row>, g: GroupKey, lo: real, hi: real)
    requires forall i :: 0 <= i < |rows| ==> rows[i].counters.entries >= 0 && lo <= rows[i].counters.bounceRate <= hi
    ensures var a := Summary(Group(g, TotalsOf(rows)));
      && (a.entries == 0 ==> a.bounceRate == 0.0)
      && (a.entries > 0 ==> lo <= a.bounceRate <= hi)
  {
    var t := TotalsOf(rows);
    var a := Summary(Group(g, t));
    assert a.entries == t.entries;
    if t.entries > 0 {
      assert a.bounceRate == t.bounceWeight / t.entries as real;
      BounceWeightBounds(rows, lo, hi);
      QuotientBetween(t.bounceWeight, t.entries as real, lo, hi);
    }
  }

  /** Sums with non-negative pageviews whose duration weight lies within
      [lo, hi] times the pageviews. */
  predicate DurationWithin(t: Totals, lo: real, hi: real) {
    t.pageviews >= 0 && lo * t.pageviews as real <= t.durationWeight <= hi * t.pageviews as real
  }

  /** Adding a row with non-negative pageviews and an average duration in
      [lo, hi] keeps the sums within. */
  lemma DurationStep(t0: Totals, c: Counters, lo: real, hi: real)
    requires DurationWithin(t0, lo, hi)
    requires c.pageviews >= 0 && lo <= c.avgDuration <= hi
    ensures DurationWithin(Add(t0, c), lo, hi)
  {
    var w0, w := t0.pageviews as real, c.pageviews as real;
    assert Add(t0, c).pageviews as real == w0 + w;
    WeightStep(w0, t0.durationWeight, w, c.avgDuration, lo, hi);
  }

  /** If every row has non-negative pageviews and an average duration in
      [lo, hi], the summed duration weight lies between lo and hi times the
      summed pageviews. */
  lemma {:induction false} DurationWeightBounds(rows: seq<Row>, lo: real, hi: real)
    requires forall i :: 0 <= i < |rows| ==> rows[i].counters.pageviews >= 0 && lo <= rows[i].counters.avgDuration <= hi
    ensures DurationWithin(TotalsOf(rows), lo, hi)
  {
    if rows != [] {
      var prefix, last := rows[..|rows| - 1], rows[|rows| - 1];
      assert forall i :: 0 <= i < |prefix| ==> prefix[i] == rows[i];
      DurationWeightBounds(prefix, lo, hi);
      DurationStep(TotalsOf(prefix), last.counters, lo, hi);
    }
  }

  /** The average duration of a group is a mean of its rows' averages
      weighted by pageviews: present exactly when the pageviews do not sum to
      0, and then within the range of the rows' averages. */
  lemma AvgDurationWithinRowDurations(rows: seq<Row>, g: GroupKey, lo: real, hi: real)
    requires forall i :: 0 <= i < |rows| ==> rows[i].counters.pageviews >= 0 && lo <= rows[i].counters.avgDuration <= hi
    ensures var a := Summary(Group(g, TotalsOf(rows)));
      && (a.avgDuration.None? <==> a.pageviews == 0)
      && (a.avgDuration.Some? ==> lo <= a.avgDuration.value <= hi)
  {
    var t := TotalsOf(rows);
    var a := Summary(Group(g, t));
    assert a.pageviews == t.pageviews;
    DurationWeightBounds(rows, lo, hi);
    if t.pageviews > 0 {
      assert a.avgDuration == Some(t.durationWeight / t.pageviews as real);
      QuotientBetween(t.durationWeight, t.pageviews as real, lo, hi);
    }
  }

  // ---------------------------------------------------------------------
  // SELECT COALESCE(SUM(pageviews), 0) ... WHERE site_id = ? AND date >= ? AND date <= ?

  /** The total of pageviews of one site over [startDate, endDate]. */
  function TotalPageviews(rows: seq<Row>, siteID: int, startDate: int, endDate: int): int {
    TotalsOf(InRange(rows, siteID, startDate, endDate)).pageviews
  }

  lemma TotalsOfSnoc(rows: seq<Row>, x: Row)
    ensures TotalsOf(rows + [x]) == Add(TotalsOf(rows), x.counters)
  {
    assert (rows + [x])[..|rows|] == rows;
  }

  /** Splitting off the last row: it adds its pageviews to the range's total
      exactly when it is of the site and its day is in the range. */
  lemma TotalPageviewsStep(rows: seq<Row>, siteID: int, startDate: int, endDate: int)
    requires rows != []
    ensures var last := rows[|rows| - 1];
      TotalPageviews(rows, siteID, startDate, endDate) ==
        TotalPageviews(rows[..|rows| - 1], siteID, startDate, endDate) +
        (if last.key.siteID == siteID && startDate <= last.key.date <= endDate then last.counters.pageviews else 0)
  {
    var prefix, last := rows[..|rows| - 1], rows[|rows| - 1];
    var sel := InRange(prefix, siteID, startDate, endDate);
    TotalsOfSnoc(sel, last);
    assert sel + [] == sel;
  }

  /** Splitting an inclusive range at a day splits its total: no day of the
      range is missed and none is counted twice. */
  lemma {:induction false} RangeSplit(rows: seq<Row>, siteID: int, startDate: int, midDate: int, endDate: int)
    requires startDate <= midDate < endDate
    ensures TotalPageviews(rows, siteID, startDate, endDate) ==
      TotalPageviews(rows, siteID, startDate, midDate) + TotalPageviews(rows, siteID, midDate + 1, endDate)
  {
    if rows != [] {
      RangeSplit(rows[..|rows| - 1], siteID, startDate, midDate, endDate);
      TotalPageviewsStep(rows, siteID, startDate, endDate);
      TotalPageviewsStep(rows, siteID, startDate, midDate);
      TotalPageviewsStep(rows, siteID, midDate + 1, endDate);
    }
  }

  /** The summed pageviews of a sequence of groups. */
  function GroupPageviews(groups: seq<Group>): int {
    if groups == [] then 0 else GroupPageviews(groups[..|groups| - 1]) + groups[|groups| - 1].totals.pageviews
  }

  lemma {:induction false} GroupPageviewsUpdate(groups: seq<Group>, i: nat, grp: Group)
    requires i < |groups|
    ensures GroupPageviews(groups[i := grp]) == GroupPageviews(groups) - groups[i].totals.pageviews + grp.totals.pageviews
  {
    var n := |groups| - 1;
    if i < n {
      GroupPageviewsUpdate(groups[..n], i, grp);
      assert groups[i := grp][..n] == groups[..n][i := grp];
    } else {
      assert groups[i := grp][..n] == groups[..n];
    }
  }

  /** The groups of the report hold every pageview of the rows exactly once:
      their pageviews add up to the total. */
  lemma {:induction false} GroupByPageviews(rows: seq<Row>, hostnames: map<int, string>, pathnames: map<int, string>)
    ensures GroupPageviews(GroupBy(rows, hostnames, pathnames)) == TotalsOf(rows).pageviews
  {
    if rows != [] {
      var prefix, last := rows[..|rows| - 1], rows[|rows| - 1];
      var g0 := GroupBy(prefix, hostnames, pathnames);
      var g := GroupOf(last, hostnames, pathnames);
      GroupByPageviews(prefix, hostnames, pathnames);
      match GroupIndex(g0, g)
      case Some(k) =>
        GroupPageviewsUpdate(g0, k, Group(g, Add(g0[k].totals, last.counters)));
      case None =>
        var grp := Group(g, Add(ZERO, last.counters));
        assert (g0 + [grp])[..|g0|] == g0;
    }
  }

  // ---------------------------------------------------------------------
  // Worked cases

  /** Two days of one page, 5 entries at rate 0.4 and 10 at rate 0.6, give the
      weighted rate 8/15 rather than the plain mean 0.5. */
  lemma WeightedBounceExample()
    ensures var rows := [
        Row(Key(1, 7, 9, 100), Counters(5, 5, 5, 0.4, 0.0, 0)),
        Row(Key(1, 7, 9, 101), Counters(10, 10, 10, 0.6, 0.0, 0))];
      Report(rows, map[7 := "example.com"], map[9 := "/"], 10) ==
        [AggregatedStats(Some("example.com"), Some("/"), 15, 15, 15, 8.0 / 15.0, Some(0.0))]
  {
    var r1 := Row(Key(1, 7, 9, 100), Counters(5, 5, 5, 0.4, 0.0, 0));
    var r2 := Row(Key(1, 7, 9, 101), Counters(10, 10, 10, 0.6, 0.0, 0));
    var hn, pn := map[7 := "example.com"], map[9 := "/"];
    var g := GroupKey(Some("example.com"), Some("/"));
    assert GroupOf(r1, hn, pn) == g && GroupOf(r2, hn, pn) == g;
    assert [r1, r2][..1] == [r1];
    var t1 := Add(ZERO, r1.counters);
    assert GroupBy([r1], hn, pn) == [Group(g, t1)];
    var t := Add(t1, r2.counters);
    assert t == Totals(15, 15, 15, 8.0, 0.0);
    assert GroupBy([r1, r2], hn, pn) == [Group(g, t)];
    var line := AggregatedStats(Some("example.com"), Some("/"), 15, 15, 15, 8.0 / 15.0, Some(0.0));
    assert Summaries([Group(g, t)]) == [line];
    assert SortByPageviews([line]) == [line];
  }

  /** Three pages with 50, 10 and 30 pageviews and a limit of 2 report the
      pages with 50 and 30, in that order. */
  lemma OrderAndLimitExample()
    ensures var rows := [
        Row(Key(1, 7, 1, 100), Counters(50, 1, 1, 0.0, 1.0, 1)),
        Row(Key(1, 7, 2, 100), Counters(10, 1, 1, 0.0, 1.0, 1)),
        Row(Key(1, 7, 3, 100), Counters(30, 1, 1, 0.0, 1.0, 1))];
      var r := Report(rows, map[7 := "h"], map[1 := "/a", 2 := "/b", 3 := "/c"], 2);
      |r| == 2 && r[0].pageviews == 50 && r[0].pathname == Some("/a") && r[1].pageviews == 30 && r[1].pathname == Some("/c")
  {
    var groups := [
      Group(GroupKey(Some("h"), Some("/a")), Totals(50, 1, 1, 0.0, 50.0)),
      Group(GroupKey(Some("h"), Some("/b")), Totals(10, 1, 1, 0.0, 10.0)),
      Group(GroupKey(Some("h"), Some("/c")), Totals(30, 1, 1, 0.0, 30.0))];
    ExampleGroups();
    var la, lb, lc := Summary(groups[0]), Summary(groups[1]), Summary(groups[2]);
    assert Summaries(groups) == [la, lb, lc];
    ExampleSort(la, lb, lc);
  }

  /** The three groups of OrderAndLimitExample, in the order the rows come. */
  lemma ExampleGroups()
    ensures GroupBy([
        Row(Key(1, 7, 1, 100), Counters(50, 1, 1, 0.0, 1.0, 1)),
        Row(Key(1, 7, 2, 100), Counters(10, 1, 1, 0.0, 1.0, 1)),
        Row(Key(1, 7, 3, 100), Counters(30, 1, 1, 0.0, 1.0, 1))],
        map[7 := "h"], map[1 := "/a", 2 := "/b", 3 := "/c"]) ==
      [Group(GroupKey(Some("h"), Some("/a")), Totals(50, 1, 1, 0.0, 50.0)),
       Group(GroupKey(Some("h"), Some("/b")), Totals(10, 1, 1, 0.0, 10.0)),
       Group(GroupKey(Some("h"), Some("/c")), Totals(30, 1, 1, 0.0, 30.0))]
  {
    var ra := Row(Key(1, 7, 1, 100), Counters(50, 1, 1, 0.0, 1.0, 1));
    var rb := Row(Key(1, 7, 2, 100), Counters(10, 1, 1, 0.0, 1.0, 1));
    var rc := Row(Key(1, 7, 3, 100), Counters(30, 1, 1, 0.0, 1.0, 1));
    var hn, pn := map[7 := "h"], map[1 := "/a", 2 := "/b", 3 := "/c"];
    var ga, gb, gc := GroupKey(Some("h"), Some("/a")), GroupKey(Some("h"), Some("/b")), GroupKey(Some("h"), Some("/c"));
    var groups := [Group(ga, Totals(50, 1, 1, 0.0, 50.0)), Group(gb, Totals(10, 1, 1, 0.0, 10.0)), Group(gc, Totals(30, 1, 1, 0.0, 30.0))];
    assert GroupOf(ra, hn, pn) == ga && GroupOf(rb, hn, pn) == gb && GroupOf(rc, hn, pn) == gc;
    assert [ra, rb, rc][..2] == [ra, rb] && [ra, rb][..1] == [ra];
    assert GroupBy([ra], hn, pn) == groups[..1];
    assert GroupBy([ra, rb], hn, pn) == groups[..2];
  }

  lemma ExampleSort(la: AggregatedStats, lb: AggregatedStats, lc: AggregatedStats)
    requires la.pageviews == 50 && lb.pageviews == 10 && lc.pageviews == 30
    ensures SortByPageviews([la, lb, lc]) == [la, lc, lb]
  {
    assert [la, lb, lc][1..] == [lb, lc];
    SortTwo(lb, lc);
  }

  /** Two lines, the second with more pageviews, come out swapped. */
  lemma SortTwo(lb: AggregatedStats, lc: AggregatedStats)
    requires lb.pageviews < lc.pageviews
    ensures SortByPageviews([lb, lc]) == [lc, lb]
  {
    assert [lb, lc][1..] == [lc] && [lc][1..] == [];
    assert SortByPageviews([lc]) == [lc];
    assert InsertByPageviews(lb, [lc]) == [lc] + InsertByPageviews(lb, []);
  }

  /** Buckets on days 1 and 3 of the range [1, 3] both count; a range with
      no bucket totals 0. */
  lemma RangeWithGapsExample()
    ensures var rows := [
        Row(Key(1, 7, 9, 1), Counters(4, 1, 1, 0.0, 0.0, 0)),
        Row(Key(1, 7, 9, 3), Counters(6, 1, 1, 0.0, 0.0, 0))];
      TotalPageviews(rows, 1, 1, 3) == 10 && TotalPageviews(rows, 1, 4, 9) == 0
  {
    var r1 := Row(Key(1, 7, 9, 1), Counters(4, 1, 1, 0.0, 0.0, 0));
    var r3 := Row(Key(1, 7, 9, 3), Counters(6, 1, 1, 0.0, 0.0, 0));
    assert [r1, r3][..1] == [r1];
    assert InRange([r1], 1, 1, 3) == [r1];
    assert InRange([r1, r3], 1, 1, 3) == [r1, r3];
    assert InRange([r1], 1, 4, 9) == [];
    assert InRange([r1, r3], 1, 4, 9) == [];
    assert TotalsOf([r1]).pageviews == 4;
  }
}
