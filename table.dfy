/** The daily_page_stats table as a sequence of rows, with the keyed view the
    repository operations are specified against. The order of the rows
    carries no meaning. */
module Table {
  import opened Models

  datatype Row = Row(key: Key, counters: Counters)

  /** The table's uniqueness constraint: at most one row per bucket key. */
  predicate UniqueKeys(rows: seq<Row>) {
    forall i, j :: 0 <= i < j < |rows| ==> rows[i].key != rows[j].key
  }

  /** The keyed view of the table: every bucket key with the counters of its row. */
  function TableOf(rows: seq<Row>): map<Key, Counters> {
    if rows == [] then map[]
    else TableOf(rows[..|rows| - 1])[rows[|rows| - 1].key := rows[|rows| - 1].counters]
  }

  /** A key is in the view exactly when some row carries it. */
  lemma {:induction false} TableOfKeys(rows: seq<Row>, k: Key)
    ensures k in TableOf(rows) <==> exists i :: 0 <= i < |rows| && rows[i].key == k
  {
    if rows != [] {
      var n := |rows| - 1;
      var prefix := rows[..n];
      TableOfKeys(prefix, k);
      assert forall i :: 0 <= i < n ==> prefix[i] == rows[i];
    }
  }

  /** The exact-key lookup `SELECT * ... WHERE <key> LIMIT 1`: the counters of
      the first row carrying key `k`, or None when no row does. */
  function Find(rows: seq<Row>, k: Key): (r: Option<Counters>)
    ensures r.None? <==> forall i :: 0 <= i < |rows| ==> rows[i].key != k
    ensures r.Some? ==> Row(k, r.value) in rows
  {
    if rows == [] then None
    else if rows[0].key == k then Some(rows[0].counters)
    else
      assert forall i :: 1 <= i < |rows| ==> rows[1..][i - 1] == rows[i];
      Find(rows[1..], k)
  }

  /** `UPDATE ... SET <all six columns> WHERE <key>`: every row carrying key
      `k` gets the counters `c`; every other row is kept. */
  function Overwrite(rows: seq<Row>, k: Key, c: Counters): (r: seq<Row>)
    ensures |r| == |rows|
    ensures forall i :: 0 <= i < |rows| ==> r[i].key == rows[i].key
    ensures forall i :: 0 <= i < |rows| && rows[i].key != k ==> r[i] == rows[i]
    ensures forall i :: 0 <= i < |rows| && rows[i].key == k ==> r[i].counters == c
  {
    if rows == [] then []
    else
      var last := rows[|rows| - 1];
      Overwrite(rows[..|rows| - 1], k, c) + [if last.key == k then Row(k, c) else last]
  }

  /** With unique keys, the view maps each row's key to that row's counters. */
  lemma {:induction false} TableOfRow(rows: seq<Row>, i: nat)
    requires UniqueKeys(rows) && i < |rows|
    ensures rows[i].key in TableOf(rows) && TableOf(rows)[rows[i].key] == rows[i].counters
  {
    var n := |rows| - 1;
    if i < n {
      var prefix := rows[..n];
      assert prefix[i] == rows[i];
      assert UniqueKeys(prefix);
      TableOfRow(prefix, i);
      assert rows[n].key != rows[i].key;
    }
  }

  /** On a table with unique keys the lookup agrees with the keyed view. */
  lemma FindAgreesWithTable(rows: seq<Row>, k: Key)
    requires UniqueKeys(rows)
    ensures Find(rows, k) == if k in TableOf(rows) then Some(TableOf(rows)[k]) else None
  {
    var r := Find(rows, k);
    if r.Some? {
      var i :| 0 <= i < |rows| && rows[i] == Row(k, r.value);
      TableOfRow(rows, i);
    }
  }

  /** Appending a row under a fresh key keeps the keys unique and adds exactly
      that bucket to the view. */
  lemma AppendFreshKey(rows: seq<Row>, k: Key, c: Counters)
    requires UniqueKeys(rows) && k !in TableOf(rows)
    ensures UniqueKeys(rows + [Row(k, c)])
    ensures TableOf(rows + [Row(k, c)]) == TableOf(rows)[k := c]
  {
    var w := rows + [Row(k, c)];
    assert w[..|rows|] == rows;
    TableOfKeys(rows, k);
    forall i, j | 0 <= i < j < |w| ensures w[i].key != w[j].key {
      assert w[i] == rows[i];
      if j < |rows| {
        assert w[j] == rows[j];
      }
    }
  }

  /** Overwriting replaces the counters of the bucket `k` when it exists,
      leaves every other bucket as it was and never creates a bucket. */
  lemma {:induction false} OverwriteTable(rows: seq<Row>, k: Key, c: Counters)
    ensures TableOf(Overwrite(rows, k, c)) ==
            if k in TableOf(rows) then TableOf(rows)[k := c] else TableOf(rows)
  {
    if rows != [] {
      var n := |rows| - 1;
      var prefix, last := rows[..n], rows[n];
      var w := Overwrite(rows, k, c);
      var t0, w0 := TableOf(prefix), TableOf(Overwrite(prefix, k, c));
      OverwriteTable(prefix, k, c);
      assert w == Overwrite(prefix, k, c) + [w[n]];
      assert TableOf(w) == w0[w[n].key := w[n].counters];
      assert TableOf(rows) == t0[last.key := last.counters];
    }
  }
}
