/** The candle table and the in-memory cache of one series (gateway/chart/src/store.rs and market.rs). */
module Candles {
  import opened Base
  import opened Ordered

  datatype CandleRow = CandleRow(
    productId: nat, symbol: string, granularity: nat, bucket: int,
    openX18: string, highX18: string, lowX18: string, closeX18: string, volumeX18: string,
    submissionIdx: int, sourceTs: int)

  // ---- sorted rows and the maps they stand for ----

  predicate Sorted(rows: seq<CandleRow>) {
    forall i, j :: 0 <= i < j < |rows| ==> rows[i].bucket < rows[j].bucket
  }

  /** Every row sits under its own bucket. */
  ghost predicate Keyed(m: map<int, CandleRow>) {
    forall b :: b in m ==> m[b].bucket == b
  }

  function TableOf(rows: seq<CandleRow>): (m: map<int, CandleRow>)
    ensures Keyed(m)
  {
    if rows == [] then map[]
    else TableOf(rows[..|rows| - 1])[rows[|rows| - 1].bucket := rows[|rows| - 1]]
  }

  function RowsAt(m: map<int, CandleRow>, buckets: seq<int>): seq<CandleRow>
    requires forall i :: 0 <= i < |buckets| ==> buckets[i] in m
  {
    seq(|buckets|, i requires 0 <= i < |buckets| => m[buckets[i]])
  }

  /** The rows of a map in the order of their buckets. */
  function RowsOf(m: map<int, CandleRow>): seq<CandleRow> {
    RowsAt(m, Ascending(m.Keys))
  }

  function Suffix<T>(s: seq<T>, n: nat): seq<T> {
    if |s| <= n then s else s[|s| - n..]
  }

  ghost predicate HasBucket(rows: seq<CandleRow>, b: int) {
    exists i :: 0 <= i < |rows| && rows[i].bucket == b
  }

  /** The rows are those of the map, oldest first. */
  ghost predicate Lists(rows: seq<CandleRow>, m: map<int, CandleRow>) {
    && Sorted(rows)
    && (forall i :: 0 <= i < |rows| ==> rows[i].bucket in m && m[rows[i].bucket] == rows[i])
    && (forall b :: b in m ==> HasBucket(rows, b))
  }

  lemma RowsOfLists(m: map<int, CandleRow>)
    requires Keyed(m)
    ensures Lists(RowsOf(m), m) && |RowsOf(m)| == |m|
  {
    var buckets := Ascending(m.Keys);
    assert |m.Keys| == |m|;
    RowsAtLists(m, buckets);
  }

  lemma RowsAtLists(m: map<int, CandleRow>, buckets: seq<int>)
    requires Keyed(m) && StrictlyRising(buckets)
    requires (forall i :: 0 <= i < |buckets| ==> buckets[i] in m) && forall b :: b in m ==> b in buckets
    ensures Lists(RowsAt(m, buckets), m)
  {
    var rows := RowsAt(m, buckets);
    forall b | b in m ensures HasBucket(rows, b) {
      assert b in buckets;
      var i :| 0 <= i < |buckets| && buckets[i] == b;
      assert rows[i].bucket == b;
    }
  }

  lemma {:induction false} TableOfLists(rows: seq<CandleRow>)
    requires Sorted(rows)
    ensures Lists(rows, TableOf(rows))
  {
    if rows == [] {
    } else {
      var init := rows[..|rows| - 1];
      TableOfLists(init);
      forall b | b in TableOf(rows) ensures HasBucket(rows, b) {
        if b != rows[|rows| - 1].bucket {
          assert HasBucket(init, b);
          var i :| 0 <= i < |init| && init[i].bucket == b;
          assert rows[i].bucket == b;
        }
      }
    }
  }

  /** Two sorted lists of the same map agree position by position. */
  lemma ListsAgreeAt(a: seq<CandleRow>, b: seq<CandleRow>, m: map<int, CandleRow>, i: nat)
    requires Lists(a, m) && Lists(b, m) && i < |a| && i <= |b|
    requires forall k :: 0 <= k < i ==> a[k] == b[k]
    ensures i < |b| && b[i].bucket <= a[i].bucket
  {
    assert forall k :: 0 <= k < i ==> b[k].bucket < a[i].bucket;
    assert HasBucket(b, a[i].bucket);
  }

  lemma ListsAgree(a: seq<CandleRow>, b: seq<CandleRow>, m: map<int, CandleRow>, i: nat)
    requires Lists(a, m) && Lists(b, m) && i < |a| && i <= |b|
    requires forall k :: 0 <= k < i ==> a[k] == b[k]
    ensures i < |b| && a[i] == b[i]
  {
    ListsAgreeAt(a, b, m, i);
    ListsAgreeAt(b, a, m, i);
  }

  lemma {:induction false} ListsUnique(a: seq<CandleRow>, b: seq<CandleRow>, m: map<int, CandleRow>, n: nat)
    requires Lists(a, m) && Lists(b, m) && n <= |a|
    ensures n <= |b| && a[..n] == b[..n]
  {
    hide Lists;
    if n == 0 {
    } else {
      ListsUnique(a, b, m, n - 1);
      assert forall k :: 0 <= k < n - 1 ==> a[k] == a[..n - 1][k] == b[..n - 1][k] == b[k];
      ListsAgree(a, b, m, n - 1);
      assert a[..n] == a[..n - 1] + [a[n - 1]];
      assert b[..n] == b[..n - 1] + [b[n - 1]];
    }
  }

  lemma ListsIsRowsOf(rows: seq<CandleRow>, m: map<int, CandleRow>)
    requires Keyed(m) && Lists(rows, m)
    ensures rows == RowsOf(m)
  {
    hide RowsOf, Lists, Keyed;
    RowsOfLists(m);
    ListsUnique(rows, RowsOf(m), m, |rows|);
    ListsUnique(RowsOf(m), rows, m, |RowsOf(m)|);
    assert rows[..|rows|] == rows;
  }

  // ---- newest submission wins ----

  function Upsert(m: map<int, CandleRow>, row: CandleRow): map<int, CandleRow> {
    if row.bucket in m && row.submissionIdx < m[row.bucket].submissionIdx then m
    else m[row.bucket := row]
  }

  /** What apply_row is for: insert or replace in the map, then drop the oldest beyond the capacity. */
  function AfterRow(candles: seq<CandleRow>, row: CandleRow, capacity: nat): seq<CandleRow> {
    if candles != [] && row.bucket < candles[0].bucket then candles
    else Suffix(RowsOf(Upsert(TableOf(candles), row)), capacity)
  }

  /** Nothing is made up, and no row that stays gets older. */
  ghost predicate KeepsNewest(candles: seq<CandleRow>, row: CandleRow, rows: seq<CandleRow>) {
    && (forall r :: r in rows ==> r == row || r in candles)
    && (forall r, c :: r in rows && c in candles && r.bucket == c.bucket ==> c.submissionIdx <= r.submissionIdx)
  }

  ghost predicate KeepsFrom(candles: seq<CandleRow>, k: nat, rows: seq<CandleRow>) {
    forall j :: k <= j < |candles| ==> HasBucket(rows, candles[j].bucket)
  }

  /** No row that stays gets older, nothing is made up, and at most the oldest row of a full cache goes. */
  lemma AfterRowMeaning(candles: seq<CandleRow>, row: CandleRow, capacity: nat)
    requires Sorted(candles) && |candles| <= capacity && capacity >= 1
    ensures var after := AfterRow(candles, row, capacity);
      && Sorted(after) && |after| <= capacity && KeepsNewest(candles, row, after)
      && KeepsFrom(candles, if |candles| == capacity then 1 else 0, after)
  {
    var rows := RowsOf(Upsert(TableOf(candles), row));
    if candles != [] && row.bucket < candles[0].bucket {
      SelfKept(candles, row);
    } else {
      hide RowsOf, TableOf, KeepsNewest, KeepsFrom, Lists, Sorted, Suffix;
      CountRows(candles, row);
      RowsInTable(candles, row);
      UpsertKeeps(candles, TableOf(candles), row, rows);
      ListsSorted(rows, Upsert(TableOf(candles), row));
      SuffixSorted(rows, capacity);
      SuffixKeepsNewest(candles, row, rows, capacity);
      SuffixKeepsFrom(candles, rows, capacity);
    }
  }

  lemma SelfKept(candles: seq<CandleRow>, row: CandleRow)
    requires Sorted(candles)
    ensures KeepsNewest(candles, row, candles) && KeepsFrom(candles, 0, candles) && KeepsFrom(candles, 1, candles)
  {
  }

  lemma ListsSorted(rows: seq<CandleRow>, m: map<int, CandleRow>)
    requires Lists(rows, m)
    ensures Sorted(rows)
  {
  }

  lemma CountRows(candles: seq<CandleRow>, row: CandleRow)
    requires Sorted(candles)
    ensures |RowsOf(Upsert(TableOf(candles), row))| <= |candles| + 1
  {
  }

  lemma UpsertKeeps(candles: seq<CandleRow>, m: map<int, CandleRow>, row: CandleRow, rows: seq<CandleRow>)
    requires Lists(candles, m) && Lists(rows, Upsert(m, row))
    ensures KeepsNewest(candles, row, rows) && KeepsFrom(candles, 0, rows)
  {
  }

  lemma SuffixSorted(rows: seq<CandleRow>, n: nat)
    requires Sorted(rows)
    ensures Sorted(Suffix(rows, n))
  {
  }

  lemma SuffixKeepsNewest(candles: seq<CandleRow>, row: CandleRow, rows: seq<CandleRow>, n: nat)
    requires KeepsNewest(candles, row, rows)
    ensures KeepsNewest(candles, row, Suffix(rows, n))
  {
  }

  lemma SuffixKeepsFrom(candles: seq<CandleRow>, rows: seq<CandleRow>, n: nat)
    requires Sorted(candles) && Sorted(rows) && |candles| <= n && n >= 1
    requires |rows| <= |candles| + 1 && KeepsFrom(candles, 0, rows)
    ensures KeepsFrom(candles, if |candles| == n then 1 else 0, Suffix(rows, n))
  {
    if |rows| > n {
      forall j | 1 <= j < |candles| ensures HasBucket(rows[1..], candles[j].bucket) {
        assert HasBucket(rows, candles[0].bucket) && HasBucket(rows, candles[j].bucket);
        var i :| 0 <= i < |rows| && rows[i].bucket == candles[j].bucket;
        assert rows[1..][i - 1].bucket == candles[j].bucket;
      }
    }
  }

  /** Not older than the oldest cached row, and not older than the cached row of its own bucket. */
  predicate Admitted(candles: seq<CandleRow>, row: CandleRow) {
    && (candles == [] || candles[0].bucket <= row.bucket)
    && forall i :: 0 <= i < |candles| && candles[i].bucket == row.bucket ==>
         candles[i].submissionIdx <= row.submissionIdx
  }

  /** The row is cached afterwards if and only if it is admitted, and otherwise nothing changes. */
  lemma RowCachedIff(candles: seq<CandleRow>, row: CandleRow, capacity: nat)
    requires Sorted(candles) && |candles| <= capacity && capacity >= 1
    ensures row in AfterRow(candles, row, capacity) <==> Admitted(candles, row)
    ensures !Admitted(candles, row) ==> AfterRow(candles, row, capacity) == candles
  {
    if candles == [] || candles[0].bucket <= row.bucket {
      hide RowsOf, TableOf, Lists, Admitted, Suffix;
      var m := TableOf(candles);
      RowsInTable(candles, row);
      CountRows(candles, row);
      AdmittedRows(candles, m, row, RowsOf(Upsert(m, row)), capacity);
    }
  }

  /** The cache lists its own table, and with the row in, the table has a list of its own. */
  lemma RowsInTable(candles: seq<CandleRow>, row: CandleRow)
    requires Sorted(candles)
    ensures Lists(candles, TableOf(candles)) && candles == RowsOf(TableOf(candles))
    ensures Lists(RowsOf(Upsert(TableOf(candles), row)), Upsert(TableOf(candles), row))
  {
    hide RowsOf, TableOf, Lists;
    TableOfLists(candles);
    ListsIsRowsOf(candles, TableOf(candles));
    RowsOfLists(Upsert(TableOf(candles), row));
  }

  lemma AdmittedRows(candles: seq<CandleRow>, m: map<int, CandleRow>, row: CandleRow, rows: seq<CandleRow>, n: nat)
    requires Lists(candles, m) && Lists(rows, Upsert(m, row)) && candles == RowsOf(m)
    requires candles == [] || candles[0].bucket <= row.bucket
    requires |rows| <= |candles| + 1 && |candles| <= n && n >= 1 && rows == RowsOf(Upsert(m, row))
    ensures row in Suffix(rows, n) <==> Admitted(candles, row)
    ensures !Admitted(candles, row) ==> Suffix(rows, n) == candles
  {
    hide RowsOf, Suffix;
    if Admitted(candles, row) {
      AdmittedEnters(candles, m, row, rows);
      LateRowStays(candles, m, row, rows, n);
    } else {
      var i :| 0 <= i < |candles| && candles[i].bucket == row.bucket && row.submissionIdx < candles[i].submissionIdx;
      assert Upsert(m, row) == m;
      assert Suffix(candles, n) == candles by { SuffixOfShort(candles, n); }
      assert row !in candles;
    }
  }

  lemma SuffixOfShort<T>(s: seq<T>, n: nat)
    requires |s| <= n
    ensures Suffix(s, n) == s
  {
  }

  lemma AdmittedEnters(candles: seq<CandleRow>, m: map<int, CandleRow>, row: CandleRow, rows: seq<CandleRow>)
    requires Lists(candles, m) && Lists(rows, Upsert(m, row)) && Admitted(candles, row)
    ensures row in rows
  {
    if row.bucket in m {
      assert HasBucket(candles, row.bucket);
    }
    assert HasBucket(rows, row.bucket);
  }

  /** At most the oldest row is evicted, and the row is that one only if nothing is. */
  lemma LateRowStays(candles: seq<CandleRow>, m: map<int, CandleRow>, row: CandleRow, rows: seq<CandleRow>, n: nat)
    requires Lists(candles, m) && Lists(rows, Upsert(m, row)) && row in rows
    requires candles == [] || candles[0].bucket <= row.bucket
    requires |rows| <= |candles| + 1 && |candles| <= n && n >= 1
    ensures row in Suffix(rows, n)
  {
    var i :| 0 <= i < |rows| && rows[i] == row;
    if |rows| > n {
      if i == 0 {
        assert |candles| == n && |rows| == n + 1;
        assert candles[0].bucket in Upsert(m, row);
        assert HasBucket(rows, candles[0].bucket);
        assert row.bucket == candles[0].bucket && row.bucket in m;
        SameSize(candles, m, row, rows);
      } else {
        assert Suffix(rows, n)[i - 1] == row;
      }
    }
  }

  lemma SameSize(candles: seq<CandleRow>, m: map<int, CandleRow>, row: CandleRow, rows: seq<CandleRow>)
    requires Lists(candles, m) && Lists(rows, Upsert(m, row)) && row.bucket in m
    ensures |rows| <= |candles|
  {
    assert Upsert(m, row).Keys == m.Keys;
    ListSize(rows, Upsert(m, row));
    ListSize(candles, m);
  }

  lemma ListSize(rows: seq<CandleRow>, m: map<int, CandleRow>)
    requires Lists(rows, m)
    ensures |rows| == |m.Keys|
  {
    ListKeyed(rows, m);
    RowsOfLists(m);
    ListsIsRowsOf(rows, m);
    assert |m.Keys| == |m|;
  }

  lemma ListKeyed(rows: seq<CandleRow>, m: map<int, CandleRow>)
    requires Lists(rows, m)
    ensures Keyed(m)
  {
    forall b | b in m ensures m[b].bucket == b {
      assert HasBucket(rows, b);
    }
  }

  /** Every other row stays, but for the oldest one of a full cache. */
  lemma OtherRowsStay(candles: seq<CandleRow>, row: CandleRow, capacity: nat, j: nat)
    requires Sorted(candles) && |candles| <= capacity && capacity >= 1
    requires j < |candles| && candles[j].bucket != row.bucket && (j > 0 || |candles| < capacity)
    ensures candles[j] in AfterRow(candles, row, capacity)
  {
    AfterRowMeaning(candles, row, capacity);
    hide AfterRow;
    var after := AfterRow(candles, row, capacity);
    assert HasBucket(after, candles[j].bucket);
    var i :| 0 <= i < |after| && after[i].bucket == candles[j].bucket;
    assert after[i] in candles;
  }

  lemma BucketMissing(rows: seq<CandleRow>, k: nat, b: int)
    requires k <= |rows|
    requires forall i :: 0 <= i < k ==> rows[i].bucket < b
    requires forall i :: k <= i < |rows| ==> b < rows[i].bucket
    ensures !HasBucket(rows, b)
  {
  }

  /** Inserting between older and newer rows lists the map with the row added. */
  lemma InsertLists(rows: seq<CandleRow>, k: nat, row: CandleRow, m: map<int, CandleRow>, r: seq<CandleRow>)
    requires Keyed(m) && Lists(rows, m) && k <= |rows|
    requires forall i :: 0 <= i < k ==> rows[i].bucket < row.bucket
    requires forall i :: k <= i < |rows| ==> row.bucket < rows[i].bucket
    requires r == rows[..k] + [row] + rows[k..]
    ensures r == RowsOf(Upsert(m, row))
  {
    hide RowsOf;
    BucketMissing(rows, k, row.bucket);
    ListsWithRow(rows, k, row, m, r);
    ListsIsRowsOf(r, m[row.bucket := row]);
  }

  /** The row stands between older and newer ones of `rows`. */
  predicate Placed(rows: seq<CandleRow>, k: nat, row: CandleRow, r: seq<CandleRow>) {
    && k <= |rows| && |r| == |rows| + 1 && r[k] == row
    && (forall i :: 0 <= i < k ==> rows[i].bucket < row.bucket && r[i] == rows[i])
    && (forall i :: k < i < |r| ==> row.bucket < rows[i - 1].bucket && r[i] == rows[i - 1])
  }

  lemma PlacedSorted(rows: seq<CandleRow>, k: nat, row: CandleRow, r: seq<CandleRow>)
    requires Sorted(rows) && Placed(rows, k, row, r)
    ensures Sorted(r)
  {
  }

  lemma PlacedHasBucket(rows: seq<CandleRow>, k: nat, row: CandleRow, r: seq<CandleRow>, b: int)
    requires Placed(rows, k, row, r) && (b == row.bucket || HasBucket(rows, b))
    ensures HasBucket(r, b)
  {
    if b == row.bucket {
      assert r[k].bucket == b;
    } else {
      var i :| 0 <= i < |rows| && rows[i].bucket == b;
      assert r[if i < k then i else i + 1].bucket == b;
    }
  }

  lemma ListsWithRow(rows: seq<CandleRow>, k: nat, row: CandleRow, m: map<int, CandleRow>, r: seq<CandleRow>)
    requires Lists(rows, m) && Placed(rows, k, row, r)
    ensures Lists(r, m[row.bucket := row])
  {
    PlacedSorted(rows, k, row, r);
    forall b | b in m[row.bucket := row] ensures HasBucket(r, b) {
      PlacedHasBucket(rows, k, row, r, b);
    }
    hide HasBucket, Sorted;
  }

  /** Replacing the row of the same bucket lists the map with the row replaced, unless a newer one was there. */
  lemma ReplaceLists(rows: seq<CandleRow>, k: nat, row: CandleRow, m: map<int, CandleRow>)
    requires Keyed(m) && Lists(rows, m) && k < |rows| && rows[k].bucket == row.bucket
    ensures RowsOf(Upsert(m, row)) == if row.submissionIdx < rows[k].submissionIdx then rows else rows[k := row]
    ensures row.submissionIdx < rows[k].submissionIdx ==> row !in rows
  {
    hide RowsOf;
    if row.submissionIdx < rows[k].submissionIdx {
      ListsIsRowsOf(rows, m);
    } else {
      var (m', r) := (m[row.bucket := row], rows[k := row]);
      forall b | b in m' ensures HasBucket(r, b) {
        if b != row.bucket {
          assert HasBucket(rows, b);
          var i :| 0 <= i < |rows| && rows[i].bucket == b;
          assert r[i].bucket == b;
        } else {
          assert r[k].bucket == b;
        }
      }
      ListsIsRowsOf(r, m');
    }
  }

  class SeriesState {
    var candles: seq<CandleRow>

    constructor ()
      ensures candles == []
    {
      candles := [];
    }

    method EvictFront(capacity: nat)
      modifies this
      ensures candles == Suffix(old(candles), capacity)
    {
      ghost var before := candles;
      while |candles| > capacity
        invariant Suffix(candles, capacity) == Suffix(before, capacity)
        decreases |candles|
      {
        candles := candles[1..];
      }
    }

    method ReplaceAll(rows: seq<CandleRow>, capacity: nat)
      modifies this
      ensures candles == Suffix(rows, capacity)
    {
      candles := [];
      for i := 0 to |rows|
        invariant candles == Suffix(rows[..i], capacity)
      {
        ghost var before := candles;
        candles := candles + [rows[i]];
        EvictFront(capacity);
        SuffixAppend(rows[..i], rows[i], capacity);
        assert rows[..i + 1] == rows[..i] + [rows[i]];
      }
      assert rows[..|rows|] == rows;
    }

    /** The branches of the original: empty, same newest bucket, newer, older than all, in between. */
    method ApplyRow(row: CandleRow, capacity: nat) returns (changed: bool)
      requires capacity >= 1 && Sorted(candles) && |candles| <= capacity
      modifies this
      ensures candles == AfterRow(old(candles), row, capacity)
      ensures changed <==> row in candles
    {
      hide RowsOf, TableOf, Lists;
      ghost var before := candles;
      ghost var m := TableOf(before);
      TableOfLists(before);
      if candles == [] {
        candles := [row];
        InsertLists(before, 0, row, m, candles);
        return true;
      }
      var last := candles[|candles| - 1];
      if last.bucket == row.bucket {
        ReplaceLists(before, |before| - 1, row, m);
        if row.submissionIdx < last.submissionIdx {
          return false;
        }
        candles := candles[|candles| - 1 := row];
        assert candles[|candles| - 1] == row;
        return true;
      }
      if row.bucket > last.bucket {
        candles := candles + [row];
        InsertLists(before, |before|, row, m, candles);
        EvictFront(capacity);
        assert candles[|candles| - 1] == row;
        return true;
      }
      if row.bucket < candles[0].bucket {
        return false;
      }
      changed := ApplyInside(row, capacity);
    }

    /** The tail of the original for a row between the oldest and the newest bucket. */
    method ApplyInside(row: CandleRow, capacity: nat) returns (changed: bool)
      requires Sorted(candles) && candles != [] && |candles| <= capacity
      requires candles[0].bucket <= row.bucket < candles[|candles| - 1].bucket
      modifies this
      ensures candles == AfterRow(old(candles), row, capacity)
      ensures changed <==> row in candles
    {
      hide RowsOf, TableOf, Lists;
      ghost var before := candles;
      TableOfLists(before);
      var i := |candles|;
      while i > 0 && candles[i - 1].bucket > row.bucket
        invariant 0 <= i <= |candles|
        invariant forall k :: i <= k < |candles| ==> candles[k].bucket > row.bucket
      {
        i := i - 1;
      }
      if i > 0 && candles[i - 1].bucket == row.bucket {
        ReplaceLists(before, i - 1, row, TableOf(before));
        if row.submissionIdx < candles[i - 1].submissionIdx {
          return false;
        }
        candles := candles[i - 1 := row];
        assert candles[i - 1] == row;
        return true;
      }
      var insertIndex := 0;
      while insertIndex < |candles| && candles[insertIndex].bucket <= row.bucket
        invariant 0 <= insertIndex <= |candles|
        invariant forall k :: 0 <= k < insertIndex ==> candles[k].bucket < row.bucket
      {
        insertIndex := insertIndex + 1;
      }
      ghost var r := before[..insertIndex] + [row] + before[insertIndex..];
      InsertLists(before, insertIndex, row, TableOf(before), r);
      candles := candles[..insertIndex] + [row] + candles[insertIndex..];
      EvictFront(capacity);
      InsertedStays(r, insertIndex, capacity);
      changed := true;
    }

    method SnapshotViews(limit: nat) returns (views: seq<CandleRow>)
      ensures views == Suffix(candles, limit)
    {
      views := TakeNewest(candles, limit);
    }
  }

  /** Walk from the newest row back, at most `limit` rows, and reverse. */
  method TakeNewest(rows: seq<CandleRow>, limit: nat) returns (r: seq<CandleRow>)
    ensures r == Suffix(rows, limit)
  {
    var newestFirst := [];
    var i := |rows|;
    while i > 0 && |newestFirst| < limit
      invariant 0 <= i <= |rows| && |newestFirst| == |rows| - i && |newestFirst| <= limit
      invariant newestFirst == Reversed(rows[i..])
    {
      i := i - 1;
      assert rows[i..] == [rows[i]] + rows[i + 1..];
      newestFirst := newestFirst + [rows[i]];
    }
    ReversedTwice(rows[i..]);
    r := Reversed(newestFirst);
  }

  /** Eviction of at most one row does not reach a row behind the front. */
  lemma InsertedStays<T>(s: seq<T>, k: nat, n: nat)
    requires 0 < k < |s| <= n + 1
    ensures s[k] in Suffix(s, n)
  {
  }

  function Reversed<T>(s: seq<T>): seq<T> {
    if s == [] then [] else Reversed(s[1..]) + [s[0]]
  }

  lemma {:induction false} ReversedAppend<T>(s: seq<T>, x: T)
    ensures Reversed(s + [x]) == [x] + Reversed(s)
  {
    if s == [] {
      assert [] + [x] == [x];
    } else {
      ReversedAppend(s[1..], x);
      assert (s + [x])[1..] == s[1..] + [x];
    }
  }

  lemma {:induction false} ReversedTwice<T>(s: seq<T>)
    ensures Reversed(Reversed(s)) == s
  {
    if s == [] {
    } else {
      ReversedTwice(s[1..]);
      ReversedAppend(Reversed(s[1..]), s[0]);
    }
  }

  lemma SuffixAppend<T>(s: seq<T>, x: T, n: nat)
    ensures Suffix(Suffix(s, n) + [x], n) == Suffix(s + [x], n)
  {
  }
}
