/**
 * The `crypto_data` table and the deduplicating batch insert that fills it.
 * For every bar of a batch the writer counts the rows already holding the
 * same (coin id, timestamp) key and inserts the bar only when that count is
 * zero. All of it happens in one transaction, so a bar sees the rows inserted
 * for earlier bars of the same batch.
 */
module CryptoStore {
  import opened MarketData

  /** A stored price row: the asset's identifier plus the bar's columns. */
  datatype Row = Row(coinId: string, timestamp: Timestamp, open: real, high: real, low: real, close: real)

  /** The row inserted for `bar` under `coinId`. */
  function ToRow(coinId: string, bar: Bar): Row
  {
    Row(coinId, bar.timestamp, bar.open, bar.high, bar.low, bar.close)
  }

  /** Some row of `rows` holds the key (coinId, ts). */
  predicate HasKey(rows: seq<Row>, coinId: string, ts: Timestamp)
  {
    exists i :: 0 <= i < |rows| && rows[i].coinId == coinId && rows[i].timestamp == ts
  }

  /** No two rows share a (coin id, timestamp) key. */
  predicate UniqueKeys(rows: seq<Row>)
  {
    forall i, j :: 0 <= i < j < |rows| ==>
      !(rows[i].coinId == rows[j].coinId && rows[i].timestamp == rows[j].timestamp)
  }

  /** The existence query: how many rows hold the key (coinId, ts). */
  function CountKey(rows: seq<Row>, coinId: string, ts: Timestamp): (n: nat)
    ensures n <= |rows|
    ensures n == 0 <==> !HasKey(rows, coinId, ts)
  {
    if rows == [] then 0
    else
      var last := rows[|rows| - 1];
      assert rows == rows[..|rows| - 1] + [last];
      CountKey(rows[..|rows| - 1], coinId, ts) + (if last.coinId == coinId && last.timestamp == ts then 1 else 0)
  }

  /** One step of the writer: insert `bar` unless its key is already present. */
  function InsertIfAbsent(rows: seq<Row>, coinId: string, bar: Bar): (r: seq<Row>)
    ensures rows <= r && |r| <= |rows| + 1
    ensures HasKey(r, coinId, bar.timestamp)
    ensures r != rows <==> !HasKey(rows, coinId, bar.timestamp)
    ensures r != rows ==> r[|rows|] == ToRow(coinId, bar)
  {
    if CountKey(rows, coinId, bar.timestamp) == 0 then
      var r := rows + [ToRow(coinId, bar)];
      assert r[|rows|] == ToRow(coinId, bar);
      r
    else rows
  }

  /** The table after the writer has handled every bar of `batch` in order. */
  function SaveAll(rows: seq<Row>, batch: seq<Bar>, coinId: string): seq<Row>
    decreases |batch|
  {
    if batch == [] then rows
    else InsertIfAbsent(SaveAll(rows, batch[..|batch| - 1], coinId), coinId, batch[|batch| - 1])
  }

  /** Bar `j` is the first of the batch with its timestamp, and that key was
      not in the table before the batch. */
  predicate FirstNewOccurrence(rows: seq<Row>, batch: seq<Bar>, coinId: string, j: int)
    requires 0 <= j < |batch|
  {
    && !HasKey(rows, coinId, batch[j].timestamp)
    && forall k :: 0 <= k < j ==> batch[k].timestamp != batch[j].timestamp
  }

  /** The rows for the first new occurrences among the first `n` bars, in batch order. */
  function NewRows(rows: seq<Row>, batch: seq<Bar>, coinId: string, n: nat): seq<Row>
    requires n <= |batch|
  {
    if n == 0 then []
    else
      NewRows(rows, batch, coinId, n - 1)
      + (if FirstNewOccurrence(rows, batch, coinId, n - 1) then [ToRow(coinId, batch[n - 1])] else [])
  }

  /** Rows already in the table are kept as they are, and every added row
      carries `coinId` and the columns of some bar of the batch. */
  lemma {:induction false} SaveAllExtends(rows: seq<Row>, batch: seq<Bar>, coinId: string)
    ensures rows <= SaveAll(rows, batch, coinId)
    ensures |SaveAll(rows, batch, coinId)| <= |rows| + |batch|
    ensures forall i :: |rows| <= i < |SaveAll(rows, batch, coinId)| ==>
      exists j :: 0 <= j < |batch| && SaveAll(rows, batch, coinId)[i] == ToRow(coinId, batch[j])
    decreases |batch|
  {
    if batch != [] {
      var front := batch[..|batch| - 1];
      SaveAllExtends(rows, front, coinId);
      var mid := SaveAll(rows, front, coinId);
      var r := SaveAll(rows, batch, coinId);
      assert r == InsertIfAbsent(mid, coinId, batch[|batch| - 1]);
      forall i | |rows| <= i < |r|
        ensures exists j :: 0 <= j < |batch| && r[i] == ToRow(coinId, batch[j])
      {
        if i < |mid| {
          var j :| 0 <= j < |front| && mid[i] == ToRow(coinId, front[j]);
          assert r[i] == ToRow(coinId, batch[j]);
        } else {
          assert r[i] == ToRow(coinId, batch[|batch| - 1]);
        }
      }
    }
  }

  /** After the batch, a key is present exactly when it was present before
      or it is `coinId` with the timestamp of some bar of the batch. */
  lemma {:induction false} SaveAllHasKey(rows: seq<Row>, batch: seq<Bar>, coinId: string, key: string, ts: Timestamp)
    ensures HasKey(SaveAll(rows, batch, coinId), key, ts) <==>
      (HasKey(rows, key, ts) || (key == coinId && exists j :: 0 <= j < |batch| && batch[j].timestamp == ts))
    decreases |batch|
  {
    if batch != [] {
      var front := batch[..|batch| - 1];
      var bar := batch[|batch| - 1];
      SaveAllHasKey(rows, front, coinId, key, ts);
      var mid := SaveAll(rows, front, coinId);
      var r := InsertIfAbsent(mid, coinId, bar);
      if HasKey(r, key, ts) && !HasKey(mid, key, ts) {
        var i :| 0 <= i < |r| && r[i].coinId == key && r[i].timestamp == ts;
        assert i >= |mid|;
        assert r[|mid|] == ToRow(coinId, bar);
      }
      if HasKey(mid, key, ts) {
        var i :| 0 <= i < |mid| && mid[i].coinId == key && mid[i].timestamp == ts;
        assert r[i] == mid[i];
      }
      if key == coinId && (exists j :: 0 <= j < |batch| && batch[j].timestamp == ts) {
        var j :| 0 <= j < |batch| && batch[j].timestamp == ts;
        if j < |front| {
          assert front[j].timestamp == ts;
        }
      }
      if key == coinId && (exists j :: 0 <= j < |front| && front[j].timestamp == ts) {
        var j :| 0 <= j < |front| && front[j].timestamp == ts;
        assert batch[j].timestamp == ts;
      }
    }
  }

  /** Every bar of the batch has its key in the table afterwards. */
  lemma SaveAllCoversBatch(rows: seq<Row>, batch: seq<Bar>, coinId: string)
    ensures forall j :: 0 <= j < |batch| ==> HasKey(SaveAll(rows, batch, coinId), coinId, batch[j].timestamp)
  {
  }

  /** The last bar of a batch is a first new occurrence exactly when its key
      is absent from the table the earlier bars leave behind. */
  lemma LastIsFirstNewIffAbsent(rows: seq<Row>, batch: seq<Bar>, coinId: string)
    requires batch != []
    ensures FirstNewOccurrence(rows, batch, coinId, |batch| - 1) <==>
      !HasKey(SaveAll(rows, batch[..|batch| - 1], coinId), coinId, batch[|batch| - 1].timestamp)
  {
    var n := |batch|;
    var front := batch[..n - 1];
    var ts := batch[n - 1].timestamp;
    SaveAllHasKey(rows, front, coinId, coinId, ts);
    if exists k :: 0 <= k < |front| && front[k].timestamp == ts {
      var k :| 0 <= k < |front| && front[k].timestamp == ts;
      assert batch[k].timestamp == ts;
    }
    if exists k :: 0 <= k < n - 1 && batch[k].timestamp == ts {
      var k :| 0 <= k < n - 1 && batch[k].timestamp == ts;
      assert front[k].timestamp == ts;
    }
  }

  /** The row the last bar of a batch adds: its own row when it is a first
      new occurrence, nothing otherwise. */
  function LastAdded(rows: seq<Row>, batch: seq<Bar>, coinId: string): seq<Row>
    requires batch != []
  {
    if FirstNewOccurrence(rows, batch, coinId, |batch| - 1) then [ToRow(coinId, batch[|batch| - 1])] else []
  }

  /** Handling the last bar appends exactly LastAdded. */
  lemma SaveAllLastStep(rows: seq<Row>, batch: seq<Bar>, coinId: string)
    requires batch != []
    ensures SaveAll(rows, batch, coinId) == SaveAll(rows, batch[..|batch| - 1], coinId) + LastAdded(rows, batch, coinId)
  {
    LastIsFirstNewIffAbsent(rows, batch, coinId);
  }

  /** One induction step of SaveAllAppendsFirstNewOccurrences, with the
      claim for the batch without its last bar taken as given. */
  lemma AppendsStep(rows: seq<Row>, batch: seq<Bar>, coinId: string)
    requires batch != []
    requires SaveAll(rows, batch[..|batch| - 1], coinId) == rows + NewRows(rows, batch[..|batch| - 1], coinId, |batch| - 1)
    ensures SaveAll(rows, batch, coinId) == (rows + NewRows(rows, batch, coinId, |batch| - 1)) + LastAdded(rows, batch, coinId)
  {
    NewRowsPrefix(rows, batch, coinId, |batch| - 1);
    SaveAllLastStep(rows, batch, coinId);
  }

  /** The writer adds to the table exactly the rows of the first new
      occurrences, in batch order: a bar is inserted only when its key is
      neither in the table nor held by an earlier bar of the batch. */
  lemma {:induction false} SaveAllAppendsFirstNewOccurrences(rows: seq<Row>, batch: seq<Bar>, coinId: string)
    ensures SaveAll(rows, batch, coinId) == rows + NewRows(rows, batch, coinId, |batch|)
    decreases |batch|
  {
    if batch != [] {
      var n := |batch|;
      SaveAllAppendsFirstNewOccurrences(rows, batch[..n - 1], coinId);
      AppendsStep(rows, batch, coinId);
      var prev := NewRows(rows, batch, coinId, n - 1);
      var added := LastAdded(rows, batch, coinId);
      assert NewRows(rows, batch, coinId, n) == prev + added;
      assert (rows + prev) + added == rows + (prev + added);
    }
  }

  /** NewRows looks only at the bars it has reached, so a batch and its prefix agree on it. */
  lemma {:induction false} NewRowsPrefix(rows: seq<Row>, batch: seq<Bar>, coinId: string, n: nat)
    requires n < |batch|
    ensures NewRows(rows, batch, coinId, n) == NewRows(rows, batch[..|batch| - 1], coinId, n)
  {
    var front := batch[..|batch| - 1];
    if n > 0 {
      NewRowsPrefix(rows, batch, coinId, n - 1);
      assert batch[n - 1] == front[n - 1];
      assert FirstNewOccurrence(rows, batch, coinId, n - 1) <==> FirstNewOccurrence(rows, front, coinId, n - 1) by {
        forall k | 0 <= k < n - 1 ensures batch[k] == front[k] { }
      }
    }
  }

  /** Keys that are unique before the batch stay unique after it, even when
      the batch repeats a timestamp. */
  lemma {:induction false} SaveAllPreservesUniqueKeys(rows: seq<Row>, batch: seq<Bar>, coinId: string)
    requires UniqueKeys(rows)
    ensures UniqueKeys(SaveAll(rows, batch, coinId))
    decreases |batch|
  {
    if batch != [] {
      var front := batch[..|batch| - 1];
      var bar := batch[|batch| - 1];
      SaveAllPreservesUniqueKeys(rows, front, coinId);
      var mid := SaveAll(rows, front, coinId);
      var r := InsertIfAbsent(mid, coinId, bar);
      if r != mid {
        forall i, j | 0 <= i < j < |r|
          ensures !(r[i].coinId == r[j].coinId && r[i].timestamp == r[j].timestamp)
        {
          if j == |mid| {
            assert r[i] == mid[i];
            assert r[j] == ToRow(coinId, bar);
          } else {
            assert r[i] == mid[i] && r[j] == mid[j];
          }
        }
      }
    }
  }

  /** A batch whose keys are all present already leaves the table as it is. */
  lemma {:induction false} SaveAllPresentIsNoOp(rows: seq<Row>, batch: seq<Bar>, coinId: string)
    requires forall j :: 0 <= j < |batch| ==> HasKey(rows, coinId, batch[j].timestamp)
    ensures SaveAll(rows, batch, coinId) == rows
    decreases |batch|
  {
    if batch != [] {
      var front := batch[..|batch| - 1];
      forall j | 0 <= j < |front| ensures HasKey(rows, coinId, front[j].timestamp) {
        assert front[j] == batch[j];
      }
      SaveAllPresentIsNoOp(rows, front, coinId);
    }
  }

  /** Writing the same batch for the same coin twice gives the table that writing it once gives. */
  lemma SaveAllIdempotent(rows: seq<Row>, batch: seq<Bar>, coinId: string)
    ensures SaveAll(SaveAll(rows, batch, coinId), batch, coinId) == SaveAll(rows, batch, coinId)
  {
    SaveAllCoversBatch(rows, batch, coinId);
    SaveAllPresentIsNoOp(SaveAll(rows, batch, coinId), batch, coinId);
  }

  /** The `crypto_data` table as the writer sees it through its one transaction. */
  class CryptoTable {
    var rows: seq<Row>

    constructor ()
      ensures rows == []
    {
      rows := [];
    }

    /**
     * Writes a batch of bars for one coin: for each bar in order, counts the
     * rows holding its key and inserts it when the count is zero; only
     * inserts are issued.
     */
    method SaveToDb(batch: seq<Bar>, coinId: string)
      modifies this
      ensures rows == SaveAll(old(rows), batch, coinId)
      ensures rows == old(rows) + NewRows(old(rows), batch, coinId, |batch|)
      ensures forall j :: 0 <= j < |batch| ==> HasKey(rows, coinId, batch[j].timestamp)
      ensures UniqueKeys(old(rows)) ==> UniqueKeys(rows)
    {
      for i := 0 to |batch|
        invariant rows == SaveAll(old(rows), batch[..i], coinId)
      {
        var bar := batch[i];
        var count := CountKey(rows, coinId, bar.timestamp);
        if count == 0 {
          rows := rows + [ToRow(coinId, bar)];
        }
        assert batch[..i + 1][..i] == batch[..i];
      }
      assert batch[..|batch|] == batch;
      SaveAllAppendsFirstNewOccurrences(old(rows), batch, coinId);
      SaveAllCoversBatch(old(rows), batch, coinId);
      if UniqueKeys(old(rows)) {
        SaveAllPreservesUniqueKeys(old(rows), batch, coinId);
      }
    }
  }
}
