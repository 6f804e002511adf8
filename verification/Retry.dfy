/** Retrying the queue and failed scans: cursors, batches, and what any pattern of failures
    leaves. */
module Retry {
  import opened Transfers
  import opened Duplicates
  import opened Lifecycle
  import opened RelayerDatabase

  // ---------------------------------------------------------------- inserting queue rows

  /** Insert of a detected record, which never outranks an existing row. */
  function InsertDetected(t: Table, r: Record): Table {
    if HashKnown(t, r.hash) then t else InsertRow(t, r)
  }

  lemma InsertedDetected(t: Table, r: Record, t': Table)
    requires r.status == DETECTED && Inserted(t, r, t')
    ensures t' == InsertDetected(t, r)
  {
  }

  function InsertRow'(t: Table, row: QueueRow): Table {
    if RecordOf(row).Found? then InsertDetected(t, RecordOf(row).value) else t
  }

  function InsertRows(t: Table, rows: seq<QueueRow>): Table {
    if rows == [] then t else InsertRow'(InsertRows(t, rows[..|rows| - 1]), rows[|rows| - 1])
  }

  /** The table has absorbed the row: inserting it changes nothing. */
  predicate Absorbed(t: Table, row: QueueRow) {
    RecordOf(row).Found? ==> HashKnown(t, RecordOf(row).value.hash) || RecordOf(row).value.id in t
  }

  lemma AbsorbedIdle(t: Table, row: QueueRow)
    ensures Absorbed(t, row) ==> InsertRow'(t, row) == t
    ensures Absorbed(InsertRow'(t, row), row)
  {
    var t' := InsertRow'(t, row);
    if RecordOf(row).Found? && !HashKnown(t, RecordOf(row).value.hash) {
      assert RecordOf(row).value.id in t';
    }
  }

  lemma AbsorbedStays(t: Table, row: QueueRow, other: QueueRow)
    requires Absorbed(t, row)
    ensures Absorbed(InsertRow'(t, other), row)
  {
    hide RecordOf;
    var t' := InsertRow'(t, other);
    assert forall id :: id in t ==> id in t' && t'[id] == t[id];
    if RecordOf(row).Found? && HashKnown(t, RecordOf(row).value.hash) {
      var id :| id in t && t[id].hash == RecordOf(row).value.hash;
      assert id in t' && t'[id].hash == RecordOf(row).value.hash;
    }
  }

  lemma {:induction false} InsertedAbsorbed(t: Table, rows: seq<QueueRow>, row: QueueRow)
    requires row in rows
    ensures Absorbed(InsertRows(t, rows), row)
  {
    hide Absorbed, InsertRow';
    var front, last := rows[..|rows| - 1], rows[|rows| - 1];
    assert rows == front + [last];
    var t1 := InsertRows(t, front);
    AbsorbedIdle(t1, last);
    if row != last {
      InsertedAbsorbed(t, front, row);
      AbsorbedStays(t1, row, last);
    }
  }

  lemma {:induction false} AbsorbedRowsIdle(t: Table, rows: seq<QueueRow>)
    requires forall row :: row in rows ==> Absorbed(t, row)
    ensures InsertRows(t, rows) == t
  {
    hide Absorbed, InsertRow';
    if rows != [] {
      assert rows[|rows| - 1] in rows;
      AbsorbedRowsIdle(t, rows[..|rows| - 1]);
      AbsorbedIdle(t, rows[|rows| - 1]);
    }
  }

  lemma {:induction false} InsertRowsConcat(t: Table, a: seq<QueueRow>, b: seq<QueueRow>)
    ensures InsertRows(t, a + b) == InsertRows(InsertRows(t, a), b)
  {
    hide InsertRow';
    if b == [] {
      assert a + b == a;
    } else {
      InsertRowsConcat(t, a, b[..|b| - 1]);
      assert (a + b)[..|a + b| - 1] == a + b[..|b| - 1];
    }
  }

  /** Inserting a prefix again, before the whole, makes no difference. */
  lemma InsertPrefixFirst(t: Table, rows: seq<QueueRow>, k: nat)
    requires k <= |rows|
    ensures InsertRows(InsertRows(t, rows[..k]), rows) == InsertRows(t, rows)
  {
    hide Absorbed, InsertRow', InsertRows;
    var a, b := rows[..k], rows[k..];
    assert rows == a + b;
    var t1 := InsertRows(t, a);
    forall row | row in a
      ensures Absorbed(t1, row)
    {
      InsertedAbsorbed(t, a, row);
    }
    AbsorbedRowsIdle(t1, a);
    InsertRowsConcat(t1, a, b);
    InsertRowsConcat(t, a, b);
  }

  // ---------------------------------------------------------------- batches and cursors

  lemma {:induction false} BeyondIsSuffix<T>(rows: seq<T>, key: T -> int, cursor: int) returns (n: nat)
    requires SortedBy(rows, key)
    ensures n <= |rows| && Beyond(rows, key, cursor) == rows[n..]
    ensures forall i :: 0 <= i < n ==> key(rows[i]) <= cursor
    ensures forall i :: n <= i < |rows| ==> key(rows[i]) > cursor
  {
    if rows == [] || key(rows[0]) > cursor {
      n := 0;
    } else {
      n := BeyondIsSuffix(rows[1..], key, cursor);
      n := n + 1;
    }
  }

  /** Moving the cursor to the j-th row beyond it drops j rows. */
  lemma BeyondAdvances<T>(rows: seq<T>, key: T -> int, cursor: int, j: nat)
    requires SortedBy(rows, key) && 0 < j <= |Beyond(rows, key, cursor)|
    ensures Beyond(rows, key, key(Beyond(rows, key, cursor)[j - 1])) == Beyond(rows, key, cursor)[j..]
    ensures key(Beyond(rows, key, cursor)[j - 1]) > cursor
  {
    var n := BeyondIsSuffix(rows, key, cursor);
    var c := key(rows[n..][j - 1]);
    assert c == key(rows[n + j - 1]);
    var m := BeyondIsSuffix(rows, key, c);
    assert key(rows[n + j - 1]) <= c;
    assert n + j < |rows| ==> key(rows[n + j - 1]) < key(rows[n + j]);
    assert m == n + j;
    assert rows[n..][j..] == rows[n + j..];
  }

  // ---------------------------------------------------------------- the queue scan

  datatype Progress = Progress(table: Table, cursor: int)

  /** Parsing the row panics, and ends the process. */
  predicate Stops(row: QueueRow) {
    RecordOf(row).Panicked?
  }

  predicate NoneStops(rows: seq<QueueRow>) {
    forall row :: row in rows ==> !Stops(row)
  }

  /** What one run of syncQueue may do, whatever failed and wherever it panicked: insert some rows
      of the batch, none of which panics, and set the cursor to the end of the batch only when all
      were inserted. */
  ghost predicate QueueRun(queue: seq<QueueRow>, limit: nat, a: Progress, b: Progress) {
    var batch := Batch(queue, QUEUE_KEY, a.cursor, limit);
    exists k: nat :: k <= |batch|
      && NoneStops(batch[..k]) && b.table == InsertRows(a.table, batch[..k])
      && (b.cursor == a.cursor || (k == |batch| && k > 0 && b.cursor == batch[k - 1].id))
  }

  /** A run in which nothing failed and no row panicked. */
  ghost predicate CleanQueueRun(queue: seq<QueueRow>, limit: nat, a: Progress, b: Progress) {
    var batch := Batch(queue, QUEUE_KEY, a.cursor, limit);
    NoneStops(batch) && b.table == InsertRows(a.table, batch)
    && b.cursor == if batch == [] then a.cursor else batch[|batch| - 1].id
  }

  /** The table one scan without failures and without a batch limit would reach. */
  function Target(queue: seq<QueueRow>, p: Progress): Table {
    InsertRows(p.table, Beyond(queue, QUEUE_KEY, p.cursor))
  }

  /** No run changes the target: whatever failed, the rest of the scan leads to the same table. */
  lemma RunKeepsTarget(queue: seq<QueueRow>, limit: nat, a: Progress, b: Progress)
    requires SortedBy(queue, QUEUE_KEY) && QueueRun(queue, limit, a, b)
    ensures Target(queue, b) == Target(queue, a)
  {
    hide InsertRows, Stops;
    var rest, batch := Beyond(queue, QUEUE_KEY, a.cursor), Batch(queue, QUEUE_KEY, a.cursor, limit);
    var k: nat :| k <= |batch| && NoneStops(batch[..k]) && b.table == InsertRows(a.table, batch[..k])
      && (b.cursor == a.cursor || (k == |batch| && k > 0 && b.cursor == batch[k - 1].id));
    assert batch[..k] == rest[..k];
    if b.cursor == a.cursor {
      InsertPrefixFirst(a.table, rest, k);
    } else {
      assert batch[k - 1] == rest[k - 1];
      BeyondAdvances(queue, QUEUE_KEY, a.cursor, k);
      InsertRowsConcat(a.table, rest[..k], rest[k..]);
      assert rest == rest[..k] + rest[k..];
    }
  }

  /** Runs of syncQueue over a fixed queue, each with failures or without. */
  ghost predicate QueueRuns(queue: seq<QueueRow>, limit: nat, ps: seq<Progress>) {
    ps != [] && forall i :: 0 <= i < |ps| - 1 ==> QueueRun(queue, limit, ps[i], ps[i + 1])
  }

  /** After any runs, under any pattern of failures: once the cursor has reached the end of the
      queue, the table is the one that a single scan without failures gives. */
  lemma {:induction false} RetriedQueue(queue: seq<QueueRow>, limit: nat, ps: seq<Progress>)
    requires SortedBy(queue, QUEUE_KEY) && QueueRuns(queue, limit, ps)
    ensures Target(queue, ps[|ps| - 1]) == Target(queue, ps[0])
    ensures Beyond(queue, QUEUE_KEY, ps[|ps| - 1].cursor) == [] ==> ps[|ps| - 1].table == Target(queue, ps[0])
    decreases |ps|
  {
    hide QueueRun;
    if |ps| > 1 {
      var front := ps[..|ps| - 1];
      RetriedQueue(queue, limit, front);
      assert QueueRun(queue, limit, ps[|ps| - 2], ps[|ps| - 2 + 1]);
      RunKeepsTarget(queue, limit, ps[|ps| - 2], ps[|ps| - 1]);
    }
  }

  /** A clean run shortens the rest of the queue by one batch. */
  lemma CleanRunAdvances(queue: seq<QueueRow>, limit: nat, a: Progress, b: Progress)
    requires SortedBy(queue, QUEUE_KEY) && CleanQueueRun(queue, limit, a, b)
    ensures QueueRun(queue, limit, a, b)
    ensures var n := |Beyond(queue, QUEUE_KEY, a.cursor)|;
            |Beyond(queue, QUEUE_KEY, b.cursor)| == if n < limit then 0 else n - limit
  {
    hide InsertRows, Stops;
    var rest, batch := Beyond(queue, QUEUE_KEY, a.cursor), Batch(queue, QUEUE_KEY, a.cursor, limit);
    assert batch[..|batch|] == batch;
    if batch != [] {
      assert batch[|batch| - 1] == rest[|batch| - 1];
      BeyondAdvances(queue, QUEUE_KEY, a.cursor, |batch|);
    }
  }

  /** Clean runs reach the end of the queue, and the table of a single scan, as soon as there
      were as many of them as there are batches. */
  lemma CleanRunsFinish(queue: seq<QueueRow>, limit: nat, ps: seq<Progress>)
    requires SortedBy(queue, QUEUE_KEY) && ps != []
    requires forall i :: 0 <= i < |ps| - 1 ==> CleanQueueRun(queue, limit, ps[i], ps[i + 1])
    requires (|ps| - 1) * limit >= |Beyond(queue, QUEUE_KEY, ps[0].cursor)|
    ensures ps[|ps| - 1].table == Target(queue, ps[0])
  {
    hide CleanQueueRun, QueueRun;
    QueueRemaining(queue, limit, ps, |ps| - 1);
    forall i | 0 <= i < |ps| - 1
      ensures QueueRun(queue, limit, ps[i], ps[i + 1])
    {
      CleanRunAdvances(queue, limit, ps[i], ps[i + 1]);
    }
    RetriedQueue(queue, limit, ps);
  }

  lemma {:induction false} QueueRemaining(queue: seq<QueueRow>, limit: nat, ps: seq<Progress>, n: nat)
    requires SortedBy(queue, QUEUE_KEY) && n < |ps|
    requires forall i :: 0 <= i < |ps| - 1 ==> CleanQueueRun(queue, limit, ps[i], ps[i + 1])
    ensures var r := |Beyond(queue, QUEUE_KEY, ps[0].cursor)|;
            |Beyond(queue, QUEUE_KEY, ps[n].cursor)| == if r < n * limit then 0 else r - n * limit
  {
    hide CleanQueueRun;
    if n > 0 {
      QueueRemaining(queue, limit, ps, n - 1);
      assert CleanQueueRun(queue, limit, ps[n - 1], ps[n - 1 + 1]);
      CleanRunAdvances(queue, limit, ps[n - 1], ps[n]);
      assert n * limit == (n - 1) * limit + limit && (n - 1) * limit >= 0;
    }
  }

  /** A queue row that panics is never passed: it stays beyond the cursor in all runs, so the end of
      the queue is never reached, and neither are the rows of its batch after it. */
  lemma {:induction false} PanicBlocks(queue: seq<QueueRow>, limit: nat, ps: seq<Progress>, row: QueueRow, n: nat)
    requires SortedBy(queue, QUEUE_KEY) && QueueRuns(queue, limit, ps) && n < |ps|
    requires row in Beyond(queue, QUEUE_KEY, ps[0].cursor) && Stops(row)
    ensures row in Beyond(queue, QUEUE_KEY, ps[n].cursor)
  {
    hide QueueRun, Stops;
    if n > 0 {
      PanicBlocks(queue, limit, ps, row, n - 1);
      assert QueueRun(queue, limit, ps[n - 1], ps[n - 1 + 1]);
      PanicStays(queue, limit, ps[n - 1], ps[n], row);
    }
  }

  lemma PanicStays(queue: seq<QueueRow>, limit: nat, a: Progress, b: Progress, row: QueueRow)
    requires SortedBy(queue, QUEUE_KEY) && QueueRun(queue, limit, a, b)
    requires row in Beyond(queue, QUEUE_KEY, a.cursor) && Stops(row)
    ensures row in Beyond(queue, QUEUE_KEY, b.cursor)
  {
    hide InsertRows, Stops;
    var rest, batch := Beyond(queue, QUEUE_KEY, a.cursor), Batch(queue, QUEUE_KEY, a.cursor, limit);
    var k: nat :| k <= |batch| && NoneStops(batch[..k]) && b.table == InsertRows(a.table, batch[..k])
      && (b.cursor == a.cursor || (k == |batch| && k > 0 && b.cursor == batch[k - 1].id));
    if b.cursor != a.cursor {
      assert batch[k - 1] == rest[k - 1] && batch[..k] == rest[..k];
      BeyondAdvances(queue, QUEUE_KEY, a.cursor, k);
      assert row !in rest[..k];
      assert rest == rest[..k] + rest[k..];
    }
  }

  // ---------------------------------------------------------------- the failed scan

  /** Table, cursor, and the MarkFailed calls that went through, by id and message. */
  datatype Handling = Handling(table: Table, cursor: int, marks: set<(int, string)>)

  /** The update of the row's own bridge was made, with the row's message, and the bridge, if
      tracked, is terminal. */
  predicate Direct(r: FailedRow, p: Handling) {
    (r.id, r.message) in p.marks && (r.id in p.table ==> !InFlight(p.table[r.id]))
  }

  /** Every failed row the cursor passed has been handled. */
  predicate Handled(failed: seq<FailedRow>, from: int, p: Handling) {
    forall r :: r in failed && from < r.id <= p.cursor ==> Direct(r, p)
  }

  /** What one run of syncFailed may do: rows of the table move, the cursor goes on to a row of
      the batch up to which all were handled. */
  ghost predicate FailedRun(failed: seq<FailedRow>, limit: nat, a: Handling, b: Handling) {
    var batch := Batch(failed, FAILED_KEY, a.cursor, limit);
    && b.table.Keys == a.table.Keys && TableMoves(a.table, b.table) && a.marks <= b.marks
    && (b.cursor == a.cursor
        || exists j :: 0 <= j < |batch| && b.cursor == batch[j].id
             && forall i :: 0 <= i <= j ==> Direct(batch[i], b))
  }

  ghost predicate CleanFailedRun(failed: seq<FailedRow>, limit: nat, a: Handling, b: Handling) {
    var batch := Batch(failed, FAILED_KEY, a.cursor, limit);
    FailedRun(failed, limit, a, b) && b.cursor == if batch == [] then a.cursor else batch[|batch| - 1].id
  }

  lemma DirectStays(r: FailedRow, a: Handling, b: Handling)
    requires Direct(r, a) && b.table.Keys == a.table.Keys && TableMoves(a.table, b.table) && a.marks <= b.marks
    ensures Direct(r, b)
  {
    if r.id in a.table {
      assert RowMoves(a.table[r.id], b.table[r.id]);
    }
  }

  /** The cursor never goes back, never passes a row that was not handled, and handled rows stay
      handled. */
  lemma FailedRunHandles(failed: seq<FailedRow>, limit: nat, from: int, a: Handling, b: Handling)
    requires SortedBy(failed, FAILED_KEY) && FailedRun(failed, limit, a, b)
    requires Handled(failed, from, a)
    ensures Handled(failed, from, b) && a.cursor <= b.cursor
  {
    hide Direct, TableMoves;
    var batch := Batch(failed, FAILED_KEY, a.cursor, limit);
    var n := BeyondIsSuffix(failed, FAILED_KEY, a.cursor);
    assert forall i, j :: 0 <= i < j < |failed| ==> FAILED_KEY(failed[i]) < FAILED_KEY(failed[j]);
    if b.cursor != a.cursor {
      var last :| 0 <= last < |batch| && b.cursor == batch[last].id
             && forall i :: 0 <= i <= last ==> Direct(batch[i], b);
      assert batch[last] == failed[n + last];
      forall r | r in failed && from < r.id <= b.cursor
        ensures Direct(r, b)
      {
        var j :| 0 <= j < |failed| && failed[j] == r;
        if j < n {
          assert FAILED_KEY(failed[j]) <= a.cursor;
          DirectStays(r, a, b);
        } else {
          assert batch[j - n] == r;
        }
      }
    } else {
      forall r | r in failed && from < r.id <= b.cursor
        ensures Direct(r, b)
      {
        DirectStays(r, a, b);
      }
    }
  }

  lemma CleanFailedRunAdvances(failed: seq<FailedRow>, limit: nat, a: Handling, b: Handling)
    requires SortedBy(failed, FAILED_KEY) && CleanFailedRun(failed, limit, a, b)
    ensures var n := |Beyond(failed, FAILED_KEY, a.cursor)|;
            |Beyond(failed, FAILED_KEY, b.cursor)| == if n < limit then 0 else n - limit
  {
    var rest, batch := Beyond(failed, FAILED_KEY, a.cursor), Batch(failed, FAILED_KEY, a.cursor, limit);
    if batch != [] {
      assert batch[|batch| - 1] == rest[|batch| - 1];
      BeyondAdvances(failed, FAILED_KEY, a.cursor, |batch|);
    }
  }

  /** Over any runs of syncFailed, with failures or without, all rows up to the cursor are
      handled; and as many clean runs as there are batches reach the end of the table. */
  lemma {:induction false} RetriedFailed(failed: seq<FailedRow>, limit: nat, ps: seq<Handling>)
    requires SortedBy(failed, FAILED_KEY) && ps != []
    requires forall i :: 0 <= i < |ps| - 1 ==> FailedRun(failed, limit, ps[i], ps[i + 1])
    ensures Handled(failed, ps[0].cursor, ps[|ps| - 1])
    ensures (forall i :: 0 <= i < |ps| - 1 ==> CleanFailedRun(failed, limit, ps[i], ps[i + 1]))
            && (|ps| - 1) * limit >= |Beyond(failed, FAILED_KEY, ps[0].cursor)|
            ==> Beyond(failed, FAILED_KEY, ps[|ps| - 1].cursor) == []
    decreases |ps|
  {
    hide FailedRun, CleanFailedRun;
    FailedPrefix(failed, limit, ps, |ps| - 1);
    if forall i :: 0 <= i < |ps| - 1 ==> CleanFailedRun(failed, limit, ps[i], ps[i + 1]) {
      RemainingAfter(failed, limit, ps, |ps| - 1);
    }
  }

  lemma {:induction false} FailedPrefix(failed: seq<FailedRow>, limit: nat, ps: seq<Handling>, n: nat)
    requires SortedBy(failed, FAILED_KEY) && n < |ps|
    requires forall i :: 0 <= i < |ps| - 1 ==> FailedRun(failed, limit, ps[i], ps[i + 1])
    ensures Handled(failed, ps[0].cursor, ps[n])
  {
    hide FailedRun;
    if n > 0 {
      FailedPrefix(failed, limit, ps, n - 1);
      assert FailedRun(failed, limit, ps[n - 1], ps[n - 1 + 1]);
      FailedRunHandles(failed, limit, ps[0].cursor, ps[n - 1], ps[n]);
    }
  }

  lemma {:induction false} RemainingAfter(failed: seq<FailedRow>, limit: nat, ps: seq<Handling>, n: nat)
    requires SortedBy(failed, FAILED_KEY) && n < |ps|
    requires forall i :: 0 <= i < |ps| - 1 ==> CleanFailedRun(failed, limit, ps[i], ps[i + 1])
    ensures var r := |Beyond(failed, FAILED_KEY, ps[0].cursor)|;
            |Beyond(failed, FAILED_KEY, ps[n].cursor)| == if r < n * limit then 0 else r - n * limit
  {
    hide CleanFailedRun;
    if n > 0 {
      RemainingAfter(failed, limit, ps, n - 1);
      assert CleanFailedRun(failed, limit, ps[n - 1], ps[n - 1 + 1]);
      CleanFailedRunAdvances(failed, limit, ps[n - 1], ps[n]);
      assert n * limit == (n - 1) * limit + limit && (n - 1) * limit >= 0;
    }
  }

  /** A row the cursor has passed is in no later batch: whatever was not done for it stays undone. */
  lemma {:induction false} NeverRetried(failed: seq<FailedRow>, limit: nat, ps: seq<Handling>, row: FailedRow, n: nat)
    requires SortedBy(failed, FAILED_KEY) && n < |ps| && row in failed && row.id <= ps[0].cursor
    requires forall i :: 0 <= i < |ps| - 1 ==> FailedRun(failed, limit, ps[i], ps[i + 1])
    ensures row.id <= ps[n].cursor && row !in Batch(failed, FAILED_KEY, ps[n].cursor, limit)
  {
    hide FailedRun;
    if n > 0 {
      NeverRetried(failed, limit, ps, row, n - 1);
      assert FailedRun(failed, limit, ps[n - 1], ps[n - 1 + 1]);
      FailedRunForward(failed, limit, ps[n - 1], ps[n]);
    }
    var k := BeyondIsSuffix(failed, FAILED_KEY, ps[n].cursor);
  }

  lemma FailedRunForward(failed: seq<FailedRow>, limit: nat, a: Handling, b: Handling)
    requires SortedBy(failed, FAILED_KEY) && FailedRun(failed, limit, a, b)
    ensures a.cursor <= b.cursor
  {
    FailedRunHandles(failed, limit, a.cursor, a, b);
  }
}
