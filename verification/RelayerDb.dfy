/** The relayer's own tables, which the indexer only reads. A query may fail to start, and may
    break off after some of its rows; `failures` counts the queries that did either. */
module RelayerDatabase {
  import opened Options
  import opened Items
  import opened Transfers
  import opened Lifecycle
  import opened Ancestors
  import opened BridgeDatabase

  datatype QueueRow = QueueRow(id: int, createdAt: int, item: Item, routed: bool)

  /** The bridge record of a queue row. */
  function RecordOf(row: QueueRow): Reading<Record> {
    Parse(row.id, row.item, row.createdAt, row.routed)
  }

  /** The rows a query answered; broken when its iteration ended with an error. */
  datatype Rows<T> = Rows(rows: seq<T>, broken: bool)

  predicate SortedBy<T>(rows: seq<T>, key: T -> int) {
    forall i, j :: 0 <= i < j < |rows| ==> key(rows[i]) < key(rows[j])
  }

  /** The rows with a key above the cursor, of rows sorted by key. */
  function Beyond<T>(rows: seq<T>, key: T -> int, cursor: int): (rest: seq<T>)
    ensures forall r :: r in rest ==> r in rows
  {
    if rows == [] || key(rows[0]) > cursor then rows else Beyond(rows[1..], key, cursor)
  }

  function Batch<T>(rows: seq<T>, key: T -> int, cursor: int, limit: nat): (batch: seq<T>)
    ensures batch <= Beyond(rows, key, cursor) && |batch| <= limit
    ensures |batch| == if |Beyond(rows, key, cursor)| < limit then |Beyond(rows, key, cursor)| else limit
  {
    var rest := Beyond(rows, key, cursor);
    if |rest| < limit then rest else rest[..limit]
  }

  const QUEUE_KEY: QueueRow -> int := (r: QueueRow) => r.id
  const FAILED_KEY: FailedRow -> int := (r: FailedRow) => r.id

  /** A done row the LIKE filter keeps: one of the three event kinds, in an event, a datagram or an
      entry of a promise. */
  predicate Relevant(row: DoneRow) {
    match row.item
    case Call(ChainEvent(e, _, _)) => e.PacketRecv? || e.WriteAck?
    case Call(FullEvent(e, _, _)) => e.PacketRecv? || e.WriteAck?
    case Call(Multicall(datagrams)) => exists d :: d in datagrams && (d.PacketTimeout? || d.BadTimeout?)
    case Promise(batches) =>
      exists i, j :: 0 <= i < |batches| && 0 <= j < |batches[i]|
        && (batches[i][j].kind == "packet_recv" || batches[i][j].kind == "write_ack")
    case _ => false
  }

  /** The filter keeps every row that handling does anything with. */
  lemma RelevantRows(row: DoneRow)
    ensures Matched(row) || Crashes(row) || Timeouts(row.item) != [] ==> Relevant(row)
  {
    if row.item.Promise? {
      FirstTimedExact(row.item.batches);
    } else if row.item.Call? && row.item.message.Multicall? && Timeouts(row.item) != [] {
      SomeTimeout(row.item.message.datagrams);
    }
  }

  lemma {:induction false} SomeTimeout(ds: seq<Datagram>)
    requires TimeoutKeys(ds) != []
    ensures exists d :: d in ds && d.PacketTimeout?
  {
    var front, last := ds[..|ds| - 1], ds[|ds| - 1];
    assert last in ds;
    if !last.PacketTimeout? {
      SomeTimeout(front);
      var d :| d in front && d.PacketTimeout?;
      assert d in ds;
    }
  }

  /** The row is in the done table. */
  ghost predicate InDone(done: map<int, DoneRow>, row: DoneRow) {
    exists id :: id in done && done[id] == row
  }

  class RelayerDB {
    var queue: seq<QueueRow>
    var done: map<int, DoneRow>
    var failed: seq<FailedRow>
    ghost var failures: nat
    ghost var fetched: seq<int>  // ids whose parents were asked for

    ghost predicate Valid()
      reads this
    {
      && SortedBy(queue, QUEUE_KEY) && (forall r :: r in queue ==> r.id > 0)
      && SortedBy(failed, FAILED_KEY) && (forall r :: r in failed ==> r.id > 0)
      && (forall id :: id in done ==> done[id].id == id)
    }

    /** The parent ids of the done table, by id. */
    ghost function Parents(): Graph
      reads this`done
    {
      map id | id in done :: done[id].parents
    }

    method QueryFate() returns (started: bool, broken: bool)
      modifies this`failures
      ensures failures == old(failures) + if !started || broken then 1 else 0
    {
      started := *;
      broken := *;
      if !started || broken {
        failures := failures + 1;
      }
    }

    method QueryQueue(cursor: int, limit: nat) returns (answer: Option<Rows<QueueRow>>)
      modifies this`failures
      ensures failures == old(failures) + if answer.None? || answer.value.broken then 1 else 0
      ensures answer.Some? ==> answer.value.rows <= Batch(queue, QUEUE_KEY, cursor, limit)
      ensures answer.Some? && !answer.value.broken ==> answer.value.rows == Batch(queue, QUEUE_KEY, cursor, limit)
    {
      var started, broken := QueryFate();
      if !started {
        return None;
      }
      var batch := Batch(queue, QUEUE_KEY, cursor, limit);
      var n: nat := |batch|;
      if broken {
        n :| 0 <= n <= |batch|;
      }
      return Some(Rows(batch[..n], broken));
    }

    method QueryFailed(cursor: int, limit: nat) returns (answer: Option<Rows<FailedRow>>)
      modifies this`failures
      ensures failures == old(failures) + if answer.None? || answer.value.broken then 1 else 0
      ensures answer.Some? ==> answer.value.rows <= Batch(failed, FAILED_KEY, cursor, limit)
      ensures answer.Some? && !answer.value.broken ==> answer.value.rows == Batch(failed, FAILED_KEY, cursor, limit)
    {
      var started, broken := QueryFate();
      if !started {
        return None;
      }
      var batch := Batch(failed, FAILED_KEY, cursor, limit);
      var n: nat := |batch|;
      if broken {
        n :| 0 <= n <= |batch|;
      }
      return Some(Rows(batch[..n], broken));
    }

    /** The ids of the list that are in the queue. */
    method QueryQueueIds(ids: seq<int>) returns (answer: Option<Rows<int>>)
      modifies this`failures
      ensures failures == old(failures) + if answer.None? || answer.value.broken then 1 else 0
      ensures answer.Some? && !answer.value.broken ==>
                forall id :: id in answer.value.rows <==> id in ids && exists r :: r in queue && r.id == id
    {
      var started, broken := QueryFate();
      if !started {
        return None;
      }
      var list := ListOf(set r | r in queue && r.id in ids :: r.id);
      return Some(Rows(list, broken));
    }

    /** The done rows from a moment on, in no particular order. */
    method QueryDone(since: int) returns (answer: Option<Rows<DoneRow>>)
      modifies this`failures
      ensures failures == old(failures) + if answer.None? || answer.value.broken then 1 else 0
      ensures answer.Some? ==> forall r :: r in answer.value.rows ==> InDone(done, r) && r.createdAt >= since
      ensures answer.Some? && !answer.value.broken ==>
                forall r :: InDone(done, r) && r.createdAt >= since && Relevant(r) ==> r in answer.value.rows
    {
      hide Relevant;
      var started, broken := QueryFate();
      if !started {
        return None;
      }
      var wanted := set id | id in done && done[id].createdAt >= since;
      var ids := ListOf(wanted);
      var rows := [];
      for i := 0 to |ids|
        invariant forall k :: 0 <= k < |ids| ==> ids[k] in wanted
        invariant forall r :: r in rows ==> InDone(done, r) && r.createdAt >= since
        invariant forall k :: 0 <= k < i ==> done[ids[k]] in rows
      {
        var id, row := ids[i], done[ids[i]];
        assert id in done && done[id] == row;
        rows := rows + [row];
      }
      forall r | InDone(done, r) && r.createdAt >= since
        ensures r in rows
      {
        var id :| id in done && done[id] == r;
        assert id in wanted && id in ids;
      }
      return Some(Rows(rows, broken));
    }

    /** The parents of a done row; None when there is no such row or the query failed. */
    method QueryParents(id: int) returns (parents: Option<seq<int>>)
      modifies this`failures, this`fetched
      ensures fetched == old(fetched) + [id]
      ensures failures == old(failures) || (failures == old(failures) + 1 && parents.None?)
      ensures parents.Some? ==> id in done && parents.value == done[id].parents
      ensures failures == old(failures) && id in done ==> parents.Some?
    {
      fetched := fetched + [id];
      var started, broken := QueryFate();
      if !started || broken || id !in done {
        return None;
      }
      return Some(done[id].parents);
    }
  }
}
