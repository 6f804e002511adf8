/** The indexer: startup scans, notification handlers and the ancestor search, over a bridge
    database it updates and relayer tables it reads. */
module IndexerTasks {
  import opened Options
  import opened Items
  import opened Transfers
  import opened Duplicates
  import opened Lifecycle
  import opened Scan
  import opened DoneEffects
  import opened Ancestors
  import opened BridgeDatabase
  import opened RelayerDatabase
  import opened Retry

  /** Times in nanoseconds since the zero time of Go. */
  const MINUTE: int := 60_000_000_000

  // ---------------------------------------------------------------- the oldest bridge

  predicate IsMin(times: seq<int>, x: int) {
    x in times && forall t :: t in times ==> x <= t
  }

  /** The minimum loop of syncDone. The zero time serves as "none yet", so the loop is right
      exactly when no time is the zero time, or the last one is, or one is before it. */
  method Oldest(times: seq<int>) returns (oldest: int)
    requires times != []
    ensures IsMin(times, oldest) <==> 0 !in times || times[|times| - 1] == 0 || exists t :: t in times && t < 0
    ensures oldest in times
  {
    oldest := 0;
    for i := 0 to |times|
      invariant i > 0 ==> oldest in times[..i]
      invariant i == 0 ==> oldest == 0
      invariant (exists t :: t in times[..i] && t < 0) ==> IsMin(times[..i], oldest)
      invariant i > 0 && times[i - 1] == 0 && (forall t :: t in times[..i] ==> t >= 0) ==> oldest == 0
      invariant i > 0 && 0 !in times[..i] ==> IsMin(times[..i], oldest)
      invariant i > 0 && times[i - 1] != 0 && (forall t :: t in times[..i] ==> t >= 0) ==> oldest > 0
    {
      assert times[..i + 1] == times[..i] + [times[i]];
      if oldest == 0 || times[i] < oldest {
        oldest := times[i];
      }
    }
    assert times[..|times|] == times;
  }

  /** A list on which the loop goes wrong: a later time follows the zero time, and replaces it. */
  method OldestOfZeroAndFive() returns (oldest: int)
    ensures oldest == 5 && !IsMin([0, 5], oldest)
  {
    oldest := Oldest([0, 5]);
    assert IsMin([0, 5], 0);
  }

  // ---------------------------------------------------------------- the indexer

  /** What a startup went through: the tables after the removal of duplicates, the queue scan and the
      done scan, the rows the latter was answered, and what the failed scan could not read; how many
      statements failed; and whether none did and nothing panicked. */
  datatype Trail = Trail(
    deduped: Table, queued: Table, answered: seq<DoneRow>, scanned: Table, missed: seq<Option<set<int>>>,
    faults: nat, clean: bool)

  /** When no in-flight bridge has the zero time, the rows scanned are those of the done table that say
      something and are no older than a minute before the oldest in-flight bridge. */
  ghost predicate Scans(done: map<int, DoneRow>, t: Table, rows: seq<DoneRow>) {
    && (forall d :: d in rows ==> InDone(done, d))
    && (Timed(t) ==> forall d :: InDone(done, d) && Relevant(d) ==> (d in rows <==> OldEnough(t, d.createdAt)))
  }

  /** And every bridge with a write_ack among those is terminal. */
  ghost predicate Acknowledged(done: map<int, DoneRow>, t: Table, t': Table) {
    Timed(t) ==> forall d, id :: InDone(done, d) ==> Settled(t, t', d, id)
  }

  ghost predicate Settled(t: Table, t': Table, d: DoneRow, id: int) {
    id in t && AckOf(d.item, t[id].hash) && OldEnough(t, d.createdAt) ==> id in t' && t'[id].status >= 2
  }

  /** The done part of a startup. */
  ghost predicate DonePart(done: map<int, DoneRow>, trail: Trail) {
    && (exists k: nat :: k <= trail.faults && ScanMade(trail.queued, Reached(trail.answered), k, trail.scanned))
    && (trail.clean ==> Scans(done, trail.queued, trail.answered) && Acknowledged(done, trail.queued, trail.scanned))
  }

  /** The failed part, which leads to the table t. */
  ghost predicate FailedPart(failed: seq<FailedRow>, limit: nat, cursor: int, g: Graph, trail: Trail, t: Table) {
    var batch := Batch(failed, FAILED_KEY, cursor, limit);
    && |trail.missed| <= |batch| && Faults(trail.missed) <= trail.faults
    && FailedEffects(trail.scanned, g, batch[..|trail.missed|], trail.missed, t)
    && (trail.clean ==> NoneMissed(trail.missed) && |trail.missed| == |batch|)
  }

  class Indexer {
    const bridge: BridgeDB
    const relayer: RelayerDB
    const batchSize: nat

    constructor (bridge: BridgeDB, relayer: RelayerDB, batchSize: nat)
      ensures this.bridge == bridge && this.relayer == relayer && this.batchSize == batchSize
    {
      this.bridge, this.relayer, this.batchSize := bridge, relayer, batchSize;
    }

    /** Statements and queries that failed so far. */
    ghost function Failures(): nat
      reads bridge`failures, relayer`failures
    {
      bridge.failures + relayer.failures
    }

    ghost function QueueProgress(): Progress
      reads bridge
    {
      Progress(bridge.transfers, bridge.Cursor("queue"))
    }

    ghost function FailedProgress(): Handling
      reads bridge
    {
      Handling(bridge.transfers, bridge.Cursor("failed"), bridge.marks)
    }

    ghost predicate PositiveIds()
      reads bridge`transfers
    {
      forall id :: id in bridge.transfers ==> id > 0
    }

    // -------------------------------------------------------------- startup

    /** The startup of Run: duplicates, queue, done, failed, each attempted whatever became of the
        ones before, unless a row makes the process panic. The trail has the table after each of the
        first three; the last leads to the table at the end. */
    method Start() returns (deduped: bool, panicked: bool, ghost trail: Trail)
      requires relayer.Valid() && RowsOk(bridge.transfers) && PositiveIds()
      modifies bridge, relayer`failures, relayer`fetched
      ensures Failures() >= old(Failures())
      ensures Failures() == old(Failures()) ==> deduped
      ensures RowsOk(bridge.transfers) && PositiveIds()
      ensures deduped || UniqueHashes(old(bridge.transfers)) ==> UniqueHashes(bridge.transfers)
      ensures TableMoves(if deduped then Dedupe(old(bridge.transfers)) else old(bridge.transfers), bridge.transfers)
      ensures trail.deduped == if deduped then Dedupe(old(bridge.transfers)) else old(bridge.transfers)
      ensures trail.faults == Failures() - old(Failures()) && (trail.clean <==> trail.faults == 0 && !panicked)
      ensures QueueRun(relayer.queue, batchSize, Progress(trail.deduped, old(bridge.Cursor("queue"))),
                       Progress(trail.queued, bridge.Cursor("queue")))
      ensures trail.clean ==>
                CleanQueueRun(relayer.queue, batchSize, Progress(trail.deduped, old(bridge.Cursor("queue"))),
                              Progress(trail.queued, bridge.Cursor("queue")))
      ensures DonePart(relayer.done, trail)
      ensures FailedPart(relayer.failed, batchSize, old(bridge.Cursor("failed")), relayer.Parents(), trail,
                         bridge.transfers)
      ensures trail.clean ==> Acknowledged(relayer.done, trail.queued, bridge.transfers)
    {
      hide RowsOk, UniqueHashes, TableMoves, Dedupe, QueueRun, CleanQueueRun, Acknowledged, NoneStops;
      hide DonePart, FailedPart;
      DedupeKeeps(bridge.transfers);
      ghost var g, cursor := relayer.Parents(), bridge.Cursor("failed");
      var removed, dedupeFailed := bridge.DedupeByPacketHash();
      deduped := !dedupeFailed;
      ghost var t1, p1 := bridge.transfers, QueueProgress();
      var queueFailed;
      queueFailed, panicked := SyncQueue();
      QueueRunKeeps(relayer.queue, batchSize, p1, QueueProgress());
      ghost var t2 := bridge.transfers;
      trail := Trail(t1, t2, [], t2, [], Failures() - old(Failures()), false);
      if panicked {
        NothingScanned(relayer.done, relayer.failed, batchSize, cursor, g, trail);
        return;
      }
      ghost var rest;
      panicked, rest := SyncRest();
      TableMovesTransitive(t1, t2, bridge.transfers);
      if UniqueHashes(t1) {
        MovesKeepUnique(t2, bridge.transfers);
      }
      trail := rest.(deduped := t1, faults := Failures() - old(Failures()),
        clean := Failures() == old(Failures()) && !panicked);
      PartsGrow(relayer.done, relayer.failed, batchSize, cursor, g, rest, trail, bridge.transfers);
    }

    /** The second half of the startup: done, then failed. */
    method SyncRest() returns (panicked: bool, ghost trail: Trail)
      requires relayer.Valid() && RowsOk(bridge.transfers) && PositiveIds()
      modifies bridge, relayer`failures, relayer`fetched
      ensures Failures() >= old(Failures()) && bridge.Cursor("queue") == old(bridge.Cursor("queue"))
      ensures RowsOk(bridge.transfers) && PositiveIds()
      ensures TableMoves(old(bridge.transfers), bridge.transfers) && bridge.transfers.Keys == old(bridge.transfers).Keys
      ensures trail.queued == old(bridge.transfers) && trail.faults == Failures() - old(Failures())
      ensures trail.clean <==> trail.faults == 0 && !panicked && UniqueHashes(old(bridge.transfers))
      ensures DonePart(relayer.done, trail)
      ensures FailedPart(relayer.failed, batchSize, old(bridge.Cursor("failed")), relayer.Parents(), trail,
                         bridge.transfers)
      ensures trail.clean ==> Acknowledged(relayer.done, trail.queued, bridge.transfers)
    {
      hide RowsOk, UniqueHashes, TableMoves, FailedRun, CleanFailedRun, FailedEffects, FailedBy, ScanAll, ScanMade,
        Reached, Hashed, Timed, OldEnough, Relevant, Batch, Scans, Acknowledged, Crashing, NoneMissed, Undecided, Kept,
        DonePart, FailedPart;
      ghost var t2, g, cursor := bridge.transfers, relayer.Parents(), bridge.Cursor("failed");
      PositiveHashed(t2);
      var doneFailed;
      ghost var answered;
      doneFailed, panicked, answered := SyncDone();
      ghost var t3, p3 := bridge.transfers, FailedProgress();
      KeptMoves(t2, t3);
      trail := Trail(t2, t2, answered, t3, [], Failures() - old(Failures()), false);
      if panicked {
        DoneDone(relayer.done, trail);
        NothingFailed(relayer.failed, batchSize, cursor, g, trail);
        return;
      }
      var failedFailed;
      ghost var missed;
      failedFailed, missed := SyncFailed();
      FailedRunMoves(relayer.failed, batchSize, p3, FailedProgress());
      TableMovesTransitive(t2, t3, bridge.transfers);
      trail := Trail(t2, t2, answered, t3, missed, Failures() - old(Failures()),
        Failures() == old(Failures()) && UniqueHashes(t2));
      DoneDone(relayer.done, trail);
      FailedDone(relayer.failed, batchSize, cursor, g, trail, bridge.transfers);
      if trail.clean {
        StartAcknowledges(relayer.done, t2, t3, bridge.transfers);
      }
    }

    // -------------------------------------------------------------- queue

    /** syncQueue: inserts the rows of one batch; the first failure ends the run, a row that panics
        the process, and the cursor moves only after the whole batch. */
    method SyncQueue() returns (failed: bool, panicked: bool)
      requires relayer.Valid()
      modifies bridge`transfers, bridge`cursors, bridge`failures, relayer`failures
      ensures forall name :: name != "queue" ==> bridge.Cursor(name) == old(bridge.Cursor(name))
      ensures Failures() >= old(Failures()) && (failed ==> Failures() > old(Failures()))
      ensures Failures() > old(Failures()) ==> failed || panicked
      ensures QueueRun(relayer.queue, batchSize, old(QueueProgress()), QueueProgress())
      ensures !failed && !panicked ==>
                CleanQueueRun(relayer.queue, batchSize, old(QueueProgress()), QueueProgress())
      ensures panicked ==> !NoneStops(Batch(relayer.queue, QUEUE_KEY, old(bridge.Cursor("queue")), batchSize))
      ensures Failures() == old(Failures()) ==>
                (panicked <==> !NoneStops(Batch(relayer.queue, QUEUE_KEY, old(bridge.Cursor("queue")), batchSize)))
    {
      hide InsertRow', Inserted, Parse, RecordOf, InsertRows, QueueRun, CleanQueueRun, HashKnown, Stops, NoneStops,
        Batch, Beyond;
      var cursor, cursorFailed := bridge.GetCursor("queue");
      ghost var batch := Batch(relayer.queue, QUEUE_KEY, old(bridge.Cursor("queue")), batchSize);
      assert batch[..0] == [] && batch[..|batch|] == batch;
      InsertNone(bridge.transfers);
      NothingStops();
      InsertedUpTo(relayer.queue, batchSize, old(QueueProgress()), bridge.transfers, 0);
      if cursorFailed {
        return true, false;
      }
      var answer := relayer.QueryQueue(cursor, batchSize);
      if answer.None? {
        return true, false;
      }
      var rows := answer.value.rows;
      var lastId := 0;
      for i := 0 to |rows|
        invariant rows <= batch && bridge.cursors == old(bridge.cursors)
        invariant NoneStops(batch[..i]) && bridge.transfers == InsertRows(old(bridge.transfers), batch[..i])
        invariant lastId == if i == 0 then 0 else rows[i - 1].id
        invariant i > 0 ==> lastId > 0
        invariant bridge.failures == old(bridge.failures)
        invariant relayer.failures == old(relayer.failures) + if answer.value.broken then 1 else 0
      {
        InsertedNext(old(bridge.transfers), batch, i);
        StopsNext(batch, i);
        var rec := RecordOf(rows[i]);
        InsertRowCases(bridge.transfers, rows[i]);
        InsertedUpTo(relayer.queue, batchSize, old(QueueProgress()), bridge.transfers, i);
        if rec.Panicked? {
          return false, true;
        }
        if rec.Found? {
          ghost var before := bridge.transfers;
          var insertFailed := bridge.Insert(rec.value);
          if insertFailed {
            return true, false;
          }
          InsertedDetected(before, rec.value, bridge.transfers);
        }
        lastId := rows[i].id;
        assert rows[i] in Beyond(relayer.queue, QUEUE_KEY, cursor);
      }
      InsertedUpTo(relayer.queue, batchSize, old(QueueProgress()), bridge.transfers, |rows|);
      panicked := false;
      if answer.value.broken {
        return true, false;
      }
      if lastId > 0 {
        failed := bridge.SetCursor("queue", lastId);
      } else {
        failed := false;
      }
    }

    /** The handler of a queue notification does for its row what the scan does. */
    method HandleQueue(row: QueueRow) returns (panicked: bool)
      modifies bridge`transfers, bridge`failures
      ensures panicked <==> Stops(row)
      ensures bridge.failures >= old(bridge.failures)
      ensures bridge.transfers == if bridge.failures == old(bridge.failures)
                                  then InsertRow'(old(bridge.transfers), row) else old(bridge.transfers)
    {
      hide Inserted, Parse, RecordOf, InsertRow';
      InsertRowCases(bridge.transfers, row);
      var rec := RecordOf(row);
      if rec.Panicked? {
        return true;
      }
      panicked := false;
      if rec.Found? {
        var insertFailed := bridge.Insert(rec.value);
        if !insertFailed {
          InsertedDetected(old(bridge.transfers), rec.value, bridge.transfers);
        }
      }
    }

    // -------------------------------------------------------------- processing

    /** syncProcessing: the detected bridges whose item has left the queue become processing. */
    method SyncProcessing() returns (failed: bool)
      modifies bridge`transfers, bridge`failures, relayer`failures
      ensures failed <==> Failures() > old(Failures())
      ensures failed ==> bridge.transfers == old(bridge.transfers)
      ensures !failed ==> bridge.transfers.Keys == old(bridge.transfers).Keys
      ensures !failed ==> forall id :: id in bridge.transfers ==>
                bridge.transfers[id] ==
                  if old(bridge.transfers)[id].status == DETECTED && !(exists r :: r in relayer.queue && r.id == id)
                  then old(bridge.transfers)[id].(status := PROCESSING) else old(bridge.transfers)[id]
    {
      var ids, readFailed := bridge.GetDetectedIDs();
      if readFailed || ids == [] {
        return readFailed;
      }
      var answer := relayer.QueryQueueIds(ids);
      if answer.None? || answer.value.broken {
        return true;
      }
      var inQueue := set id | id in answer.value.rows;
      var gone := [];
      for i := 0 to |ids|
        invariant forall id :: id in gone <==> id in ids[..i] && id !in inQueue
      {
        assert ids[..i + 1] == ids[..i] + [ids[i]];
        if ids[i] !in inQueue {
          gone := gone + [ids[i]];
        }
      }
      assert ids[..|ids|] == ids;
      if gone != [] {
        failed := bridge.MarkProcessing(gone);
      } else {
        failed := false;
        assert forall id ::
          id in bridge.transfers && bridge.transfers[id].status == DETECTED ==> id in ids && id !in gone;
      }
    }

    // -------------------------------------------------------------- done

    /** markPacketTimeoutFailed: some in-flight bridge with the key has timed out, unless a statement
        failed. */
    method MarkPacketTimeoutFailed(key: TimeoutKey)
      modifies bridge`transfers, bridge`failures, bridge`marks
      ensures bridge.failures >= old(bridge.failures)
      ensures KeyMade(old(bridge.transfers), key, bridge.failures - old(bridge.failures), bridge.transfers)
    {
      var id, failed := bridge.FindByTimeoutAndChannel(key);
      if failed || id == 0 {
        return;
      }
      var matched, markFailed := bridge.MarkFailed(id, TIMED_OUT, "");
      assert !markFailed ==> bridge.transfers == KeyEffect(old(bridge.transfers), id);
    }

    /** The packet_recv and write_ack part of handling a done row. */
    method MatchByHash(row: DoneRow) returns (panicked: bool)
      modifies bridge`transfers, bridge`failures, bridge`marks
      ensures panicked <==> Crashes(row)
      ensures bridge.failures >= old(bridge.failures)
      ensures HashMade(old(bridge.transfers), row, bridge.failures - old(bridge.failures), bridge.transfers)
    {
      hide ParseItemFields;
      panicked := Crashes(row);
      if panicked || !Matched(row) {
        return;
      }
      var fields := FieldsOf(row);
      var id, failed := bridge.FindByPacketHash(fields.hash);
      if failed || id == 0 {
        return;
      }
      if fields.eventType == PACKET_RECV {
        var txFailed := bridge.SetTxIn(fields.hash, fields.txHash);
        assert !txFailed ==> bridge.transfers == FoundEffect(old(bridge.transfers), id, row);
      } else {
        MarkWriteAckResult(id, row.createdAt, fields);
        assert bridge.failures == old(bridge.failures) ==>
                 bridge.transfers == FoundEffect(old(bridge.transfers), id, row);
      }
    }

    /** markWriteAckResult. */
    method MarkWriteAckResult(id: int, createdAt: int, fields: ItemFields)
      requires fields.eventType != PACKET_RECV
      modifies bridge`transfers, bridge`failures, bridge`marks
      ensures old(bridge.failures) <= bridge.failures <= old(bridge.failures) + 1
      ensures bridge.transfers == if bridge.failures == old(bridge.failures)
                                  then HashEffect(old(bridge.transfers), id, createdAt, fields)
                                  else old(bridge.transfers)
    {
      if fields.ackSuccess {
        var matched, failed := bridge.MarkDone(id, createdAt, fields.txHash);
      } else {
        var matched, failed := bridge.MarkFailed(id, AckErrMessage(fields.ackError), fields.txHash);
      }
    }

    method MarkTimeouts(keys: seq<TimeoutKey>)
      modifies bridge`transfers, bridge`failures, bridge`marks
      ensures bridge.failures >= old(bridge.failures)
      ensures KeysMade(old(bridge.transfers), keys, bridge.failures - old(bridge.failures), bridge.transfers)
    {
      hide KeyMade, KeysMade;
      MadeNone(bridge.transfers);
      assert keys[..0] == [];
      for i := 0 to |keys|
        invariant bridge.failures >= old(bridge.failures)
        invariant KeysMade(old(bridge.transfers), keys[..i], bridge.failures - old(bridge.failures), bridge.transfers)
      {
        ghost var before, failures := bridge.transfers, bridge.failures;
        MarkPacketTimeoutFailed(keys[i]);
        KeysMadeNext(old(bridge.transfers), keys, i, failures - old(bridge.failures), before,
          bridge.failures - failures, bridge.transfers);
      }
      assert keys[..|keys|] == keys;
    }

    /** The loop body of syncDone for one row. */
    method CatchUpRow(row: DoneRow) returns (panicked: bool)
      modifies bridge`transfers, bridge`failures, bridge`marks
      ensures panicked <==> Crashes(row)
      ensures bridge.failures >= old(bridge.failures)
      ensures CatchUpMade(old(bridge.transfers), row, bridge.failures - old(bridge.failures), bridge.transfers)
      ensures bridge.failures == old(bridge.failures) && Keyed(old(bridge.transfers)) ==>
                bridge.transfers == CatchUp(old(bridge.transfers), row)
    {
      hide Keyed, Timeouts, CatchUp, CatchUpMade, KeysMade, HashMade, Crashes;
      var keys := ParsePacketTimeouts(row.item);
      MarkTimeouts(keys);
      ghost var timedOut, failures := bridge.transfers, bridge.failures;
      panicked := MatchByHash(row);
      OneAfterOther(old(bridge.transfers), row, failures - old(bridge.failures), timedOut, bridge.failures - failures,
        bridge.transfers);
      if bridge.failures == old(bridge.failures) && Keyed(old(bridge.transfers)) {
        CatchUpMadeExact(old(bridge.transfers), row, bridge.transfers);
      }
    }

    /** The handler of a done notification, which takes the two parts in the other order. */
    method HandleDone(row: DoneRow) returns (panicked: bool)
      modifies bridge`transfers, bridge`failures, bridge`marks
      ensures panicked <==> Crashes(row)
      ensures bridge.failures >= old(bridge.failures)
      ensures CatchUpMade(old(bridge.transfers), row, bridge.failures - old(bridge.failures), bridge.transfers)
      ensures bridge.failures == old(bridge.failures) && Keyed(old(bridge.transfers)) ==>
                bridge.transfers == CatchUp(old(bridge.transfers), row)
    {
      hide Keyed, Timeouts, CatchUp, CatchUpMade, KeysMade, HashMade, Crashes;
      panicked := MatchByHash(row);
      ghost var matched, failures := bridge.transfers, bridge.failures;
      if panicked {
        CrashHandled(old(bridge.transfers), row, failures - old(bridge.failures), bridge.transfers);
      } else {
        var keys := ParsePacketTimeouts(row.item);
        MarkTimeouts(keys);
        OneAfterOther(old(bridge.transfers), row, failures - old(bridge.failures), matched, bridge.failures - failures,
          bridge.transfers);
        LiveMadeIsCatchUp(old(bridge.transfers), row, bridge.failures - old(bridge.failures), bridge.transfers);
      }
      if bridge.failures == old(bridge.failures) && Keyed(old(bridge.transfers)) {
        CatchUpMadeExact(old(bridge.transfers), row, bridge.transfers);
      }
    }

    /** The loop of syncDone, which ends with the first row that panics. */
    method ScanRows(rows: seq<DoneRow>) returns (panicked: bool)
      modifies bridge`transfers, bridge`failures, bridge`marks
      ensures panicked <==> Crashing(rows)
      ensures bridge.failures >= old(bridge.failures)
      ensures ScanMade(old(bridge.transfers), Reached(rows), bridge.failures - old(bridge.failures), bridge.transfers)
    {
      hide CatchUp, CatchUpMade, ScanMade, Keyed, Crashes, Reached, Crashing;
      MadeNone(bridge.transfers);
      assert rows[..0] == [] && rows[..|rows|] == rows;
      for i := 0 to |rows|
        invariant bridge.failures >= old(bridge.failures)
        invariant forall k :: 0 <= k < i ==> !Crashes(rows[k])
        invariant ScanMade(old(bridge.transfers), rows[..i], bridge.failures - old(bridge.failures), bridge.transfers)
      {
        ghost var before, failures := bridge.transfers, bridge.failures;
        panicked := CatchUpRow(rows[i]);
        if panicked {
          ReachedTo(rows, i);
          CrashMade(before, rows[i], bridge.failures - failures, bridge.transfers);
          return;
        }
        ScanMadeNext(old(bridge.transfers), rows, i, failures - old(bridge.failures), before,
          bridge.failures - failures, bridge.transfers);
      }
      ReachedTo(rows, |rows|);
      panicked := false;
    }

    /** syncDone. When nothing fails and no in-flight bridge has the zero time, the rows answered
        are the relevant ones of the done table from a minute before the oldest in-flight bridge on.
        The scan panics exactly when one of them does; otherwise every bridge with a write_ack among
        them is terminal afterwards, but for one a failed statement. With unique timeout keys and no
        failures the result is exactly that of handling the rows one after the other, as far as the
        scan gets. */
    method SyncDone() returns (failed: bool, panicked: bool, ghost answered: seq<DoneRow>)
      requires relayer.Valid()
      modifies bridge`transfers, bridge`failures, bridge`marks, relayer`failures
      ensures Failures() >= old(Failures())
      ensures failed ==> Failures() > old(Failures())
      ensures forall d :: d in answered ==> InDone(relayer.done, d)
      ensures panicked <==> Crashing(answered)
      ensures Failures() == old(Failures()) ==> Scans(relayer.done, old(bridge.transfers), answered)
      ensures exists n: nat :: n <= Failures() - old(Failures())
                && ScanMade(old(bridge.transfers), Reached(answered), n, bridge.transfers)
      ensures RowsOk(old(bridge.transfers)) ==> Kept(old(bridge.transfers), bridge.transfers)
      ensures Hashed(old(bridge.transfers)) ==>
                |Undecided(old(bridge.transfers), Reached(answered), bridge.transfers)| <= Failures() - old(Failures())
      ensures Failures() == old(Failures()) && Keyed(old(bridge.transfers)) ==>
                bridge.transfers == ScanRun(old(bridge.transfers), answered)
      ensures Failures() == old(Failures()) && Timed(old(bridge.transfers))
              && (forall d :: InDone(relayer.done, d) && OldEnough(old(bridge.transfers), d.createdAt) ==>
                    !Crashes(d)) ==>
                !panicked
      ensures Failures() == old(Failures()) && Hashed(old(bridge.transfers)) && !panicked ==>
                Acknowledged(relayer.done, old(bridge.transfers), bridge.transfers)
    {
      hide Acked, Refused, Matched, Timeouts, RowsOk, UniqueHashes, UniqueKeys, Relevant, Kept, Crashes, Reached,
        OldEnough, ScanAll, ScanMade, Undecided;
      answered, panicked := [], false;
      ScanNone(bridge.transfers);
      Scanned(bridge.transfers, [], 0, bridge.transfers);
      var times, readFailed := bridge.GetInFlightCreatedAt();
      if readFailed || times == [] {
        failed := readFailed;
        assert ScanMade(old(bridge.transfers), Reached(answered), 0, bridge.transfers);
        if !failed {
          NoneInFlight(bridge.transfers, times);
        }
        return;
      }
      var oldest := Oldest(times);
      OldestBound(bridge.transfers, times, oldest);
      var answer := relayer.QueryDone(oldest - MINUTE);
      if answer.None? {
        failed := true;
        return;
      }
      var rows := answer.value.rows;
      answered := rows;
      failed := answer.value.broken;
      panicked := ScanRows(rows);
      Scanned(old(bridge.transfers), rows, bridge.failures - old(bridge.failures), bridge.transfers);
      if Failures() == old(Failures()) && Hashed(old(bridge.transfers)) && !panicked {
        AllAcknowledged(relayer.done, old(bridge.transfers), rows, bridge.transfers);
      }
    }

    // -------------------------------------------------------------- failed

    /** traceFailedAncestor: a nearest in-flight bridge within 7 parent edges of the start, or 0
        when there is none. Every parent list is asked for at most once, also on cyclic graphs. A
        list whose query fails is passed over: `missed` are the ids of these, and the search then is
        one in the graph without them. */
    method TraceFailedAncestor(startParents: seq<int>) returns (id: int, failed: bool, ghost missed: set<int>)
      requires PositiveIds()
      modifies bridge`failures, relayer`failures, relayer`fetched
      ensures bridge.failures == old(bridge.failures) + if failed then 1 else 0
      ensures relayer.failures == old(relayer.failures) + |missed|
      ensures |old(relayer.fetched)| <= |relayer.fetched| && Distinct(relayer.fetched[|old(relayer.fetched)|..])
      ensures failed ==> id == 0
      ensures id != 0 ==>
                && id in bridge.transfers && InFlight(bridge.transfers[id])
                && id in Within(relayer.Parents(), Elements(startParents), 7)
                && Nearest(bridge.transfers, relayer.Parents() - missed, Elements(startParents), id)
      ensures !failed && id == 0 ==>
                NoneWithin(bridge.transfers, relayer.Parents() - missed, Elements(startParents), 7)
    {
      hide Within, Up, Searched, Distinct;
      ghost var g, start, log := relayer.Parents(), Elements(startParents), |relayer.fetched|;
      var visited: set<int> := {};
      var current := startParents;
      var depth: nat := 0;
      missed := {};
      SearchStart(bridge.transfers, g - missed, start);
      assert relayer.fetched[log..] == [];
      NothingFetched(relayer.fetched);
      while depth < MAX_LEVEL && current != []
        invariant depth <= MAX_LEVEL && log <= |relayer.fetched| && missed <= visited
        invariant bridge.failures == old(bridge.failures)
        invariant relayer.failures == old(relayer.failures) + |missed|
        invariant Fetched(relayer.fetched, log, visited)
        invariant Searched(bridge.transfers, g - missed, start, depth, visited, Elements(current))
        decreases MAX_LEVEL - depth
      {
        var found, findFailed := bridge.FindAncestor(current);
        if findFailed {
          return 0, true, missed;
        } else if found > 0 {
          assert found in Elements(current);
          FoundNearest(bridge.transfers, g, missed, start, depth, visited, Elements(current), found);
          return found, false, missed;
        }
        ghost var before, known := visited, missed;
        var next;
        visited, next, missed := CollectParents(current, visited, missed, log);
        SearchedMissing(bridge.transfers, g, known, missed, start, depth, before, Elements(current));
        SearchedNext(bridge.transfers, g - missed, start, depth, before, Elements(current), next);
        current := next;
        depth := depth + 1;
      }
      SearchedEnd(bridge.transfers, g - missed, start, depth, visited, Elements(current));
      return 0, false, missed;
    }

    /** One level of the search: the parents of the ids not visited before, as far as they could be
        read. */
    method CollectParents(current: seq<int>, visited: set<int>, ghost known: set<int>, ghost log: nat)
      returns (seen: set<int>, next: seq<int>, ghost missed: set<int>)
      requires log <= |relayer.fetched| && Fetched(relayer.fetched, log, visited) && known <= visited
      modifies relayer`failures, relayer`fetched
      ensures log <= |relayer.fetched| && Fetched(relayer.fetched, log, seen)
      ensures seen == visited + Elements(current)
      ensures known <= missed <= seen && missed * visited == known
      ensures relayer.failures - old(relayer.failures) == |missed| - |known|
      ensures LevelRead(relayer.Parents() - missed, visited, seen, next)
    {
      hide Fetched, LevelRead, Elements;
      ghost var g := relayer.Parents();
      CollectNone(g - known, visited);
      assert current[..0] == [];
      seen := visited;
      next := [];
      missed := known;
      for i := 0 to |current|
        invariant log <= |relayer.fetched| && Fetched(relayer.fetched, log, seen)
        invariant seen == visited + Elements(current[..i])
        invariant known <= missed <= seen && missed * visited == known
        invariant relayer.failures - old(relayer.failures) == |missed| - |known|
        invariant LevelRead(g - missed, visited, seen, next)
      {
        var pid := current[i];
        ElementsNext(current, i);
        if pid !in seen {
          CollectOne(g, missed, visited, seen, next, pid);
          FetchOnce(relayer.fetched, log, seen, pid);
          seen := seen + {pid};
          ghost var failures := relayer.failures;
          var parents := relayer.QueryParents(pid);
          if parents.Some? {
            assert g[pid] == parents.value;
            next := next + parents.value;
          } else if relayer.failures > failures {
            missed := missed + {pid};
          }
        }
      }
      assert current[..|current|] == current;
    }

    /** syncFailed: every row of the batch fails the bridge of its own id and then a nearest
        in-flight ancestor. The batch stops at the first direct update that fails, and the cursor
        goes to the last row whose direct update went through. Only these two kinds of bridges
        fail, with the message of their row. `missed` has an entry for each handled row: the ids
        whose parents could not be read, and then the row had the full effect in the graph without
        them; or None when another statement failed, and then its ancestor's update may be lost. */
    method SyncFailed() returns (failed: bool, ghost missed: seq<Option<set<int>>>)
      requires relayer.Valid() && RowsOk(bridge.transfers) && PositiveIds()
      modifies bridge, relayer`failures, relayer`fetched
      ensures forall name :: name != "failed" ==> bridge.Cursor(name) == old(bridge.Cursor(name))
      ensures Failures() >= old(Failures()) && (failed ==> Failures() > old(Failures()))
      ensures RowsOk(bridge.transfers) && PositiveIds()
      ensures FailedRun(relayer.failed, batchSize, old(FailedProgress()), FailedProgress())
      ensures Failures() == old(Failures()) ==>
                CleanFailedRun(relayer.failed, batchSize, old(FailedProgress()), FailedProgress())
      ensures |missed| <= |Batch(relayer.failed, FAILED_KEY, old(bridge.Cursor("failed")), batchSize)|
      ensures FailedEffects(old(bridge.transfers), relayer.Parents(),
                            Batch(relayer.failed, FAILED_KEY, old(bridge.Cursor("failed")), batchSize)[..|missed|],
                            missed, bridge.transfers)
      ensures Faults(missed) <= Failures() - old(Failures())
      ensures Failures() == old(Failures()) ==>
                NoneMissed(missed)
                && |missed| == |Batch(relayer.failed, FAILED_KEY, old(bridge.Cursor("failed")), batchSize)|
      ensures forall id :: id in bridge.transfers && bridge.transfers[id] != old(bridge.transfers)[id] ==>
                exists r :: r in relayer.failed && FailedBy(relayer.Parents(), r, id, bridge.transfers[id])
    {
      hide RowsOk, TableMoves, FailedRun, CleanFailedRun, Within, FailedBy, FailedUpTo, FailedEffect,
        FailedEffects, Batch, Beyond, Direct;
      ghost var g := relayer.Parents();
      ghost var batch := Batch(relayer.failed, FAILED_KEY, old(bridge.Cursor("failed")), batchSize);
      missed := [];
      FailedNone(g, relayer.failed, batch, bridge.transfers, bridge.marks);
      assert batch[..0] == [] && batch[..|batch|] == batch;
      FailedRunTo(g, relayer.failed, batchSize, FailedProgress(), bridge.transfers, bridge.marks, 0);
      var cursor, cursorFailed := bridge.GetCursor("failed");
      if cursorFailed {
        failed := true;
        return;
      }
      var answer := relayer.QueryFailed(cursor, batchSize);
      if answer.None? {
        failed := true;
        return;
      }
      forall r | r in batch
        ensures r in relayer.failed && r.id > 0
      {
        assert r in Beyond(relayer.failed, FAILED_KEY, cursor);
      }
      var lastId;
      lastId, missed := FailRows(answer.value.rows, batch);
      FailedRunTo(g, relayer.failed, batchSize, old(FailedProgress()), bridge.transfers, bridge.marks, |missed|);
      if answer.value.broken {
        failed := true;
        return;
      }
      if lastId > 0 {
        failed := bridge.SetCursor("failed", lastId);
      } else {
        failed := false;
      }
    }

    /** The loop of syncFailed over the rows answered, the first ones of the batch. */
    method FailRows(rows: seq<FailedRow>, ghost batch: seq<FailedRow>)
      returns (lastId: int, ghost missed: seq<Option<set<int>>>)
      requires RowsOk(bridge.transfers) && PositiveIds() && rows <= batch
      requires forall r :: r in batch ==> r in relayer.failed && r.id > 0
      modifies bridge`transfers, bridge`failures, bridge`marks, relayer`failures, relayer`fetched
      ensures Failures() >= old(Failures()) && old(bridge.marks) <= bridge.marks
      ensures RowsOk(bridge.transfers) && PositiveIds() && |missed| <= |rows|
      ensures lastId == if missed == [] then 0 else rows[|missed| - 1].id
      ensures FailedUpTo(relayer.Parents(), relayer.failed, batch, |missed|, old(bridge.transfers), bridge.transfers,
                         bridge.marks)
      ensures FailedEffects(old(bridge.transfers), relayer.Parents(), batch[..|missed|], missed, bridge.transfers)
      ensures Faults(missed) <= Failures() - old(Failures())
      ensures Failures() == old(Failures()) ==> NoneMissed(missed) && |missed| == |rows|
    {
      hide RowsOk, TableMoves, Within, FailedBy, FailedUpTo, FailedEffect, FailedEffects, Direct;
      ghost var g := relayer.Parents();
      missed := [];
      FailedNone(g, relayer.failed, batch, bridge.transfers, bridge.marks);
      assert batch[..0] == [];
      lastId := 0;
      for i := 0 to |rows|
        invariant lastId == if i == 0 then 0 else rows[i - 1].id
        invariant Failures() >= old(Failures()) && old(bridge.marks) <= bridge.marks
        invariant RowsOk(bridge.transfers) && PositiveIds()
        invariant FailedUpTo(g, relayer.failed, batch, i, old(bridge.transfers), bridge.transfers, bridge.marks)
        invariant |missed| == i && FailedEffects(old(bridge.transfers), g, batch[..i], missed, bridge.transfers)
        invariant Faults(missed) <= Failures() - old(Failures())
        invariant Failures() == old(Failures()) ==> NoneMissed(missed)
      {
        assert rows[i] == batch[i] && batch[i] in batch;
        ghost var before, marks := bridge.transfers, bridge.marks;
        var markFailed, unread := FailRow(rows[i]);
        FailedNext(g, relayer.failed, batch, i, old(bridge.transfers), before, bridge.transfers, marks, bridge.marks,
          markFailed);
        if markFailed {
          break;
        }
        FailedEffectsNext(old(bridge.transfers), g, batch, i, missed, before, unread, bridge.transfers);
        assert Failures() == old(Failures()) ==> unread == Some({});
        FaultsNext(missed, unread);
        missed := missed + [unread];
        lastId := rows[i].id;
      }
    }

    /** The loop body of syncFailed; failed says that the direct update did not go through. */
    method FailRow(row: FailedRow) returns (failed: bool, ghost missed: Option<set<int>>)
      requires RowsOk(bridge.transfers) && PositiveIds() && row in relayer.failed
      modifies bridge`transfers, bridge`failures, bridge`marks, relayer`failures, relayer`fetched
      ensures bridge.failures >= old(bridge.failures) && relayer.failures >= old(relayer.failures)
      ensures failed ==> bridge.failures > old(bridge.failures)
      ensures missed.Some? <==> bridge.failures == old(bridge.failures)
      ensures missed.Some? ==> !failed && relayer.failures == old(relayer.failures) + |missed.value|
      ensures old(bridge.marks) <= bridge.marks
      ensures !failed ==> Direct(row, Handling(bridge.transfers, 0, bridge.marks))
      ensures RowsOk(bridge.transfers) && TableMoves(old(bridge.transfers), bridge.transfers)
      ensures bridge.transfers.Keys == old(bridge.transfers).Keys
      ensures if failed then bridge.transfers == old(bridge.transfers)
              else RowEffect(old(bridge.transfers), relayer.Parents(), row, missed, bridge.transfers)
      ensures forall id :: id in bridge.transfers && bridge.transfers[id] != old(bridge.transfers)[id] ==>
                FailedBy(relayer.Parents(), row, id, bridge.transfers[id])
    {
      hide RowsOk, TableMoves, Within, FailedBy, Nearest, NoneWithin;
      ghost var g := relayer.Parents();
      missed := None;
      failed := FailFor(g, row, row.id);
      if failed {
        return;
      }
      OwnNotInFlight(old(bridge.transfers), row);
      var ancestor, traceFailed;
      ghost var unread;
      ancestor, traceFailed, unread := TraceFailedAncestor(row.parents);
      if traceFailed {
        return;
      }
      if ancestor == 0 || ancestor == row.id {
        missed := Some(unread);
        return;
      }
      ghost var before := bridge.transfers;
      NearestWithin(before, g - unread, Elements(row.parents), ancestor);
      var ancestorFailed := FailFor(g, row, ancestor);
      TableMovesTransitive(old(bridge.transfers), before, bridge.transfers);
      TerminalStays(before, bridge.transfers);
      if !ancestorFailed {
        missed := Some(unread);
      }
    }

    /** One MarkFailed for a failed row, of its own bridge or of an ancestor. */
    method FailFor(ghost g: Graph, row: FailedRow, id: int) returns (failed: bool)
      requires RowsOk(bridge.transfers) && row in relayer.failed
      requires id == row.id || id in Within(g, Elements(row.parents), 7)
      modifies bridge`transfers, bridge`failures, bridge`marks
      ensures bridge.failures == old(bridge.failures) + if failed then 1 else 0
      ensures bridge.marks == old(bridge.marks) + if failed then {} else {(id, row.message)}
      ensures bridge.transfers ==
                if failed then old(bridge.transfers) else MarkFailed(old(bridge.transfers), id, row.message, "")
      ensures RowsOk(bridge.transfers) && TableMoves(old(bridge.transfers), bridge.transfers)
      ensures bridge.transfers.Keys == old(bridge.transfers).Keys
      ensures !failed && id in bridge.transfers ==> !InFlight(bridge.transfers[id])
      ensures forall other :: other in bridge.transfers && bridge.transfers[other] != old(bridge.transfers)[other] ==>
                FailedBy(g, row, other, bridge.transfers[other])
    {
      hide RowsOk, TableMoves, Within;
      MovesReflexive(bridge.transfers);
      MarkFailedMoves(bridge.transfers, id, row.message, "");
      var matched;
      matched, failed := bridge.MarkFailed(id, row.message, "");
    }

    /** handleFailedNotification: the bridge of the row's own id, or else an in-flight bridge with
        the timeout and channel of the row's item. */
    method HandleFailed(row: FailedRow) returns (panicked: bool)
      modifies bridge`transfers, bridge`failures, bridge`marks
      ensures bridge.failures >= old(bridge.failures)
      ensures bridge.failures > old(bridge.failures) ==> bridge.transfers == old(bridge.transfers)
      ensures bridge.failures == old(bridge.failures) ==>
                NotifiedFailed(old(bridge.transfers), row, bridge.transfers)
                && (panicked <==> ParseItemFields(row.item).Panicked?
                                  && !(row.id in old(bridge.transfers) && InFlight(old(bridge.transfers)[row.id])))
    {
      hide ParseItemFields;
      panicked := false;
      var matched, failed := bridge.MarkFailed(row.id, row.message, "");
      if failed || matched {
        return;
      }
      panicked := ParseItemFields(row.item).Panicked?;
      var key := PromiseKey(row);
      if key.None? {
        return;
      }
      var id, findFailed := bridge.FindByTimeoutAndChannel(key.value);
      if findFailed || id == 0 {
        return;
      }
      var again, againFailed := bridge.MarkFailed(id, row.message, ParseItemFields(row.item).value.txHash);
    }

  }

  lemma DedupeKeeps(t: Table)
    requires RowsOk(t) && forall id :: id in t ==> id > 0
    ensures RowsOk(Dedupe(t)) && UniqueHashes(Dedupe(t)) && forall id :: id in Dedupe(t) ==> id > 0
  {
    DedupeUnique(t);
  }

  /** Inserting queue rows adds no second row for a hash, and leaves the others alone. */
  lemma {:induction false} InsertRowsKeep(t: Table, rows: seq<QueueRow>)
    requires RowsOk(t) && (forall id :: id in t ==> id > 0) && forall r :: r in rows ==> r.id > 0
    ensures var t' := InsertRows(t, rows);
            && RowsOk(t') && TableMoves(t, t') && (forall id :: id in t' ==> id > 0)
            && (UniqueHashes(t) ==> UniqueHashes(t'))
            && (forall id :: id in t ==> id in t' && t'[id] == t[id])
  {
    hide RowsOk, TableMoves;
    MovesReflexive(t);
    if rows != [] {
      var front, last := InsertRows(t, rows[..|rows| - 1]), rows[|rows| - 1];
      InsertRowsKeep(t, rows[..|rows| - 1]);
      assert last in rows;
      var rec := RecordOf(last);
      if rec.Found? && !HashKnown(front, rec.value.hash) {
        InsertRowMoves(front, rec.value);
        TableMovesTransitive(t, front, InsertRow(front, rec.value));
      }
    }
  }

  lemma QueueRunKeeps(queue: seq<QueueRow>, limit: nat, a: Progress, b: Progress)
    requires QueueRun(queue, limit, a, b) && forall r :: r in queue ==> r.id > 0
    requires RowsOk(a.table) && forall id :: id in a.table ==> id > 0
    ensures RowsOk(b.table) && TableMoves(a.table, b.table) && (forall id :: id in b.table ==> id > 0)
    ensures UniqueHashes(a.table) ==> UniqueHashes(b.table)
  {
    hide RowsOk, TableMoves, InsertRows, UniqueHashes;
    var batch := Batch(queue, QUEUE_KEY, a.cursor, limit);
    var k: nat :| k <= |batch| && NoneStops(batch[..k]) && b.table == InsertRows(a.table, batch[..k]);
    forall r | r in batch[..k]
      ensures r.id > 0
    {
      assert r in Beyond(queue, QUEUE_KEY, a.cursor);
    }
    InsertRowsKeep(a.table, batch[..k]);
  }

  lemma FailedRunMoves(failed: seq<FailedRow>, limit: nat, a: Handling, b: Handling)
    requires FailedRun(failed, limit, a, b)
    ensures b.table.Keys == a.table.Keys && TableMoves(a.table, b.table)
  {
  }

  /** The row of the bridge is the outcome of this failed row: the bridge has its id, or is
      within 7 parent edges of its parents. */
  ghost predicate FailedBy(g: Graph, r: FailedRow, id: int, row: Row) {
    && row.status == FAILED && row.errMsg == Some(r.message)
    && (id == r.id || id in Within(g, Elements(r.parents), 7))
  }

  /** What handling a failed row without failures makes of the table: the bridge of its own id
      fails, and then a nearest in-flight ancestor if there is one. */
  ghost predicate FailedEffect(t: Table, g: Graph, row: FailedRow, t': Table) {
    var own, start := MarkFailed(t, row.id, row.message, ""), Elements(row.parents);
    if NoneWithin(own, g, start, 7) then t' == own
    else exists id :: Nearest(own, g, start, id) && t' == MarkFailed(own, id, row.message, "")
  }

  /** The rows handled one after another, each in full as far as its parents could be read. */
  ghost predicate FailedEffects(t: Table, g: Graph, rows: seq<FailedRow>, missed: seq<Option<set<int>>>, t': Table)
    requires |missed| == |rows|
  {
    if rows == [] then t' == t
    else
      var n := |rows| - 1;
      var front, last, firsts, unread := rows[..n], rows[n], missed[..n], missed[n];
      exists t1 :: FailedEffects(t, g, front, firsts, t1) && RowEffect(t1, g, last, unread, t')
  }

  /** The full effect, as far as parents could be read; or, when the search or the ancestor's update
      failed, that of the direct update alone. */
  ghost predicate RowEffect(t: Table, g: Graph, row: FailedRow, missed: Option<set<int>>, t': Table) {
    if missed.Some? then FailedEffect(t, g - missed.value, row, t') else t' == MarkFailed(t, row.id, row.message, "")
  }

  /** At least this many statements failed on the rows. */
  ghost function Faults(missed: seq<Option<set<int>>>): nat {
    if missed == [] then 0
    else
      var n := |missed| - 1;
      Faults(missed[..n]) + if missed[n].Some? then |missed[n].value| else 1
  }

  lemma FaultsNext(missed: seq<Option<set<int>>>, unread: Option<set<int>>)
    ensures Faults(missed + [unread]) == Faults(missed) + if unread.Some? then |unread.value| else 1
  {
    assert (missed + [unread])[..|missed|] == missed;
  }

  /** No statement failed on any of the rows. */
  predicate NoneMissed(missed: seq<Option<set<int>>>) {
    forall m :: m in missed ==> m == Some({})
  }

  lemma FailedEffectsNext(t: Table, g: Graph, rows: seq<FailedRow>, n: nat, missed: seq<Option<set<int>>>, t1: Table,
                          unread: Option<set<int>>, t2: Table)
    requires n < |rows| && n == |missed| && FailedEffects(t, g, rows[..n], missed, t1)
    requires RowEffect(t1, g, rows[n], unread, t2)
    ensures FailedEffects(t, g, rows[..n + 1], missed + [unread], t2)
  {
    hide RowEffect;
    assert rows[..n + 1][..n] == rows[..n] && (missed + [unread])[..n] == missed;
  }

  /** When a statement failed after the row's direct update, the effect is complete all the same
      exactly when there was no in-flight ancestor to fail. */
  lemma LostExactly(t: Table, g: Graph, row: FailedRow, t': Table)
    requires RowEffect(t, g, row, None, t')
    ensures FailedEffect(t, g, row, t') <==> NoneWithin(t', g, Elements(row.parents), 7)
  {
    hide Within, NoneWithin;
    forall id | Nearest(t', g, Elements(row.parents), id)
      ensures t' != MarkFailed(t', id, row.message, "")
    {
      assert t'[id].status != FAILED && MarkFailed(t', id, row.message, "")[id].status == FAILED;
    }
  }

  /** Such a row: its ancestor's update failed, the cursor passed it all the same, and no later run
      takes it up, so the ancestor stays in flight. */
  lemma LostAncestor() returns (row: FailedRow, a: Handling, b: Handling)
    ensures FailedRun([row], 1, a, b) && row.id <= b.cursor
    ensures RowEffect(a.table, map[], row, None, b.table) && !FailedEffect(a.table, map[], row, b.table)
    ensures forall ps: seq<Handling>, n: nat ::
              n < |ps| && ps[0] == b && (forall i :: 0 <= i < |ps| - 1 ==> FailedRun([row], 1, ps[i], ps[i + 1])) ==>
                row !in Batch([row], FAILED_KEY, ps[n].cursor, 1)
  {
    row := FailedRow(5, [1], "refused", OtherItem);
    var t: Table := map[1 := Row("hash", 7, 3, 4, DETECTED, None, None, None)];
    a, b := Handling(t, 0, {}), Handling(t, 5, {(5, "refused")});
    LostRun(row, a, b);
    LostExactly(t, map[], row, t);
    assert 1 in Within(map[], Elements(row.parents), 0);
    WithinGrows(map[], Elements(row.parents), 0, 7);
    forall ps: seq<Handling>, n: nat |
      n < |ps| && ps[0] == b && (forall i :: 0 <= i < |ps| - 1 ==> FailedRun([row], 1, ps[i], ps[i + 1]))
      ensures row !in Batch([row], FAILED_KEY, ps[n].cursor, 1)
    {
      NeverRetried([row], 1, ps, row, n);
    }
  }

  lemma LostRun(row: FailedRow, a: Handling, b: Handling)
    requires a.cursor < row.id && row.id !in a.table
    requires b == Handling(a.table, row.id, a.marks + {(row.id, row.message)})
    ensures FailedRun([row], 1, a, b)
  {
    MovesReflexive(a.table);
    assert Batch([row], FAILED_KEY, a.cursor, 1)[0] == row;
  }

  /** When parents that could not be read make no difference. If the search found nothing: when there
      is nothing within 7 edges by them either. If it found a bridge: when by all parents no in-flight
      bridge is within fewer edges than that one. */
  lemma MissedExactly(t: Table, g: Graph, missed: set<int>, row: FailedRow, t': Table)
    requires FailedEffect(t, g - missed, row, t')
    ensures var own, start := MarkFailed(t, row.id, row.message, ""), Elements(row.parents);
            && (NoneWithin(own, g - missed, start, 7) ==>
                  (FailedEffect(t, g, row, t') <==> NoneWithin(own, g, start, 7)))
            && (forall id :: Nearest(own, g - missed, start, id) && t' == MarkFailed(own, id, row.message, "") ==>
                  (FailedEffect(t, g, row, t') <==> NoneNearer(own, g, start, id)))
  {
    hide Within, NoneWithin, Nearest, NoneNearer, MarkFailed;
    var own, start := MarkFailed(t, row.id, row.message, ""), Elements(row.parents);
    if NoneWithin(own, g - missed, start, 7) {
      LostExactly(t, g, row, t');
    }
    forall id | Nearest(own, g - missed, start, id) && t' == MarkFailed(own, id, row.message, "")
      ensures FailedEffect(t, g, row, t') <==> NoneNearer(own, g, start, id)
    {
      NearestExactly(own, g, missed, start, id);
      FailedIsNearest(t, g, row, id);
    }
  }

  /** No in-flight bridge is within fewer parent edges than this one. */
  ghost predicate NoneNearer(t: Table, g: Graph, start: set<int>, id: int) {
    forall k: nat :: k < MAX_LEVEL && id !in Within(g, start, k) ==> NoneWithin(t, g, start, k)
  }

  lemma NearestExactly(t: Table, g: Graph, missed: set<int>, start: set<int>, id: int)
    requires Nearest(t, g - missed, start, id)
    ensures Nearest(t, g, start, id) <==> NoneNearer(t, g, start, id)
    ensures id in t && InFlight(t[id]) && id in Within(g, start, 7)
  {
    hide Within, NoneWithin;
    var k: nat :| k < MAX_LEVEL && id in t && InFlight(t[id]) && id in Within(g - missed, start, k);
    WithinMissing(g, missed, start, k);
    WithinGrows(g, start, k, 7);
    if Nearest(t, g, start, id) {
      NearestNoneNearer(t, g, start, id);
    }
    if NoneNearer(t, g, start, id) {
      var first := FirstLevel(g, start, id, k);
      assert first > 0 ==> id !in Within(g, start, first - 1);
    }
  }

  lemma NearestNoneNearer(t: Table, g: Graph, start: set<int>, id: int)
    requires Nearest(t, g, start, id)
    ensures NoneNearer(t, g, start, id)
  {
    hide Within;
    var k: nat :| k < MAX_LEVEL && id in t && InFlight(t[id]) && id in Within(g, start, k)
      && (k == 0 || NoneWithin(t, g, start, k - 1));
    forall j: nat | j < MAX_LEVEL && id !in Within(g, start, j)
      ensures NoneWithin(t, g, start, j)
    {
      if k <= j {
        WithinGrows(g, start, k, j);
      } else {
        WithinGrows(g, start, j, k - 1);
      }
    }
  }

  lemma {:induction false} FirstLevel(g: Graph, start: set<int>, id: int, k: nat) returns (first: nat)
    requires id in Within(g, start, k)
    ensures first <= k && id in Within(g, start, first) && (first > 0 ==> id !in Within(g, start, first - 1))
  {
    hide Within;
    first := k;
    if k > 0 && id in Within(g, start, k - 1) {
      first := FirstLevel(g, start, id, k - 1);
    }
  }

  /** Failing an in-flight bridge within reach is the full effect exactly when it is a nearest one. */
  lemma FailedIsNearest(t: Table, g: Graph, row: FailedRow, id: int)
    requires var own := MarkFailed(t, row.id, row.message, "");
             id in own && InFlight(own[id]) && id in Within(g, Elements(row.parents), 7)
    ensures var own := MarkFailed(t, row.id, row.message, "");
            FailedEffect(t, g, row, MarkFailed(own, id, row.message, "")) <==>
              Nearest(own, g, Elements(row.parents), id)
  {
    hide Within;
    var own, start := MarkFailed(t, row.id, row.message, ""), Elements(row.parents);
    assert !NoneWithin(own, g, start, 7);
    hide NoneWithin;
    forall other | Nearest(own, g, start, other)
        && MarkFailed(own, id, row.message, "") == MarkFailed(own, other, row.message, "")
      ensures other == id
    {
      assert MarkFailed(own, other, row.message, "")[other].status == FAILED;
    }
  }

  /** Otherwise a bridge farther away can fail and the nearest one stay in flight: here 10 is one
      edge away by 1, whose parents cannot be read, and 30 is two edges away. */
  lemma FartherAncestor() returns (t: Table, g: Graph, row: FailedRow, t': Table)
    ensures FailedEffect(t, g - {1}, row, t') && !FailedEffect(t, g, row, t')
    ensures 10 in t' && InFlight(t'[10]) && Nearest(t, g, Elements(row.parents), 10)
    ensures 30 in t' && t'[30].status == FAILED && !Nearest(t, g, Elements(row.parents), 30)
  {
    row := FailedRow(5, [1, 2], "refused", OtherItem);
    g := map[1 := [10], 2 := [20], 20 := [30]];
    var bridge := Row("hash", 7, 3, 4, DETECTED, None, None, None);
    t := map[10 := bridge, 30 := bridge.(hash := "other")];
    t' := MarkFailed(t, 30, row.message, "");
    assert Elements(row.parents) == {1, 2} && MarkFailed(t, row.id, row.message, "") == t;
    Levels(g);
    NearestOfLevels(t, g);
    NearestWithin(t, g - {1}, {1, 2}, 30);
    NearestWithin(t, g, {1, 2}, 10);
    forall id | Nearest(t, g, {1, 2}, id)
      ensures t' != MarkFailed(t, id, row.message, "")
    {
      assert id == 10 && MarkFailed(t, 10, row.message, "")[10] != t'[10];
    }
  }

  lemma Levels(g: Graph)
    requires g == map[1 := [10], 2 := [20], 20 := [30]]
    ensures Within(g, {1, 2}, 0) == {1, 2} && Within(g, {1, 2}, 1) == {1, 2, 10, 20}
    ensures Within(g - {1}, {1, 2}, 1) == {1, 2, 20} && 30 in Within(g - {1}, {1, 2}, 2)
  {
    var h := g - {1};
    assert Up(g, {1, 2}) == {10, 20} by {
      assert 10 in g[1] && 20 in g[2];
    }
    assert Up(h, {1, 2}) == {20} by {
      assert 20 in h[2];
    }
    assert 30 in h[20];
    UpMember(h, {1, 2, 20}, 20, 30);
  }

  lemma NearestOfLevels(t: Table, g: Graph)
    requires t.Keys == {10, 30} && InFlight(t[10]) && InFlight(t[30])
    requires Within(g, {1, 2}, 0) == {1, 2} && Within(g, {1, 2}, 1) == {1, 2, 10, 20}
    requires Within(g - {1}, {1, 2}, 1) == {1, 2, 20} && 30 in Within(g - {1}, {1, 2}, 2)
    ensures Nearest(t, g - {1}, {1, 2}, 30)
    ensures forall id :: Nearest(t, g, {1, 2}, id) <==> id == 10
  {
    hide Within;
    assert NoneWithin(t, g - {1}, {1, 2}, 1) && NoneWithin(t, g, {1, 2}, 0);
    forall k: nat | k >= 1
      ensures !NoneWithin(t, g, {1, 2}, k)
    {
      WithinGrows(g, {1, 2}, 1, k);
      assert 10 in Within(g, {1, 2}, k);
    }
  }

  lemma NearestWithin(t: Table, g: Graph, start: set<int>, id: int)
    requires Nearest(t, g, start, id)
    ensures !NoneWithin(t, g, start, 7)
  {
    hide Within;
    var k: nat :| k < MAX_LEVEL && id in t && InFlight(t[id]) && id in Within(g, start, k);
    WithinGrows(g, start, k, 7);
  }

  lemma OwnNotInFlight(t: Table, row: FailedRow)
    ensures var own := MarkFailed(t, row.id, row.message, "");
            row.id in own ==> !InFlight(own[row.id])
  {
  }

  lemma TerminalStays(t: Table, t': Table)
    requires TableMoves(t, t')
    ensures forall id :: id in t && !InFlight(t[id]) ==> id in t' && !InFlight(t'[id])
  {
    assert forall id :: id in t ==> id in t' && RowMoves(t[id], t'[id]);
  }

  /** The first n rows of the batch have been handled: their direct updates were made, and only the
      outcomes of failed rows were written. */
  ghost predicate FailedUpTo(g: Graph, failed: seq<FailedRow>, batch: seq<FailedRow>, n: nat, t: Table, t': Table,
                             marks: set<(int, string)>)
  {
    && n <= |batch| && TableMoves(t, t') && t'.Keys == t.Keys
    && (forall k :: 0 <= k < n ==> Direct(batch[k], Handling(t', 0, marks)))
    && (forall id :: id in t' && t'[id] != t[id] ==> exists r :: r in failed && FailedBy(g, r, id, t'[id]))
  }

  lemma FailedNone(g: Graph, failed: seq<FailedRow>, batch: seq<FailedRow>, t: Table, marks: set<(int, string)>)
    ensures FailedUpTo(g, failed, batch, 0, t, t, marks) && FailedEffects(t, g, [], [], t)
  {
    MovesReflexive(t);
  }

  lemma FailedNext(g: Graph, failed: seq<FailedRow>, batch: seq<FailedRow>, n: nat, t: Table, t1: Table, t2: Table,
                   marks1: set<(int, string)>, marks2: set<(int, string)>, broken: bool)
    requires FailedUpTo(g, failed, batch, n, t, t1, marks1) && n < |batch| && batch[n] in failed
    requires TableMoves(t1, t2) && t2.Keys == t1.Keys && marks1 <= marks2
    requires !broken ==> Direct(batch[n], Handling(t2, 0, marks2))
    requires forall id :: id in t2 && t2[id] != t1[id] ==> FailedBy(g, batch[n], id, t2[id])
    ensures FailedUpTo(g, failed, batch, if broken then n else n + 1, t, t2, marks2)
  {
    hide TableMoves, FailedBy, Direct;
    TableMovesTransitive(t, t1, t2);
    forall k | 0 <= k < n
      ensures Direct(batch[k], Handling(t2, 0, marks2))
    {
      DirectStays(batch[k], Handling(t1, 0, marks1), Handling(t2, 0, marks2));
    }
  }

  /** What a batch handled up to row n, and the cursor at its end, amount to. */
  lemma FailedRunTo(g: Graph, failed: seq<FailedRow>, limit: nat, a: Handling, t: Table, marks: set<(int, string)>,
                    n: nat)
    requires FailedUpTo(g, failed, Batch(failed, FAILED_KEY, a.cursor, limit), n, a.table, t, marks)
    requires a.marks <= marks
    ensures FailedRun(failed, limit, a, Handling(t, a.cursor, marks))
    ensures var batch := Batch(failed, FAILED_KEY, a.cursor, limit);
            var b := Handling(t, if n == 0 then a.cursor else batch[n - 1].id, marks);
            FailedRun(failed, limit, a, b) && (n == |batch| ==> CleanFailedRun(failed, limit, a, b))
    ensures forall id :: id in t && t[id] != a.table[id] ==> exists r :: r in failed && FailedBy(g, r, id, t[id])
  {
    hide FailedBy, TableMoves;
    var batch := Batch(failed, FAILED_KEY, a.cursor, limit);
    if n > 0 {
      var j := n - 1;
      var b := Handling(t, batch[j].id, marks);
      assert forall i :: 0 <= i <= j ==> Direct(batch[i], Handling(t, 0, marks)) && Direct(batch[i], b);
    }
  }

  /** What a failed notification makes of the table. */
  ghost predicate NotifiedFailed(t: Table, row: FailedRow, t': Table) {
    if row.id in t && InFlight(t[row.id]) then t' == MarkFailed(t, row.id, row.message, "")
    else if PromiseKey(row).Some? && exists id :: FoundByKey(t, PromiseKey(row).value, id) then
      exists id :: FoundByKey(t, PromiseKey(row).value, id)
        && t' == if id == 0 then t else MarkFailed(t, id, row.message, ParseItemFields(row.item).value.txHash)
    else t' == t
  }

  // ---------------------------------------------------------------- the ancestor search

  predicate Distinct(s: seq<int>) {
    forall i, j :: 0 <= i < j < |s| ==> s[i] != s[j]
  }

  /** From position `from` on, the log holds exactly the visited ids, each once. */
  ghost predicate Fetched(fetched: seq<int>, from: nat, visited: set<int>)
    requires from <= |fetched|
  {
    Elements(fetched[from..]) == visited && Distinct(fetched[from..])
  }

  lemma NothingFetched(fetched: seq<int>)
    ensures Fetched(fetched, |fetched|, {})
  {
  }

  lemma FetchOnce(fetched: seq<int>, from: nat, visited: set<int>, id: int)
    requires from <= |fetched| && Fetched(fetched, from, visited) && id !in visited
    ensures Fetched(fetched + [id], from, visited + {id})
  {
    assert (fetched + [id])[from..] == fetched[from..] + [id];
    assert forall i :: 0 <= i < |fetched[from..]| ==> fetched[from..][i] in fetched[from..];
  }

  /** No in-flight bridge lies within k parent edges of the start. */
  ghost predicate NoneWithin(t: Table, g: Graph, start: set<int>, k: nat) {
    forall id :: id in Within(g, start, k) && id in t ==> !InFlight(t[id])
  }

  /** The bridge is in flight, and no in-flight bridge is fewer parent edges away. */
  ghost predicate Nearest(t: Table, g: Graph, start: set<int>, id: int) {
    exists k: nat :: k < MAX_LEVEL && id in t && InFlight(t[id]) && id in Within(g, start, k)
      && (k == 0 || NoneWithin(t, g, start, k - 1))
  }

  /** State of the search before level `depth` is looked at: the visited ids are those within
      depth - 1 edges, none of them in flight, and with the current ones they are those within
      depth edges. */
  ghost predicate Searched(t: Table, g: Graph, start: set<int>, depth: nat, visited: set<int>, current: set<int>) {
    && visited + current == Within(g, start, depth)
    && Up(g, visited) <= visited + current
    && (depth > 0 ==> visited == Within(g, start, depth - 1))
    && (forall id :: id in visited && id in t ==> !InFlight(t[id]))
  }

  lemma SearchStart(t: Table, g: Graph, start: set<int>)
    ensures Within(g, start, 0) == start && Searched(t, g, start, 0, {}, start)
  {
    assert Up(g, {}) == {};
  }

  lemma FoundNearest(t: Table, g: Graph, missed: set<int>, start: set<int>, depth: nat, visited: set<int>,
                     current: set<int>, id: int)
    requires Searched(t, g - missed, start, depth, visited, current) && depth < MAX_LEVEL
    requires id in current && id in t && InFlight(t[id])
    ensures Nearest(t, g - missed, start, id) && id in Within(g, start, 7)
  {
    hide Up, Within;
    assert id in Within(g - missed, start, depth);
    assert depth > 0 ==> NoneWithin(t, g - missed, start, depth - 1);
    WithinMissing(g, missed, start, depth);
    WithinGrows(g, start, depth, 7);
  }

  lemma UpOne(g: Graph, s: set<int>, p: int)
    ensures Up(g, s + {p}) == Up(g, s) + if p in g then Elements(g[p]) else {}
  {
    UpUnion(g, s, {p});
    var up := Up(g, {p});
    if p in g {
      forall id | id in g[p]
        ensures id in up
      {
        UpMember(g, {p}, p, id);
      }
      assert up == Elements(g[p]);
    } else {
      assert up == {};
    }
  }

  lemma ElementsNext(ids: seq<int>, i: nat)
    requires i < |ids|
    ensures Elements(ids[..i + 1]) == Elements(ids[..i]) + {ids[i]}
  {
    assert ids[..i + 1] == ids[..i] + [ids[i]];
  }

  lemma ElementsConcat(a: seq<int>, b: seq<int>)
    ensures Elements(a + b) == Elements(a) + Elements(b)
  {
  }

  /** What was found without the known ids stays found without further ones of the current level. */
  lemma SearchedMissing(t: Table, g: Graph, known: set<int>, missed: set<int>, start: set<int>, depth: nat,
                        visited: set<int>, current: set<int>)
    requires Searched(t, g - known, start, depth, visited, current) && missed * visited == known
    ensures Searched(t, g - missed, start, depth, visited, current)
  {
    hide Within;
    assert Agree(g - known, g - missed, visited);
    WithinAgree(g - known, g - missed, start, depth);
    UpAgree(g - known, g - missed, visited);
  }

  /** The list holds the parents of all ids seen, except what those of the visited ones account for. */
  ghost predicate LevelRead(g: Graph, visited: set<int>, seen: set<int>, next: seq<int>) {
    Elements(next) <= Up(g, seen) <= Up(g, visited) + Elements(next)
  }

  lemma CollectNone(g: Graph, visited: set<int>)
    ensures LevelRead(g, visited, visited, []) && Elements([]) == {}
  {
  }

  /** One more id is seen: its parents are added, or it has none, or they could not be read. */
  lemma CollectOne(g: Graph, missed: set<int>, visited: set<int>, seen: set<int>, next: seq<int>, id: int)
    requires LevelRead(g - missed, visited, seen, next) && id !in seen && missed <= seen && visited <= seen
    ensures id in g ==> LevelRead(g - missed, visited, seen + {id}, next + g[id])
    ensures id !in g ==> LevelRead(g - missed, visited, seen + {id}, next)
    ensures LevelRead(g - (missed + {id}), visited, seen + {id}, next)
  {
    hide Up;
    UpOne(g - missed, seen, id);
    UpMissing(g, missed, seen, id);
    UpMissing(g, missed, visited, id);
    if id in g {
      ElementsConcat(next, g[id]);
    }
  }

  lemma SearchedNext(t: Table, g: Graph, start: set<int>, depth: nat,
                     before: set<int>, current: set<int>, next: seq<int>)
    requires Searched(t, g, start, depth, before, current)
    requires forall id :: id in current && id in t ==> !InFlight(t[id])
    requires LevelRead(g, before, before + current, next)
    ensures Searched(t, g, start, depth + 1, before + current, Elements(next))
  {
    hide Up;
  }

  lemma SearchedEnd(t: Table, g: Graph, start: set<int>, depth: nat, visited: set<int>, current: set<int>)
    requires Searched(t, g, start, depth, visited, current) && depth <= MAX_LEVEL
    requires depth == MAX_LEVEL || current == {}
    ensures NoneWithin(t, g, start, 7)
  {
    hide Up, Within;
    if depth < MAX_LEVEL {
      assert visited + current == visited;
      WithinClosed(g, start, depth, 7);
    }
  }

  lemma InsertNone(t: Table)
    ensures InsertRows(t, []) == t
  {
  }

  /** What inserting the first n rows of a batch amounts to, with the cursor left alone, or at
      the end of the batch when that was reached. */
  lemma InsertedUpTo(queue: seq<QueueRow>, limit: nat, a: Progress, t: Table, n: nat)
    requires n <= |Batch(queue, QUEUE_KEY, a.cursor, limit)|
    requires NoneStops(Batch(queue, QUEUE_KEY, a.cursor, limit)[..n])
    requires t == InsertRows(a.table, Batch(queue, QUEUE_KEY, a.cursor, limit)[..n])
    ensures QueueRun(queue, limit, a, Progress(t, a.cursor))
    ensures var batch := Batch(queue, QUEUE_KEY, a.cursor, limit);
            n == |batch| ==>
              var b := Progress(t, if n == 0 then a.cursor else batch[n - 1].id);
              QueueRun(queue, limit, a, b) && CleanQueueRun(queue, limit, a, b)
  {
    hide InsertRows, Stops;
    var batch := Batch(queue, QUEUE_KEY, a.cursor, limit);
    assert n == |batch| ==> batch[..n] == batch;
  }

  lemma InsertedNext(t: Table, rows: seq<QueueRow>, i: nat)
    requires i < |rows|
    ensures InsertRows(t, rows[..i + 1]) == InsertRow'(InsertRows(t, rows[..i]), rows[i])
  {
    assert rows[..i + 1][..i] == rows[..i];
  }

  lemma NothingStops()
    ensures NoneStops([])
  {
  }

  lemma StopsNext(rows: seq<QueueRow>, i: nat)
    requires i < |rows|
    ensures NoneStops(rows[..i + 1]) <==> NoneStops(rows[..i]) && !Stops(rows[i])
    ensures Stops(rows[i]) ==> !NoneStops(rows)
  {
    assert rows[..i + 1] == rows[..i] + [rows[i]] && rows[i] in rows;
  }

  lemma InsertRowCases(t: Table, row: QueueRow)
    ensures !RecordOf(row).Found? ==> InsertRow'(t, row) == t
    ensures RecordOf(row).Found? ==> RecordOf(row).value.status == DETECTED
    ensures RecordOf(row).Found? ==> InsertRow'(t, row) == InsertDetected(t, RecordOf(row).value)
    ensures Stops(row) <==> RecordOf(row).Panicked?
  {
  }

  /** No in-flight bridge was created before this one. */
  predicate OldestAt(t: Table, id: int) {
    && id in t && InFlight(t[id])
    && forall other :: other in t && InFlight(t[other]) ==> t[id].createdAt <= t[other].createdAt
  }

  /** A moment no earlier than one minute before the oldest in-flight bridge. */
  ghost predicate OldEnough(t: Table, moment: int) {
    exists id :: OldestAt(t, id) && moment >= t[id].createdAt - 60_000_000_000
  }

  lemma NoneInFlight(t: Table, times: seq<int>)
    requires times == []
    requires forall x :: x in times <==> exists id :: id in t && InFlight(t[id]) && t[id].createdAt == x
    ensures forall moment :: !OldEnough(t, moment)
  {
    forall id | id in t
      ensures !InFlight(t[id])
    {
      assert t[id].createdAt !in times;
    }
  }

  /** No bridge in flight was created at the zero time. */
  predicate Timed(t: Table) {
    forall id :: id in t && InFlight(t[id]) ==> t[id].createdAt != 0
  }

  lemma OldestBound(t: Table, times: seq<int>, oldest: int)
    requires forall x :: x in times <==> exists id :: id in t && InFlight(t[id]) && t[id].createdAt == x
    requires 0 !in times ==> IsMin(times, oldest)
    ensures Timed(t) ==> forall moment :: OldEnough(t, moment) <==> moment >= oldest - MINUTE
  {
    if Timed(t) {
      var first: int :| first in t && InFlight(t[first]) && t[first].createdAt == oldest;
      forall other | other in t && InFlight(t[other])
        ensures t[first].createdAt <= t[other].createdAt
      {
        assert t[other].createdAt in times;
      }
      assert OldestAt(t, first);
      forall moment | OldEnough(t, moment)
        ensures moment >= oldest - MINUTE
      {
        var id: int :| OldestAt(t, id) && moment >= t[id].createdAt - MINUTE;
        assert t[id].createdAt in times;
      }
    }
  }

  lemma ScanNone(t: Table)
    ensures ScanMade(t, Reached([]), 0, t) && !Crashing([])
  {
  }

  /** What a scan with n failed statements comes to. */
  lemma Scanned(t: Table, rows: seq<DoneRow>, n: nat, t': Table)
    requires ScanMade(t, Reached(rows), n, t')
    ensures RowsOk(t) ==> Kept(t, t')
    ensures Hashed(t) ==> |Undecided(t, Reached(rows), t')| <= n
    ensures n == 0 && Keyed(t) ==> t' == ScanRun(t, rows)
  {
    hide ScanMade, RowsOk, UniqueHashes, UniqueKeys, Kept, Reached, ScanAll, Undecided;
    if RowsOk(t) {
      ScanMadeKept(t, Reached(rows), n, t');
    }
    if Hashed(t) {
      ScanMadeDecides(t, Reached(rows), n, t');
    }
    if n == 0 && Keyed(t) {
      ScanMadeExact(t, Reached(rows), t');
    }
  }

  lemma DecidedAt(t: Table, rows: seq<DoneRow>, t': Table, d: DoneRow, id: int)
    requires !Crashing(rows) && |Undecided(t, Reached(rows), t')| == 0 && Kept(t, t')
    requires d in rows && id in t && AckOf(d.item, t[id].hash)
    ensures id in t' && t'[id].status >= 2
  {
    hide AckOf, Decides, Crashes, TableMoves, RowsOk, Reached;
    ReachedAll(rows);
    DecidesExactly(d, t[id].hash);
    assert id !in Undecided(t, Reached(rows), t');
  }

  lemma {:induction false} ReachedTo(rows: seq<DoneRow>, n: nat)
    requires n <= |rows| && forall k :: 0 <= k < n ==> !Crashes(rows[k])
    requires n == |rows| || Crashes(rows[n])
    ensures Reached(rows) == rows[..n] && (Crashing(rows) <==> n < |rows|)
  {
    hide Crashes;
    if n > 0 {
      ReachedTo(rows[1..], n - 1);
      assert rows == [rows[0]] + rows[1..] && rows[..n] == [rows[0]] + rows[1..][..n - 1];
    }
    if n < |rows| {
      assert rows[n] in rows;
    }
  }

  /** A row that panics changes nothing, neither in the handler nor in the scan. */
  lemma CrashHandled(t: Table, row: DoneRow, n: nat, t': Table)
    requires Crashes(row) && HashMade(t, row, n, t')
    ensures n == 0 && t' == t && CatchUpMade(t, row, n, t')
  {
    hide ParseItemFields, Timeouts, HashMade, KeysMade;
    NeverBoth(row.item);
    NoKeys();
    NoHash(row);
    OneAfterOther(t, row, 0, t, 0, t);
  }

  lemma AllAcknowledged(done: map<int, DoneRow>, t: Table, rows: seq<DoneRow>, t': Table)
    requires Scans(done, t, rows) && !Crashing(rows) && |Undecided(t, Reached(rows), t')| == 0 && Kept(t, t')
    ensures Acknowledged(done, t, t')
  {
    hide Settled, Crashing, Undecided, Reached, Kept, Scans, InDone, Timed;
    if Timed(t) {
      forall d, id | InDone(done, d)
        ensures Settled(t, t', d, id)
      {
        OneAcknowledged(done, t, rows, t', d, id);
      }
    }
  }

  lemma OneAcknowledged(done: map<int, DoneRow>, t: Table, rows: seq<DoneRow>, t': Table, d: DoneRow, id: int)
    requires Scans(done, t, rows) && !Crashing(rows) && |Undecided(t, Reached(rows), t')| == 0 && Kept(t, t')
    requires Timed(t) && InDone(done, d)
    ensures Settled(t, t', d, id)
  {
    hide OldEnough, Relevant, AckOf, Crashing, Undecided, Reached, Kept, InDone, Timed;
    if id in t && AckOf(d.item, t[id].hash) && OldEnough(t, d.createdAt) {
      AckRelevant(d, t[id].hash);
      DecidedAt(t, rows, t', d, id);
    }
  }

  /** What the done scan has settled stays settled. */
  lemma StartAcknowledges(done: map<int, DoneRow>, t: Table, t1: Table, t2: Table)
    requires Acknowledged(done, t, t1) && TableMoves(t1, t2)
    ensures Acknowledged(done, t, t2)
  {
    hide OldEnough, AckOf;
    forall d, id | InDone(done, d) && Timed(t)
      ensures Settled(t, t2, d, id)
    {
      assert Settled(t, t1, d, id);
      assert id in t1 ==> id in t2 && RowMoves(t1[id], t2[id]);
    }
  }

  lemma DoneDone(done: map<int, DoneRow>, trail: Trail)
    requires exists k: nat :: k <= trail.faults && ScanMade(trail.queued, Reached(trail.answered), k, trail.scanned)
    requires trail.clean ==>
               Scans(done, trail.queued, trail.answered) && Acknowledged(done, trail.queued, trail.scanned)
    ensures DonePart(done, trail)
  {
  }

  lemma FailedDone(failed: seq<FailedRow>, limit: nat, cursor: int, g: Graph, trail: Trail, t: Table)
    requires |trail.missed| <= |Batch(failed, FAILED_KEY, cursor, limit)| && Faults(trail.missed) <= trail.faults
    requires FailedEffects(trail.scanned, g, Batch(failed, FAILED_KEY, cursor, limit)[..|trail.missed|], trail.missed,
                           t)
    requires trail.clean ==>
               NoneMissed(trail.missed) && |trail.missed| == |Batch(failed, FAILED_KEY, cursor, limit)|
    ensures FailedPart(failed, limit, cursor, g, trail, t)
  {
  }

  lemma PartsGrow(done: map<int, DoneRow>, failed: seq<FailedRow>, limit: nat, cursor: int, g: Graph,
                  a: Trail, b: Trail, t: Table)
    requires DonePart(done, a) && FailedPart(failed, limit, cursor, g, a, t)
    requires b == a.(deduped := b.deduped, faults := b.faults, clean := b.clean)
    requires a.faults <= b.faults && (b.clean ==> a.clean)
    ensures DonePart(done, b) && FailedPart(failed, limit, cursor, g, b, t)
  {
    hide Reached, ScanMade, Scans, Acknowledged, FailedEffects, Batch;
  }

  /** A startup that ends before the failed scan, or before the done scan. */
  lemma NothingFailed(failed: seq<FailedRow>, limit: nat, cursor: int, g: Graph, trail: Trail)
    requires trail.missed == [] && !trail.clean
    ensures FailedPart(failed, limit, cursor, g, trail, trail.scanned)
  {
  }

  lemma NothingScanned(done: map<int, DoneRow>, failed: seq<FailedRow>, limit: nat, cursor: int, g: Graph, trail: Trail)
    requires trail.answered == [] && trail.scanned == trail.queued && trail.missed == [] && !trail.clean
    ensures DonePart(done, trail) && FailedPart(failed, limit, cursor, g, trail, trail.scanned)
  {
    NothingFailed(failed, limit, cursor, g, trail);
    assert ScanMade(trail.queued, Reached(trail.answered), 0, trail.scanned);
  }

  lemma PositiveHashed(t: Table)
    requires RowsOk(t) && forall id :: id in t ==> id > 0
    ensures UniqueHashes(t) ==> Hashed(t)
  {
  }

  lemma KeptMoves(t: Table, t': Table)
    requires Kept(t, t')
    ensures TableMoves(t, t') && t'.Keys == t.Keys && RowsOk(t')
  {
  }

  lemma AckRelevant(d: DoneRow, hash: string)
    requires AckOf(d.item, hash)
    ensures Relevant(d)
  {
  }
}
