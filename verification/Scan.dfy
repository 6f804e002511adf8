/** What handling done rows one after the other makes of the table. */
module Scan {
  import opened Options
  import opened Items
  import opened Transfers
  import opened Lifecycle

  // ---------------------------------------------------------------- handling one row

  /** The answer of FindByPacketHash: some matching row, 0 for none. */
  ghost function FindByHash(t: Table, hash: string): (id: int)
    ensures id != 0 ==> FoundByHash(t, hash, id)
    ensures (exists i :: FoundByHash(t, hash, i)) ==> FoundByHash(t, hash, id)
  {
    if exists i :: FoundByHash(t, hash, i) then
      var i :| FoundByHash(t, hash, i);
      i
    else 0
  }

  /** The answer of FindByTimeoutAndChannel: some in-flight row with the key, 0 for none. */
  ghost function FindByKey(t: Table, key: TimeoutKey): (id: int)
    ensures id != 0 ==> FoundByKey(t, key, id)
    ensures (exists i :: FoundByKey(t, key, i)) ==> FoundByKey(t, key, id)
  {
    if exists i :: FoundByKey(t, key, i) then
      var i :| FoundByKey(t, key, i);
      i
    else 0
  }

  ghost function HashStep(t: Table, row: DoneRow): Table {
    if !Matched(row) || FindByHash(t, FieldsOf(row).hash) == 0 then t
    else HashEffect(t, FindByHash(t, FieldsOf(row).hash), row.createdAt, FieldsOf(row))
  }

  /** markPacketTimeoutFailed. */
  ghost function KeyStep(t: Table, key: TimeoutKey): Table {
    if FindByKey(t, key) == 0 then t else MarkFailed(t, FindByKey(t, key), TIMED_OUT, "")
  }

  ghost function KeySteps(t: Table, keys: seq<TimeoutKey>): Table {
    if keys == [] then t else KeyStep(KeySteps(t, keys[..|keys| - 1]), keys[|keys| - 1])
  }

  /** The body of the loop of syncDone: timeouts first. */
  ghost function CatchUp(t: Table, row: DoneRow): Table {
    HashStep(KeySteps(t, Timeouts(row.item)), row)
  }

  /** The handler of a done notification: timeouts last. */
  ghost function Live(t: Table, row: DoneRow): Table {
    KeySteps(HashStep(t, row), Timeouts(row.item))
  }

  ghost function ScanAll(t: Table, rows: seq<DoneRow>): Table {
    if rows == [] then t else CatchUp(ScanAll(t, rows[..|rows| - 1]), rows[|rows| - 1])
  }

  /** The rows a scan gets to handle: those before the first one on which it panics. */
  function Reached(rows: seq<DoneRow>): (r: seq<DoneRow>)
    ensures r <= rows && forall d :: d in r ==> d in rows && !Crashes(d)
    ensures |r| < |rows| ==> Crashes(rows[|r|])
  {
    if rows == [] || Crashes(rows[0]) then [] else [rows[0]] + Reached(rows[1..])
  }

  /** The table a scan of the rows leaves, whether or not it gets through all of them. */
  ghost function ScanRun(t: Table, rows: seq<DoneRow>): Table {
    ScanAll(t, Reached(rows))
  }

  predicate Crashing(rows: seq<DoneRow>) {
    exists d :: d in rows && Crashes(d)
  }

  lemma ReachedAll(rows: seq<DoneRow>)
    ensures !Crashing(rows) <==> Reached(rows) == rows
  {
    var n := |Reached(rows)|;
    assert n < |rows| ==> rows[n] in rows && Crashes(rows[n]);
  }

  /** The two orders do the same, because no item has both fields and timeouts. */
  lemma LiveIsCatchUp(t: Table, row: DoneRow)
    ensures Live(t, row) == CatchUp(t, row)
  {
    hide ParseItemFields, Timeouts;
    NeverBoth(row.item);
  }

  // ---------------------------------------------------------------- what is kept

  function Key(row: Row): TimeoutKey {
    TimeoutKey(row.timeout, row.channel)
  }

  predicate UniqueKeys(t: Table) {
    forall i, j :: i in t && j in t && InFlight(t[i]) && InFlight(t[j]) && Key(t[i]) == Key(t[j]) ==> i == j
  }

  /** Ids are not 0, and hashes are unique: what FindByPacketHash needs to be a function. */
  predicate Hashed(t: Table) {
    RowsOk(t) && UniqueHashes(t) && 0 !in t
  }

  /** The same for FindByTimeoutAndChannel. */
  predicate Keyed(t: Table) {
    Hashed(t) && UniqueKeys(t)
  }

  lemma HashStepKeeps(t: Table, row: DoneRow)
    requires Hashed(t)
    ensures var t' := HashStep(t, row); t'.Keys == t.Keys && TableMoves(t, t') && Hashed(t')
  {
    hide ParseItemFields, RowsOk, UniqueHashes, TableMoves, MarkDone, MarkFailed, SetTxIn;
    MovesReflexive(t);
    if Matched(row) {
      var id, fields := FindByHash(t, FieldsOf(row).hash), FieldsOf(row);
      SetTxInMoves(t, fields.hash, fields.txHash);
      MarkDoneMoves(t, id, row.createdAt, fields.txHash);
      MarkFailedMoves(t, id, AckErrMessage(fields.ackError), fields.txHash);
      MovesKeepUnique(t, HashStep(t, row));
    }
  }

  lemma {:induction false} KeyStepsKeep(t: Table, keys: seq<TimeoutKey>)
    requires Hashed(t)
    ensures var t' := KeySteps(t, keys); t'.Keys == t.Keys && TableMoves(t, t') && Hashed(t')
  {
    hide RowsOk, UniqueHashes, TableMoves, MarkFailed;
    MovesReflexive(t);
    if keys != [] {
      var front := KeySteps(t, keys[..|keys| - 1]);
      var t' := KeySteps(t, keys);
      KeyStepsKeep(t, keys[..|keys| - 1]);
      MovesReflexive(front);
      MarkFailedMoves(front, FindByKey(front, keys[|keys| - 1]), TIMED_OUT, "");
      MovesKeepUnique(front, t');
      TableMovesTransitive(t, front, t');
    }
  }

  lemma CatchUpKeeps(t: Table, row: DoneRow)
    requires Hashed(t)
    ensures var t' := CatchUp(t, row); t'.Keys == t.Keys && TableMoves(t, t') && Hashed(t')
  {
    hide RowsOk, UniqueHashes, TableMoves, HashStep, KeySteps, Timeouts;
    var t1 := KeySteps(t, Timeouts(row.item));
    KeyStepsKeep(t, Timeouts(row.item));
    HashStepKeeps(t1, row);
    TableMovesTransitive(t, t1, CatchUp(t, row));
  }

  lemma MovesKeepKeys(t: Table, t': Table)
    requires UniqueKeys(t) && TableMoves(t, t') && t'.Keys == t.Keys
    ensures UniqueKeys(t')
  {
    assert forall id :: id in t' ==> id in t && RowMoves(t[id], t'[id]);
  }

  lemma {:induction false} ScanKeeps(t: Table, rows: seq<DoneRow>)
    requires Hashed(t)
    ensures var t' := ScanAll(t, rows); t'.Keys == t.Keys && TableMoves(t, t') && Hashed(t')
    ensures UniqueKeys(t) ==> UniqueKeys(ScanAll(t, rows))
  {
    hide RowsOk, UniqueHashes, UniqueKeys, TableMoves, CatchUp;
    MovesReflexive(t);
    if rows != [] {
      var front := ScanAll(t, rows[..|rows| - 1]);
      ScanKeeps(t, rows[..|rows| - 1]);
      CatchUpKeeps(front, rows[|rows| - 1]);
      TableMovesTransitive(t, front, ScanAll(t, rows));
    }
    if UniqueKeys(t) {
      MovesKeepKeys(t, ScanAll(t, rows));
    }
  }

  // ---------------------------------------------------------------- status of one bridge

  /** The status a bridge has after one done row was handled. */
  function StepStatus(row: Row, d: DoneRow): int {
    if !InFlight(row) then row.status
    else if Acked(d, row.hash) then DONE
    else if Refused(d, row.hash) || Key(row) in Timeouts(d.item) then FAILED
    else row.status
  }

  lemma {:induction false} KeyStepsStatus(t: Table, keys: seq<TimeoutKey>, id: int)
    requires Keyed(t) && id in t
    ensures id in KeySteps(t, keys)
    ensures KeySteps(t, keys)[id].status ==
            if InFlight(t[id]) && Key(t[id]) in keys then FAILED else t[id].status
  {
    hide RowsOk, UniqueHashes;
    if keys != [] {
      var front, key := keys[..|keys| - 1], keys[|keys| - 1];
      assert keys == front + [key];
      var t1 := KeySteps(t, front);
      KeyStepsKeep(t, front);
      KeyStepsStatus(t, front, id);
      MovesKeepKeys(t, t1);
      assert RowMoves(t[id], t1[id]);
      if InFlight(t1[id]) && Key(t1[id]) == key {
        assert FoundByKey(t1, key, id);
      }
    }
  }

  lemma HashStepStatus(t: Table, d: DoneRow, id: int)
    requires Hashed(t) && id in t
    ensures id in HashStep(t, d)
    ensures HashStep(t, d)[id].status ==
            if !InFlight(t[id]) then t[id].status
            else if Acked(d, t[id].hash) then DONE
            else if Refused(d, t[id].hash) then FAILED
            else t[id].status
  {
    hide ParseItemFields;
    HashStepKeeps(t, d);
    if Matched(d) && FieldsOf(d).hash == t[id].hash && t[id].status < FAILED {
      assert FoundByHash(t, t[id].hash, id);
    }
  }

  lemma CatchUpStatus(t: Table, d: DoneRow, id: int)
    requires Keyed(t) && id in t
    ensures id in CatchUp(t, d) && CatchUp(t, d)[id].status == StepStatus(t[id], d)
  {
    hide ParseItemFields, Timeouts, KeySteps, HashStep, Hashed;
    var keys := Timeouts(d.item);
    KeyStepsKeep(t, keys);
    KeyStepsStatus(t, keys, id);
    HashStepStatus(KeySteps(t, keys), d, id);
    assert RowMoves(t[id], KeySteps(t, keys)[id]);
    NeverBoth(d.item);
  }

  // ---------------------------------------------------------------- status after a scan

  ghost predicate SuccessIn(rows: seq<DoneRow>, row: Row) {
    exists d :: d in rows && Acked(d, row.hash)
  }

  ghost predicate FailureIn(rows: seq<DoneRow>, row: Row) {
    exists d :: d in rows && (Refused(d, row.hash) || Key(row) in Timeouts(d.item))
  }

  /** The outcome of a bridge by the verdicts among the rows, whatever their order. */
  ghost function EndStatus(row: Row, rows: seq<DoneRow>): int {
    if !InFlight(row) then row.status
    else if SuccessIn(rows, row) then DONE
    else if FailureIn(rows, row) then FAILED
    else row.status
  }

  ghost predicate Contested(rows: seq<DoneRow>, row: Row) {
    InFlight(row) && SuccessIn(rows, row) && FailureIn(rows, row)
  }

  /** The order of the rows makes a difference to the bridge: the rows hold both verdicts for it, or
      one, and a row on which the scan panics. */
  ghost predicate OrderMatters(rows: seq<DoneRow>, row: Row) {
    Contested(rows, row) || (InFlight(row) && Crashing(rows) && (SuccessIn(rows, row) || FailureIn(rows, row)))
  }

  /** A scan gives every uncontested bridge the outcome of the verdicts it reached. */
  lemma ScanOutcome(t: Table, rows: seq<DoneRow>, id: int)
    requires Keyed(t) && id in t && !Contested(Reached(rows), t[id])
    ensures id in ScanRun(t, rows) && ScanRun(t, rows)[id].status == EndStatus(t[id], Reached(rows))
  {
    hide Keyed, Contested, ScanAll, EndStatus;
    AllOutcome(t, Reached(rows), id);
  }

  lemma {:induction false} AllOutcome(t: Table, rows: seq<DoneRow>, id: int)
    requires Keyed(t) && id in t && !Contested(rows, t[id])
    ensures id in ScanAll(t, rows) && ScanAll(t, rows)[id].status == EndStatus(t[id], rows)
  {
    hide Acked, Refused, Timeouts, CatchUp, RowsOk, UniqueHashes, UniqueKeys, TableMoves;
    if rows != [] {
      var front, d := rows[..|rows| - 1], rows[|rows| - 1];
      assert rows == front + [d];
      ScanKeeps(t, front);
      AllOutcome(t, front, id);
      CatchUpStatus(ScanAll(t, front), d, id);
      KeptColumns(t, ScanAll(t, front), id);
    }
  }

  lemma KeptColumns(t: Table, t': Table, id: int)
    requires TableMoves(t, t') && id in t
    ensures id in t' && t'[id].hash == t[id].hash && Key(t'[id]) == Key(t[id])
    ensures !InFlight(t[id]) ==> t'[id].status == t[id].status
  {
    assert RowMoves(t[id], t'[id]);
  }

  /** The scan has no ORDER BY, and for a bridge whose order does not matter every permutation of
      the rows gives the same status. */
  lemma OrderIrrelevant(t: Table, rows: seq<DoneRow>, rows': seq<DoneRow>, id: int)
    requires Keyed(t) && id in t && multiset(rows) == multiset(rows')
    requires !OrderMatters(rows, t[id])
    ensures id in ScanRun(t, rows) && id in ScanRun(t, rows')
    ensures ScanRun(t, rows)[id].status == ScanRun(t, rows')[id].status
  {
    hide ScanRun, Keyed, OrderMatters, Contested, EndStatus, Reached;
    SameVerdicts(rows, rows', t[id]);
    VerdictsReached(rows, t[id]);
    VerdictsReached(rows', t[id]);
    ScanOutcome(t, rows, id);
    ScanOutcome(t, rows', id);
  }

  lemma SameVerdicts(rows: seq<DoneRow>, rows': seq<DoneRow>, row: Row)
    requires multiset(rows) == multiset(rows')
    ensures OrderMatters(rows', row) == OrderMatters(rows, row) && EndStatus(row, rows') == EndStatus(row, rows)
  {
    hide Acked, Refused, Timeouts, Crashes;
    assert forall d :: d in rows <==> d in multiset(rows);
    assert forall d :: d in rows' <==> d in multiset(rows');
  }

  lemma VerdictsReached(rows: seq<DoneRow>, row: Row)
    requires !OrderMatters(rows, row)
    ensures !Contested(Reached(rows), row) && EndStatus(row, Reached(rows)) == EndStatus(row, rows)
  {
    hide Acked, Refused, Timeouts, Crashes, Crashing;
    ReachedAll(rows);
    hide Reached;
  }

  /** Otherwise the order decides: two permutations leave the bridge with different statuses, done
      and failed when it is contested, terminal and still in flight when the scan may panic. */
  lemma OrderDecides(t: Table, rows: seq<DoneRow>, id: int) returns (a: seq<DoneRow>, b: seq<DoneRow>)
    requires Keyed(t) && id in t && OrderMatters(rows, t[id])
    ensures multiset(a) == multiset(rows) == multiset(b)
    ensures id in ScanRun(t, a) && id in ScanRun(t, b)
    ensures Contested(rows, t[id]) ==>
              ScanRun(t, a)[id].status == DONE && ScanRun(t, b)[id].status == FAILED
    ensures !Contested(rows, t[id]) ==>
              !InFlight(ScanRun(t, a)[id]) && ScanRun(t, b)[id].status == t[id].status
  {
    hide Acked, Refused, Timeouts, ScanAll, RowsOk, UniqueHashes, UniqueKeys, TableMoves, Crashes, Reached;
    var row := t[id];
    if Contested(rows, row) {
      var good :| good in rows && Acked(good, row.hash);
      var bad :| bad in rows && (Refused(bad, row.hash) || Key(row) in Timeouts(bad.item));
      AckedOnly(good, row);
      a := VerdictFirst(t, rows, good, id);
      b := VerdictFirst(t, rows, bad, id);
    } else {
      var d :| d in rows && (Acked(d, row.hash) || Refused(d, row.hash) || Key(row) in Timeouts(d.item));
      a := VerdictFirst(t, rows, d, id);
      b := CrashFirst(t, rows);
    }
  }

  lemma VerdictFirst(t: Table, rows: seq<DoneRow>, d: DoneRow, id: int) returns (moved: seq<DoneRow>)
    requires Keyed(t) && id in t && InFlight(t[id]) && d in rows
    requires Acked(d, t[id].hash) || Refused(d, t[id].hash) || Key(t[id]) in Timeouts(d.item)
    ensures multiset(moved) == multiset(rows) && id in ScanRun(t, moved) && !InFlight(ScanRun(t, moved)[id])
    ensures ScanRun(t, moved)[id].status ==
            if Refused(d, t[id].hash) || Key(t[id]) in Timeouts(d.item) then FAILED else DONE
  {
    hide Acked, Refused, Timeouts, ScanAll, RowsOk, UniqueHashes, UniqueKeys, TableMoves;
    AckedOnly(d, t[id]);
    moved := ToFront(rows, d);
    assert moved == [d] + moved[1..];
    FirstDecides(t, d, Reached(moved[1..]), id);
  }

  lemma CrashFirst(t: Table, rows: seq<DoneRow>) returns (moved: seq<DoneRow>)
    requires Crashing(rows)
    ensures multiset(moved) == multiset(rows) && ScanRun(t, moved) == t
  {
    var d :| d in rows && Crashes(d);
    moved := ToFront(rows, d);
  }

  /** Such a bridge: its write_ack and its timeout are both among the rows. */
  lemma ContestedExample() returns (t: Table, rows: seq<DoneRow>)
    ensures Keyed(t) && 1 in t && Contested(rows, t[1])
  {
    var ack := DoneRow(1, 5, Call(ChainEvent(WriteAck("hash", ""), "tx", false)), []);
    var timeout := DoneRow(2, 6, Call(Multicall([PacketTimeout(7, 3)])), []);
    t := map[1 := Row("hash", 7, 3, 4, DETECTED, None, None, None)];
    rows := [ack, timeout];
    assert ack in rows && Acked(ack, "hash");
    assert TimeoutKeys([]) == [] && [PacketTimeout(7, 3)][..0] == [];
    assert timeout in rows && Timeouts(timeout.item) == [TimeoutKey(7, 3)] && Key(t[1]) == TimeoutKey(7, 3);
  }

  lemma AckedOnly(d: DoneRow, row: Row)
    requires Acked(d, row.hash)
            || Refused(d, row.hash) || Key(row) in Timeouts(d.item)
    ensures InFlight(row) ==>
              StepStatus(row, d) == if Refused(d, row.hash) || Key(row) in Timeouts(d.item) then FAILED else DONE
    ensures !Crashes(d) && (Acked(d, row.hash) ==> !Refused(d, row.hash) && Timeouts(d.item) == [])
  {
    hide ParseItemFields, Timeouts;
    NeverBoth(d.item);
  }

  lemma ToFront(rows: seq<DoneRow>, d: DoneRow) returns (moved: seq<DoneRow>)
    requires d in rows
    ensures multiset(moved) == multiset(rows) && moved != [] && moved[0] == d
  {
    var i :| 0 <= i < |rows| && rows[i] == d;
    moved := [d] + rows[..i] + rows[i + 1..];
    assert rows == rows[..i] + [d] + rows[i + 1..];
  }

  /** A row that makes the bridge terminal fixes its status for the rest of the scan. */
  lemma {:induction false} FirstDecides(t: Table, d: DoneRow, rest: seq<DoneRow>, id: int)
    requires Keyed(t) && id in t && StepStatus(t[id], d) >= DONE
    ensures id in ScanAll(t, [d] + rest)
    ensures ScanAll(t, [d] + rest)[id].status == StepStatus(t[id], d)
  {
    hide CatchUp, StepStatus, RowsOk, UniqueHashes, UniqueKeys, TableMoves;
    var rows := [d] + rest;
    if rest == [] {
      assert rows[..0] == [] && rows[0] == d && ScanAll(t, []) == t;
      CatchUpStatus(t, d, id);
    } else {
      var front, last := [d] + rest[..|rest| - 1], rest[|rest| - 1];
      FirstDecides(t, d, rest[..|rest| - 1], id);
      assert rows[..|rows| - 1] == front && rows[|rows| - 1] == last;
      ScanKeeps(t, front);
      CatchUpKeeps(ScanAll(t, front), last);
      KeptColumns(ScanAll(t, front), ScanAll(t, rows), id);
    }
  }

  // ---------------------------------------------------------------- completeness

  /** When no row panics, a write_ack for the hash of a bridge anywhere among the rows leaves the
      bridge terminal; keys need not be unique for this. */
  lemma ScanCompletes(t: Table, rows: seq<DoneRow>, id: int)
    requires Hashed(t) && id in t && !Crashing(rows)
    requires exists d :: d in rows && (Acked(d, t[id].hash) || Refused(d, t[id].hash))
    ensures id in ScanRun(t, rows) && !InFlight(ScanRun(t, rows)[id])
  {
    hide Acked, Refused, Crashes, ScanAll, Hashed;
    ReachedAll(rows);
    AllCompletes(t, rows, id);
  }

  lemma {:induction false} AllCompletes(t: Table, rows: seq<DoneRow>, id: int)
    requires Hashed(t) && id in t
    requires exists d :: d in rows && (Acked(d, t[id].hash) || Refused(d, t[id].hash))
    ensures id in ScanAll(t, rows) && !InFlight(ScanAll(t, rows)[id])
  {
    hide Acked, Refused, Timeouts, CatchUp, RowsOk, UniqueHashes, UniqueKeys, TableMoves;
    var front, last := rows[..|rows| - 1], rows[|rows| - 1];
    assert rows == front + [last];
    var t1 := ScanAll(t, front);
    ScanKeeps(t, front);
    KeptColumns(t, t1, id);
    if Acked(last, t[id].hash) || Refused(last, t[id].hash) {
      CatchUpCompletes(t1, last, id);
    } else {
      AllCompletes(t, front, id);
      CatchUpKeeps(t1, last);
      KeptColumns(t1, ScanAll(t, rows), id);
    }
  }

  lemma CatchUpCompletes(t: Table, d: DoneRow, id: int)
    requires Hashed(t) && id in t && (Acked(d, t[id].hash) || Refused(d, t[id].hash))
    ensures id in CatchUp(t, d) && !InFlight(CatchUp(t, d)[id])
  {
    hide Acked, Refused, Timeouts, HashStep, KeySteps, RowsOk, UniqueHashes, TableMoves;
    var t1 := KeySteps(t, Timeouts(d.item));
    KeyStepsKeep(t, Timeouts(d.item));
    KeptColumns(t, t1, id);
    HashStepStatus(t1, d, id);
  }

  // ---------------------------------------------------------------- replay

  /** Handling the row again would find nothing to do. */
  ghost predicate Settled(t: Table, d: DoneRow) {
    && (forall id, key :: key in Timeouts(d.item) ==> !FoundByKey(t, key, id))
    && (Matched(d) ==>
          forall id :: FoundByHash(t, FieldsOf(d).hash, id) ==>
            if FieldsOf(d).eventType == PACKET_RECV then t[id].txIn.Some? || FieldsOf(d).txHash == ""
            else !InFlight(t[id]))
  }

  lemma SettledIsDone(t: Table, d: DoneRow)
    requires Hashed(t) && Settled(t, d)
    ensures CatchUp(t, d) == t
  {
    hide ParseItemFields, Timeouts, RowsOk;
    SettledKeys(t, d, Timeouts(d.item));
    if Matched(d) {
      var id, fields := FindByHash(t, FieldsOf(d).hash), FieldsOf(d);
      if id != 0 {
        assert forall i :: HasHash(t, i, fields.hash) ==> i == id;
        if fields.eventType == PACKET_RECV {
          assert FoundByHash(t, fields.hash, id);
          SetTxInIdle(t, fields.hash, fields.txHash, id);
        }
      }
    }
  }

  lemma SetTxInIdle(t: Table, hash: string, txIn: string, id: int)
    requires HasHash(t, id, hash) && UniqueHashes(t) && (t[id].txIn.Some? || txIn == "")
    ensures SetTxIn(t, hash, txIn) == t
  {
    var t' := SetTxIn(t, hash, txIn);
    assert t'.Keys == t.Keys;
    assert forall i :: i in t ==> t'[i] == t[i];
  }

  lemma {:induction false} SettledKeys(t: Table, d: DoneRow, keys: seq<TimeoutKey>)
    requires Settled(t, d) && forall key :: key in keys ==> key in Timeouts(d.item)
    ensures KeySteps(t, keys) == t
  {
    hide Timeouts, ParseItemFields, Matched;
    if keys != [] {
      SettledKeys(t, d, keys[..|keys| - 1]);
    }
  }

  /** A handled row is settled. */
  lemma HandledIsSettled(t: Table, d: DoneRow)
    requires Keyed(t)
    ensures Settled(CatchUp(t, d), d)
  {
    hide ParseItemFields, Timeouts, CatchUp, RowsOk, UniqueHashes, UniqueKeys, TableMoves;
    var t' := CatchUp(t, d);
    CatchUpKeeps(t, d);
    forall id, key | key in Timeouts(d.item)
      ensures !FoundByKey(t', key, id)
    {
      if id in t {
        CatchUpStatus(t, d, id);
        KeptColumns(t, t', id);
      }
    }
    if Matched(d) {
      forall id | FoundByHash(t', FieldsOf(d).hash, id)
        ensures if FieldsOf(d).eventType == PACKET_RECV then t'[id].txIn.Some? || FieldsOf(d).txHash == ""
                else !InFlight(t'[id])
      {
        CatchUpStatus(t, d, id);
        KeptColumns(t, t', id);
        if FieldsOf(d).eventType == PACKET_RECV {
          ReceivedHasTxIn(t, d, id);
        }
      }
    }
  }

  lemma ReceivedHasTxIn(t: Table, d: DoneRow, id: int)
    requires Hashed(t) && Matched(d) && FieldsOf(d).eventType == PACKET_RECV
    requires FoundByHash(CatchUp(t, d), FieldsOf(d).hash, id)
    ensures CatchUp(t, d)[id].txIn.Some? || FieldsOf(d).txHash == ""
  {
    hide ParseItemFields, Timeouts, RowsOk;
    NeverBoth(d.item);
    assert CatchUp(t, d) == HashStep(t, d);
    HashStepKeeps(t, d);
    KeptColumns(t, HashStep(t, d), id);
    assert RowMoves(t[id], HashStep(t, d)[id]);
    assert FoundByHash(t, FieldsOf(d).hash, id);
  }

  /** Handling other rows does not unsettle a row. */
  lemma MovesKeepSettled(t: Table, t': Table, d: DoneRow)
    requires Settled(t, d) && TableMoves(t, t') && t'.Keys == t.Keys
    ensures Settled(t', d)
  {
    hide ParseItemFields, Timeouts;
    assert forall id :: id in t' ==> id in t && RowMoves(t[id], t'[id]);
    assert forall id, key :: FoundByKey(t', key, id) ==> FoundByKey(t, key, id);
    assert forall id, hash :: FoundByHash(t', hash, id) ==> FoundByHash(t, hash, id);
  }

  lemma {:induction false} ScannedIsSettled(t: Table, rows: seq<DoneRow>, d: DoneRow)
    requires Keyed(t) && d in rows
    ensures Settled(ScanAll(t, rows), d)
  {
    hide Settled, CatchUp, RowsOk, UniqueHashes, UniqueKeys, TableMoves;
    var front, last := rows[..|rows| - 1], rows[|rows| - 1];
    assert rows == front + [last];
    var t1 := ScanAll(t, front);
    ScanKeeps(t, front);
    if d == last {
      HandledIsSettled(t1, d);
    } else {
      ScannedIsSettled(t, front, d);
      CatchUpKeeps(t1, last);
      MovesKeepSettled(t1, ScanAll(t, rows), d);
    }
  }

  /** Replay is harmless: scanning rows that were handled before, all or some, in any order and any
      number of times, changes nothing. */
  lemma ReplayHarmless(t: Table, rows: seq<DoneRow>, again: seq<DoneRow>)
    requires Keyed(t) && forall d :: d in Reached(again) ==> d in Reached(rows)
    ensures ScanRun(ScanRun(t, rows), again) == ScanRun(t, rows)
  {
    hide Keyed, ScanAll, Reached;
    ReplayIdle(t, Reached(rows), Reached(again));
  }

  lemma {:induction false} ReplayIdle(t: Table, rows: seq<DoneRow>, again: seq<DoneRow>)
    requires Keyed(t) && forall d :: d in again ==> d in rows
    ensures ScanAll(ScanAll(t, rows), again) == ScanAll(t, rows)
  {
    hide Settled, CatchUp, RowsOk, UniqueHashes, UniqueKeys, TableMoves;
    if again != [] {
      var front, last := again[..|again| - 1], again[|again| - 1];
      assert last in again && forall d :: d in front ==> d in again;
      ReplayIdle(t, rows, front);
      ScanKeeps(t, rows);
      ScannedIsSettled(t, rows, last);
      SettledIsDone(ScanAll(t, rows), last);
    }
  }
}
