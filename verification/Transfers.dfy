/** The transfers table, keyed by its primary key, and the SQL statements of the indexer as
    functions from table to table. */
module Transfers {
  import opened Options
  import opened Items

  const DETECTED: int := 0
  const PROCESSING: int := 1
  const DONE: int := 2
  const FAILED: int := 3

  /** The columns the lifecycle reads or writes. */
  datatype Row = Row(
    hash: string, timeout: int, channel: int, createdAt: int,
    status: int, doneAt: Option<int>, errMsg: Option<string>, txIn: Option<string>)

  type Table = map<int, Row>

  /** A bridge record on its way into the table. */
  datatype Record = Record(id: int, hash: string, timeout: int, channel: int, createdAt: int, status: int)

  predicate InFlight(row: Row) {
    row.status < DONE
  }

  // ---------------------------------------------------------------- statements

  /** COALESCE(tx_in, NULLIF(txIn, '')). */
  function Coalesce(old_: Option<string>, txIn: string): Option<string> {
    if old_.Some? then old_ else if txIn == "" then None else Some(txIn)
  }

  function NewRow(r: Record): Row {
    Row(r.hash, r.timeout, r.channel, r.createdAt, r.status, None, None, None)
  }

  /** INSERT ... ON CONFLICT (id) DO NOTHING. */
  function InsertRow(t: Table, r: Record): Table {
    if r.id in t then t else t[r.id := NewRow(r)]
  }

  function SetStatus(t: Table, id: int, status: int): Table {
    if id in t then t[id := t[id].(status := status)] else t
  }

  function MarkProcessing(t: Table, ids: set<int>): Table {
    map id | id in t ::
      if id in ids && t[id].status == DETECTED then t[id].(status := PROCESSING) else t[id]
  }

  function MarkDone(t: Table, id: int, doneAt: int, txIn: string): Table {
    if id in t && InFlight(t[id])
    then t[id := t[id].(status := DONE, doneAt := Some(doneAt), txIn := Coalesce(t[id].txIn, txIn))]
    else t
  }

  function MarkFailed(t: Table, id: int, errMsg: string, txIn: string): Table {
    if id in t && InFlight(t[id])
    then t[id := t[id].(status := FAILED, errMsg := Some(errMsg), txIn := Coalesce(t[id].txIn, txIn))]
    else t
  }

  function SetTxIn(t: Table, hash: string, txIn: string): Table {
    if txIn == "" then t
    else map id | id in t :: if t[id].hash == hash && t[id].txIn.None? then t[id].(txIn := Some(txIn)) else t[id]
  }

  /** Rank of a status for duplicate resolution, lowest first. */
  function Priority(status: int): int {
    if status == DONE then 0 else if status == FAILED then 1 else if status == PROCESSING then 2 else 3
  }

  /** The row of id comes before the row of other in the ranking of DedupeByPacketHash. */
  predicate Outranks(t: Table, other: int, id: int)
    requires id in t && other in t
  {
    && t[other].hash == t[id].hash
    && (Priority(t[other].status) < Priority(t[id].status)
        || (Priority(t[other].status) == Priority(t[id].status) && other < id))
  }

  predicate First(t: Table, id: int)
    requires id in t
  {
    forall other :: other in t ==> !Outranks(t, other, id)
  }

  /** DELETE of every row with ROW_NUMBER() > 1 in its packet hash. */
  function Dedupe(t: Table): Table {
    map id | id in t && First(t, id) :: t[id]
  }

  // ---------------------------------------------------------------- queries

  predicate HasHash(t: Table, id: int, hash: string) {
    id in t && t[id].hash == hash
  }

  predicate HashKnown(t: Table, hash: string) {
    exists id :: id in t && t[id].hash == hash
  }

  /** FindByPacketHash may answer id. */
  predicate FoundByHash(t: Table, hash: string, id: int) {
    HasHash(t, id, hash) && t[id].status < FAILED
  }

  /** FindByTimeoutAndChannel may answer id. */
  predicate FoundByKey(t: Table, key: TimeoutKey, id: int) {
    id in t && t[id].timeout == key.timeout && t[id].channel == key.channel && InFlight(t[id])
  }

  // ---------------------------------------------------------------- invariants of rows

  /** done_at is set exactly on done rows, err_msg exactly on failed ones, and tx_in is never
      the empty string. */
  predicate RowOk(row: Row) {
    && DETECTED <= row.status <= FAILED
    && (row.doneAt.Some? <==> row.status == DONE)
    && (row.errMsg.Some? <==> row.status == FAILED)
    && row.txIn != Some("")
  }

  predicate RowsOk(t: Table) {
    forall id :: id in t ==> RowOk(t[id])
  }

  predicate UniqueHashes(t: Table) {
    forall i, j :: i in t && j in t && t[i].hash == t[j].hash ==> i == j
  }

  /** The moves the status of a row may make: 0 to 1, 2 or 3, and 1 to 2 or 3. */
  predicate StatusMoves(a: int, b: int) {
    a == b || (a == DETECTED && PROCESSING <= b <= FAILED) || (a == PROCESSING && DONE <= b <= FAILED)
  }

  /** What a row may become: its key columns stay, a terminal row keeps status, done_at and
      err_msg, and tx_in once set stays. */
  predicate RowMoves(a: Row, b: Row) {
    && a.hash == b.hash && a.timeout == b.timeout && a.channel == b.channel && a.createdAt == b.createdAt
    && StatusMoves(a.status, b.status)
    && (!InFlight(a) ==> a.doneAt == b.doneAt && a.errMsg == b.errMsg)
    && (a.txIn.Some? ==> a.txIn == b.txIn)
  }

  /** Every row of t is still in t', as something it may become. */
  predicate TableMoves(t: Table, t': Table) {
    forall id :: id in t ==> id in t' && RowMoves(t[id], t'[id])
  }

  lemma TableMovesTransitive(a: Table, b: Table, c: Table)
    requires TableMoves(a, b) && TableMoves(b, c)
    ensures TableMoves(a, c)
  {
    forall id | id in a
      ensures id in c && RowMoves(a[id], c[id])
    {
      assert RowMoves(a[id], b[id]) && RowMoves(b[id], c[id]);
    }
  }

  // ---------------------------------------------------------------- what the statements keep

  /** The updates only move rows: they add and delete none. */
  lemma MarkProcessingMoves(t: Table, ids: set<int>)
    requires RowsOk(t)
    ensures var t' := MarkProcessing(t, ids); t'.Keys == t.Keys && RowsOk(t') && TableMoves(t, t')
  {
  }

  lemma MarkDoneMoves(t: Table, id: int, doneAt: int, txIn: string)
    requires RowsOk(t)
    ensures var t' := MarkDone(t, id, doneAt, txIn); t'.Keys == t.Keys && RowsOk(t') && TableMoves(t, t')
  {
  }

  lemma MarkFailedMoves(t: Table, id: int, errMsg: string, txIn: string)
    requires RowsOk(t)
    ensures var t' := MarkFailed(t, id, errMsg, txIn); t'.Keys == t.Keys && RowsOk(t') && TableMoves(t, t')
  {
  }

  lemma SetTxInMoves(t: Table, hash: string, txIn: string)
    requires RowsOk(t)
    ensures var t' := SetTxIn(t, hash, txIn); t'.Keys == t.Keys && RowsOk(t') && TableMoves(t, t')
  {
  }

  lemma InsertRowMoves(t: Table, r: Record)
    requires RowsOk(t) && r.status == DETECTED
    ensures var t' := InsertRow(t, r); t'.Keys == t.Keys + {r.id} && RowsOk(t') && TableMoves(t, t')
    ensures forall id :: id in t ==> InsertRow(t, r)[id] == t[id]
  {
  }

  lemma MovesKeepUnique(t: Table, t': Table)
    requires UniqueHashes(t) && TableMoves(t, t') && t'.Keys == t.Keys
    ensures UniqueHashes(t')
  {
    assert forall id :: id in t' ==> id in t && RowMoves(t[id], t'[id]);
  }

  lemma MovesReflexive(t: Table)
    ensures TableMoves(t, t)
  {
  }

  // ---------------------------------------------------------------- queue items

  /** Parse: the bridge record of a queue item, when its packet event has a route in the channel
      table. Reading the packet data may panic. */
  function Parse(id: int, item: Item, createdAt: int, routed: bool): (r: Reading<Record>)
    ensures r.Found? ==> r.value.status == DETECTED && r.value.id == id && r.value.createdAt == createdAt
  {
    match item
    case Call(ChainEvent(PacketSend(p), _, _)) => Routed(id, p, createdAt, routed)
    case Call(ChainEvent(PacketRecv(p), _, _)) => Routed(id, p, createdAt, routed)
    case Call(FullEvent(PacketSend(p), _, _)) => Routed(id, p, createdAt, routed)
    case Call(FullEvent(PacketRecv(p), _, _)) => Routed(id, p, createdAt, routed)
    case _ => Nothing
  }

  function Routed(id: int, p: PacketEvent, createdAt: int, routed: bool): Reading<Record> {
    if !routed then Nothing
    else if Order(p.data).Crashed? then Panicked
    else Found(Record(id, p.hash, p.timeout, p.channel, createdAt, DETECTED))
  }
}
