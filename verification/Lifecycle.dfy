/** The indexer as a state machine: the four tasks that run after startup, the relayer that owns
    the queue, done and failed tables, and process restarts. One step is one SQL statement; what a
    task read before its next statement is part of its local state.

    A task may start on any row it can have read, in any order and any number of times, and may
    give up between two statements (a failed statement, a lost connection). That covers the
    notification handlers, the catch-up scans and the retries. A row on which reading panics takes
    no task further: the process ends, and starts again by a Restart. */
module Lifecycle {
  import opened Options
  import opened Items
  import opened Transfers

  datatype DoneRow = DoneRow(id: int, createdAt: int, item: Item, parents: seq<int>)
  datatype FailedRow = FailedRow(id: int, parents: seq<int>, message: string, item: Item)

  const TIMED_OUT := "packet timed out; refunded on source chain"
  const MAX_LEVEL: nat := 8

  function AckErrMessage(ackError: string): string {
    if ackError == "" then "ack error" else "ack error: " + ackError
  }

  // ---------------------------------------------------------------- state

  datatype QueueTask =
    | QueueIdle
    | Parsed(rec: Record)
    | Selected(rec: Record, found: Option<(int, int)>)  // id and status of the row of its hash

  datatype DoneTask =
    | DoneIdle
    | KeyFound(row: DoneRow, key: TimeoutKey, id: int)
    | HashFound(row: DoneRow, id: int)

  datatype FailedTask =
    | FailedIdle
    | PromiseFound(row: FailedRow, id: int)
    | Tracing(row: FailedRow, depth: nat, current: set<int>, next: set<int>)
    | AncestorFound(row: FailedRow, id: int)

  datatype PollTask =
    | PollIdle
    | DetectedRead(ids: set<int>)
    | GoneKnown(ids: set<int>)

  datatype State = State(
    table: Table,
    queue: set<int>,                  // ids in the queue
    items: map<int, Option<Record>>,  // ids that ever were in the queue, with the record of the row
    done: set<DoneRow>,               // rows that ever were in the done table
    failed: set<FailedRow>,           // rows that ever were in the failed table
    q: QueueTask, d: DoneTask, f: FailedTask, p: PollTask)

  // ---------------------------------------------------------------- steps

  datatype Step =
    | Enqueue(id: int, rec: Option<Record>)
    | Dequeue(id: int)
    | AddDone(doneRow: DoneRow)
    | AddFailed(failedRow: FailedRow)
    | QueueRead(id: int)
    | QueueSelect(found: Option<(int, int)>)
    | QueueWrite
    | FindKey(doneRow: DoneRow, key: TimeoutKey, id: int)
    | FindHash(doneRow: DoneRow, id: int)
    | DoneWrite
    | FailDirect(failedRow: FailedRow)
    | FindPromise(failedRow: FailedRow, id: int)
    | TraceStart(failedRow: FailedRow)
    | TraceFetch(doneRow: DoneRow)
    | TraceClimb
    | FindAncestor(id: int)
    | FailedWrite
    | PollRead
    | PollQuery
    | PollMark
    | GiveUp(task: Task)
    | Restart(dedupe: bool)

  datatype Task = QueueT | DoneT | FailedT | PollT

  predicate Enabled(s: State, step: Step) {
    match step
    case Enqueue(id, rec) =>
      id !in s.items && (rec.Some? ==> rec.value.id == id && rec.value.status == DETECTED)
    case QueueRead(id) => s.q.QueueIdle? && id in s.items && s.items[id].Some?
    case QueueSelect(found) =>
      && s.q.Parsed?
      && (match found
          case None => !HashKnown(s.table, s.q.rec.hash)
          case Some((id, status)) => HasHash(s.table, id, s.q.rec.hash) && s.table[id].status == status)
    case QueueWrite => s.q.Selected?
    case FindKey(row, key, id) =>
      s.d.DoneIdle? && row in s.done && key in Timeouts(row.item) && FoundByKey(s.table, key, id)
    case FindHash(row, id) =>
      s.d.DoneIdle? && row in s.done && Matched(row) && FoundByHash(s.table, FieldsOf(row).hash, id)
    case DoneWrite => !s.d.DoneIdle?
    case FailDirect(row) => s.f.FailedIdle? && row in s.failed
    case FindPromise(row, id) =>
      s.f.FailedIdle? && row in s.failed && PromiseKey(row).Some? && FoundByKey(s.table, PromiseKey(row).value, id)
    case TraceStart(row) => s.f.FailedIdle? && row in s.failed
    case TraceFetch(row) => s.f.Tracing? && row in s.done && row.id in s.f.current
    case TraceClimb => s.f.Tracing? && s.f.depth + 1 < MAX_LEVEL
    case FindAncestor(id) => s.f.Tracing? && id in s.f.current && id in s.table && InFlight(s.table[id])
    case FailedWrite => s.f.PromiseFound? || s.f.AncestorFound?
    case PollRead => s.p.PollIdle?
    case PollQuery => s.p.DetectedRead?
    case PollMark => s.p.GoneKnown?
    case _ => true
  }

  function Apply(s: State, step: Step): State
    requires Enabled(s, step)
  {
    match step
    case Enqueue(id, rec) => s.(queue := s.queue + {id}, items := s.items[id := rec])
    case Dequeue(id) => s.(queue := s.queue - {id})
    case AddDone(row) => s.(done := s.done + {row})
    case AddFailed(row) => s.(failed := s.failed + {row})
    case QueueRead(id) => s.(q := Parsed(s.items[id].value))
    case QueueSelect(found) => s.(q := Selected(s.q.rec, found))
    case QueueWrite => s.(table := InsertWrite(s.table, s.q.rec, s.q.found), q := QueueIdle)
    case FindKey(row, key, id) => s.(d := KeyFound(row, key, id))
    case FindHash(row, id) => s.(d := HashFound(row, id))
    case DoneWrite => s.(table := DoneEffect(s.table, s.d), d := DoneIdle)
    case FailDirect(row) => s.(table := MarkFailed(s.table, row.id, row.message, ""))
    case FindPromise(row, id) => s.(f := PromiseFound(row, id))
    case TraceStart(row) => s.(f := Tracing(row, 0, Elements(row.parents), {}))
    case TraceFetch(row) => s.(f := s.f.(next := s.f.next + Elements(row.parents)))
    case TraceClimb => s.(f := Tracing(s.f.row, s.f.depth + 1, s.f.next, {}))
    case FindAncestor(id) => s.(f := AncestorFound(s.f.row, id))
    case FailedWrite => s.(table := MarkFailed(s.table, s.f.id, s.f.row.message, FailedTx(s.f)), f := FailedIdle)
    case PollRead => s.(p := DetectedRead(set id | id in s.table && s.table[id].status == DETECTED))
    case PollQuery => s.(p := GoneKnown(s.p.ids - s.queue))
    case PollMark => s.(table := MarkProcessing(s.table, s.p.ids), p := PollIdle)
    case GiveUp(QueueT) => s.(q := QueueIdle)
    case GiveUp(DoneT) => s.(d := DoneIdle)
    case GiveUp(FailedT) => s.(f := FailedIdle)
    case GiveUp(PollT) => s.(p := PollIdle)
    case Restart(dedupe) =>
      s.(table := if dedupe then Dedupe(s.table) else s.table,
         q := QueueIdle, d := DoneIdle, f := FailedIdle, p := PollIdle)
  }

  function Elements(ids: seq<int>): set<int> {
    set id | id in ids
  }

  /** The second statement of Insert, decided by what the first one answered. */
  function InsertWrite(t: Table, rec: Record, found: Option<(int, int)>): Table {
    match found
    case None => InsertRow(t, rec)
    case Some((id, status)) => if Priority(rec.status) < Priority(status) then SetStatus(t, id, rec.status) else t
  }

  /** The fields of an item that is matched by packet hash. */
  function FieldsOf(row: DoneRow): ItemFields
    requires ParseItemFields(row.item).Found?
  {
    ParseItemFields(row.item).value
  }

  predicate Matched(row: DoneRow) {
    && ParseItemFields(row.item).Found?
    && (FieldsOf(row).eventType == PACKET_RECV || FieldsOf(row).eventType == WRITE_ACK)
  }

  /** The update the done task makes for what it found. */
  function DoneEffect(t: Table, d: DoneTask): Table {
    match d
    case DoneIdle => t
    case KeyFound(_, _, id) => MarkFailed(t, id, TIMED_OUT, "")
    case HashFound(row, id) => if Matched(row) then HashEffect(t, id, row.createdAt, FieldsOf(row)) else t
  }

  /** Reading the row's acknowledgement panics, and ends the process. */
  predicate Crashes(row: DoneRow) {
    ParseItemFields(row.item).Panicked?
  }

  function HashEffect(t: Table, id: int, createdAt: int, fields: ItemFields): Table {
    if fields.eventType == PACKET_RECV then SetTxIn(t, fields.hash, fields.txHash)
    else if fields.ackSuccess then MarkDone(t, id, createdAt, fields.txHash)
    else MarkFailed(t, id, AckErrMessage(fields.ackError), fields.txHash)
  }

  function PromiseKey(row: FailedRow): Option<TimeoutKey> {
    var fields := ParseItemFields(row.item);
    if fields.Found? then Some(TimeoutKey(fields.value.timeout, fields.value.channel)) else None
  }

  /** Only the promise match has a transaction hash to offer for tx_in. */
  function FailedTx(f: FailedTask): string {
    if f.PromiseFound? then PromiseTx(f.row) else ""
  }

  ghost predicate Next(s: State, s': State) {
    exists step :: Enabled(s, step) && s' == Apply(s, step)
  }

  // ---------------------------------------------------------------- history

  /** The ids k parent edges above the parents of a failed row, by the done rows of the history. */
  ghost function Level(done: set<DoneRow>, row: FailedRow, k: nat): set<int> {
    if k == 0 then Elements(row.parents)
    else
      set d, id | d in done && d.id in Level(done, row, k - 1) && id in d.parents :: id
  }

  /** A successful acknowledgement for the hash. */
  predicate Acked(row: DoneRow, hash: string) {
    && Matched(row) && FieldsOf(row).eventType == WRITE_ACK
    && FieldsOf(row).ackSuccess && FieldsOf(row).hash == hash
  }

  /** A failing acknowledgement for the hash. */
  predicate Refused(row: DoneRow, hash: string) {
    && Matched(row) && FieldsOf(row).eventType == WRITE_ACK
    && !FieldsOf(row).ackSuccess && FieldsOf(row).hash == hash
  }

  /** A success for the hash of the bridge, whose time is that of the bridge's completion. */
  ghost predicate DoneJustified(s: State, row: Row) {
    exists d :: d in s.done && Acked(d, row.hash) && row.doneAt == Some(d.createdAt)
  }

  /** A failing acknowledgement, a timeout, or a failed row with the bridge's key, with its id or
      below it, and the error text of that cause. */
  ghost predicate FailedJustified(s: State, id: int, row: Row) {
    || (exists d :: d in s.done && Refused(d, row.hash) && row.errMsg == Some(AckErrMessage(FieldsOf(d).ackError)))
    || (row.errMsg == Some(TIMED_OUT)
        && exists d :: d in s.done && TimeoutKey(row.timeout, row.channel) in Timeouts(d.item))
    || (exists f :: f in s.failed && row.errMsg == Some(f.message) && CausedBy(s.done, f, id, row))
  }

  ghost predicate CausedBy(done: set<DoneRow>, f: FailedRow, id: int, row: Row) {
    || PromiseKey(f) == Some(TimeoutKey(row.timeout, row.channel))
    || f.id == id
    || exists k: nat :: k < MAX_LEVEL && id in Level(done, f, k)
  }

  ghost predicate Justified(s: State, id: int, row: Row) {
    && (row.status == DONE ==> DoneJustified(s, row))
    && (row.status == FAILED ==> FailedJustified(s, id, row))
  }

  /** The tx_in of a bridge is the transaction of a done item with its hash, or of a failed item
      with its key. */
  ghost predicate TxJustified(s: State, row: Row) {
    row.txIn.Some? ==>
      || (exists d :: d in s.done && Matched(d) && FieldsOf(d).hash == row.hash && row.txIn == Some(FieldsOf(d).txHash))
      || (exists f :: f in s.failed && PromiseKey(f) == Some(TimeoutKey(row.timeout, row.channel))
            && row.txIn == Some(PromiseTx(f)))
  }

  function PromiseTx(row: FailedRow): string {
    var fields := ParseItemFields(row.item);
    if fields.Found? then fields.value.txHash else ""
  }

  // ---------------------------------------------------------------- invariant

  ghost predicate QueueOk(s: State) {
    match s.q
    case QueueIdle => true
    case Parsed(rec) => Queued(s, rec)
    case Selected(rec, found) =>
      Queued(s, rec) && (found.None? ==> !HashKnown(s.table, rec.hash))
  }

  /** The record is the one of a row that is or was in the queue. */
  ghost predicate Queued(s: State, rec: Record) {
    rec.status == DETECTED && rec.id in s.items && s.items[rec.id] == Some(rec)
  }

  /** A row found by hash or key still has that hash or key when it is marked. */
  ghost predicate DoneOk(s: State) {
    match s.d
    case DoneIdle => true
    case KeyFound(row, key, id) =>
      && row in s.done && key in Timeouts(row.item) && id in s.table
      && s.table[id].timeout == key.timeout && s.table[id].channel == key.channel
    case HashFound(row, id) => row in s.done && Matched(row) && HasHash(s.table, id, FieldsOf(row).hash)
  }

  ghost predicate FailedOk(s: State) {
    match s.f
    case FailedIdle => true
    case PromiseFound(row, id) =>
      && row in s.failed && id in s.table
      && PromiseKey(row) == Some(TimeoutKey(s.table[id].timeout, s.table[id].channel))
    case Tracing(row, depth, current, next) =>
      && row in s.failed && depth < MAX_LEVEL
      && current <= Level(s.done, row, depth) && next <= Level(s.done, row, depth + 1)
    case AncestorFound(row, id) =>
      row in s.failed && exists k: nat :: k < MAX_LEVEL && id in Level(s.done, row, k)
  }

  predicate PollOk(s: State) {
    match s.p
    case PollIdle => true
    case DetectedRead(ids) => ids <= s.items.Keys
    case GoneKnown(ids) => ids <= s.items.Keys && ids !! s.queue
  }

  /** Rows come from queue rows, and have the packet hash of theirs. */
  predicate IdsOk(s: State) {
    && s.table.Keys <= s.items.Keys && s.queue <= s.items.Keys
    && (forall id :: id in s.items && s.items[id].Some? ==>
          s.items[id].value.id == id && s.items[id].value.status == DETECTED)
    && (forall id :: id in s.table && s.items[id].Some? ==> s.table[id].hash == s.items[id].value.hash)
  }

  /** No bridge is processing while its item still is in the queue. */
  predicate ProcessingGone(s: State) {
    forall id :: id in s.table && s.table[id].status == PROCESSING ==> id !in s.queue
  }

  ghost predicate AllJustified(s: State) {
    forall id :: id in s.table ==> Justified(s, id, s.table[id])
  }

  ghost predicate AllTxJustified(s: State) {
    forall id :: id in s.table ==> TxJustified(s, s.table[id])
  }

  ghost predicate Inv(s: State) {
    && RowsOk(s.table) && IdsOk(s)
    && QueueOk(s) && DoneOk(s) && FailedOk(s) && PollOk(s)
    && ProcessingGone(s) && AllJustified(s) && AllTxJustified(s)
  }

  /** A start of the process: all tasks idle, on a table that is consistent but may hold duplicates.
      The startup statement that removes them has succeeded, or it has failed and the process went
      on. */
  ghost predicate Initial(s: State, before: Table, deduped: bool) {
    && s.q.QueueIdle? && s.d.DoneIdle? && s.f.FailedIdle? && s.p.PollIdle?
    && s.table == (if deduped then Dedupe(before) else before)
    && RowsOk(before) && IdsOk(s.(table := before)) && ProcessingGone(s.(table := before))
    && AllJustified(s.(table := before)) && AllTxJustified(s.(table := before))
  }

  // ---------------------------------------------------------------- what a run makes of the table

  /** No hash of t is lost in t', and the rows that are in both have moved as allowed. */
  predicate Progresses(t: Table, t': Table) {
    forall id :: id in t ==> HashKnown(t', t[id].hash) && (id in t' ==> RowMoves(t[id], t'[id]))
  }
}
