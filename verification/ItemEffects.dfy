/** What the items of the relayer do to the table: for each kind of item, in the terms of the item
    itself, with the columns it writes. */
module ItemEffects {
  import opened Options
  import opened Hex
  import opened AbiEncode
  import opened Zkgm
  import opened Items
  import opened Transfers
  import opened AbiPanics
  import opened Lifecycle
  import opened Scan
  import opened DoneEffects
  import opened RelayerDatabase
  import opened Retry
  import opened IndexerTasks

  /** Only this bridge has changed. */
  predicate OnlyAt(t: Table, id: int, t': Table) {
    t'.Keys == t.Keys && forall other :: other in t && other != id ==> t'[other] == t[other]
  }

  /** tx_in is kept if it was set, and else becomes the hash if that is not empty. */
  predicate TakesTx(a: Row, b: Row, tx: string) {
    && (a.txIn.Some? ==> b.txIn == a.txIn)
    && (a.txIn.None? && tx != "" ==> b.txIn == Some(tx))
    && (a.txIn.None? && tx == "" ==> b.txIn.None?)
  }

  /** The bridge is done: since when, and by which transaction. */
  predicate BecomesDone(a: Row, b: Row, at: int, tx: string) {
    b == a.(status := 2, doneAt := Some(at), txIn := b.txIn) && TakesTx(a, b, tx)
  }

  predicate BecomesFailed(a: Row, b: Row, message: string, tx: string) {
    b == a.(status := 3, errMsg := Some(message), txIn := b.txIn) && TakesTx(a, b, tx)
  }

  // ---------------------------------------------------------------- acknowledgements

  /** A write_ack, in either message form, settles the bridge of its hash: done at the time of the row,
      or failed with the text of the acknowledgement; and shows its transaction. Other bridges stay. */
  lemma AckHandled(t: Table, row: DoneRow, hash: string, ack: Text, tx: string, gno: bool, id: int, t': Table)
    requires Hashed(t) && CatchUpMade(t, row, 0, t') && IsAck(row.item, hash, ack, tx, gno) && !Crashes(row)
    requires id in t && t[id].hash == hash && t[id].status < 2
    ensures OnlyAt(t, id, t')
    ensures AckOutcome(ack) == AckRead(true, "") ==> BecomesDone(t[id], t'[id], row.createdAt, FormatTxHash(tx, gno))
    ensures forall text ::
              AckOutcome(ack) == AckRead(false, text) ==>
                BecomesFailed(t[id], t'[id], if text == "" then "ack error" else "ack error: " + text,
                              FormatTxHash(tx, gno))
    ensures AckOutcome(ack) == AckRead(true, "") || exists text :: AckOutcome(ack) == AckRead(false, text)
  {
    hide FormatTxHash, RowsOk, UniqueHashes, DecodeAck, RenderBytes;
    AloneByHash(t, row, t');
    OnlyOfHash(t, hash, id);
  }

  /** An item without timeouts is handled by the match by hash alone. */
  lemma AloneByHash(t: Table, row: DoneRow, t': Table)
    requires Hashed(t) && CatchUpMade(t, row, 0, t') && Timeouts(row.item) == []
    ensures t' == HashStep(t, row)
  {
    hide HashMade, HashStep, RowsOk, UniqueHashes;
    NoKeys();
    HashMadeExact(t, row, t');
  }

  lemma OnlyOfHash(t: Table, hash: string, id: int)
    requires Hashed(t) && id in t && t[id].hash == hash && t[id].status < 3
    ensures FindByHash(t, hash) == id && id != 0
  {
    hide RowsOk;
    assert FoundByHash(t, hash, id);
  }

  // ---------------------------------------------------------------- receipts

  /** A packet_recv shows its transaction on the bridge of its hash, also when that is done already;
      a failed one is left alone. */
  lemma RecvHandled(t: Table, row: DoneRow, p: PacketEvent, tx: string, gno: bool, id: int, t': Table)
    requires Hashed(t) && CatchUpMade(t, row, 0, t') && row.item == Call(ChainEvent(PacketRecv(p), tx, gno))
    requires id in t && t[id].hash == p.hash
    ensures OnlyAt(t, id, t')
    ensures t[id].status < 3 ==>
              t'[id] == t[id].(txIn := t'[id].txIn) && TakesTx(t[id], t'[id], FormatTxHash(tx, gno))
    ensures t[id].status == 3 ==> t' == t
  {
    hide FormatTxHash;
    AloneByHash(t, row, t');
    if t[id].status < 3 {
      OnlyOfHash(t, p.hash, id);
    }
  }

  // ---------------------------------------------------------------- timeouts

  /** No other in-flight bridge has its timeout and channel. */
  predicate OnlyOfKey(t: Table, id: int)
    requires id in t
  {
    forall other :: other in t && other != id && t[other].status < 2 ==>
      t[other].timeout != t[id].timeout || t[other].channel != t[id].channel
  }

  /** A multicall with a packet_timeout datagram of the bridge's timeout and channel fails it. */
  lemma TimeoutHandled(t: Table, row: DoneRow, datagrams: seq<Datagram>, id: int, t': Table)
    requires Hashed(t) && CatchUpMade(t, row, 0, t') && row.item == Call(Multicall(datagrams))
    requires id in t && t[id].status < 2 && OnlyOfKey(t, id)
    ensures id in t' && t'.Keys == t.Keys
    ensures PacketTimeout(t[id].timeout, t[id].channel) in datagrams ==>
              BecomesFailed(t[id], t'[id], "packet timed out; refunded on source chain", "")
    ensures PacketTimeout(t[id].timeout, t[id].channel) !in datagrams ==> t'[id] == t[id]
  {
    hide KeysMade, RowsOk, UniqueHashes, TimeoutKeys, OnlyOfKey;
    var t1 :| KeysMade(t, Timeouts(row.item), 0, t1) && HashMade(t1, row, 0, t');
    assert t' == t1;
    KeysFail(t, Timeouts(row.item), id, t');
    KeysOfDatagrams(datagrams);
  }

  lemma {:induction false} KeysOfDatagrams(ds: seq<Datagram>)
    ensures forall x, y :: TimeoutKey(x, y) in TimeoutKeys(ds) <==> PacketTimeout(x, y) in ds
  {
    if ds != [] {
      var front, last := ds[..|ds| - 1], ds[|ds| - 1];
      KeysOfDatagrams(front);
      assert ds == front + [last];
    }
  }

  lemma {:induction false} KeysFail(t: Table, keys: seq<TimeoutKey>, id: int, t': Table)
    requires RowsOk(t) && 0 !in t && KeysMade(t, keys, 0, t') && id in t && t[id].status < 2 && OnlyOfKey(t, id)
    ensures t'.Keys == t.Keys
    ensures if TimeoutKey(t[id].timeout, t[id].channel) in keys
            then BecomesFailed(t[id], t'[id], "packet timed out; refunded on source chain", "")
            else t'[id] == t[id]
  {
    hide KeyMade, RowsOk, BecomesFailed;
    if keys != [] {
      var front, last := keys[..|keys| - 1], keys[|keys| - 1];
      assert keys == front + [last];
      var t1 :| KeysMade(t, front, 0, t1) && KeyMade(t1, last, 0, t');
      KeysFail(t, front, id, t1);
      KeysMadeKept(t, front, 0, t1);
      KeyFails(t, t1, last, id, t');
    }
  }

  lemma KeyFails(t: Table, t1: Table, key: TimeoutKey, id: int, t': Table)
    requires Kept(t, t1) && 0 !in t && KeyMade(t1, key, 0, t') && id in t && t[id].status < 2 && OnlyOfKey(t, id)
    requires t1[id] == t[id] || BecomesFailed(t[id], t1[id], "packet timed out; refunded on source chain", "")
    ensures t'.Keys == t.Keys
    ensures t1[id] == t[id] && key == TimeoutKey(t[id].timeout, t[id].channel) ==>
              BecomesFailed(t[id], t'[id], "packet timed out; refunded on source chain", "")
    ensures t1[id] != t[id] || key != TimeoutKey(t[id].timeout, t[id].channel) ==> t'[id] == t1[id]
  {
    hide RowsOk;
    forall other | FoundByKey(t1, key, other)
      ensures other != id ==> key != TimeoutKey(t[id].timeout, t[id].channel)
    {
      assert RowMoves(t[other], t1[other]);
    }
    hide TableMoves;
    if t1[id] == t[id] && key == TimeoutKey(t[id].timeout, t[id].channel) {
      assert FoundByKey(t1, key, id);
    }
  }

  // ---------------------------------------------------------------- whole scans

  /** After a scan, a bridge with a packet_recv among the rows has failed or shows a transaction. */
  lemma {:induction false} ScanReceives(t: Table, rows: seq<DoneRow>, t': Table, d: DoneRow, p: PacketEvent, tx: string,
                                        gno: bool, id: int)
    requires Hashed(t) && ScanMade(t, rows, 0, t') && d in rows && d.item == Call(ChainEvent(PacketRecv(p), tx, gno))
    requires FormatTxHash(tx, gno) != "" && id in t && t[id].hash == p.hash
    ensures id in t' && (t'[id].status == 3 || t'[id].txIn.Some?)
  {
    hide FormatTxHash, CatchUpMade, RowsOk, UniqueHashes, TableMoves;
    var front, last := rows[..|rows| - 1], rows[|rows| - 1];
    assert rows == front + [last];
    var t1: Table :| ScanMade(t, front, 0, t1) && CatchUpMade(t1, last, 0, t');
    ScanMadeKept(t, front, 0, t1);
    KeptHashed(t, t1);
    CatchUpMadeKept(t1, last, 0, t');
    KeptColumns(t, t1, id);
    if d == last {
      RecvHandled(t1, d, p, tx, gno, id, t');
      StatusRange(t1, id);
    } else {
      ScanReceives(t, front, t1, d, p, tx, gno, id);
      StaysShown(t1, t', id);
    }
  }

  lemma StatusRange(t: Table, id: int)
    requires RowsOk(t) && id in t
    ensures 0 <= t[id].status <= 3
  {
  }

  lemma StaysShown(t: Table, t': Table, id: int)
    requires Kept(t, t') && id in t && (t[id].status == 3 || t[id].txIn.Some?)
    ensures id in t' && (t'[id].status == 3 || t'[id].txIn.Some?)
  {
    hide RowsOk;
    assert RowMoves(t[id], t'[id]);
  }

  /** After a scan, a bridge with a packet_timeout of its own timeout and channel among the rows is
      terminal, when no other in-flight bridge had these. */
  lemma {:induction false} ScanTimesOut(t: Table, rows: seq<DoneRow>, t': Table, d: DoneRow, datagrams: seq<Datagram>,
                                        id: int)
    requires Hashed(t) && ScanMade(t, rows, 0, t') && d in rows && d.item == Call(Multicall(datagrams))
    requires id in t && t[id].status < 2 && OnlyOfKey(t, id) && PacketTimeout(t[id].timeout, t[id].channel) in datagrams
    ensures id in t' && t'[id].status >= 2
  {
    hide CatchUpMade, RowsOk, UniqueHashes, TableMoves, OnlyOfKey;
    var front, last := rows[..|rows| - 1], rows[|rows| - 1];
    assert rows == front + [last];
    var t1: Table :| ScanMade(t, front, 0, t1) && CatchUpMade(t1, last, 0, t');
    ScanMadeKept(t, front, 0, t1);
    KeptHashed(t, t1);
    CatchUpMadeKept(t1, last, 0, t');
    KeptColumns(t, t1, id);
    KeptColumns(t1, t', id);
    if d != last {
      ScanTimesOut(t, front, t1, d, datagrams, id);
    } else if t1[id].status < 2 {
      StaysOnly(t, t1, id);
      TimeoutHandled(t1, d, datagrams, id, t');
    }
  }

  lemma StaysOnly(t: Table, t': Table, id: int)
    requires Kept(t, t') && id in t && OnlyOfKey(t, id)
    ensures OnlyOfKey(t', id)
  {
    hide RowsOk;
    forall other | other in t'
      ensures other in t && RowMoves(t[other], t'[other])
    {
    }
  }

  // ---------------------------------------------------------------- everything else

  /** Items of other kinds leave the table alone. */
  lemma OthersIdle(t: Table, row: DoneRow, t': Table)
    requires CatchUpMade(t, row, 0, t')
    requires !row.item.Promise? && !(row.item.Call? && row.item.message.Multicall?)
    requires !(row.item.Call? && row.item.message.ChainEvent? && row.item.message.event.PacketRecv?)
    requires !exists hash :: AckOf(row.item, hash)
    ensures t' == t
  {
    hide KeysMade;
    NoKeys();
    if Matched(row) {
      var m := row.item.message;
      assert IsAck(row.item, m.event.hash, m.event.acknowledgement, m.txHash, m.gno);
      assert AckOf(row.item, m.event.hash);
    }
  }

  /** Handling a row ends the process exactly for a write_ack that is hex of data whose second word,
      once padded, leads to a length word that overflows. */
  lemma CrashesExactly(row: DoneRow)
    ensures Crashes(row) <==>
              exists hash, ack: Text, tx, gno ::
                IsAck(row.item, hash, ack, tx, gno)
                && ack != "" && FromHex(ack).Some? && AckOverflows(PadTo32(FromHex(ack).value))
  {
    hide AckOutcome, FromHex, AckOverflows, PadTo32;
    if Crashes(row) {
      var m := row.item.message;
      assert IsAck(row.item, m.event.hash, m.event.acknowledgement, m.txHash, m.gno);
      AckTextPanics(m.event.acknowledgement);
    }
    forall hash, ack: Text, tx, gno | IsAck(row.item, hash, ack, tx, gno)
      ensures Crashes(row) <==> ack != "" && FromHex(ack).Some? && AckOverflows(PadTo32(FromHex(ack).value))
    {
      AckTextPanics(ack);
    }
  }

  // ---------------------------------------------------------------- failed rows

  /** The key by which a failed row finds a bridge that its id does not: timeout and channel of the
      first entry of a promise that has a timeout, of a packet event of gno, and zeros for a write_ack. */
  lemma FailedKey(row: FailedRow)
    ensures forall e :: IsPromise(row.item, e) ==> PromiseKey(row) == Some(TimeoutKey(e.timeout, e.channel))
    ensures row.item.Promise? && PromiseKey(row).Some? ==> exists e :: IsPromise(row.item, e)
    ensures row.item.Call? && row.item.message.ChainEvent?
            && (row.item.message.event.PacketSend? || row.item.message.event.PacketRecv?) ==>
              var m := row.item.message;
              && PromiseKey(row) == Some(TimeoutKey(m.event.packet.timeout, m.event.packet.channel))
              && PromiseTx(row) == FormatTxHash(m.txHash, m.gno)
    ensures forall e :: IsPromise(row.item, e) ==> PromiseTx(row) == ""
    ensures forall hash, ack: Text, tx, gno ::
              IsAck(row.item, hash, ack, tx, gno) && !ParseItemFields(row.item).Panicked? ==>
                PromiseKey(row) == Some(TimeoutKey(0, 0)) && PromiseTx(row) == FormatTxHash(tx, gno)
    ensures PromiseKey(row).None? ==> PromiseTx(row) == ""
  {
    hide FormatTxHash;
    forall e | IsPromise(row.item, e)
      ensures PromiseKey(row) == Some(TimeoutKey(e.timeout, e.channel)) && PromiseTx(row) == ""
    {
      PromiseRead(row.item, e);
    }
    if row.item.Promise? && PromiseKey(row).Some? {
      PromiseRead(row.item, FirstTimed(row.item.batches).value);
    }
  }

  /** A failed promise, whose id is none of the bridges in flight, fails a bridge in flight with exactly
      its timeout and channel, with the message of the row; or, when there is none, nothing. */
  lemma PromiseFailed(t: Table, row: FailedRow, e: BatchEntry, t': Table)
    requires 0 !in t && IsPromise(row.item, e) && NotifiedFailed(t, row, t') && !(row.id in t && t[row.id].status < 2)
    ensures (exists id :: id in t && t[id].status < 2 && t[id].timeout == e.timeout && t[id].channel == e.channel) ==>
              exists id :: id in t && t[id].status < 2 && t[id].timeout == e.timeout && t[id].channel == e.channel
                && OnlyAt(t, id, t') && BecomesFailed(t[id], t'[id], row.message, "")
    ensures !(exists id :: id in t && t[id].status < 2 && t[id].timeout == e.timeout && t[id].channel == e.channel) ==>
              t' == t
  {
    FailedKey(row);
    PromiseRead(row.item, e);
    hide ParseItemFields, IsPromise;
    var key := TimeoutKey(e.timeout, e.channel);
    if exists id :: FoundByKey(t, key, id) {
      var id :| FoundByKey(t, key, id) && t' == MarkFailed(t, id, row.message, "");
      assert OnlyAt(t, id, t') && BecomesFailed(t[id], t'[id], row.message, "");
    }
    forall id | id in t && t[id].status < 2 && t[id].timeout == e.timeout && t[id].channel == e.channel
      ensures FoundByKey(t, key, id)
    {
    }
  }

  /** A failed row whose id is a bridge in flight fails that one. */
  lemma DirectFailed(t: Table, row: FailedRow, t': Table)
    requires NotifiedFailed(t, row, t') && row.id in t && t[row.id].status < 2
    ensures OnlyAt(t, row.id, t') && BecomesFailed(t[row.id], t'[row.id], row.message, "")
  {
  }

  // ---------------------------------------------------------------- queue rows

  /** A routed packet event, sent or received, in either message form, becomes a detected bridge with
      the hash, timeout, channel and time of the row, when hash and id are new. */
  lemma PacketInserted(t: Table, row: QueueRow, p: PacketEvent)
    requires PacketOf(row.item, p) && row.routed && !Order(p.data).Crashed?
    requires row.id !in t && forall id :: id in t ==> t[id].hash != p.hash
    ensures var t' := InsertRow'(t, row);
            && t'.Keys == t.Keys + {row.id} && (forall id :: id in t ==> t'[id] == t[id])
            && t'[row.id].hash == p.hash && t'[row.id].timeout == p.timeout && t'[row.id].channel == p.channel
            && t'[row.id].createdAt == row.createdAt && t'[row.id].status == 0
            && t'[row.id].doneAt.None? && t'[row.id].errMsg.None? && t'[row.id].txIn.None?
  {
    hide Order;
  }

  /** A hash that is there already, an id that is, or an item that is no routed packet event, inserts
      nothing. */
  lemma NothingInserted(t: Table, row: QueueRow)
    requires forall p :: PacketOf(row.item, p) && row.routed ==>
               row.id in t || exists id :: id in t && t[id].hash == p.hash
    ensures InsertRow'(t, row) == t
  {
    hide Order;
    if RecordOf(row).Found? {
      var m := row.item.message;
      assert IsPacket(row.item, m.event.packet, m.txHash, m.gno);
      assert PacketOf(row.item, m.event.packet);
    }
  }

  /** Reading a queue row ends the process exactly for a routed packet event whose data does. */
  lemma StopsExactly(row: QueueRow)
    ensures Stops(row) <==> row.routed && exists p :: PacketOf(row.item, p) && Order(p.data).Crashed?
  {
    hide Order;
    if Stops(row) {
      var m := row.item.message;
      assert IsPacket(row.item, m.event.packet, m.txHash, m.gno);
    }
  }

  /** From the queue to the refund: a bridge inserted from a packet event fails by a multicall with a
      packet_timeout of that packet, while no other bridge in flight has its timeout and channel. */
  lemma InsertedThenTimesOut(t: Table, queued: QueueRow, p: PacketEvent, row: DoneRow, datagrams: seq<Datagram>,
                             t': Table)
    requires Hashed(t) && queued.id != 0 && PacketOf(queued.item, p) && queued.routed && !Order(p.data).Crashed?
    requires queued.id !in t && forall id :: id in t ==> t[id].hash != p.hash
    requires forall id :: id in t && t[id].status < 2 ==> t[id].timeout != p.timeout || t[id].channel != p.channel
    requires row.item == Call(Multicall(datagrams)) && PacketTimeout(p.timeout, p.channel) in datagrams
    requires CatchUpMade(InsertRow'(t, queued), row, 0, t')
    ensures queued.id in t' && t'[queued.id].status == 3 && t'[queued.id].hash == p.hash
    ensures t'[queued.id].errMsg == Some("packet timed out; refunded on source chain")
  {
    hide Order, CatchUpMade, InsertRow', PacketOf;
    PacketInserted(t, queued, p);
    TimeoutHandled(InsertRow'(t, queued), row, datagrams, queued.id, t');
  }

  /** And it is settled by a write_ack for that packet. */
  lemma InsertedThenAcknowledged(t: Table, queued: QueueRow, p: PacketEvent, row: DoneRow, ack: Text, tx: string,
                                 gno: bool, t': Table)
    requires Hashed(t) && queued.id != 0 && PacketOf(queued.item, p) && queued.routed && !Order(p.data).Crashed?
    requires queued.id !in t && forall id :: id in t ==> t[id].hash != p.hash
    requires IsAck(row.item, p.hash, ack, tx, gno) && AckOutcome(ack) == AckRead(true, "")
    requires CatchUpMade(InsertRow'(t, queued), row, 0, t')
    ensures queued.id in t' && t'[queued.id].status == 2 && t'[queued.id].hash == p.hash
    ensures t'[queued.id].doneAt == Some(row.createdAt)
    ensures t'[queued.id].txIn == if FormatTxHash(tx, gno) == "" then None else Some(FormatTxHash(tx, gno))
  {
    hide Order, CatchUpMade, InsertRow', PacketOf, FormatTxHash, AckOutcome;
    PacketInserted(t, queued, p);
    AckHandled(InsertRow'(t, queued), row, p.hash, ack, tx, gno, queued.id, t');
  }
}
