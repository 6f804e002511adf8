/** What handling done rows makes of the table when statements fail, packet hashes occur twice or
    timeout keys are shared: a relation, with the number of statements that failed, where `Scan` has a
    function for the case that none fails and every query has one answer. */
module DoneEffects {
  import opened Items
  import opened Transfers
  import opened Lifecycle
  import opened Scan

  // ---------------------------------------------------------------- one row

  /** A query that answers 0 found nothing. */
  function KeyEffect(t: Table, id: int): Table {
    if id == 0 then t else MarkFailed(t, id, TIMED_OUT, "")
  }

  /** markPacketTimeoutFailed, n of whose statements failed: some bridge that can be found by the key
      has timed out, or the one failure cost the update. */
  ghost predicate KeyMade(t: Table, key: TimeoutKey, n: nat, t': Table) {
    if n > 0 then n == 1 && t' == t
    else if exists id :: FoundByKey(t, key, id) then exists id :: FoundByKey(t, key, id) && t' == KeyEffect(t, id)
    else t' == t
  }

  ghost predicate KeysMade(t: Table, keys: seq<TimeoutKey>, n: nat, t': Table) {
    if keys == [] then n == 0 && t' == t
    else
      var front, last := keys[..|keys| - 1], keys[|keys| - 1];
      exists t1, k: nat :: k <= n && KeysMade(t, front, k, t1) && KeyMade(t1, last, n - k, t')
  }

  function FoundEffect(t: Table, id: int, row: DoneRow): Table
    requires Matched(row)
  {
    if id == 0 then t else HashEffect(t, id, row.createdAt, FieldsOf(row))
  }

  /** The match by hash, n of whose statements failed. */
  ghost predicate HashMade(t: Table, row: DoneRow, n: nat, t': Table) {
    if !Matched(row) then n == 0 && t' == t
    else
      var hash := FieldsOf(row).hash;
      if n > 0 then n == 1 && t' == t
      else if exists id :: FoundByHash(t, hash, id) then
        exists id :: FoundByHash(t, hash, id) && t' == FoundEffect(t, id, row)
      else t' == t
  }

  /** The body of the loop of syncDone. */
  ghost predicate CatchUpMade(t: Table, row: DoneRow, n: nat, t': Table) {
    exists t1, k: nat :: k <= n && KeysMade(t, Timeouts(row.item), k, t1) && HashMade(t1, row, n - k, t')
  }

  /** The handler of a done notification, in the other order. */
  ghost predicate LiveMade(t: Table, row: DoneRow, n: nat, t': Table) {
    exists t1, k: nat :: k <= n && HashMade(t, row, k, t1) && KeysMade(t1, Timeouts(row.item), n - k, t')
  }

  ghost predicate ScanMade(t: Table, rows: seq<DoneRow>, n: nat, t': Table) {
    if rows == [] then n == 0 && t' == t
    else
      var front, last := rows[..|rows| - 1], rows[|rows| - 1];
      exists t1, k: nat :: k <= n && ScanMade(t, front, k, t1) && CatchUpMade(t1, last, n - k, t')
  }

  lemma KeysMadeNext(t: Table, keys: seq<TimeoutKey>, i: nat, k: nat, t1: Table, m: nat, t2: Table)
    requires i < |keys| && KeysMade(t, keys[..i], k, t1) && KeyMade(t1, keys[i], m, t2)
    ensures KeysMade(t, keys[..i + 1], k + m, t2)
  {
    hide KeyMade;
    assert keys[..i + 1][..i] == keys[..i];
    assert k + m - k == m;
  }

  lemma ScanMadeNext(t: Table, rows: seq<DoneRow>, i: nat, k: nat, t1: Table, m: nat, t2: Table)
    requires i < |rows| && ScanMade(t, rows[..i], k, t1) && CatchUpMade(t1, rows[i], m, t2)
    ensures ScanMade(t, rows[..i + 1], k + m, t2)
  {
    hide CatchUpMade;
    assert rows[..i + 1][..i] == rows[..i];
    assert k + m - k == m;
  }

  lemma MadeNone(t: Table)
    ensures KeysMade(t, [], 0, t) && ScanMade(t, [], 0, t)
  {
  }

  lemma OneAfterOther(t: Table, row: DoneRow, k: nat, t1: Table, m: nat, t2: Table)
    ensures KeysMade(t, Timeouts(row.item), k, t1) && HashMade(t1, row, m, t2) ==> CatchUpMade(t, row, k + m, t2)
    ensures HashMade(t, row, k, t1) && KeysMade(t1, Timeouts(row.item), m, t2) ==> LiveMade(t, row, k + m, t2)
  {
    hide KeysMade, HashMade, Timeouts;
    assert k + m - k == m;
  }

  /** The two orders can do the same, because no item has both fields and timeouts. */
  lemma LiveMadeIsCatchUp(t: Table, row: DoneRow, n: nat, t': Table)
    ensures LiveMade(t, row, n, t') <==> CatchUpMade(t, row, n, t')
  {
    hide ParseItemFields, Timeouts, KeysMade, HashMade;
    NeverBoth(row.item);
    if Timeouts(row.item) == [] {
      NoKeys();
    } else {
      NoHash(row);
    }
    if LiveMade(t, row, n, t') {
      var t1, k: nat :| k <= n && HashMade(t, row, k, t1) && KeysMade(t1, Timeouts(row.item), n - k, t');
      OneAfterOther(t, row, n - k, if Timeouts(row.item) == [] then t else t', k, t');
    }
    if CatchUpMade(t, row, n, t') {
      var t1, k: nat :| k <= n && KeysMade(t, Timeouts(row.item), k, t1) && HashMade(t1, row, n - k, t');
      OneAfterOther(t, row, n - k, if Timeouts(row.item) == [] then t' else t, k, t');
    }
  }

  lemma NoKeys()
    ensures forall t, n: nat, t' :: KeysMade(t, [], n, t') <==> n == 0 && t' == t
  {
  }

  lemma NoHash(row: DoneRow)
    requires !Matched(row)
    ensures forall t, n: nat, t' :: HashMade(t, row, n, t') <==> n == 0 && t' == t
  {
  }

  /** A row that panics makes no statement. */
  lemma CrashMade(t: Table, row: DoneRow, n: nat, t': Table)
    requires Crashes(row) && CatchUpMade(t, row, n, t')
    ensures n == 0 && t' == t
  {
    hide ParseItemFields, Timeouts, KeysMade, HashMade;
    NeverBoth(row.item);
    NoKeys();
    NoHash(row);
  }

  // ---------------------------------------------------------------- without failures

  /** What the functions describe can happen. */
  lemma {:induction false} KeyStepsMade(t: Table, keys: seq<TimeoutKey>)
    ensures KeysMade(t, keys, 0, KeySteps(t, keys))
  {
    hide KeyMade, KeyStep;
    if keys != [] {
      var i := |keys| - 1;
      KeyStepsMade(t, keys[..i]);
      KeyStepMade(KeySteps(t, keys[..i]), keys[i]);
    }
  }

  lemma KeyStepMade(t: Table, key: TimeoutKey)
    ensures KeyMade(t, key, 0, KeyStep(t, key))
  {
    hide MarkFailed;
  }

  lemma HashStepMade(t: Table, row: DoneRow)
    ensures HashMade(t, row, 0, HashStep(t, row))
  {
    hide ParseItemFields, HashEffect;
  }

  lemma CatchUpIsMade(t: Table, row: DoneRow)
    ensures CatchUpMade(t, row, 0, CatchUp(t, row))
  {
    hide KeysMade, HashMade, KeySteps, HashStep, Timeouts;
    KeyStepsMade(t, Timeouts(row.item));
    HashStepMade(KeySteps(t, Timeouts(row.item)), row);
    OneAfterOther(t, row, 0, KeySteps(t, Timeouts(row.item)), 0, CatchUp(t, row));
  }

  lemma {:induction false} ScanIsMade(t: Table, rows: seq<DoneRow>)
    ensures ScanMade(t, rows, 0, ScanAll(t, rows))
  {
    hide CatchUpMade, CatchUp;
    if rows != [] {
      var i := |rows| - 1;
      ScanIsMade(t, rows[..i]);
      CatchUpIsMade(ScanAll(t, rows[..i]), rows[i]);
    }
  }

  /** And nothing else can, when no statement fails and every query has one answer. */
  lemma HashMadeExact(t: Table, row: DoneRow, t': Table)
    requires Hashed(t) && HashMade(t, row, 0, t')
    ensures t' == HashStep(t, row)
  {
    hide ParseItemFields, HashEffect;
  }

  lemma KeyMadeExact(t: Table, key: TimeoutKey, t': Table)
    requires Keyed(t) && KeyMade(t, key, 0, t')
    ensures t' == KeyStep(t, key)
  {
    hide MarkFailed;
  }

  lemma {:induction false} KeysMadeExact(t: Table, keys: seq<TimeoutKey>, t': Table)
    requires Keyed(t) && KeysMade(t, keys, 0, t')
    ensures t' == KeySteps(t, keys) && Keyed(t')
  {
    hide KeyMade, KeyStep, Keyed;
    KeyStepsKeyed(t, keys);
    if keys != [] {
      var i := |keys| - 1;
      var t1 :| KeysMade(t, keys[..i], 0, t1) && KeyMade(t1, keys[i], 0, t');
      KeysMadeExact(t, keys[..i], t1);
      KeyMadeExact(t1, keys[i], t');
    }
  }

  lemma KeyStepsKeyed(t: Table, keys: seq<TimeoutKey>)
    requires Keyed(t)
    ensures Keyed(KeySteps(t, keys)) && Hashed(KeySteps(t, keys))
  {
    hide RowsOk, UniqueHashes, UniqueKeys, TableMoves, KeySteps;
    KeyStepsKeep(t, keys);
    MovesKeepKeys(t, KeySteps(t, keys));
  }

  lemma CatchUpMadeExact(t: Table, row: DoneRow, t': Table)
    requires Keyed(t) && CatchUpMade(t, row, 0, t')
    ensures t' == CatchUp(t, row)
  {
    hide KeysMade, HashMade, KeySteps, HashStep, Timeouts, RowsOk, UniqueHashes, UniqueKeys;
    var t1 :| KeysMade(t, Timeouts(row.item), 0, t1) && HashMade(t1, row, 0, t');
    KeysMadeExact(t, Timeouts(row.item), t1);
    HashMadeExact(t1, row, t');
  }

  lemma {:induction false} ScanMadeExact(t: Table, rows: seq<DoneRow>, t': Table)
    requires Keyed(t) && ScanMade(t, rows, 0, t')
    ensures t' == ScanAll(t, rows)
  {
    hide CatchUpMade, CatchUp, RowsOk, UniqueHashes, UniqueKeys, TableMoves;
    if rows != [] {
      var i := |rows| - 1;
      var t1 :| ScanMade(t, rows[..i], 0, t1) && CatchUpMade(t1, rows[i], 0, t');
      ScanMadeExact(t, rows[..i], t1);
      ScanKeeps(t, rows[..i]);
      CatchUpMadeExact(t1, rows[i], t');
    }
  }

  // ---------------------------------------------------------------- what is kept in any case

  /** The table keeps its rows, which only move and stay consistent. */
  ghost predicate Kept(t: Table, t': Table) {
    t'.Keys == t.Keys && TableMoves(t, t') && RowsOk(t')
  }

  lemma KeptSame(t: Table)
    requires RowsOk(t)
    ensures Kept(t, t)
  {
    MovesReflexive(t);
  }

  lemma KeptTransitive(a: Table, b: Table, c: Table)
    requires Kept(a, b) && Kept(b, c)
    ensures Kept(a, c)
  {
    hide TableMoves, RowsOk;
    TableMovesTransitive(a, b, c);
  }

  lemma KeptHashed(t: Table, t': Table)
    requires Hashed(t) && Kept(t, t')
    ensures Hashed(t')
  {
    hide RowsOk, UniqueHashes, TableMoves;
    MovesKeepUnique(t, t');
  }

  lemma KeyMadeKept(t: Table, key: TimeoutKey, n: nat, t': Table)
    requires RowsOk(t) && KeyMade(t, key, n, t')
    ensures Kept(t, t')
  {
    hide RowsOk, TableMoves, MarkFailed, FoundByKey;
    MovesReflexive(t);
    if t' != t {
      var id :| FoundByKey(t, key, id) && t' == KeyEffect(t, id);
      MarkFailedMoves(t, id, TIMED_OUT, "");
    }
  }

  lemma {:induction false} KeysMadeKept(t: Table, keys: seq<TimeoutKey>, n: nat, t': Table)
    requires RowsOk(t) && KeysMade(t, keys, n, t')
    ensures Kept(t, t') && RowsOk(t')
  {
    hide KeyMade, TableMoves, RowsOk;
    KeptSame(t);
    if keys != [] {
      var i := |keys| - 1;
      var t1, k: nat :| k <= n && KeysMade(t, keys[..i], k, t1) && KeyMade(t1, keys[i], n - k, t');
      KeysMadeKept(t, keys[..i], k, t1);
      KeyMadeKept(t1, keys[i], n - k, t');
      KeptTransitive(t, t1, t');
    }
  }

  lemma HashMadeKept(t: Table, row: DoneRow, n: nat, t': Table)
    requires RowsOk(t) && HashMade(t, row, n, t')
    ensures Kept(t, t')
  {
    hide ParseItemFields, RowsOk, TableMoves, MarkFailed, MarkDone, SetTxIn, FoundByHash;
    MovesReflexive(t);
    if t' != t {
      var fields := FieldsOf(row);
      var id :| FoundByHash(t, fields.hash, id) && t' == FoundEffect(t, id, row);
      SetTxInMoves(t, fields.hash, fields.txHash);
      MarkDoneMoves(t, id, row.createdAt, fields.txHash);
      MarkFailedMoves(t, id, AckErrMessage(fields.ackError), fields.txHash);
    }
  }

  lemma CatchUpMadeKept(t: Table, row: DoneRow, n: nat, t': Table)
    requires RowsOk(t) && CatchUpMade(t, row, n, t')
    ensures Kept(t, t') && RowsOk(t')
  {
    hide KeysMade, HashMade, TableMoves, RowsOk, Timeouts;
    var t1, k: nat :| k <= n && KeysMade(t, Timeouts(row.item), k, t1) && HashMade(t1, row, n - k, t');
    KeysMadeKept(t, Timeouts(row.item), k, t1);
    HashMadeKept(t1, row, n - k, t');
    KeptTransitive(t, t1, t');
  }

  /** Whatever fails, rows are neither added nor deleted, stay consistent and move as allowed. */
  lemma {:induction false} ScanMadeKept(t: Table, rows: seq<DoneRow>, n: nat, t': Table)
    requires RowsOk(t) && ScanMade(t, rows, n, t')
    ensures Kept(t, t') && RowsOk(t')
  {
    hide CatchUpMade, TableMoves, RowsOk;
    KeptSame(t);
    if rows != [] {
      var i := |rows| - 1;
      var t1, k: nat :| k <= n && ScanMade(t, rows[..i], k, t1) && CatchUpMade(t1, rows[i], n - k, t');
      ScanMadeKept(t, rows[..i], k, t1);
      CatchUpMadeKept(t1, rows[i], n - k, t');
      KeptTransitive(t, t1, t');
    }
  }

  // ---------------------------------------------------------------- what failures can cost

  /** The row is a write_ack for the hash. */
  predicate Decides(d: DoneRow, hash: string) {
    Acked(d, hash) || Refused(d, hash)
  }

  /** Which rows are: write_acks in either message form, and promises whose first entry with a timeout
      says so, which carry no hash. */
  lemma DecidesExactly(d: DoneRow, hash: string)
    ensures AckOf(d.item, hash) ==> Decides(d, hash) || Crashes(d)
    ensures Decides(d, hash) ==>
              !Crashes(d) &&
              (AckOf(d.item, hash) || (hash == "" && exists e :: IsPromise(d.item, e) && e.kind == "write_ack"))
  {
    hide AckOutcome;
    if Decides(d, hash) {
      if d.item.Promise? {
        PromiseRead(d.item, FirstTimed(d.item.batches).value);
      } else {
        var m := d.item.message;
        assert IsAck(d.item, hash, m.event.acknowledgement, m.txHash, m.gno);
      }
    }
  }

  /** The bridges that stay in flight although a write_ack for them is among the rows. */
  ghost function Undecided(t: Table, rows: seq<DoneRow>, t': Table): set<int> {
    set id | id in t && (exists d :: d in rows && Decides(d, t[id].hash)) && id in t' && InFlight(t'[id])
  }

  /** Every failed statement of a scan leaves at most one bridge in flight that has a write_ack among
      the rows: without failures there is none. */
  lemma {:induction false} ScanMadeDecides(t: Table, rows: seq<DoneRow>, n: nat, t': Table)
    requires Hashed(t) && ScanMade(t, rows, n, t')
    ensures |Undecided(t, rows, t')| <= n
  {
    hide CatchUpMade, RowsOk, UniqueHashes, TableMoves, Decides;
    if rows != [] {
      var i := |rows| - 1;
      var t1, k: nat :| k <= n && ScanMade(t, rows[..i], k, t1) && CatchUpMade(t1, rows[i], n - k, t');
      ScanMadeDecides(t, rows[..i], k, t1);
      ScanMadeKept(t, rows[..i], k, t1);
      KeptHashed(t, t1);
      CatchUpMadeKept(t1, rows[i], n - k, t');
      var more := LastUndecided(t, rows, t1, n - k, t');
      Smaller(Undecided(t, rows, t'), Undecided(t, rows[..i], t1) + more);
      Sum(Undecided(t, rows[..i], t1), more);
    } else {
      assert Undecided(t, rows, t') == {};
    }
  }

  lemma LastUndecided(t: Table, rows: seq<DoneRow>, t1: Table, n: nat, t': Table) returns (more: set<int>)
    requires rows != [] && Kept(t, t1) && Hashed(t) && Hashed(t1) && Kept(t1, t')
    requires CatchUpMade(t1, rows[|rows| - 1], n, t')
    ensures |more| <= n && Undecided(t, rows, t') <= Undecided(t, rows[..|rows| - 1], t1) + more
  {
    hide CatchUpMade, RowsOk, UniqueHashes, TableMoves, Decides;
    var front, last := rows[..|rows| - 1], rows[|rows| - 1];
    more := DecisionLost(t1, last, n, t');
    forall id | id in Undecided(t, rows, t')
      ensures id in Undecided(t, front, t1) + more
    {
      KeptColumns(t, t1, id);
      KeptColumns(t1, t', id);
      var d :| d in rows && Decides(d, t[id].hash);
      if d != last {
        assert d in front;
      }
    }
  }

  /** The bridge the row decides, if its statement failed. */
  lemma DecisionLost(t: Table, row: DoneRow, n: nat, t': Table) returns (lost: set<int>)
    requires Hashed(t) && CatchUpMade(t, row, n, t') && Kept(t, t')
    ensures |lost| <= n
    ensures forall id :: id in t && Decides(row, t[id].hash) && InFlight(t'[id]) ==> id in lost
  {
    hide KeysMade, HashMade, RowsOk, UniqueHashes, TableMoves, Acked, Refused, Timeouts;
    var t1, k: nat :| k <= n && KeysMade(t, Timeouts(row.item), k, t1) && HashMade(t1, row, n - k, t');
    KeysMadeKept(t, Timeouts(row.item), k, t1);
    KeptHashed(t, t1);
    if n == 0 {
      lost := {};
      HashMadeExact(t1, row, t');
      forall id | id in t && Decides(row, t[id].hash)
        ensures !InFlight(t'[id])
      {
        KeptColumns(t, t1, id);
        HashStepStatus(t1, row, id);
      }
    } else {
      lost := OneDecided(t, row);
    }
  }

  lemma OneDecided(t: Table, row: DoneRow) returns (ids: set<int>)
    requires Hashed(t)
    ensures |ids| <= 1 && forall id :: id in t && Decides(row, t[id].hash) ==> id in ids
  {
    hide ParseItemFields, RowsOk;
    if id :| id in t && Decides(row, t[id].hash) {
      ids := {id};
    } else {
      ids := {};
    }
  }

  lemma Smaller(a: set<int>, b: set<int>)
    requires a <= b
    ensures |a| <= |b|
  {
    assert b == a + (b - a);
  }

  lemma Sum(a: set<int>, b: set<int>)
    ensures |a + b| <= |a| + |b|
  {
    assert a + b == a + (b - a);
    assert b == (b - a) + (b * a);
  }
}
