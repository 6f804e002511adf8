/** Duplicate resolution: the batch statement and the incremental Insert, and that they agree. */
module Duplicates {
  import opened Options
  import opened Transfers

  // ---------------------------------------------------------------- the batch statement

  /** Two rows of one hash are always ranked one way or the other. */
  lemma OutranksTotal(t: Table, a: int, b: int)
    requires a in t && b in t && t[a].hash == t[b].hash && a != b
    ensures Outranks(t, a, b) <==> !Outranks(t, b, a)
  {
  }

  /** Every hash of the table has a first row. */
  lemma FirstExists(t: Table, id: int) returns (best: int)
    requires id in t
    ensures best in t && t[best].hash == t[id].hash && First(t, best)
    ensures best == id || Outranks(t, best, id)
  {
    best := FirstAmong(t, id, t.Keys);
  }

  lemma {:induction false} FirstAmong(t: Table, id: int, ids: set<int>) returns (best: int)
    requires id in t && ids <= t.Keys
    ensures best in t && t[best].hash == t[id].hash && (best == id || Outranks(t, best, id))
    ensures forall other :: other in ids ==> !Outranks(t, other, best)
    decreases |ids|
  {
    if ids == {} {
      best := id;
    } else {
      var x := Pick(ids);
      var b := FirstAmong(t, id, ids - {x});
      best := if Outranks(t, x, b) then x else b;
      forall other | other in ids
        ensures !Outranks(t, other, best)
      {
        assert other == x || other in ids - {x};
      }
    }
  }

  /** DedupeByPacketHash keeps one row per hash, the least by priority and then id; no hash is
      lost and kept rows are untouched; and it deletes as many rows as there are beyond one per
      hash. Run again, it deletes nothing. */
  lemma DedupeCorrect(t: Table)
    ensures UniqueHashes(Dedupe(t))
    ensures forall id :: id in Dedupe(t) <==> id in t && First(t, id)
    ensures forall id :: id in Dedupe(t) ==> Dedupe(t)[id] == t[id]
    ensures forall id :: id in t ==> HashKnown(Dedupe(t), t[id].hash)
    ensures |Dedupe(t)| == |set id | id in t :: t[id].hash|
    ensures Dedupe(Dedupe(t)) == Dedupe(t)
  {
    var d := Dedupe(t);
    forall id | id in t
      ensures HashKnown(d, t[id].hash)
    {
      var best := FirstExists(t, id);
      assert best in d && d[best].hash == t[id].hash;
    }
    DedupeUnique(t);
    UniqueIsDeduped(d);
    var hashes := set id | id in t :: t[id].hash;
    assert hashes == set id | id in d :: d[id].hash;
    UniqueCount(d);
  }

  /** Some row of the hash has the status. */
  predicate StatusHeld(t: Table, hash: string, status: int) {
    exists id :: id in t && t[id].hash == hash && t[id].status == status
  }

  /** What stays: a done row if the hash has one, else a failed one if it has one, else a processing
      one; and of those the one with the least id. */
  lemma DedupeRanks(t: Table, id: int)
    requires id in Dedupe(t)
    ensures var row := t[id];
            && (StatusHeld(t, row.hash, 2) ==> row.status == 2)
            && (!StatusHeld(t, row.hash, 2) && StatusHeld(t, row.hash, 3) ==> row.status == 3)
            && (!StatusHeld(t, row.hash, 2) && !StatusHeld(t, row.hash, 3) && StatusHeld(t, row.hash, 1) ==>
                  row.status == 1)
    ensures forall other :: other in t && t[other].hash == t[id].hash && t[other].status == t[id].status ==> id <= other
  {
    assert First(t, id);
    forall other | other in t && t[other].hash == t[id].hash
      ensures Priority(t[id].status) <= Priority(t[other].status)
      ensures t[other].status == t[id].status ==> id <= other
    {
      assert !Outranks(t, other, id);
    }
  }

  /** What inserting a record does to the row of its hash: a status only gives way to done, or to
      failed unless it is done, or to processing if it is neither. */
  lemma AdvanceRanks(t: Table, id: int, status: int)
    requires id in t && 0 <= status <= 3 && 0 <= t[id].status <= 3
    ensures var t' := Advance(t, id, status);
            && t'.Keys == t.Keys && (forall other :: other in t && other != id ==> t'[other] == t[other])
            && t'[id] == t[id].(status := t'[id].status)
            && t'[id].status == if status == 2 || t[id].status == 2 then 2
                                else if status == 3 || t[id].status == 3 then 3
                                else if status == 1 || t[id].status == 1 then 1
                                else 0
  {
  }

  lemma DedupeUnique(t: Table)
    ensures UniqueHashes(Dedupe(t))
  {
    var d := Dedupe(t);
    forall i, j | i in d && j in d && d[i].hash == d[j].hash
      ensures i == j
    {
      if i != j {
        OutranksTotal(t, i, j);
      }
    }
  }

  /** A table without duplicates is left alone. */
  lemma UniqueIsDeduped(t: Table)
    requires UniqueHashes(t)
    ensures Dedupe(t) == t
  {
    assert forall id, other :: id in t && other in t ==> !Outranks(t, other, id);
    assert Dedupe(t).Keys == t.Keys;
  }

  /** Without duplicates there are as many hashes as rows. */
  lemma {:induction false} UniqueCount(t: Table)
    requires UniqueHashes(t)
    ensures |set id | id in t :: t[id].hash| == |t|
    decreases |t|
  {
    var hashes := set id | id in t :: t[id].hash;
    if t == map[] {
      assert hashes == {};
    } else {
      var x := Pick(t.Keys);
      var rest := map id | id in t && id != x :: t[id];
      assert rest.Keys == t.Keys - {x} && |t.Keys| == |t| && |rest.Keys| == |rest|;
      UniqueCount(rest);
      var others := set id | id in rest :: rest[id].hash;
      assert t[x].hash !in others;
      forall h | h in hashes
        ensures h in others + {t[x].hash}
      {
        var id :| id in t && t[id].hash == h;
        assert id != x ==> id in rest && rest[id].hash == h;
      }
      assert hashes == others + {t[x].hash};
    }
  }

  // ---------------------------------------------------------------- the incremental statement

  /** What Insert may turn the table into; with duplicates in the table, the row its SELECT
      answers is arbitrary. */
  ghost predicate Inserted(t: Table, r: Record, t': Table) {
    if HashKnown(t, r.hash)
    then exists id :: HasHash(t, id, r.hash) && t' == Advance(t, id, r.status)
    else t' == InsertRow(t, r)
  }

  /** UPDATE of the status when the new one outranks the old. */
  function Advance(t: Table, id: int, status: int): Table
    requires id in t
  {
    if Priority(status) < Priority(t[id].status) then SetStatus(t, id, status) else t
  }

  /** Insert on a table without duplicates. */
  ghost function Insert(t: Table, r: Record): (t': Table)
    ensures Inserted(t, r, t')
  {
    if HashKnown(t, r.hash) then
      var id :| id in t && t[id].hash == r.hash;
      Advance(t, id, r.status)
    else InsertRow(t, r)
  }

  /** On a table without duplicates the outcome is determined. */
  lemma InsertSingle(t: Table, r: Record, a: Table, b: Table)
    requires UniqueHashes(t) && Inserted(t, r, a) && Inserted(t, r, b)
    ensures a == b == Insert(t, r)
  {
    if HashKnown(t, r.hash) {
      var i :| HasHash(t, i, r.hash) && a == Advance(t, i, r.status);
      var j :| HasHash(t, j, r.hash) && b == Advance(t, j, r.status);
      assert i == j;
    }
  }

  ghost function InsertAll(t: Table, rs: seq<Record>): Table {
    if rs == [] then t else Insert(InsertAll(t, rs[..|rs| - 1]), rs[|rs| - 1])
  }

  /** The table that has all records as rows. */
  function AllRows(rs: seq<Record>): (t: Table)
    ensures forall id :: id in t <==> exists r :: r in rs && r.id == id
  {
    if rs == [] then map[] else AllRows(rs[..|rs| - 1])[rs[|rs| - 1].id := NewRow(rs[|rs| - 1])]
  }

  predicate DistinctIds(rs: seq<Record>) {
    forall i, j :: 0 <= i < j < |rs| ==> rs[i].id != rs[j].id
  }

  predicate ValidStatus(s: int) {
    DETECTED <= s <= FAILED
  }

  predicate ValidStatuses(rs: seq<Record>) {
    forall r :: r in rs ==> ValidStatus(r.status)
  }

  /** The status the records give to a hash: one of theirs, of least priority. */
  ghost predicate Wins(rs: seq<Record>, hash: string, status: int) {
    && (exists r :: r in rs && r.hash == hash && r.status == status)
    && (forall r :: r in rs && r.hash == hash ==> Priority(status) <= Priority(r.status))
  }

  predicate Carried(rs: seq<Record>, hash: string, status: int) {
    exists r :: r in rs && r.hash == hash && r.status == status
  }

  /** The winner is done if some record of the hash is, else failed, else processing. */
  lemma WinnerRanks(rs: seq<Record>, hash: string, status: int)
    requires Wins(rs, hash, status)
    ensures Carried(rs, hash, 2) ==> status == 2
    ensures !Carried(rs, hash, 2) && Carried(rs, hash, 3) ==> status == 3
    ensures !Carried(rs, hash, 2) && !Carried(rs, hash, 3) && Carried(rs, hash, 1) ==> status == 1
  {
    assert Carried(rs, hash, status);
  }

  lemma WinnerUnique(rs: seq<Record>, hash: string, a: int, b: int)
    requires ValidStatuses(rs) && Wins(rs, hash, a) && Wins(rs, hash, b)
    ensures a == b
  {
    var ra :| ra in rs && ra.hash == hash && ra.status == a;
    var rb :| rb in rs && rb.hash == hash && rb.status == b;
    assert ValidStatus(a) && ValidStatus(b) && Priority(a) == Priority(b);
  }

  /** The table holds each hash of the records once, with its winning status, and nothing else. */
  ghost predicate Resolved(t: Table, rs: seq<Record>) {
    && UniqueHashes(t)
    && (forall id :: id in t ==> Wins(rs, t[id].hash, t[id].status))
    && (forall r :: r in rs ==> HashKnown(t, r.hash))
  }

  /** Inserting the records one after the other into the empty table gives every hash its
      winning status. */
  lemma {:induction false} IncrementalResolves(rs: seq<Record>)
    requires DistinctIds(rs)
    ensures Resolved(InsertAll(map[], rs), rs)
    ensures forall id :: id in InsertAll(map[], rs) ==> exists r :: r in rs && r.id == id
  {
    if rs != [] {
      var front, last := rs[..|rs| - 1], rs[|rs| - 1];
      assert rs == front + [last];
      IncrementalResolves(front);
      hide Resolved, Insert, HashKnown, Wins, Inserted;
      var t := InsertAll(map[], front);
      assert last.id !in t by {
        assert forall r :: r in front ==> r.id != last.id;
      }
      InsertResolves(t, front, last);
      forall id | id in Insert(t, last)
        ensures exists r :: r in rs && r.id == id
      {
        assert last in rs && (id in t || id == last.id);
      }
    }
  }

  lemma InsertResolves(t: Table, rs: seq<Record>, r: Record)
    requires Resolved(t, rs) && r.id !in t
    ensures Resolved(Insert(t, r), rs + [r])
    ensures Insert(t, r).Keys <= t.Keys + {r.id}
  {
    hide Insert, Wins;
    var t' := Insert(t, r);
    if HashKnown(t, r.hash) {
      var id :| HasHash(t, id, r.hash) && t' == Advance(t, id, r.status);
      forall i | i in t'
        ensures Wins(rs + [r], t'[i].hash, t'[i].status)
      {
        assert Wins(rs, t[i].hash, t[i].status);
        WinsAppend(rs, r, t[i].hash, t[i].status);
      }
      assert t'[id].hash == r.hash;
    } else {
      forall i | i in t'
        ensures Wins(rs + [r], t'[i].hash, t'[i].status)
      {
        if i in t {
          WinsAppend(rs, r, t[i].hash, t[i].status);
        } else {
          WinsAlone(t, rs, r);
        }
      }
      assert HasHash(t', r.id, r.hash);
    }
    forall x | x in rs + [r]
      ensures HashKnown(t', x.hash)
    {
      if x in rs {
        var id :| id in t && t[id].hash == x.hash;
        assert t'[id].hash == x.hash;
      }
    }
  }

  lemma WinsAlone(t: Table, rs: seq<Record>, r: Record)
    requires Resolved(t, rs) && !HashKnown(t, r.hash)
    ensures Wins(rs + [r], r.hash, r.status)
  {
    hide UniqueHashes;
    assert r in rs + [r];
  }

  /** How one more record changes the winner of a hash. */
  lemma WinsAppend(rs: seq<Record>, r: Record, hash: string, status: int)
    requires Wins(rs, hash, status)
    ensures Wins(rs + [r], hash,
                 if r.hash == hash && Priority(r.status) < Priority(status) then r.status else status)
  {
    var w :| w in rs && w.hash == hash && w.status == status;
    assert w in rs + [r] && r in rs + [r];
  }

  /** Having all rows and deduplicating them gives every hash its winning status. */
  lemma BatchResolves(rs: seq<Record>)
    requires DistinctIds(rs)
    ensures Resolved(Dedupe(AllRows(rs)), rs)
  {
    var t := AllRows(rs);
    var d := Dedupe(t);
    DedupeCorrect(t);
    AllRowsAt(rs);
    forall id | id in d
      ensures Wins(rs, d[id].hash, d[id].status)
    {
      forall r | r in rs && r.hash == d[id].hash
        ensures Priority(d[id].status) <= Priority(r.status)
      {
        assert !Outranks(t, r.id, id);
      }
    }
    forall r | r in rs
      ensures HashKnown(d, r.hash)
    {
      assert t[r.id].hash == r.hash;
    }
  }

  lemma {:induction false} AllRowsAt(rs: seq<Record>)
    requires DistinctIds(rs)
    ensures forall r :: r in rs ==> r.id in AllRows(rs) && AllRows(rs)[r.id] == NewRow(r)
  {
    if rs != [] {
      var front, last := rs[..|rs| - 1], rs[|rs| - 1];
      AllRowsAt(front);
      assert rs == front + [last];
    }
  }

  /** Incremental and batch resolution agree: the same hashes, each with the same status. */
  lemma IncrementalIsBatch(rs: seq<Record>, hash: string)
    requires DistinctIds(rs) && ValidStatuses(rs)
    ensures var a, b := InsertAll(map[], rs), Dedupe(AllRows(rs));
            && (HashKnown(a, hash) <==> HashKnown(b, hash))
            && (forall i, j :: HasHash(a, i, hash) && HasHash(b, j, hash) ==> a[i].status == b[j].status)
  {
    IncrementalResolves(rs);
    BatchResolves(rs);
    var a, b := InsertAll(map[], rs), Dedupe(AllRows(rs));
    forall i, j | HasHash(a, i, hash) && HasHash(b, j, hash)
      ensures a[i].status == b[j].status
    {
      WinnerUnique(rs, hash, a[i].status, b[j].status);
    }
  }

  /** Insert writes a status without done_at or err_msg. So it keeps every table consistent exactly
      when records come with an in-flight status; the parser gives them no other. */
  lemma InsertKeepsRows(status: int)
    requires ValidStatus(status)
    ensures (forall t: Table, r: Record :: RowsOk(t) && r.status == status ==> RowsOk(Insert(t, r))) <==> status < DONE
  {
    if status < DONE {
      forall t: Table, r: Record | RowsOk(t) && r.status == status
        ensures RowsOk(Insert(t, r))
      {
        InsertInFlight(t, r);
      }
    } else {
      var r := Record(1, "", 0, 0, 0, status);
      var t: Table := map[];
      assert RowsOk(t) && Insert(t, r) == map[1 := NewRow(r)];
      assert !RowOk(Insert(t, r)[1]);
    }
  }

  lemma InsertInFlight(t: Table, r: Record)
    requires RowsOk(t) && DETECTED <= r.status < DONE
    ensures RowsOk(Insert(t, r))
  {
  }
}
