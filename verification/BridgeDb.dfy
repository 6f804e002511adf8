/** The database of the indexer as an object: the transfers table and the cursors, updated in
    place. A statement may fail at any time, and then has no effect; `failures` counts the
    statements that did. */
module BridgeDatabase {
  import opened Options
  import opened Items
  import opened Transfers
  import opened Duplicates

  ghost function SomeId(ids: set<int>): (id: int)
    requires ids != {}
    ensures id in ids
  {
    var id: int := Pick(ids);
    id
  }

  predicate In(id: int, ids: set<int>) {
    id in ids
  }

  /** The ids in some order, each once. */
  method ListOf(ids: set<int>) returns (list: seq<int>)
    ensures forall id :: id in list <==> id in ids
    ensures forall k :: 0 <= k < |list| ==> list[k] in ids
    ensures |list| == |ids|
  {
    list := [];
    var rest := ids;
    while rest != {}
      invariant forall id :: id in ids <==> id in list || id in rest
      invariant forall k :: 0 <= k < |list| ==> list[k] in ids
      invariant |list| + |rest| == |ids|
      decreases |rest|
    {
      ghost var some := SomeId(rest);
      assert In(some, rest);
      var id: int :| id in rest && In(id, rest);
      list := list + [id];
      rest := rest - {id};
    }
  }

  class BridgeDB {
    var transfers: Table
    var cursors: map<string, int>
    ghost var failures: nat
    ghost var marks: set<(int, string)>  // ids and messages of the MarkFailed calls that went through

    constructor (t: Table, stored: map<string, int>)
      ensures transfers == t && cursors == stored && failures == 0 && marks == {}
    {
      transfers, cursors, failures, marks := t, stored, 0, {};
    }

    /** Whether the next statement fails. */
    method Statement() returns (failed: bool)
      modifies this`failures
      ensures failures == old(failures) + if failed then 1 else 0
    {
      failed := *;
      if failed {
        failures := failures + 1;
      }
    }

    /** Insert: a SELECT by packet hash, then an INSERT or a status UPDATE. */
    method Insert(r: Record) returns (failed: bool)
      modifies this`transfers, this`failures
      ensures failures == old(failures) + if failed then 1 else 0
      ensures failed ==> transfers == old(transfers)
      ensures !failed ==> Inserted(old(transfers), r, transfers)
    {
      failed := Statement();
      if failed {
        return;
      }
      if exists id :: id in transfers && transfers[id].hash == r.hash {
        var existing: int :| existing in transfers && transfers[existing].hash == r.hash;
        assert HashKnown(transfers, r.hash) && HasHash(transfers, existing, r.hash);
        if Priority(r.status) < Priority(transfers[existing].status) {
          failed := Statement();
          if !failed {
            transfers := SetStatus(transfers, existing, r.status);
          }
        }
      } else {
        assert !HashKnown(transfers, r.hash);
        failed := Statement();
        if !failed {
          transfers := InsertRow(transfers, r);
        }
      }
    }

    method DedupeByPacketHash() returns (removed: int, failed: bool)
      modifies this`transfers, this`failures
      ensures failures == old(failures) + if failed then 1 else 0
      ensures failed ==> transfers == old(transfers) && removed == 0
      ensures !failed ==> transfers == Dedupe(old(transfers)) && removed == |old(transfers)| - |transfers|
    {
      failed := Statement();
      removed := 0;
      if !failed {
        removed := |transfers| - |Dedupe(transfers)|;
        transfers := Dedupe(transfers);
      }
    }

    method MarkProcessing(ids: seq<int>) returns (failed: bool)
      modifies this`transfers, this`failures
      ensures failures == old(failures) + if failed then 1 else 0
      ensures transfers == if failed then old(transfers)
                           else Transfers.MarkProcessing(old(transfers), set id | id in ids)
    {
      failed := Statement();
      if !failed {
        transfers := Transfers.MarkProcessing(transfers, set id | id in ids);
      }
    }

    method MarkDone(id: int, doneAt: int, txIn: string) returns (matched: bool, failed: bool)
      modifies this`transfers, this`failures
      ensures failures == old(failures) + if failed then 1 else 0
      ensures transfers == if failed then old(transfers) else Transfers.MarkDone(old(transfers), id, doneAt, txIn)
      ensures matched <==> !failed && id in old(transfers) && InFlight(old(transfers)[id])
    {
      failed := Statement();
      matched := !failed && id in transfers && InFlight(transfers[id]);
      if !failed {
        transfers := Transfers.MarkDone(transfers, id, doneAt, txIn);
      }
    }

    method SetTxIn(hash: string, txIn: string) returns (failed: bool)
      modifies this`transfers, this`failures
      ensures failures == old(failures) + if failed then 1 else 0
      ensures transfers == if failed then old(transfers) else Transfers.SetTxIn(old(transfers), hash, txIn)
      ensures txIn == "" ==> !failed
    {
      if txIn == "" {
        return false;
      }
      failed := Statement();
      if !failed {
        transfers := Transfers.SetTxIn(transfers, hash, txIn);
      }
    }

    method MarkFailed(id: int, errMsg: string, txIn: string) returns (matched: bool, failed: bool)
      modifies this`transfers, this`failures, this`marks
      ensures marks == old(marks) + if failed then {} else {(id, errMsg)}
      ensures failures == old(failures) + if failed then 1 else 0
      ensures transfers == if failed then old(transfers) else Transfers.MarkFailed(old(transfers), id, errMsg, txIn)
      ensures matched <==> !failed && id in old(transfers) && InFlight(old(transfers)[id])
    {
      failed := Statement();
      matched := !failed && id in transfers && InFlight(transfers[id]);
      if !failed {
        transfers := Transfers.MarkFailed(transfers, id, errMsg, txIn);
        marks := marks + {(id, errMsg)};
      }
    }

    /** The cursor of a name, 0 when none was set; an error is not taken for an unset cursor. */
    function Cursor(name: string): int
      reads this`cursors
    {
      if name in cursors then cursors[name] else 0
    }

    method GetCursor(name: string) returns (id: int, failed: bool)
      modifies this`failures
      ensures failures == old(failures) + if failed then 1 else 0
      ensures !failed ==> id == Cursor(name) && (name in cursors ==> id == cursors[name])
      ensures !failed && name !in cursors ==> id == 0
    {
      failed := Statement();
      id := if failed then 0 else Cursor(name);
    }

    method SetCursor(name: string, id: int) returns (failed: bool)
      modifies this`cursors, this`failures
      ensures failures == old(failures) + if failed then 1 else 0
      ensures cursors == if failed then old(cursors) else old(cursors)[name := id]
    {
      failed := Statement();
      if !failed {
        cursors := cursors[name := id];
      }
    }

    method FindByTimeoutAndChannel(key: TimeoutKey) returns (id: int, failed: bool)
      modifies this`failures
      ensures failures == old(failures) + if failed then 1 else 0
      ensures failed ==> id == 0
      ensures !failed ==> FoundByKey(transfers, key, id) || (id == 0 && forall i :: !FoundByKey(transfers, key, i))
    {
      failed := Statement();
      id := 0;
      if !failed && exists i :: i in transfers && FoundByKey(transfers, key, i) {
        id :| id in transfers && FoundByKey(transfers, key, id);
      }
    }

    method FindByPacketHash(hash: string) returns (id: int, failed: bool)
      modifies this`failures
      ensures failures == old(failures) + if failed then 1 else 0
      ensures failed ==> id == 0
      ensures !failed ==> FoundByHash(transfers, hash, id) || (id == 0 && forall i :: !FoundByHash(transfers, hash, i))
    {
      failed := Statement();
      id := 0;
      if !failed && exists i :: i in transfers && FoundByHash(transfers, hash, i) {
        id :| id in transfers && FoundByHash(transfers, hash, id);
      }
    }

    /** Some in-flight bridge among the ids, 0 for none. */
    method FindAncestor(ids: seq<int>) returns (id: int, failed: bool)
      modifies this`failures
      ensures failures == old(failures) + if failed then 1 else 0
      ensures failed ==> id == 0
      ensures !failed ==>
                (id in ids && id in transfers && InFlight(transfers[id]))
                || (id == 0 && forall i :: i in ids && i in transfers ==> !InFlight(transfers[i]))
    {
      if ids == [] {
        return 0, false;
      }
      failed := Statement();
      id := 0;
      if !failed && exists i :: i in ids && i in transfers && InFlight(transfers[i]) {
        id :| id in ids && id in transfers && InFlight(transfers[id]);
      }
    }

    method GetDetectedIDs() returns (ids: seq<int>, failed: bool)
      modifies this`failures
      ensures failures == old(failures) + if failed then 1 else 0
      ensures !failed ==> forall id :: id in ids <==> id in transfers && transfers[id].status == DETECTED
    {
      failed := Statement();
      ids := [];
      if !failed {
        ids := ListOf(set id | id in transfers && transfers[id].status == DETECTED);
      }
    }

    method GetInFlightCreatedAt() returns (times: seq<int>, failed: bool)
      modifies this`failures
      ensures failures == old(failures) + if failed then 1 else 0
      ensures !failed ==>
                forall x :: x in times <==>
                  exists id :: id in transfers && InFlight(transfers[id]) && transfers[id].createdAt == x
    {
      failed := Statement();
      times := [];
      if !failed {
        times := ListOf(set id | id in transfers && InFlight(transfers[id]) :: transfers[id].createdAt);
      }
    }
  }
}
