/** Every step keeps the invariant of the lifecycle and moves rows only as allowed, and so does
    every run. */
module LifecycleSafety {
  import opened Options
  import opened Items
  import opened Transfers
  import opened Duplicates
  import opened Lifecycle

  // ---------------------------------------------------------------- one step: rows

  /** What one statement of a task does to the table: rows are added or moved, and no second row of
      a hash is added. */
  predicate TableStepOk(t: Table, t': Table) {
    RowsOk(t') && TableMoves(t, t') && (UniqueHashes(t) ==> UniqueHashes(t'))
  }

  lemma TableStep(s: State, step: Step)
    requires Inv(s) && Enabled(s, step)
    ensures var t, t' := s.table, Apply(s, step).table;
            && RowsOk(t')
            && (step != Restart(true) ==> TableStepOk(t, t'))
            && (step == Restart(true) ==> t' == Dedupe(t) && UniqueHashes(t') && Progresses(t, t'))
            && (UniqueHashes(t) ==> TableStepOk(t, t'))
    ensures Apply(s, step).table.Keys <= s.table.Keys + (if step.QueueWrite? then {s.q.rec.id} else {})
  {
    hide ParseItemFields, Timeouts, AllJustified, AllTxJustified, ProcessingGone, DoneOk, FailedOk, PollOk, IdsOk,
      RowsOk, UniqueHashes, TableMoves, MarkFailed, MarkProcessing, SetTxIn, MarkDone, Dedupe, Progresses;
    var t, t' := s.table, Apply(s, step).table;
    MovesReflexive(t);
    match step
    case QueueWrite => InsertStep(t, s.q.rec, s.q.found);
    case DoneWrite => DoneEffectMoves(t, s.d);
    case FailDirect(row) =>
      MarkFailedMoves(t, row.id, row.message, "");
      KeepsUnique(t, t');
    case FailedWrite =>
      MarkFailedMoves(t, s.f.id, s.f.row.message, FailedTx(s.f));
      KeepsUnique(t, t');
    case PollMark =>
      MarkProcessingMoves(t, s.p.ids);
      KeepsUnique(t, t');
    case Restart(dedupe) => DedupeStep(t);
    case _ =>
  }

  lemma KeepsUnique(t: Table, t': Table)
    requires TableMoves(t, t') && t'.Keys == t.Keys
    ensures UniqueHashes(t) ==> UniqueHashes(t')
  {
    hide TableMoves, UniqueHashes;
    if UniqueHashes(t) {
      MovesKeepUnique(t, t');
    }
  }

  lemma DedupeStep(t: Table)
    requires RowsOk(t)
    ensures RowsOk(Dedupe(t)) && UniqueHashes(Dedupe(t)) && Progresses(t, Dedupe(t))
    ensures UniqueHashes(t) ==> Dedupe(t) == t
    ensures Dedupe(t).Keys <= t.Keys
  {
    hide UniqueHashes, First, HashKnown;
    DedupeCorrect(t);
    if UniqueHashes(t) {
      UniqueIsDeduped(t);
    }
  }

  /** Insert in two statements: no other task adds rows in between, so the hash still is new. */
  lemma InsertStep(t: Table, rec: Record, found: Option<(int, int)>)
    requires RowsOk(t) && rec.status == DETECTED
    requires found.None? ==> !HashKnown(t, rec.hash)
    ensures var t' := InsertWrite(t, rec, found);
            TableStepOk(t, t') && t'.Keys <= t.Keys + {rec.id}
  {
    if found.None? {
      InsertRowMoves(t, rec);
    }
  }

  lemma DoneEffectMoves(t: Table, d: DoneTask)
    requires RowsOk(t)
    ensures TableStepOk(t, DoneEffect(t, d)) && DoneEffect(t, d).Keys == t.Keys
  {
    hide ParseItemFields, Timeouts, RowsOk, UniqueHashes, TableMoves, MarkFailed, MarkDone, SetTxIn;
    MovesReflexive(t);
    match d
    case DoneIdle =>
    case KeyFound(_, _, id) =>
      MarkFailedMoves(t, id, TIMED_OUT, "");
      KeepsUnique(t, DoneEffect(t, d));
    case HashFound(row, id) =>
      if Matched(row) {
        var fields := FieldsOf(row);
        SetTxInMoves(t, fields.hash, fields.txHash);
        MarkDoneMoves(t, id, row.createdAt, fields.txHash);
        MarkFailedMoves(t, id, AckErrMessage(fields.ackError), fields.txHash);
        KeepsUnique(t, DoneEffect(t, d));
      }
  }

  /** Rows that are there before and after any step have moved as allowed. */
  lemma Shared(s: State, step: Step)
    requires Inv(s) && Enabled(s, step)
    ensures Progresses(s.table, Apply(s, step).table)
  {
    hide Inv, Enabled, Apply, RowsOk, UniqueHashes, Dedupe;
    TableStep(s, step);
    var t, t' := s.table, Apply(s, step).table;
    if step != Restart(true) {
      assert forall id :: id in t ==> id in t' && RowMoves(t[id], t'[id]);
    }
  }

  // ---------------------------------------------------------------- one step: local states

  lemma HashesKept(t: Table, t': Table, hash: string)
    requires TableMoves(t, t') && t'.Keys <= t.Keys && HashKnown(t', hash)
    ensures HashKnown(t, hash)
  {
    var id :| id in t' && t'[id].hash == hash;
    assert RowMoves(t[id], t'[id]);
  }

  lemma QueueStep(s: State, step: Step)
    requires Inv(s) && Enabled(s, step)
    ensures QueueOk(Apply(s, step))
  {
    hide ParseItemFields, Timeouts, AllJustified, AllTxJustified, ProcessingGone, DoneOk, FailedOk, PollOk, RowsOk,
      UniqueHashes, MarkFailed, MarkProcessing, DoneEffect, InsertWrite, Dedupe, HashKnown, TableMoves;
    var s' := Apply(s, step);
    TableStep(s, step);
    if s'.q.Selected? && s'.q.found.None? && HashKnown(s'.table, s'.q.rec.hash) {
      HashesKept(s.table, s'.table, s'.q.rec.hash);
    }
  }

  lemma IdsStep(s: State, step: Step)
    requires Inv(s) && Enabled(s, step)
    ensures IdsOk(Apply(s, step))
  {
    hide ParseItemFields, Timeouts, AllJustified, AllTxJustified, ProcessingGone, DoneOk, FailedOk, PollOk, RowsOk,
      UniqueHashes, MarkFailed, MarkProcessing, DoneEffect, Dedupe, HashKnown, TableMoves, InsertWrite, RowMoves;
    TableStep(s, step);
    HashesStep(s, step);
  }

  lemma HashesStep(s: State, step: Step)
    requires Inv(s) && Enabled(s, step) && Apply(s, step).table.Keys <= Apply(s, step).items.Keys
    ensures var s' := Apply(s, step);
            forall id :: id in s'.table && s'.items[id].Some? ==> s'.table[id].hash == s'.items[id].value.hash
  {
    hide ParseItemFields, Timeouts, AllJustified, AllTxJustified, ProcessingGone, DoneOk, FailedOk, PollOk, RowsOk,
      UniqueHashes, MarkFailed, MarkProcessing, DoneEffect, Dedupe, HashKnown, TableMoves, InsertWrite, RowMoves;
    var s' := Apply(s, step);
    TableStep(s, step);
    forall id | id in s'.table && s'.items[id].Some?
      ensures s'.table[id].hash == s'.items[id].value.hash
    {
      if id in s.table {
        SameHash(s, step, id);
      } else {
        InsertedHash(s.table, s.q.rec, s.q.found);
      }
    }
  }

  lemma SameHash(s: State, step: Step, id: int)
    requires Inv(s) && Enabled(s, step) && id in s.table && id in Apply(s, step).table
    ensures Apply(s, step).table[id].hash == s.table[id].hash
  {
    hide Inv, Enabled, Apply;
    Shared(s, step);
    assert RowMoves(s.table[id], Apply(s, step).table[id]);
  }

  lemma InsertedHash(t: Table, rec: Record, found: Option<(int, int)>)
    ensures var t' := InsertWrite(t, rec, found);
            rec.id !in t && rec.id in t' ==> t'[rec.id].hash == rec.hash
  {
  }

  lemma DoneStep(s: State, step: Step)
    requires Inv(s) && Enabled(s, step)
    ensures DoneOk(Apply(s, step))
  {
    hide ParseItemFields, Timeouts, AllJustified, AllTxJustified, ProcessingGone, QueueOk, FailedOk, PollOk, RowsOk,
      UniqueHashes, IdsOk, MarkFailed, MarkProcessing, DoneEffect, InsertWrite, Dedupe;
    TableStep(s, step);
  }

  lemma PollStep(s: State, step: Step)
    requires Inv(s) && Enabled(s, step)
    ensures PollOk(Apply(s, step))
  {
    hide ParseItemFields, Timeouts, AllJustified, AllTxJustified, ProcessingGone, QueueOk, FailedOk, DoneOk, RowsOk,
      UniqueHashes, MarkFailed, MarkProcessing, DoneEffect, InsertWrite, Dedupe;
  }

  lemma {:induction false} LevelGrows(done: set<DoneRow>, done': set<DoneRow>, row: FailedRow, k: nat)
    requires done <= done'
    ensures Level(done, row, k) <= Level(done', row, k)
  {
    if k > 0 {
      LevelGrows(done, done', row, k - 1);
    }
  }

  lemma FetchedLevel(done: set<DoneRow>, row: FailedRow, k: nat, d: DoneRow)
    requires d in done && d.id in Level(done, row, k)
    ensures Elements(d.parents) <= Level(done, row, k + 1)
  {
    forall id | id in d.parents
      ensures id in Level(done, row, k + 1)
    {
      assert d in done && d.id in Level(done, row, k) && id in d.parents;
    }
  }

  lemma FailedStep(s: State, step: Step)
    requires Inv(s) && Enabled(s, step)
    ensures FailedOk(Apply(s, step))
  {
    var s' := Apply(s, step);
    if s'.f.PromiseFound? {
      PromiseStep(s, step);
    } else if s'.f.Tracing? {
      hide Inv;
      TracingStep(s, step);
    } else if s'.f.AncestorFound? {
      hide Inv;
      AncestorStep(s, step);
    }
  }

  lemma PromiseStep(s: State, step: Step)
    requires Inv(s) && Enabled(s, step) && Apply(s, step).f.PromiseFound?
    ensures FailedOk(Apply(s, step))
  {
    hide ParseItemFields, Timeouts, AllJustified, AllTxJustified, ProcessingGone, QueueOk, DoneOk, PollOk, RowsOk,
      UniqueHashes, IdsOk, MarkFailed, MarkProcessing, DoneEffect, InsertWrite, Dedupe, Level;
    TableStep(s, step);
  }

  lemma TracingStep(s: State, step: Step)
    requires FailedOk(s) && Enabled(s, step) && Apply(s, step).f.Tracing?
    ensures FailedOk(Apply(s, step))
  {
    hide ParseItemFields, Timeouts, MarkFailed, MarkProcessing, DoneEffect, InsertWrite, Dedupe;
    var s' := Apply(s, step);
    var row, depth := s'.f.row, s'.f.depth;
    if step.TraceFetch? {
      FetchedLevel(s.done, row, depth, step.doneRow);
    }
    LevelGrows(s.done, s'.done, row, depth);
    LevelGrows(s.done, s'.done, row, depth + 1);
  }

  lemma AncestorStep(s: State, step: Step)
    requires FailedOk(s) && Enabled(s, step) && Apply(s, step).f.AncestorFound?
    ensures FailedOk(Apply(s, step))
  {
    hide ParseItemFields, Timeouts, MarkFailed, MarkProcessing, DoneEffect, InsertWrite, Dedupe, Level;
    var s' := Apply(s, step);
    var row, id := s'.f.row, s'.f.id;
    var k: nat :| k < MAX_LEVEL && id in Level(s.done, row, k);
    LevelGrows(s.done, s'.done, row, k);
  }

  // ---------------------------------------------------------------- one step: outcomes

  lemma ProcessingStep(s: State, step: Step)
    requires Inv(s) && Enabled(s, step)
    ensures ProcessingGone(Apply(s, step))
  {
    hide ParseItemFields, Timeouts, AllJustified, AllTxJustified, DoneOk, FailedOk, RowsOk, UniqueHashes, FieldsOf,
      Matched;
  }

  /** What justified the status of a row still does when the history grows. */
  lemma JustifiedStays(s: State, s': State, id: int, row: Row, row': Row)
    requires s.done <= s'.done && s.failed <= s'.failed
    requires Justified(s, id, row) && RowMoves(row, row') && row.status == row'.status
    ensures Justified(s', id, row')
  {
    hide ParseItemFields, Timeouts, Refused, Acked;
    hide CausedBy;
    if row.status == FAILED
       && exists f :: f in s.failed && row.errMsg == Some(f.message) && CausedBy(s.done, f, id, row) {
      var f :| f in s.failed && row.errMsg == Some(f.message) && CausedBy(s.done, f, id, row);
      CauseStays(s.done, s'.done, f, id, row, row');
    }
  }

  lemma CauseStays(done: set<DoneRow>, done': set<DoneRow>, f: FailedRow, id: int, row: Row, row': Row)
    requires done <= done' && CausedBy(done, f, id, row) && RowMoves(row, row')
    ensures CausedBy(done', f, id, row')
  {
    hide ParseItemFields;
    if k: nat :| k < MAX_LEVEL && id in Level(done, f, k) {
      LevelGrows(done, done', f, k);
    }
  }

  lemma JustifiedStep(s: State, step: Step)
    requires Inv(s) && Enabled(s, step)
    ensures AllJustified(Apply(s, step))
  {
    hide ParseItemFields, Timeouts, QueueOk, PollOk, RowsOk, UniqueHashes, IdsOk, ProcessingGone, Justified,
      DoneEffect, MarkFailed, MarkProcessing, InsertWrite, Dedupe;
    TableStep(s, step);
    var s' := Apply(s, step);
    forall id | id in s'.table
      ensures Justified(s', id, s'.table[id])
    {
      if id in s.table && s.table[id].status == s'.table[id].status {
        JustifiedStays(s, s', id, s.table[id], s'.table[id]);
      } else {
        NewStatus(s, step, id);
      }
    }
  }

  /** A status that is new after a step has its justification in the history. */
  lemma NewStatus(s: State, step: Step, id: int)
    requires Inv(s) && Enabled(s, step) && id in Apply(s, step).table
    requires id in s.table ==> s.table[id].status != Apply(s, step).table[id].status
    ensures Justified(Apply(s, step), id, Apply(s, step).table[id])
  {
    hide ParseItemFields, Timeouts, RowsOk, UniqueHashes, IdsOk, ProcessingGone, AllJustified, AllTxJustified,
      PollOk;
  }

  lemma TxStays(s: State, s': State, row: Row, row': Row)
    requires s.done <= s'.done && s.failed <= s'.failed
    requires TxJustified(s, row) && RowMoves(row, row') && row.txIn == row'.txIn
    ensures TxJustified(s', row')
  {
    hide ParseItemFields;
  }

  lemma TxStep(s: State, step: Step)
    requires Inv(s) && Enabled(s, step)
    ensures AllTxJustified(Apply(s, step))
  {
    hide ParseItemFields, Timeouts, QueueOk, PollOk, RowsOk, UniqueHashes, IdsOk, ProcessingGone, TxJustified,
      DoneEffect, MarkFailed, MarkProcessing, InsertWrite, Dedupe, AllJustified;
    TableStep(s, step);
    var s' := Apply(s, step);
    forall id | id in s'.table
      ensures TxJustified(s', s'.table[id])
    {
      if id in s.table && s.table[id].txIn == s'.table[id].txIn {
        TxStays(s, s', s.table[id], s'.table[id]);
      } else {
        NewTx(s, step, id);
      }
    }
  }

  /** A tx_in that is new after a step comes from an item of the history. */
  lemma NewTx(s: State, step: Step, id: int)
    requires Inv(s) && Enabled(s, step) && id in Apply(s, step).table
    requires id in s.table ==> s.table[id].txIn != Apply(s, step).table[id].txIn
    ensures TxJustified(Apply(s, step), Apply(s, step).table[id])
  {
    hide ParseItemFields, Timeouts, RowsOk, UniqueHashes, IdsOk, ProcessingGone, AllJustified, PollOk;
  }

  // ---------------------------------------------------------------- invariant and runs

  /** The invariant holds when the process has started, whatever duplicates it found, and whether
      or not it got rid of them. */
  lemma InitialInv(s: State, before: Table, deduped: bool)
    requires Initial(s, before, deduped)
    ensures Inv(s)
    ensures deduped || UniqueHashes(before) ==> UniqueHashes(s.table)
  {
    hide ParseItemFields, Timeouts, Justified, TxJustified, First;
    DedupeStep(before);
    var s0 := s.(table := before);
    forall id | id in s.table
      ensures Justified(s, id, s.table[id]) && TxJustified(s, s.table[id])
    {
      assert s.table[id] == before[id];
      assert Justified(s0, id, before[id]) && TxJustified(s0, before[id]);
      JustifiedSame(s0, s, id, before[id]);
    }
  }

  lemma JustifiedSame(s: State, s': State, id: int, row: Row)
    requires s.done == s'.done && s.failed == s'.failed && Justified(s, id, row) && TxJustified(s, row)
    ensures Justified(s', id, row) && TxJustified(s', row)
  {
  }

  lemma StepKeepsInv(s: State, step: Step)
    requires Inv(s) && Enabled(s, step)
    ensures Inv(Apply(s, step))
  {
    hide Enabled, Apply, QueueOk, DoneOk, FailedOk, PollOk, IdsOk, ProcessingGone, AllJustified, AllTxJustified,
      TableMoves, RowsOk, UniqueHashes, Progresses;
    TableStep(s, step);
    QueueStep(s, step);
    IdsStep(s, step);
    DoneStep(s, step);
    FailedStep(s, step);
    PollStep(s, step);
    ProcessingStep(s, step);
    JustifiedStep(s, step);
    TxStep(s, step);
  }

  /** A run: any interleaving of the steps of all tasks, the relayer and restarts, after a start. */
  ghost predicate Run(states: seq<State>, steps: seq<Step>, before: Table, deduped: bool) {
    && |states| == |steps| + 1 && Initial(states[0], before, deduped)
    && forall k :: 0 <= k < |steps| ==> Enabled(states[k], steps[k]) && states[k + 1] == Apply(states[k], steps[k])
  }

  /** In every run the invariant holds at every moment. */
  lemma {:induction false} RunInv(states: seq<State>, steps: seq<Step>, before: Table, deduped: bool, i: nat)
    requires Run(states, steps, before, deduped) && i < |states|
    ensures Inv(states[i])
  {
    hide Initial, Inv, Enabled, Apply;
    if i == 0 {
      InitialInv(states[0], before, deduped);
    } else {
      RunInv(states, steps, before, deduped, i - 1);
      StepKeepsInv(states[i - 1], steps[i - 1]);
    }
  }

  /** Some restart from moment i to moment j has removed the duplicates. */
  predicate Deduped(steps: seq<Step>, i: nat, j: nat)
    requires i <= j <= |steps|
  {
    exists k :: i <= k < j && steps[k] == Restart(true)
  }

  /** In every run, between any two moments, no hash is lost, and the rows that stay move only as
      allowed: a status goes from 0 to 1, 2 or 3 or from 1 to 2 or 3, a done or failed row keeps its
      outcome, and tx_in is written at most once. The best status of a hash, as duplicates are
      ranked, never gets worse. Rows were deleted in between exactly when duplicates were removed
      at a restart and there were any. */
  lemma RunMoves(states: seq<State>, steps: seq<Step>, before: Table, deduped: bool, i: nat, j: nat)
    requires Run(states, steps, before, deduped) && i <= j < |states|
    ensures forall id :: id in states[i].table ==> HashKnown(states[j].table, states[i].table[id].hash)
    ensures forall id :: id in states[i].table && id in states[j].table ==>
              RowMoves(states[i].table[id], states[j].table[id])
    ensures forall id :: id in states[i].table ==> AsGood(states[j].table, states[i].table[id])
    ensures forall hash :: StatusHeld(states[i].table, hash, 2) ==> StatusHeld(states[j].table, hash, 2)
    ensures states[i].table.Keys <= states[j].table.Keys <==> !Deduped(steps, i, j) || UniqueHashes(states[i].table)
  {
    hide Initial, Inv, Enabled, Apply, RowMoves, HashKnown, UniqueHashes, TableMoves, AsGood;
    RunProgresses(states, steps, before, deduped, i, j);
    RunNeverWorse(states, steps, before, deduped, i, j);
    forall hash | StatusHeld(states[i].table, hash, 2)
      ensures StatusHeld(states[j].table, hash, 2)
    {
      DoneHeld(states[i].table, states[j].table, hash);
    }
    if !Deduped(steps, i, j) {
      RunKeepsRows(states, steps, before, deduped, i, j);
      KeysMove(states[i].table, states[j].table);
    } else if UniqueHashes(states[i].table) {
      RunUnique(states, steps, before, deduped, i, j);
      KeysMove(states[i].table, states[j].table);
    } else if states[i].table.Keys <= states[j].table.Keys {
      DedupedUnique(states, steps, before, deduped, i, j);
      MovedUnique(states[i].table, states[j].table);
    }
  }

  /** A table whose rows have only moved had duplicates if it now has. */
  lemma MovedUnique(t: Table, t': Table)
    requires t.Keys <= t'.Keys && Progresses(t, t') && UniqueHashes(t')
    ensures UniqueHashes(t)
  {
    hide HashKnown;
    forall a, b | a in t && b in t && t[a].hash == t[b].hash
      ensures a == b
    {
      assert RowMoves(t[a], t'[a]) && RowMoves(t[b], t'[b]);
    }
  }

  lemma DedupedUnique(states: seq<State>, steps: seq<Step>, before: Table, deduped: bool, i: nat, j: nat)
    requires Run(states, steps, before, deduped) && i <= j < |states| && Deduped(steps, i, j)
    ensures UniqueHashes(states[j].table)
  {
    hide Inv, Initial, Enabled, Apply, UniqueHashes, TableMoves, Progresses, RowsOk;
    var k :| i <= k < j && steps[k] == Restart(true);
    RunInv(states, steps, before, deduped, k);
    TableStep(states[k], steps[k]);
    RunUnique(states, steps, before, deduped, k + 1, j);
  }

  // ---------------------------------------------------------------- the best status of a hash

  /** The table has a row of the same hash whose status is ranked as high or higher. */
  /** Done before failed before processing before detected. */
  predicate NotBelow(a: int, b: int) {
    && (b == 2 ==> a == 2)
    && (b == 3 ==> a == 2 || a == 3)
    && (b == 1 ==> a == 2 || a == 3 || a == 1)
  }

  predicate AsGood(t: Table, row: Row) {
    exists id :: id in t && t[id].hash == row.hash && NotBelow(t[id].status, row.status)
  }

  predicate NeverWorse(t: Table, t': Table) {
    forall id :: id in t ==> AsGood(t', t[id])
  }

  /** A hash that has a done row keeps one. */
  lemma DoneHeld(t: Table, t': Table, hash: string)
    requires NeverWorse(t, t') && StatusHeld(t, hash, 2)
    ensures StatusHeld(t', hash, 2)
  {
    var id :| id in t && t[id].hash == hash && t[id].status == 2;
    assert AsGood(t', t[id]);
  }

  lemma MovesNeverWorse(t: Table, t': Table)
    requires TableMoves(t, t')
    ensures NeverWorse(t, t')
  {
    forall id | id in t
      ensures AsGood(t', t[id])
    {
      assert id in t' && RowMoves(t[id], t'[id]);
    }
  }

  lemma DedupeNeverWorse(t: Table)
    ensures NeverWorse(t, Dedupe(t))
  {
    forall id | id in t
      ensures AsGood(Dedupe(t), t[id])
    {
      var best := FirstExists(t, id);
      assert best in Dedupe(t);
    }
  }

  lemma NeverWorseTransitive(a: Table, b: Table, c: Table)
    requires NeverWorse(a, b) && NeverWorse(b, c)
    ensures NeverWorse(a, c)
  {
    forall id | id in a
      ensures AsGood(c, a[id])
    {
      assert AsGood(b, a[id]);
      var k :| k in b && b[k].hash == a[id].hash && NotBelow(b[k].status, a[id].status);
      assert AsGood(c, b[k]);
    }
  }

  lemma {:induction false} RunNeverWorse(states: seq<State>, steps: seq<Step>, before: Table, deduped: bool,
                                         i: nat, j: nat)
    requires Run(states, steps, before, deduped) && i <= j < |states|
    ensures NeverWorse(states[i].table, states[j].table)
    decreases j - i
  {
    hide Initial, Inv, Enabled, Apply, TableMoves, RowsOk, UniqueHashes, Progresses, NeverWorse, Dedupe;
    if i == j {
      MovesReflexive(states[i].table);
      MovesNeverWorse(states[i].table, states[i].table);
    } else {
      var s := states[j - 1];
      RunNeverWorse(states, steps, before, deduped, i, j - 1);
      RunInv(states, steps, before, deduped, j - 1);
      TableStep(s, steps[j - 1]);
      if steps[j - 1] == Restart(true) {
        DedupeNeverWorse(s.table);
      } else {
        MovesNeverWorse(s.table, states[j].table);
      }
      NeverWorseTransitive(states[i].table, s.table, states[j].table);
    }
  }

  // ---------------------------------------------------------------- what is never deleted

  lemma KeysMove(t: Table, t': Table)
    ensures TableMoves(t, t') ==> t.Keys <= t'.Keys
  {
    if TableMoves(t, t') {
      forall id | id in t
        ensures id in t'
      {
        assert RowMoves(t[id], t'[id]);
      }
    }
  }

  lemma {:induction false} RunKeepsRows(states: seq<State>, steps: seq<Step>, before: Table, deduped: bool,
                                        i: nat, j: nat)
    requires Run(states, steps, before, deduped) && i <= j < |states| && !Deduped(steps, i, j)
    ensures TableMoves(states[i].table, states[j].table)
    decreases j - i
  {
    hide Initial, Inv, Enabled, Apply, TableMoves, RowsOk, UniqueHashes, Progresses;
    if i == j {
      MovesReflexive(states[i].table);
    } else {
      RunKeepsRows(states, steps, before, deduped, i, j - 1);
      RunInv(states, steps, before, deduped, j - 1);
      TableStep(states[j - 1], steps[j - 1]);
      TableMovesTransitive(states[i].table, states[j - 1].table, states[j].table);
    }
  }

  /** Once no packet hash occurs twice, none ever does again, and no row is deleted any more. */
  lemma {:induction false} RunUnique(states: seq<State>, steps: seq<Step>, before: Table, deduped: bool, i: nat, j: nat)
    requires Run(states, steps, before, deduped) && i <= j < |states| && UniqueHashes(states[i].table)
    ensures UniqueHashes(states[j].table) && TableMoves(states[i].table, states[j].table)
    decreases j - i
  {
    hide Initial, Inv, Enabled, Apply, TableMoves, RowsOk, UniqueHashes, Progresses;
    if i == j {
      MovesReflexive(states[i].table);
    } else {
      RunUnique(states, steps, before, deduped, i, j - 1);
      RunInv(states, steps, before, deduped, j - 1);
      TableStep(states[j - 1], steps[j - 1]);
      TableMovesTransitive(states[i].table, states[j - 1].table, states[j].table);
    }
  }

  /** What the queue rows parse to is never forgotten or changed. */
  predicate Remembers(s: State, s': State) {
    forall id :: id in s.items ==> id in s'.items && s'.items[id] == s.items[id]
  }

  lemma {:induction false} RunProgresses(states: seq<State>, steps: seq<Step>, before: Table, deduped: bool,
                                         i: nat, j: nat)
    requires Run(states, steps, before, deduped) && i <= j < |states|
    ensures Progresses(states[i].table, states[j].table) && Remembers(states[i], states[j])
    decreases j - i
  {
    hide Initial, Inv, Enabled, Apply, Progresses, Remembers;
    if i == j {
      Stands(states[i]);
    } else {
      RunProgresses(states, steps, before, deduped, i, j - 1);
      RunInv(states, steps, before, deduped, i);
      RunInv(states, steps, before, deduped, j - 1);
      ProgressStep(states[i], states[j - 1], steps[j - 1]);
    }
  }

  lemma Stands(s: State)
    ensures Progresses(s.table, s.table) && Remembers(s, s)
  {
  }

  /** One more step. A row that was deleted does not come back: its hash is still known, and the
      queue row of its id has that hash. */
  lemma ProgressStep(first: State, s: State, step: Step)
    requires Inv(first) && Inv(s) && Enabled(s, step)
    requires Progresses(first.table, s.table) && Remembers(first, s)
    ensures Progresses(first.table, Apply(s, step).table) && Remembers(first, Apply(s, step))
  {
    hide Inv, Enabled, HashKnown, RowMoves, InsertWrite, DoneEffect, Dedupe, MarkFailed, MarkProcessing;
    var a, t, t' := first.table, s.table, Apply(s, step).table;
    Shared(s, step);
    RemembersStep(first, s, step);
    hide Apply, Remembers;
    forall id | id in a
      ensures HashKnown(t', a[id].hash) && (id in t' ==> RowMoves(a[id], t'[id]))
    {
      StillKnown(t, t', a[id].hash);
      if id in t' && id in t {
        MovesOn(a[id], t[id], t'[id]);
      } else if id in t' {
        NotInsertedAgain(first, s, step, id);
      }
    }
  }

  lemma RemembersStep(first: State, s: State, step: Step)
    requires Remembers(first, s) && Enabled(s, step)
    ensures Remembers(first, Apply(s, step))
  {
    hide DoneEffect, InsertWrite, Dedupe, MarkFailed, MarkProcessing;
  }

  lemma StillKnown(t: Table, t': Table, hash: string)
    requires Progresses(t, t') && HashKnown(t, hash)
    ensures HashKnown(t', hash)
  {
  }

  lemma MovesOn(a: Row, b: Row, c: Row)
    requires RowMoves(a, b) && RowMoves(b, c)
    ensures RowMoves(a, c)
  {
  }

  lemma NotInsertedAgain(first: State, s: State, step: Step, id: int)
    requires Inv(first) && Inv(s) && Enabled(s, step) && Remembers(first, s)
    requires id in first.table && HashKnown(s.table, first.table[id].hash) && id !in s.table
    ensures id !in Apply(s, step).table
  {
    hide RowsOk, UniqueHashes, TableMoves, ProcessingGone, AllJustified, AllTxJustified, DoneOk, FailedOk, PollOk,
      HashKnown;
    TableStep(s, step);
    if step.QueueWrite? && s.q.rec.id == id {
      assert s.items[id] == Some(s.q.rec) && first.items[id] == s.items[id];
      assert s.q.rec.hash == first.table[id].hash;
    }
  }

  /** At every moment of every run: rows are consistent, no processing bridge is queued, and every
      outcome and tx_in has its cause in the history. Packet hashes are unique exactly when the
      startup removed duplicates, or there were none, or a restart has removed them since. */
  lemma RunSafety(states: seq<State>, steps: seq<Step>, before: Table, deduped: bool, i: nat)
    requires Run(states, steps, before, deduped) && i < |states|
    ensures var s := states[i];
            && (forall id :: id in s.table ==> RowOk(s.table[id]))
            && (forall id :: id in s.table && s.table[id].status == PROCESSING ==> id !in s.queue)
            && (forall id :: id in s.table && s.table[id].status == DONE ==> DoneJustified(s, s.table[id]))
            && (forall id :: id in s.table && s.table[id].status == FAILED ==> FailedJustified(s, id, s.table[id]))
            && (forall id :: id in s.table ==> TxJustified(s, s.table[id]))
    ensures UniqueHashes(states[i].table) <==> deduped || UniqueHashes(before) || Deduped(steps, 0, i)
  {
    hide DoneJustified, FailedJustified, TxJustified, Initial, Enabled, Apply, UniqueHashes;
    RunInv(states, steps, before, deduped, i);
    assert forall id :: id in states[i].table ==> Justified(states[i], id, states[i].table[id]);
    if deduped || UniqueHashes(before) || Deduped(steps, 0, i) {
      BecomesUnique(states, steps, before, deduped, i);
    } else {
      StaysDuplicated(states, steps, before, deduped, i);
    }
  }

  /** The relayer puts the item of that id into the queue, or takes it out. */
  predicate Moves(step: Step, id: int) {
    (step.Enqueue? || step.Dequeue?) && step.id == id
  }

  /** An item is in the queue from the moment it is put there until the relayer takes it out, and while
      it is there, its bridge is not processing. */
  lemma {:induction false} QueuedNotProcessing(states: seq<State>, steps: seq<Step>, before: Table, deduped: bool,
                                               i: nat, j: nat, id: int)
    requires Run(states, steps, before, deduped) && i < j < |states|
    requires Moves(steps[i], id) && forall k :: i < k < j ==> !Moves(steps[k], id)
    ensures id in states[j].queue <==> steps[i].Enqueue?
    ensures steps[i].Enqueue? && id in states[j].table ==> states[j].table[id].status != 1
    decreases j
  {
    hide Initial, Inv, Enabled, Apply;
    if j > i + 1 {
      QueuedNotProcessing(states, steps, before, deduped, i, j - 1, id);
    }
    QueueMoves(states[j - 1], steps[j - 1], id);
    RunSafety(states, steps, before, deduped, j);
  }

  lemma QueueMoves(s: State, step: Step, id: int)
    requires Enabled(s, step)
    ensures id in Apply(s, step).queue <==> if Moves(step, id) then step.Enqueue? else id in s.queue
  {
  }

  /** A restart at any moment of any run, whatever the tasks were doing, is a start: everything said of
      runs holds of what follows it as of a run of its own. */
  lemma RestartIsStart(states: seq<State>, steps: seq<Step>, before: Table, deduped: bool, i: nat, dedupe: bool)
    requires Run(states, steps, before, deduped) && i < |steps| && steps[i] == Restart(dedupe)
    ensures Run(states[i + 1..], steps[i + 1..], states[i].table, dedupe)
  {
    hide Enabled, RowsOk, IdsOk, ProcessingGone, AllJustified, AllTxJustified, QueueOk, DoneOk, FailedOk, PollOk;
    RunInv(states, steps, before, deduped, i);
    StartsOver(states[i], dedupe);
  }

  lemma StartsOver(s: State, dedupe: bool)
    requires Inv(s) && Enabled(s, Restart(dedupe))
    ensures Initial(Apply(s, Restart(dedupe)), s.table, dedupe)
  {
    hide QueueOk, DoneOk, FailedOk, PollOk, Enabled;
  }

  /** At every moment of every run the done and the failed table hold what was there at the start and what
      has come in since. */
  lemma {:induction false} HistoryGrows(states: seq<State>, steps: seq<Step>, before: Table, deduped: bool, i: nat)
    requires Run(states, steps, before, deduped) && i < |states|
    ensures forall row :: row in states[i].done <==>
              row in states[0].done || exists k :: 0 <= k < i && steps[k] == AddDone(row)
    ensures forall row :: row in states[i].failed <==>
              row in states[0].failed || exists k :: 0 <= k < i && steps[k] == AddFailed(row)
  {
    hide Initial, Enabled, Apply;
    if i > 0 {
      HistoryGrows(states, steps, before, deduped, i - 1);
      HistoryStep(states[i - 1], steps[i - 1]);
    }
  }

  lemma HistoryStep(s: State, step: Step)
    requires Enabled(s, step)
    ensures Apply(s, step).done == if step.AddDone? then s.done + {step.doneRow} else s.done
    ensures Apply(s, step).failed == if step.AddFailed? then s.failed + {step.failedRow} else s.failed
  {
  }

  lemma StaysDuplicated(states: seq<State>, steps: seq<Step>, before: Table, deduped: bool, i: nat)
    requires Run(states, steps, before, deduped) && i < |states|
    requires !deduped && !UniqueHashes(before) && !Deduped(steps, 0, i)
    ensures !UniqueHashes(states[i].table)
  {
    hide Inv, Enabled, Apply, UniqueHashes, TableMoves, Progresses, RowsOk, Dedupe;
    RunKeepsRows(states, steps, before, deduped, 0, i);
    RunProgresses(states, steps, before, deduped, 0, i);
    KeysMove(states[0].table, states[i].table);
    if UniqueHashes(states[i].table) {
      MovedUnique(states[0].table, states[i].table);
    }
  }

  /** Such a start: two detected rows of one hash, and the statement that removes duplicates fails. */
  lemma DuplicatedStart() returns (s: State, before: Table)
    ensures Run([s], [], before, false) && !UniqueHashes(s.table)
  {
    var a, b := Record(1, "hash", 7, 3, 4, DETECTED), Record(2, "hash", 7, 3, 5, DETECTED);
    before := map[1 := NewRow(a), 2 := NewRow(b)];
    s := State(before, {1, 2}, map[1 := Some(a), 2 := Some(b)], {}, {}, QueueIdle, DoneIdle, FailedIdle, PollIdle);
    assert before[1].hash == before[2].hash;
    assert s.(table := before) == s;
  }

  lemma BecomesUnique(states: seq<State>, steps: seq<Step>, before: Table, deduped: bool, i: nat)
    requires Run(states, steps, before, deduped) && i < |states|
    requires deduped || UniqueHashes(before) || Deduped(steps, 0, i)
    ensures UniqueHashes(states[i].table)
  {
    hide Inv, Initial, Enabled, Apply, UniqueHashes, TableMoves, Progresses, RowsOk;
    if deduped || UniqueHashes(before) {
      InitialInv(states[0], before, deduped);
      RunUnique(states, steps, before, deduped, 0, i);
    } else {
      DedupedUnique(states, steps, before, deduped, 0, i);
    }
  }
}
