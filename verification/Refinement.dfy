/** What the methods of the indexer make of the table, whichever statements fail and whatever their
    queries answer, is reached by steps of the state machine, which leave all other state as it was and
    the task idle again. So what is proved of all runs holds of the ones these methods make. */
module Refinement {
  import opened Options
  import opened Items
  import opened Transfers
  import opened Duplicates
  import opened Lifecycle
  import opened LifecycleSafety
  import opened Scan
  import opened DoneEffects
  import opened Ancestors
  import opened RelayerDatabase
  import opened Retry
  import opened IndexerTasks

  // ---------------------------------------------------------------- sequences of steps

  /** The steps, taken one after another from s, lead to s'. */
  ghost predicate Steps(s: State, steps: seq<Step>, s': State)
    decreases |steps|
  {
    if steps == [] then s' == s
    else Enabled(s, steps[0]) && Steps(Apply(s, steps[0]), steps[1..], s')
  }

  lemma {:induction false} StepsConcat(s: State, a: seq<Step>, s1: State, b: seq<Step>, s2: State)
    requires Steps(s, a, s1) && Steps(s1, b, s2)
    ensures Steps(s, a + b, s2)
    decreases |a|
  {
    hide Enabled, Apply;
    if a == [] {
      assert a + b == b;
    } else {
      StepsConcat(Apply(s, a[0]), a[1..], s1, b, s2);
      assert (a + b)[1..] == a[1..] + b;
    }
  }

  lemma OneStep(s: State, step: Step)
    requires Enabled(s, step)
    ensures Steps(s, [step], Apply(s, step))
  {
    hide Enabled, Apply;
    assert [step][1..] == [];
    assert Steps(Apply(s, step), [], Apply(s, step));
  }

  lemma TwoSteps(s: State, a: Step, b: Step)
    requires Enabled(s, a) && Enabled(Apply(s, a), b)
    ensures Steps(s, [a, b], Apply(Apply(s, a), b))
  {
    hide Enabled, Apply, Steps;
    OneStep(s, a);
    OneStep(Apply(s, a), b);
    StepsConcat(s, [a], Apply(s, a), [b], Apply(Apply(s, a), b));
    assert [a] + [b] == [a, b];
  }

  lemma ThreeSteps(s: State, a: Step, b: Step, c: Step)
    requires Enabled(s, a) && Enabled(Apply(s, a), b) && Enabled(Apply(Apply(s, a), b), c)
    ensures Steps(s, [a, b, c], Apply(Apply(Apply(s, a), b), c))
  {
    hide Enabled, Apply, Steps;
    OneStep(s, a);
    TwoSteps(Apply(s, a), b, c);
    StepsConcat(s, [a], Apply(s, a), [b, c], Apply(Apply(Apply(s, a), b), c));
    assert [a] + [b, c] == [a, b, c];
  }

  lemma StepsNone(s: State)
    ensures Steps(s, [], s)
  {
  }

  /** A run goes on with such steps, and all that holds of runs holds of what it comes to. */
  lemma {:induction false} RunGoesOn(states: seq<State>, steps: seq<Step>, before: Table, deduped: bool,
                                     more: seq<Step>, s: State) returns (states': seq<State>)
    requires Run(states, steps, before, deduped) && Steps(states[|states| - 1], more, s)
    ensures Run(states', steps + more, before, deduped) && states <= states' && states'[|states'| - 1] == s
    decreases |more|
  {
    hide Enabled, Apply, Initial;
    if more == [] {
      assert steps + more == steps;
      states' := states;
    } else {
      var next := Apply(states[|states| - 1], more[0]);
      assert steps + more == (steps + [more[0]]) + more[1..];
      states' := RunGoesOn(states + [next], steps + [more[0]], before, deduped, more[1..], s);
    }
  }

  // ---------------------------------------------------------------- done rows

  lemma KeyMadeIsSteps(s: State, row: DoneRow, key: TimeoutKey, n: nat, t: Table) returns (steps: seq<Step>)
    requires s.d.DoneIdle? && row in s.done && key in Timeouts(row.item) && KeyMade(s.table, key, n, t)
    ensures Steps(s, steps, s.(table := t))
  {
    hide Timeouts, Steps, MarkFailed, FoundByKey;
    steps := [];
    StepsNone(s);
    if t != s.table {
      var id :| FoundByKey(s.table, key, id) && t == KeyEffect(s.table, id);
      steps := [FindKey(row, key, id), DoneWrite];
      TwoSteps(s, FindKey(row, key, id), DoneWrite);
    }
  }

  lemma {:induction false} KeysMadeAreSteps(s: State, row: DoneRow, keys: seq<TimeoutKey>, n: nat, t: Table)
    returns (steps: seq<Step>)
    requires s.d.DoneIdle? && row in s.done && (forall key :: key in keys ==> key in Timeouts(row.item))
    requires KeysMade(s.table, keys, n, t)
    ensures Steps(s, steps, s.(table := t))
  {
    hide Timeouts, KeyMade, Enabled, Apply, Steps;
    steps := [];
    StepsNone(s);
    if keys != [] {
      var i := |keys| - 1;
      var t1, k: nat :| k <= n && KeysMade(s.table, keys[..i], k, t1) && KeyMade(t1, keys[i], n - k, t);
      var first := KeysMadeAreSteps(s, row, keys[..i], k, t1);
      var second := KeyMadeIsSteps(s.(table := t1), row, keys[i], n - k, t);
      StepsConcat(s, first, s.(table := t1), second, s.(table := t));
      steps := first + second;
    }
  }

  lemma HashMadeIsSteps(s: State, row: DoneRow, n: nat, t: Table) returns (steps: seq<Step>)
    requires s.d.DoneIdle? && row in s.done && HashMade(s.table, row, n, t)
    ensures Steps(s, steps, s.(table := t))
  {
    hide ParseItemFields, HashEffect, Steps, FoundByHash;
    steps := [];
    StepsNone(s);
    if t != s.table {
      var id :| FoundByHash(s.table, FieldsOf(row).hash, id) && t == FoundEffect(s.table, id, row);
      steps := [FindHash(row, id), DoneWrite];
      TwoSteps(s, FindHash(row, id), DoneWrite);
    }
  }

  /** Handling a done row, by the scan or by the notification, whichever statements fail and whatever
      the queries answer. */
  lemma DoneRowIsSteps(s: State, row: DoneRow, n: nat, t: Table) returns (steps: seq<Step>)
    requires s.d.DoneIdle? && row in s.done && (CatchUpMade(s.table, row, n, t) || LiveMade(s.table, row, n, t))
    ensures Steps(s, steps, s.(table := t))
  {
    hide Timeouts, KeysMade, HashMade, CatchUpMade, LiveMade, Enabled, Apply, Steps;
    LiveMadeIsCatchUp(s.table, row, n, t);
    var t1, k := Halves(s.table, row, n, t);
    var keys := KeysMadeAreSteps(s, row, Timeouts(row.item), k, t1);
    var hash := HashMadeIsSteps(s.(table := t1), row, n - k, t);
    StepsConcat(s, keys, s.(table := t1), hash, s.(table := t));
    steps := keys + hash;
  }

  lemma Halves(t: Table, row: DoneRow, n: nat, t': Table) returns (t1: Table, k: nat)
    requires CatchUpMade(t, row, n, t')
    ensures k <= n && KeysMade(t, Timeouts(row.item), k, t1) && HashMade(t1, row, n - k, t')
  {
    hide KeysMade, HashMade, Timeouts;
    t1, k :| k <= n && KeysMade(t, Timeouts(row.item), k, t1) && HashMade(t1, row, n - k, t');
  }

  /** A scan of done rows, up to the first one on which it panics. */
  lemma ScanIsSteps(s: State, rows: seq<DoneRow>, n: nat, t: Table) returns (steps: seq<Step>)
    requires s.d.DoneIdle? && (forall row :: row in rows ==> row in s.done)
    requires ScanMade(s.table, Reached(rows), n, t)
    ensures Steps(s, steps, s.(table := t))
  {
    hide ScanMade, Steps;
    steps := ScanMadeIsSteps(s, Reached(rows), n, t);
  }

  lemma {:induction false} ScanMadeIsSteps(s: State, rows: seq<DoneRow>, n: nat, t: Table) returns (steps: seq<Step>)
    requires s.d.DoneIdle? && (forall row :: row in rows ==> row in s.done) && ScanMade(s.table, rows, n, t)
    ensures Steps(s, steps, s.(table := t))
  {
    hide CatchUpMade, Enabled, Apply, Steps;
    steps := [];
    StepsNone(s);
    if rows != [] {
      var i := |rows| - 1;
      var t1, k: nat :| k <= n && ScanMade(s.table, rows[..i], k, t1) && CatchUpMade(t1, rows[i], n - k, t);
      var first := ScanMadeIsSteps(s, rows[..i], k, t1);
      var second := DoneRowIsSteps(s.(table := t1), rows[i], n - k, t);
      StepsConcat(s, first, s.(table := t1), second, s.(table := t));
      steps := first + second;
    }
  }

  // ---------------------------------------------------------------- queue rows

  /** The history knows the queue row, with the record it parses to. */
  predicate Listed(s: State, row: QueueRow) {
    RecordOf(row).Found? ==> row.id in s.items && s.items[row.id] == Some(RecordOf(row).value)
  }

  lemma InsertIsSteps(s: State, row: QueueRow) returns (steps: seq<Step>)
    requires s.q.QueueIdle? && Listed(s, row)
    ensures Steps(s, steps, s.(table := InsertRow'(s.table, row)))
  {
    hide Parse, HashKnown, Steps;
    steps := [];
    StepsNone(s);
    if RecordOf(row).Found? {
      var rec := RecordOf(row).value;
      assert rec.status == DETECTED;
      var found: Option<(int, int)> := None;
      if HashKnown(s.table, rec.hash) {
        var id := KnownAt(s.table, rec.hash);
        found := Some((id, s.table[id].status));
      }
      steps := [QueueRead(row.id), QueueSelect(found), QueueWrite];
      ThreeSteps(s, QueueRead(row.id), QueueSelect(found), QueueWrite);
    }
  }

  /** For any record, the SELECT and the statement after it make what Insert makes in one. */
  lemma InsertWrites(t: Table, rec: Record, found: Option<(int, int)>)
    requires found.None? ==> !HashKnown(t, rec.hash)
    requires found.Some? ==> HasHash(t, found.value.0, rec.hash) && t[found.value.0].status == found.value.1
    ensures Inserted(t, rec, InsertWrite(t, rec, found))
  {
    if found.Some? {
      assert InsertWrite(t, rec, found) == Advance(t, found.value.0, rec.status);
    }
  }

  lemma KnownAt(t: Table, hash: string) returns (id: int)
    requires HashKnown(t, hash)
    ensures HasHash(t, id, hash)
  {
    id :| id in t && t[id].hash == hash;
  }

  lemma {:induction false} InsertRowsAreSteps(s: State, rows: seq<QueueRow>) returns (steps: seq<Step>)
    requires s.q.QueueIdle? && forall row :: row in rows ==> Listed(s, row)
    ensures Steps(s, steps, s.(table := InsertRows(s.table, rows)))
  {
    hide InsertRow', Enabled, Apply, RecordOf;
    steps := [];
    if rows != [] {
      var front, last := rows[..|rows| - 1], rows[|rows| - 1];
      var s1 := s.(table := InsertRows(s.table, front));
      var first := InsertRowsAreSteps(s, front);
      var second := InsertIsSteps(s1, last);
      StepsConcat(s, first, s1, second, s.(table := InsertRows(s.table, rows)));
      steps := first + second;
    }
  }

  /** The poller: the detected bridges that are not queued become processing. */
  lemma ProcessingIsSteps(s: State) returns (steps: seq<Step>)
    requires s.p.PollIdle?
    ensures Steps(s, steps, s.(table := MarkProcessing(s.table, s.table.Keys - s.queue)))
  {
    hide Steps;
    steps := [PollRead, PollQuery, PollMark];
    ThreeSteps(s, PollRead, PollQuery, PollMark);
    var ids := set id | id in s.table && s.table[id].status == DETECTED;
    assert MarkProcessing(s.table, ids - s.queue) == MarkProcessing(s.table, s.table.Keys - s.queue);
  }

  // ---------------------------------------------------------------- failed rows

  /** The parents in the graph are those of done rows of the history. */
  ghost predicate Known(done: set<DoneRow>, g: Graph) {
    forall id :: id in g ==> exists d :: d in done && d.id == id && d.parents == g[id]
  }

  lemma DoneRowOf(done: set<DoneRow>, g: Graph, id: int) returns (d: DoneRow)
    requires Known(done, g) && id in g
    ensures d in done && d.id == id && d.parents == g[id]
  {
    d :| d in done && d.id == id && d.parents == g[id];
  }

  /** Handling a failed row, whichever statements failed: its ancestor's update is made or not. */
  lemma FailedRowIsSteps(s: State, g: Graph, row: FailedRow, missed: Option<set<int>>, t: Table)
    returns (steps: seq<Step>)
    requires s.f.FailedIdle? && row in s.failed && Known(s.done, g) && RowEffect(s.table, g, row, missed, t)
    ensures Steps(s, steps, s.(table := t))
  {
    hide Within, MarkFailed, Steps, Known, NoneWithin, FailedEffect;
    var own := MarkFailed(s.table, row.id, row.message, "");
    steps := [FailDirect(row)];
    OneStep(s, FailDirect(row));
    if t != own {
      var read := g - missed.value;
      KnownLess(s.done, g, missed.value);
      var id := AncestorOf(s.table, read, row, t);
      var rest := AncestorIsSteps(s.(table := own), read, row, id);
      StepsConcat(s, steps, s.(table := own), rest, s.(table := t));
      steps := steps + rest;
    }
  }

  lemma KnownLess(done: set<DoneRow>, g: Graph, missed: set<int>)
    requires Known(done, g)
    ensures Known(done, g - missed)
  {
  }

  lemma AncestorOf(t: Table, g: Graph, row: FailedRow, t': Table) returns (id: int)
    requires FailedEffect(t, g, row, t') && t' != MarkFailed(t, row.id, row.message, "")
    ensures var own := MarkFailed(t, row.id, row.message, "");
            && id in Within(g, Elements(row.parents), MAX_LEVEL - 1) && id in own && InFlight(own[id])
            && t' == MarkFailed(own, id, row.message, "")
  {
    hide Within, MarkFailed, NoneWithin;
    var own, start := MarkFailed(t, row.id, row.message, ""), Elements(row.parents);
    id :| Nearest(own, g, start, id) && t' == MarkFailed(own, id, row.message, "");
    var k: nat :| k < MAX_LEVEL && id in Within(g, start, k);
    WithinGrows(g, start, k, MAX_LEVEL - 1);
  }

  /** The search climbs along a path to the ancestor, and the ancestor fails. */
  lemma AncestorIsSteps(s: State, g: Graph, row: FailedRow, id: int) returns (steps: seq<Step>)
    requires s.f.FailedIdle? && row in s.failed && Known(s.done, g)
    requires id in Within(g, Elements(row.parents), MAX_LEVEL - 1) && id in s.table && InFlight(s.table[id])
    ensures Steps(s, steps, s.(table := MarkFailed(s.table, id, row.message, "")))
  {
    hide Within, Known, MarkFailed, Steps, IsPath;
    var path := PathTo(g, Elements(row.parents), MAX_LEVEL - 1, id);
    var s1 := Apply(s, TraceStart(row));
    OneStep(s, TraceStart(row));
    var climb, s2 := ClimbIsSteps(s1, g, path);
    StepsConcat(s, [TraceStart(row)], s1, climb, s2);
    var s3 := Apply(Apply(s2, FindAncestor(id)), FailedWrite);
    TwoSteps(s2, FindAncestor(id), FailedWrite);
    steps := [TraceStart(row)] + climb + [FindAncestor(id), FailedWrite];
    StepsConcat(s, [TraceStart(row)] + climb, s2, [FindAncestor(id), FailedWrite], s3);
  }

  lemma {:induction false} ClimbIsSteps(s: State, g: Graph, path: seq<int>) returns (steps: seq<Step>, s': State)
    requires s.f.Tracing? && s.f.next == {} && s.f.depth < |path| <= MAX_LEVEL
    requires Known(s.done, g) && IsPath(g, path) && path[s.f.depth] in s.f.current
    ensures Steps(s, steps, s') && s'.f.Tracing? && s'.f.row == s.f.row && s' == s.(f := s'.f)
    ensures path[|path| - 1] in s'.f.current
    decreases |path| - s.f.depth
  {
    hide Steps, Known;
    steps, s' := [], s;
    StepsNone(s);
    var j := s.f.depth;
    if j + 1 < |path| {
      assert path[j] in g && path[j + 1] in g[path[j]];
      var d := DoneRowOf(s.done, g, path[j]);
      var climbed := Apply(Apply(s, TraceFetch(d)), TraceClimb);
      TwoSteps(s, TraceFetch(d), TraceClimb);
      var rest;
      rest, s' := ClimbIsSteps(climbed, g, path);
      steps := [TraceFetch(d), TraceClimb] + rest;
      StepsConcat(s, [TraceFetch(d), TraceClimb], climbed, rest, s');
    }
  }

  lemma {:induction false} FetchesAreSteps(s: State, rows: seq<DoneRow>) returns (steps: seq<Step>)
    requires s.f.Tracing? && forall row :: row in rows ==> row in s.done && row.id in s.f.current
    ensures Steps(s, steps, s.(f := s.f.(next := s.f.next + ParentsIn(rows))))
  {
    hide Enabled, Apply, Steps;
    steps := [];
    if rows == [] {
      StepsNone(s);
      assert s == s.(f := s.f.(next := s.f.next + ParentsIn(rows)));
    } else {
      var i := |rows| - 1;
      var s1 := s.(f := s.f.(next := s.f.next + ParentsIn(rows[..i])));
      var front := FetchesAreSteps(s, rows[..i]);
      FetchStep(s1, rows[i]);
      steps := front + [TraceFetch(rows[i])];
      ParentsOfLast(rows);
      assert s1.f.next + Elements(rows[i].parents) == s.f.next + ParentsIn(rows);
      StepsConcat(s, front, s1, [TraceFetch(rows[i])], s.(f := s.f.(next := s.f.next + ParentsIn(rows))));
    }
  }

  function ParentsIn(rows: seq<DoneRow>): set<int> {
    set row, id | row in rows && id in row.parents :: id
  }

  lemma ParentsOfLast(rows: seq<DoneRow>)
    requires rows != []
    ensures ParentsIn(rows) == ParentsIn(rows[..|rows| - 1]) + Elements(rows[|rows| - 1].parents)
  {
    forall id
      ensures id in ParentsIn(rows) <==>
                id in ParentsIn(rows[..|rows| - 1]) || id in Elements(rows[|rows| - 1].parents)
    {
      if id in ParentsIn(rows) {
        var row :| row in rows && id in row.parents;
        assert row in rows[..|rows| - 1] || row == rows[|rows| - 1];
      }
    }
  }

  lemma FetchStep(s: State, row: DoneRow)
    requires s.f.Tracing? && row in s.done && row.id in s.f.current
    ensures Steps(s, [TraceFetch(row)], s.(f := s.f.(next := s.f.next + Elements(row.parents))))
  {
    hide Steps;
    OneStep(s, TraceFetch(row));
  }

  lemma {:induction false} Listing(rows: set<DoneRow>) returns (list: seq<DoneRow>)
    ensures forall row :: row in list <==> row in rows
  {
    list := [];
    if rows != {} {
      var row :| row in rows;
      list := Listing(rows - {row});
      list := list + [row];
    }
  }

  /** The search for an ancestor that reads the parents of all ids gets to the whole of each level, up
      to the last that is searched, and changes nothing else. */
  lemma {:induction false} LevelIsSteps(s: State, row: FailedRow, k: nat) returns (steps: seq<Step>)
    requires s.f.FailedIdle? && row in s.failed && k < 7
    ensures Steps(s, steps, s.(f := Tracing(row, k, Level(s.done, row, k), {})))
  {
    hide Enabled, Apply, Steps;
    if k == 0 {
      steps := [TraceStart(row)];
      SearchStarts(s, row);
    } else {
      var front := LevelIsSteps(s, row, k - 1);
      var s1 := s.(f := Tracing(row, k - 1, Level(s.done, row, k - 1), {}));
      var list := Listing(set d | d in s.done && d.id in s1.f.current);
      var fetches := FetchesAreSteps(s1, list);
      assert ParentsIn(list) == Level(s.done, row, k);
      var s2 := s1.(f := s1.f.(next := s1.f.next + ParentsIn(list)));
      assert s2.f.next == Level(s.done, row, k);
      ClimbStep(s2);
      assert s2.(f := Tracing(row, k, s2.f.next, {})) == s.(f := Tracing(row, k, Level(s.done, row, k), {}));
      StepsConcat(s, front, s1, fetches, s2);
      steps := front + fetches + [TraceClimb];
      StepsConcat(s, front + fetches, s2, [TraceClimb], s.(f := Tracing(row, k, Level(s.done, row, k), {})));
    }
  }

  lemma SearchStarts(s: State, row: FailedRow)
    requires s.f.FailedIdle? && row in s.failed
    ensures Steps(s, [TraceStart(row)], s.(f := Tracing(row, 0, Level(s.done, row, 0), {})))
  {
    hide Steps;
    OneStep(s, TraceStart(row));
  }

  lemma ClimbStep(s: State)
    requires s.f.Tracing? && s.f.depth < 6
    ensures Steps(s, [TraceClimb], s.(f := Tracing(s.f.row, s.f.depth + 1, s.f.next, {})))
  {
    hide Steps;
    OneStep(s, TraceClimb);
  }

  /** Whatever the tasks are doing, each may break off, alone and with nothing else changed. What an idle
      task can do, it can do then. */
  lemma BreakOffIsSteps(s: State)
    ensures Steps(s, [GiveUp(QueueT)], s.(q := QueueIdle)) && Steps(s, [GiveUp(DoneT)], s.(d := DoneIdle))
    ensures Steps(s, [GiveUp(FailedT)], s.(f := FailedIdle)) && Steps(s, [GiveUp(PollT)], s.(p := PollIdle))
  {
    hide Steps;
    OneStep(s, GiveUp(QueueT));
    OneStep(s, GiveUp(DoneT));
    OneStep(s, GiveUp(FailedT));
    OneStep(s, GiveUp(PollT));
  }

  /** The rows of a failed scan, whatever statements fail on the way. */
  lemma {:induction false} FailedRowsAreSteps(s: State, g: Graph, rows: seq<FailedRow>, missed: seq<Option<set<int>>>,
                                              t: Table) returns (steps: seq<Step>)
    requires s.f.FailedIdle? && (forall row :: row in rows ==> row in s.failed) && Known(s.done, g)
    requires |missed| == |rows| && FailedEffects(s.table, g, rows, missed, t)
    ensures Steps(s, steps, s.(table := t))
  {
    hide RowEffect, Steps, Enabled, Apply;
    if rows == [] {
      steps := [];
      StepsNone(s);
    } else {
      var n := |rows| - 1;
      var t1 :| FailedEffects(s.table, g, rows[..n], missed[..n], t1) && RowEffect(t1, g, rows[n], missed[n], t);
      var s1 := s.(table := t1);
      var first := FailedRowsAreSteps(s, g, rows[..n], missed[..n], t1);
      var second := FailedRowIsSteps(s1, g, rows[n], missed[n], t);
      StepsConcat(s, first, s1, second, s.(table := t));
      steps := first + second;
    }
  }

  /** The notification of a failed row. */
  lemma NotifiedIsSteps(s: State, row: FailedRow, t: Table) returns (steps: seq<Step>)
    requires s.f.FailedIdle? && row in s.failed && NotifiedFailed(s.table, row, t)
    ensures Steps(s, steps, s.(table := t))
  {
    hide ParseItemFields, Steps, MarkFailed, NotifiedFailed;
    steps := [FailDirect(row)];
    OneStep(s, FailDirect(row));
    if t != MarkFailed(s.table, row.id, row.message, "") {
      var id := PromiseOf(s.table, row, t);
      TwoSteps(s, FindPromise(row, id), FailedWrite);
      StepsConcat(s, steps, s, [FindPromise(row, id), FailedWrite], s.(table := t));
      steps := steps + [FindPromise(row, id), FailedWrite];
    }
  }

  lemma PromiseOf(t: Table, row: FailedRow, t': Table) returns (id: int)
    requires NotifiedFailed(t, row, t') && t' != MarkFailed(t, row.id, row.message, "")
    ensures MarkFailed(t, row.id, row.message, "") == t && PromiseKey(row).Some?
    ensures FoundByKey(t, PromiseKey(row).value, id) && t' == MarkFailed(t, id, row.message, PromiseTx(row))
  {
    hide ParseItemFields;
    assert MarkFailed(t, row.id, row.message, "") == t;
    hide MarkFailed;
    id :| FoundByKey(t, PromiseKey(row).value, id)
      && t' == if id == 0 then t else MarkFailed(t, id, row.message, ParseItemFields(row.item).value.txHash);
  }
}
