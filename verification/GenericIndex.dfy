/**
 * chainbase's `generic_index`: a table of objects with a stack of undo states.
 * The ghost sequence `snapshots` holds the whole table as it was when each open
 * session was started; the methods never read it, and are proved to act on the
 * history (current table, snapshots, revision) as the functions of module Undo.
 */
module GenericIndex {
  import opened Undo
  import opened Delta

  // The table once undo has restored the old values of the ids in `done`.
  function Restored<K, V>(rows: map<nat, Row<K, V>>, old_: map<nat, Row<K, V>>, done: set<nat>): map<nat, Row<K, V>> {
    map i | i in rows :: if i in old_ && i in done then old_[i] else rows[i]
  }

  // undo visits the old values in ascending order of their ids.
  function Below<K, V>(old_: map<nat, Row<K, V>>, id: nat): set<nat> {
    set i | i in old_ && i < id
  }

  // No old value shares a unique key with another object, if that is restored later or not at all: if its id
  // is higher or it has no old value.
  ghost predicate KeysFree<K, V>(rows: map<nat, Row<K, V>>, old_: map<nat, Row<K, V>>) {
    forall id, i :: id in old_ && i in rows && i != id && (i > id || i !in old_) ==> rows[i].keys !! old_[id].keys
  }

  // No uniqueness check of undo's first loop fails, for these ids.
  ghost predicate CanUndoThese<K, V>(rows: map<nat, Row<K, V>>, old_: map<nat, Row<K, V>>, ids: set<nat>) {
    forall id :: id in ids && id in old_ ==> !Clashes(Restored(rows, old_, Below(old_, id)), old_[id])
  }

  ghost predicate CanUndo<K, V>(rows: map<nat, Row<K, V>>, old_: map<nat, Row<K, V>>) {
    CanUndoThese(rows, old_, old_.Keys)
  }

  // The checks of the loop, each against the table as far as it has been restored, come down to that.
  lemma CanUndoIff<K, V>(d: UndoState<K, V>, before: Table<K, V>, after: Table<K, V>)
    requires Records(d, before, after) && WellFormed(before) && WellFormed(after)
    ensures CanUndo(after.rows, d.oldValues) <==> KeysFree(after.rows, d.oldValues)
  {
    hide Records, WellFormed;
    var old_ := d.oldValues;
    OldValuesApart(d, before, after);
    if KeysFree(after.rows, old_) {
      forall id | id in old_ ensures !Clashes(Restored(after.rows, old_, Below(old_, id)), old_[id]) {
        var mid := Restored(after.rows, old_, Below(old_, id));
        forall i | i in mid && i != id ensures mid[i].keys !! old_[id].keys {
        }
      }
    } else {
      var id, i :| id in old_ && i in after.rows && i != id && (i > id || i !in old_) && !(after.rows[i].keys !! old_[id].keys);
      var mid := Restored(after.rows, old_, Below(old_, id));
      assert i in mid && mid[i] == after.rows[i];
      assert Clashes(mid, old_[id]);
    }
  }

  lemma OldValuesApart<K, V>(d: UndoState<K, V>, before: Table<K, V>, after: Table<K, V>)
    requires Records(d, before, after) && WellFormed(before) && WellFormed(after)
    ensures forall i, j :: i in d.oldValues && j in d.oldValues && i != j ==> d.oldValues[i].keys !! d.oldValues[j].keys
    ensures forall i :: i in d.oldValues ==> i in after.rows && d.oldValues[i].id == i
  {
    forall i | i in d.oldValues ensures i in before.rows && before.rows[i] == d.oldValues[i] && i in after.rows {
      assert CellHolds(CellOf(d, i), i, before, after);
    }
  }

  // Keys that no modifier has changed cannot get in each other's way.
  lemma StableKeysCanUndo<K, V>(d: UndoState<K, V>, before: Table<K, V>, after: Table<K, V>)
    requires Records(d, before, after) && WellFormed(before) && WellFormed(after)
    requires KeysStable(d, after)
    ensures KeysFree(after.rows, d.oldValues)
  {
    forall id, i | id in d.oldValues && i in after.rows && i != id ensures after.rows[i].keys !! d.oldValues[id].keys {
      assert CellHolds(CellOf(d, id), id, before, after);
    }
  }

  /**
   * When a modifier does change a unique key, undo can fail. Here object 0 gave up the key 10 and object 1
   * took it over: undo meets object 0 first and cannot give it 10 back.
   */
  lemma UndoCanClash() returns (d: UndoState<int, int>, before: Table<int, int>, after: Table<int, int>)
    ensures WellFormed(before) && WellFormed(after) && Records(d, before, after)
    ensures !KeysFree(after.rows, d.oldValues) && !CanUndo(after.rows, d.oldValues)
  {
    var x0, x1 := Row(0, {10}, 7), Row(1, {11}, 8);
    var y0, y1 := Row(0, {12}, 7), Row(1, {10}, 8);
    before := Table(map[0 := x0, 1 := x1], 2);
    after := Table(map[0 := y0, 1 := y1], 2);
    d := UndoState(before.rows, map[], {}, 2, 1);
    assert 10 in y1.keys && 10 in x0.keys;
    assert !(after.rows[1].keys !! d.oldValues[0].keys);
    forall id: nat ensures CellHolds(CellOf(d, id), id, before, after) {
    }
    CanUndoIff(d, before, after);
  }

  lemma RestoreOne<K, V>(rows: map<nat, Row<K, V>>, old_: map<nat, Row<K, V>>, done: set<nat>, id: nat)
    requires id in rows && id in old_
    ensures Restored(rows, old_, done)[id := old_[id]] == Restored(rows, old_, done + {id})
  {
  }

  // The old values of the ids in `todo` are still to be restored; the others, all smaller, have been.
  ghost predicate RestoredSoFar<K, V>(start: map<nat, Row<K, V>>, rows: map<nat, Row<K, V>>, old_: map<nat, Row<K, V>>, todo: set<nat>) {
    && (forall i, j :: i in old_ && i !in todo && j in todo ==> i < j)
    && rows == Restored(start, old_, old_.Keys - todo)
    && CanUndoThese(start, old_, old_.Keys - todo)
  }

  lemma RestoreStart<K, V>(start: map<nat, Row<K, V>>, old_: map<nat, Row<K, V>>)
    ensures RestoredSoFar(start, start, old_, old_.Keys)
  {
    assert old_.Keys - old_.Keys == {};
    assert start == Restored(start, old_, {});
  }

  lemma RestoreStep<K, V>(start: map<nat, Row<K, V>>, rows: map<nat, Row<K, V>>, old_: map<nat, Row<K, V>>, todo: set<nat>, id: nat)
    requires todo <= old_.Keys && RestoredSoFar(start, rows, old_, todo)
    requires id in todo && id in start && forall j :: j in todo ==> id <= j
    ensures if Clashes(rows, old_[id]) then !CanUndo(start, old_)
            else RestoredSoFar(start, rows[id := old_[id]], old_, todo - {id})
  {
    var done := old_.Keys - todo;
    assert forall i :: i in old_ && i < id <==> i in done;
    assert done == Below(old_, id);
    assert old_.Keys - (todo - {id}) == done + {id};
    RestoreOne(start, old_, done, id);
  }

  // What undo's first loop leaves when it throws: the smaller ids restored, the row in question gone.
  ghost predicate StoppedAt<K, V>(start: map<nat, Row<K, V>>, rows: map<nat, Row<K, V>>, old_: map<nat, Row<K, V>>) {
    exists id :: id in old_ && Clashes(Restored(start, old_, Below(old_, id)), old_[id])
      && CanUndoThese(start, old_, Below(old_, id)) && rows == Restored(start, old_, Below(old_, id)) - {id}
  }

  lemma StopsHere<K, V>(start: map<nat, Row<K, V>>, rows: map<nat, Row<K, V>>, old_: map<nat, Row<K, V>>, todo: set<nat>, id: nat)
    requires todo <= old_.Keys && RestoredSoFar(start, rows, old_, todo)
    requires id in todo && id in start && forall j :: j in todo ==> id <= j
    requires Clashes(rows, old_[id])
    ensures StoppedAt(start, rows - {id}, old_)
  {
    assert old_.Keys - todo == Below(old_, id);
  }

  lemma RestoreEnd<K, V>(start: map<nat, Row<K, V>>, rows: map<nat, Row<K, V>>, old_: map<nat, Row<K, V>>)
    requires RestoredSoFar(start, rows, old_, {})
    ensures CanUndo(start, old_) && rows == Restored(start, old_, old_.Keys)
  {
    assert old_.Keys - {} == old_.Keys;
  }

  lemma Least(s: set<nat>) returns (m: nat)
    requires s != {}
    ensures m in s && forall j :: j in s ==> m <= j
    decreases |s|
  {
    m :| m in s;
    if s != {m} {
      var rest := s - {m};
      var y := Least(rest);
      assert forall j :: j in s ==> j == m || j in rest;
      if y < m {
        m := y;
      }
    }
  }

  // ---------- The stack of undo states against the stack of snapshots ----------

  // The table the i-th undo state leads to: the next snapshot, or the current table.
  ghost function AfterOf<K, V>(snapshots: seq<Table<K, V>>, current: Table<K, V>, i: nat): Table<K, V>
    requires i < |snapshots|
  {
    if i + 1 < |snapshots| then snapshots[i + 1] else current
  }

  ghost predicate Chained<K, V>(stack: seq<UndoState<K, V>>, snapshots: seq<Table<K, V>>, current: Table<K, V>, revision: int) {
    && |snapshots| == |stack|
    && WellFormed(current)
    && (forall i :: 0 <= i < |stack| ==> WellFormed(snapshots[i]))
    && (forall i :: 0 <= i < |stack| ==> Records(stack[i], snapshots[i], AfterOf(snapshots, current, i)))
    && (forall i :: 0 <= i < |stack| ==> stack[i].revision == revision - |stack| + 1 + i)
  }

  // No open session has seen a unique key change.
  ghost predicate AllStable<K, V>(stack: seq<UndoState<K, V>>, snapshots: seq<Table<K, V>>, current: Table<K, V>)
    requires |snapshots| == |stack|
  {
    forall i :: 0 <= i < |stack| ==> KeysStable(stack[i], AfterOf(snapshots, current, i))
  }

  lemma ReplaceTop<K, V>(stack: seq<UndoState<K, V>>, snapshots: seq<Table<K, V>>, current: Table<K, V>, revision: int,
                         top: UndoState<K, V>, current': Table<K, V>)
    requires Chained(stack, snapshots, current, revision) && stack != []
    requires WellFormed(current')
    requires Records(top, snapshots[|stack| - 1], current') && top.revision == stack[|stack| - 1].revision
    ensures Chained(stack[..|stack| - 1] + [top], snapshots, current', revision)
    ensures AllStable(stack, snapshots, current) && KeysStable(top, current') ==>
      AllStable(stack[..|stack| - 1] + [top], snapshots, current')
  {
    var stack' := stack[..|stack| - 1] + [top];
    forall i | 0 <= i < |stack|
      ensures Records(stack'[i], snapshots[i], AfterOf(snapshots, current', i))
    {
      assert i < |stack| - 1 ==> AfterOf(snapshots, current', i) == AfterOf(snapshots, current, i);
    }
    if AllStable(stack, snapshots, current) && KeysStable(top, current') {
      forall i | 0 <= i < |stack|
        ensures KeysStable(stack'[i], AfterOf(snapshots, current', i))
      {
        assert i < |stack| - 1 ==> AfterOf(snapshots, current', i) == AfterOf(snapshots, current, i);
      }
    }
  }

  // on_create, on_modify and on_remove: the top undo state, if there is one, takes note.
  function StackOnCreate<K, V>(stack: seq<UndoState<K, V>>, id: nat): seq<UndoState<K, V>> {
    if stack == [] then stack else stack[..|stack| - 1] + [OnCreate(stack[|stack| - 1], id)]
  }

  function StackOnModify<K, V>(stack: seq<UndoState<K, V>>, row: Row<K, V>): seq<UndoState<K, V>> {
    if stack == [] then stack else stack[..|stack| - 1] + [OnModify(stack[|stack| - 1], row)]
  }

  function StackOnRemove<K, V>(stack: seq<UndoState<K, V>>, row: Row<K, V>): seq<UndoState<K, V>> {
    if stack == [] then stack else stack[..|stack| - 1] + [OnRemove(stack[|stack| - 1], row)]
  }

  lemma AfterCreate<K, V>(stack: seq<UndoState<K, V>>, snapshots: seq<Table<K, V>>, current: Table<K, V>, revision: int, row: Row<K, V>)
    requires Chained(stack, snapshots, current, revision)
    requires row.id == current.nextId && !Clashes(current.rows, row)
    ensures
      var current' := Table(current.rows[row.id := row], current.nextId + 1);
      && Chained(StackOnCreate(stack, row.id), snapshots, current', revision)
      && (AllStable(stack, snapshots, current) ==> AllStable(StackOnCreate(stack, row.id), snapshots, current'))
  {
    var current' := Table(current.rows[row.id := row], current.nextId + 1);
    assert WellFormed(current') by {
      forall i | i in current.rows ensures current.rows[i].keys !! row.keys {
        assert i != row.id;
      }
    }
    if stack != [] {
      var top := stack[|stack| - 1];
      OnCreateRecords(top, snapshots[|stack| - 1], current, row);
      ReplaceTop(stack, snapshots, current, revision, OnCreate(top, row.id), current');
    }
  }

  lemma AfterModify<K, V>(stack: seq<UndoState<K, V>>, snapshots: seq<Table<K, V>>, current: Table<K, V>, revision: int, row: Row<K, V>)
    requires Chained(stack, snapshots, current, revision)
    requires row.id in current.rows && !Clashes(current.rows, row)
    ensures
      var current' := current.(rows := current.rows[row.id := row]);
      && Chained(StackOnModify(stack, current.rows[row.id]), snapshots, current', revision)
      && (AllStable(stack, snapshots, current) && row.keys == current.rows[row.id].keys ==>
            AllStable(StackOnModify(stack, current.rows[row.id]), snapshots, current'))
  {
    var current' := current.(rows := current.rows[row.id := row]);
    assert WellFormed(current') by {
      forall i | i in current.rows && i != row.id ensures current.rows[i].keys !! row.keys {
      }
    }
    if stack != [] {
      var top := stack[|stack| - 1];
      OnModifyRecords(top, snapshots[|stack| - 1], current, row);
      ReplaceTop(stack, snapshots, current, revision, OnModify(top, current.rows[row.id]), current');
    }
  }

  // A row that was noted as modified and is gone: only without a session does anything still describe the table.
  lemma AfterFailedModify<K, V>(stack: seq<UndoState<K, V>>, snapshots: seq<Table<K, V>>, current: Table<K, V>, revision: int, id: nat)
    requires Chained(stack, snapshots, current, revision)
    requires id in current.rows
    ensures |StackOnModify(stack, current.rows[id])| == |stack|
    ensures Chained(StackOnModify(stack, current.rows[id]), snapshots, current.(rows := current.rows - {id}), revision) <==> stack == []
  {
    var current' := current.(rows := current.rows - {id});
    var stack' := StackOnModify(stack, current.rows[id]);
    if stack != [] {
      var n := |stack| - 1;
      assert current.rows[id].id == id;
      assert id in stack'[n].newIds || id in stack'[n].oldValues;
      assert AfterOf(snapshots, current', n) == current';
      assert !CellHolds(CellOf(stack'[n], id), id, snapshots[n], current');
      assert !Records(stack'[n], snapshots[n], current');
    } else {
      assert WellFormed(current');
    }
  }

  lemma AfterRemove<K, V>(stack: seq<UndoState<K, V>>, snapshots: seq<Table<K, V>>, current: Table<K, V>, revision: int, id: nat)
    requires Chained(stack, snapshots, current, revision)
    requires id in current.rows
    ensures
      var current' := current.(rows := current.rows - {id});
      && Chained(StackOnRemove(stack, current.rows[id]), snapshots, current', revision)
      && (AllStable(stack, snapshots, current) ==> AllStable(StackOnRemove(stack, current.rows[id]), snapshots, current'))
  {
    var current' := current.(rows := current.rows - {id});
    assert WellFormed(current');
    if stack != [] {
      var top := stack[|stack| - 1];
      OnRemoveRecords(top, snapshots[|stack| - 1], current, id);
      ReplaceTop(stack, snapshots, current, revision, OnRemove(top, current.rows[id]), current');
    }
  }

  lemma PopTop<K, V>(stack: seq<UndoState<K, V>>, snapshots: seq<Table<K, V>>, current: Table<K, V>, revision: int)
    requires Chained(stack, snapshots, current, revision) && stack != []
    ensures Chained(stack[..|stack| - 1], snapshots[..|stack| - 1], snapshots[|stack| - 1], revision - 1)
    ensures AllStable(stack, snapshots, current) ==>
      AllStable(stack[..|stack| - 1], snapshots[..|stack| - 1], snapshots[|stack| - 1])
  {
    var n := |stack| - 1;
    assert forall i :: 0 <= i < n ==>
      AfterOf(snapshots[..n], snapshots[n], i) == AfterOf(snapshots, current, i);
  }

  ghost predicate KeysFreeDown<K, V>(stack: seq<UndoState<K, V>>, snapshots: seq<Table<K, V>>, current: Table<K, V>)
    requires |snapshots| == |stack|
  {
    forall i :: 0 <= i < |stack| ==> KeysFree(AfterOf(snapshots, current, i).rows, stack[i].oldValues)
  }

  lemma NothingToFree<K, V>(current: Table<K, V>)
    ensures KeysFreeDown([], [], current)
  {
  }

  lemma KeysFreeBelow<K, V>(stack: seq<UndoState<K, V>>, snapshots: seq<Table<K, V>>, current: Table<K, V>)
    requires |snapshots| == |stack| && stack != []
    ensures
      var n := |stack| - 1;
      KeysFreeDown(stack, snapshots, current) <==>
        KeysFree(current.rows, stack[n].oldValues) && KeysFreeDown(stack[..n], snapshots[..n], snapshots[n])
  {
    var n := |stack| - 1;
    hide KeysFree;
    assert AfterOf(snapshots, current, n) == current;
    assert forall i :: 0 <= i < n ==> AfterOf(snapshots[..n], snapshots[n], i) == AfterOf(snapshots, current, i);
    if KeysFree(current.rows, stack[n].oldValues) && KeysFreeDown(stack[..n], snapshots[..n], snapshots[n]) {
      forall i | 0 <= i < |stack| ensures KeysFree(AfterOf(snapshots, current, i).rows, stack[i].oldValues) {
        if i < n {
          assert KeysFree(AfterOf(snapshots[..n], snapshots[n], i).rows, stack[..n][i].oldValues);
        }
      }
    }
    if KeysFreeDown(stack, snapshots, current) {
      forall i | 0 <= i < n ensures KeysFree(AfterOf(snapshots[..n], snapshots[n], i).rows, stack[..n][i].oldValues) {
        assert KeysFree(AfterOf(snapshots, current, i).rows, stack[i].oldValues);
      }
    }
  }

  lemma BeforeUndo<K, V>(stack: seq<UndoState<K, V>>, snapshots: seq<Table<K, V>>, current: Table<K, V>, revision: int)
    requires Chained(stack, snapshots, current, revision) && stack != []
    ensures WellFormed(snapshots[|stack| - 1]) && Records(stack[|stack| - 1], snapshots[|stack| - 1], current)
    ensures AllStable(stack, snapshots, current) ==> KeysFree(current.rows, stack[|stack| - 1].oldValues)
    ensures CanUndo(current.rows, stack[|stack| - 1].oldValues) <==> KeysFree(current.rows, stack[|stack| - 1].oldValues)
    ensures Chained(stack[..|stack| - 1], snapshots[..|stack| - 1], snapshots[|stack| - 1], revision - 1)
    ensures AllStable(stack, snapshots, current) ==>
      AllStable(stack[..|stack| - 1], snapshots[..|stack| - 1], snapshots[|stack| - 1])
  {
    PopTop(stack, snapshots, current, revision);
    CanUndoIff(stack[|stack| - 1], snapshots[|stack| - 1], current);
    if AllStable(stack, snapshots, current) {
      StableKeysCanUndo(stack[|stack| - 1], snapshots[|stack| - 1], current);
    }
  }

  lemma PushTop<K, V>(stack: seq<UndoState<K, V>>, snapshots: seq<Table<K, V>>, current: Table<K, V>, revision: int)
    requires Chained(stack, snapshots, current, revision)
    ensures
      var top := UndoState(map[], map[], {}, current.nextId, revision + 1);
      && Chained(stack + [top], snapshots + [current], current, revision + 1)
      && (AllStable(stack, snapshots, current) ==> AllStable(stack + [top], snapshots + [current], current))
  {
    var top: UndoState<K, V> := UndoState(map[], map[], {}, current.nextId, revision + 1);
    assert Records(top, current, current);
    assert forall i :: 0 <= i < |stack| ==>
      AfterOf(snapshots + [current], current, i) == AfterOf(snapshots, current, i);
  }

  lemma DropOldest<K, V>(stack: seq<UndoState<K, V>>, snapshots: seq<Table<K, V>>, current: Table<K, V>, revision: int)
    requires Chained(stack, snapshots, current, revision) && stack != []
    ensures Chained(stack[1..], snapshots[1..], current, revision)
    ensures AllStable(stack, snapshots, current) ==> AllStable(stack[1..], snapshots[1..], current)
  {
    assert forall i :: 0 <= i < |stack| - 1 ==>
      AfterOf(snapshots[1..], current, i) == AfterOf(snapshots, current, i + 1);
  }

  ghost predicate Applicable<K, V>(a: UndoState<K, V>, b: UndoState<K, V>) {
    forall id: nat :: !NotApplicable(CellOf(a, id), CellOf(b, id))
  }

  lemma AllApplicable<K, V>(a: UndoState<K, V>, b: UndoState<K, V>, s0: Table<K, V>, s1: Table<K, V>, s2: Table<K, V>)
    requires Records(a, s0, s1) && Records(b, s1, s2)
    requires WellFormed(s0) && WellFormed(s1) && WellFormed(s2)
    ensures Applicable(a, b) && KeyedById(b)
  {
    forall id: nat
      ensures id in b.oldValues ==> b.oldValues[id].id == id
      ensures id in b.removedValues ==> b.removedValues[id].id == id
    {
      assert CellHolds(CellOf(b, id), id, s1, s2);
    }
    forall id: nat ensures !NotApplicable(CellOf(a, id), CellOf(b, id)) {
      MergeIsCausal(a, b, s0, s1, s2, id);
    }
  }

  lemma BeforeSquash<K, V>(stack: seq<UndoState<K, V>>, snapshots: seq<Table<K, V>>, current: Table<K, V>, revision: int)
    requires Chained(stack, snapshots, current, revision) && |stack| >= 2
    ensures
      var a, b := stack[|stack| - 2], stack[|stack| - 1];
      Disjoint(a) && Disjoint(b) && Applicable(a, b) && KeyedById(b)
  {
    var n := |stack|;
    assert AfterOf(snapshots, current, n - 2) == snapshots[n - 1] && AfterOf(snapshots, current, n - 1) == current;
    AllApplicable(stack[n - 2], stack[n - 1], snapshots[n - 2], snapshots[n - 1], current);
  }

  ghost predicate KeyedById<K, V>(d: UndoState<K, V>) {
    && (forall id :: id in d.oldValues ==> d.oldValues[id].id == id)
    && (forall id :: id in d.removedValues ==> d.removedValues[id].id == id)
  }

  // `d` has the merged cell for each of `ids`, and a's cell for every other object.
  ghost predicate MergedOn<K, V>(d: UndoState<K, V>, a: UndoState<K, V>, b: UndoState<K, V>, ids: set<nat>) {
    && Disjoint(d)
    && d.oldNextId == a.oldNextId && d.revision == a.revision
    && (forall id: nat :: CellOf(d, id) == if id in ids then Merge(CellOf(a, id), CellOf(b, id)) else CellOf(a, id))
  }

  // How far squash has come: the updates in `todo` are still to be merged, and then all the rest.
  ghost predicate MergedUpdates<K, V>(d: UndoState<K, V>, a: UndoState<K, V>, b: UndoState<K, V>, todo: set<nat>) {
    MergedOn(d, a, b, b.oldValues.Keys - todo)
  }

  // The updates and the new objects are merged, the removals in `todo` are not.
  ghost predicate MergedRemovals<K, V>(d: UndoState<K, V>, a: UndoState<K, V>, b: UndoState<K, V>, todo: set<nat>) {
    MergedOn(d, a, b, b.oldValues.Keys + b.newIds + (b.removedValues.Keys - todo))
  }

  // The first loop of squash does for each updated object what on_modify would do.
  lemma MergeUpdateStep<K, V>(d: UndoState<K, V>, a: UndoState<K, V>, b: UndoState<K, V>, todo: set<nat>, id: nat)
    requires MergedUpdates(d, a, b, todo) && Disjoint(b) && Applicable(a, b) && KeyedById(b)
    requires id in todo && todo <= b.oldValues.Keys
    ensures id !in a.removedValues || id in a.newIds + a.oldValues.Keys  // the assert of the first loop
    ensures MergedUpdates(OnModify(d, b.oldValues[id]), a, b, todo - {id})
  {
    var ids := b.oldValues.Keys - todo;
    assert !NotApplicable(CellOf(a, id), CellOf(b, id));
    assert CellOf(d, id) == CellOf(a, id);
    var d' := OnModify(d, b.oldValues[id]);
    forall i: nat
      ensures CellOf(d', i) == if i in ids + {id} then Merge(CellOf(a, i), CellOf(b, i)) else CellOf(a, i)
    {
      assert CellOf(d, i) == if i in ids then Merge(CellOf(a, i), CellOf(b, i)) else CellOf(a, i);
    }
    assert b.oldValues.Keys - (todo - {id}) == ids + {id};
  }

  lemma MergeNewStep<K, V>(d: UndoState<K, V>, a: UndoState<K, V>, b: UndoState<K, V>)
    requires MergedUpdates(d, a, b, {}) && Disjoint(b) && Applicable(a, b)
    ensures MergedRemovals(d.(newIds := d.newIds + b.newIds), a, b, b.removedValues.Keys)
  {
    var d' := d.(newIds := d.newIds + b.newIds);
    var ids := b.oldValues.Keys - {};
    forall i: nat
      ensures CellOf(d', i) == if i in ids + b.newIds then Merge(CellOf(a, i), CellOf(b, i)) else CellOf(a, i)
      ensures i in b.newIds ==> i !in d.oldValues && i !in d.removedValues
    {
      assert CellOf(d, i) == if i in ids then Merge(CellOf(a, i), CellOf(b, i)) else CellOf(a, i);
      assert !NotApplicable(CellOf(a, i), CellOf(b, i));
    }
    assert b.oldValues.Keys + b.newIds + (b.removedValues.Keys - b.removedValues.Keys) == ids + b.newIds;
  }

  // The last loop does for each removed object what on_remove would do.
  lemma MergeRemovalStep<K, V>(d: UndoState<K, V>, a: UndoState<K, V>, b: UndoState<K, V>, todo: set<nat>, id: nat)
    requires MergedRemovals(d, a, b, todo) && Disjoint(b) && Applicable(a, b) && KeyedById(b)
    requires id in todo && todo <= b.removedValues.Keys
    ensures id !in d.removedValues  // the assert of the last loop
    ensures MergedRemovals(OnRemove(d, b.removedValues[id]), a, b, todo - {id})
  {
    var ids := b.oldValues.Keys + b.newIds + (b.removedValues.Keys - todo);
    assert !NotApplicable(CellOf(a, id), CellOf(b, id));
    assert CellOf(d, id) == CellOf(a, id);
    var d' := OnRemove(d, b.removedValues[id]);
    forall i: nat
      ensures CellOf(d', i) == if i in ids + {id} then Merge(CellOf(a, i), CellOf(b, i)) else CellOf(a, i)
    {
      assert CellOf(d, i) == if i in ids then Merge(CellOf(a, i), CellOf(b, i)) else CellOf(a, i);
    }
    assert b.oldValues.Keys + b.newIds + (b.removedValues.Keys - (todo - {id})) == ids + {id};
  }

  lemma MergedEverywhere<K, V>(d: UndoState<K, V>, a: UndoState<K, V>, b: UndoState<K, V>)
    requires MergedRemovals(d, a, b, {})
    ensures Disjoint(d) && d.oldNextId == a.oldNextId && d.revision == a.revision
    ensures forall id: nat :: CellOf(d, id) == Merge(CellOf(a, id), CellOf(b, id))
  {
  }

  lemma AfterSquash<K, V>(stack: seq<UndoState<K, V>>, snapshots: seq<Table<K, V>>, current: Table<K, V>, revision: int,
                          merged: UndoState<K, V>)
    requires Chained(stack, snapshots, current, revision) && |stack| >= 2
    requires Disjoint(merged)
    requires merged.oldNextId == stack[|stack| - 2].oldNextId && merged.revision == stack[|stack| - 2].revision
    requires forall id: nat ::
      CellOf(merged, id) == Merge(CellOf(stack[|stack| - 2], id), CellOf(stack[|stack| - 1], id))
    ensures Chained(stack[..|stack| - 2] + [merged], snapshots[..|stack| - 1], current, revision - 1)
    ensures AllStable(stack, snapshots, current) ==>
      AllStable(stack[..|stack| - 2] + [merged], snapshots[..|stack| - 1], current)
  {
    var n := |stack|;
    var a, b := stack[n - 2], stack[n - 1];
    assert AfterOf(snapshots, current, n - 2) == snapshots[n - 1] && AfterOf(snapshots, current, n - 1) == current;
    MergeComposes(a, b, merged, snapshots[n - 2], snapshots[n - 1], current);
    assert AllStable(stack, snapshots, current) ==> KeysStable(a, snapshots[n - 1]) && KeysStable(b, current);
    PopTop(stack, snapshots, current, revision);
    assert stack[..n - 1][..n - 2] == stack[..n - 2];
    hide Chained, AllStable, Records, KeysStable, Merge, CellOf;
    ReplaceTop(stack[..n - 1], snapshots[..n - 1], snapshots[n - 1], revision - 1, merged, current);
  }

  class Index<K(==), V> {
    var stack: seq<UndoState<K, V>>
    var rows: map<nat, Row<K, V>>
    var nextId: nat
    var revision: int
    ghost var snapshots: seq<Table<K, V>>

    ghost function Current(): Table<K, V>
      reads this
    {
      Table(rows, nextId)
    }

    ghost function View(): History<Table<K, V>>
      reads this
    {
      History(Current(), snapshots, revision)
    }

    ghost predicate Valid()
      reads this
    {
      |snapshots| == |stack| && Chained(stack, snapshots, Current(), revision)
    }

    ghost predicate Stable()
      reads this
      requires |snapshots| == |stack|
    {
      AllStable(stack, snapshots, Current())
    }

    constructor ()
      ensures Valid() && Stable()
      ensures View() == History(Table(map[], 0), [], 0)
    {
      stack, rows, nextId, revision, snapshots := [], map[], 0, 0, [];
    }

    /** emplace: None stands for the exception; the table is then unchanged. */
    method Emplace(keys: set<K>, value: V) returns (id: nat, ok: bool)
      requires Valid()
      modifies this
      ensures Valid() && (old(Stable()) ==> Stable())
      ensures ok <==> !Clashes(old(rows), Row(old(nextId), keys, value))
      ensures ok ==> id == old(nextId)
      ensures View() == if ok
        then old(View()).Write(Table(old(rows)[id := Row(id, keys, value)], id + 1))
        else old(View())
    {
      hide Chained, AllStable, Clashes, OnCreate, StackOnCreate;
      id := nextId;
      var row := Row(id, keys, value);
      if Clashes(rows, row) {
        return id, false;
      }
      AfterCreate(stack, snapshots, Current(), revision, row);
      rows := rows[id := row];
      nextId := nextId + 1;
      stack := StackOnCreate(stack, id);
      ok := true;
    }

    /**
     * modify. The row is noted first; when the modifier's result clashes with a unique key the container
     * erases it, and false stands for the exception. Inside a session no undo state then describes the table.
     */
    method Modify(id: nat, keys: set<K>, value: V) returns (ok: bool)
      requires Valid()
      requires id in rows
      modifies this
      ensures ok <==> !Clashes(old(rows), Row(id, keys, value))
      ensures ok ==> Valid() && (old(Stable()) && keys == old(rows[id].keys) ==> Stable())
      ensures View() == old(View()).Write(
        Table(if ok then old(rows)[id := Row(id, keys, value)] else old(rows) - {id}, old(nextId)))
      ensures !ok ==> (Valid() <==> stack == [])
    {
      hide Chained, AllStable, Clashes, OnModify, StackOnModify;
      var row := Row(id, keys, value);
      ok := !Clashes(rows, row);
      if ok {
        AfterModify(stack, snapshots, Current(), revision, row);
        stack := StackOnModify(stack, rows[id]);
        rows := rows[id := row];
      } else {
        AfterFailedModify(stack, snapshots, Current(), revision, id);
        stack := StackOnModify(stack, rows[id]);
        rows := rows - {id};
      }
    }

    method Remove(id: nat)
      requires Valid()
      requires id in rows
      modifies this
      ensures Valid() && (old(Stable()) ==> Stable())
      ensures View() == old(View()).Write(Table(old(rows) - {id}, old(nextId)))
    {
      hide Chained, AllStable, OnRemove, StackOnRemove;
      AfterRemove(stack, snapshots, Current(), revision, id);
      stack := StackOnRemove(stack, rows[id]);
      rows := rows - {id};
    }

    method StartUndoSession()
      requires Valid()
      modifies this
      ensures Valid() && (old(Stable()) ==> Stable())
      ensures View() == old(View()).StartSession()
    {
      hide Chained, AllStable;
      PushTop(stack, snapshots, Current(), revision);
      revision := revision + 1;
      stack := stack + [UndoState(map[], map[], {}, nextId, revision)];
      snapshots := snapshots + [Current()];
    }

    // The undo of the newest session meets no clash.
    ghost predicate KeysAreFree()
      reads this
    {
      stack == [] || KeysFree(rows, stack[|stack| - 1].oldValues)
    }

    /**
     * undo. The three loops restore the old values, erase the new objects and put the removed
     * ones back, in this order; ok is false when a uniqueness check fails and undo throws.
     */
    method Undo() returns (ok: bool)
      requires Valid()
      modifies this
      ensures ok <==> old(KeysAreFree())
      ensures old(Stable()) ==> ok
      ensures ok ==> Valid() && (old(Stable()) ==> Stable())
      ensures ok ==> View() == old(View()).UndoTop()
      ensures ok ==> stack == old(if stack == [] then [] else stack[..|stack| - 1])
      ensures !ok ==>
        && stack == old(stack) && snapshots == old(snapshots) && nextId == old(nextId) && revision == old(revision)
        && StoppedAt(old(rows), rows, stack[|stack| - 1].oldValues)
    {
      hide Chained, AllStable, Records, WellFormed, CanUndo, KeysFree, StoppedAt;
      if stack == [] {
        return true;
      }
      BeforeUndo(stack, snapshots, Current(), revision);
      ok := Restore(stack[|stack| - 1], snapshots[|snapshots| - 1], Current());
      if ok {
        stack := stack[..|stack| - 1];
        snapshots := snapshots[..|snapshots| - 1];
        revision := revision - 1;
      }
    }

    method Restore(head: UndoState<K, V>, ghost before: Table<K, V>, ghost after: Table<K, V>) returns (ok: bool)
      requires WellFormed(before) && Records(head, before, after)
      requires Current() == after
      modifies this`rows, this`nextId
      ensures ok <==> CanUndo(after.rows, head.oldValues)
      ensures ok ==> Current() == before
      ensures !ok ==> nextId == old(nextId) && StoppedAt(after.rows, rows, head.oldValues)
    {
      forall id | id in head.oldValues ensures id in rows && head.oldValues[id].id == id {
        assert CellHolds(CellOf(head, id), id, before, after);
      }
      ok := RestoreOldValues(head.oldValues);
      if ok {
        EraseNew(head, before, after);
        nextId := head.oldNextId;
        PutBackRemoved(head, before, after);
      }
    }

    method RestoreOldValues(old_: map<nat, Row<K, V>>) returns (ok: bool)
      requires forall id :: id in old_ ==> id in rows && old_[id].id == id
      modifies this`rows
      ensures ok <==> CanUndo(old(rows), old_)
      ensures ok ==> rows == Restored(old(rows), old_, old_.Keys)
      ensures !ok ==> StoppedAt(old(rows), rows, old_)
    {
      ghost var start := rows;
      var todo := old_.Keys;
      RestoreStart(start, old_);
      while todo != {}
        invariant todo <= old_.Keys
        invariant RestoredSoFar(start, rows, old_, todo)
        decreases |todo|
      {
        ghost var least := Least(todo);
        var id :| id in todo && forall j :: j in todo ==> id <= j;
        RestoreStep(start, rows, old_, todo, id);
        if Clashes(rows, old_[id]) {
          StopsHere(start, rows, old_, todo, id);
          rows := rows - {id};  // the container erases an element whose new value clashes
          return false;
        }
        rows := rows[id := old_[id]];
        todo := todo - {id};
      }
      RestoreEnd(start, rows, old_);
      ok := true;
    }

    method EraseNew(head: UndoState<K, V>, ghost before: Table<K, V>, ghost after: Table<K, V>)
      requires WellFormed(before) && Records(head, before, after)
      requires rows == Restored(after.rows, head.oldValues, head.oldValues.Keys)
      modifies this`rows
      ensures rows == before.rows - head.removedValues.Keys
    {
      ghost var start := rows;
      var todo := head.newIds;
      while todo != {}
        invariant todo <= head.newIds
        invariant rows == start - (head.newIds - todo)
        decreases |todo|
      {
        var id :| id in todo;
        assert CellHolds(CellOf(head, id), id, before, after);
        assert id in rows;
        rows := rows - {id};
        todo := todo - {id};
      }
      assert rows == start - head.newIds;
      forall i: nat
        ensures i in rows <==> i in before.rows && i !in head.removedValues
        ensures i in rows ==> rows[i] == before.rows[i]
      {
        assert CellHolds(CellOf(head, i), i, before, after);
      }
    }

    // No check is made to fail here: the rows put back and the rows present all come from `before`.
    method PutBackRemoved(head: UndoState<K, V>, ghost before: Table<K, V>, ghost after: Table<K, V>)
      requires WellFormed(before) && Records(head, before, after)
      requires rows == before.rows - head.removedValues.Keys
      modifies this`rows
      ensures rows == before.rows
    {
      hide Records, WellFormed, Clashes;
      var todo := head.removedValues.Keys;
      while todo != {}
        invariant todo <= head.removedValues.Keys
        invariant rows == before.rows - todo
        decreases |todo|
      {
        var id :| id in todo;
        var item := head.removedValues[id];
        PutBackStep(head, before, after, todo, id);
        assert item.id !in rows && !Clashes(rows, item);
        rows := rows[item.id := item];
        todo := todo - {id};
      }
      assert rows == before.rows;
    }

    lemma PutBackStep(head: UndoState<K, V>, before: Table<K, V>, after: Table<K, V>, todo: set<nat>, id: nat)
      requires WellFormed(before) && Records(head, before, after)
      requires todo <= head.removedValues.Keys && id in todo
      ensures
        var item, rows := head.removedValues[id], before.rows - todo;
        item.id == id && id !in rows && !Clashes(rows, item) && rows[id := item] == before.rows - (todo - {id})
    {
      assert CellHolds(CellOf(head, id), id, before, after);
      assert before.rows[id] == head.removedValues[id];
    }

    /** squash: merges the top undo state into the one below it, cell by cell. */
    method Squash()
      requires Valid()
      modifies this
      ensures Valid() && (old(Stable()) ==> Stable())
      ensures View() == old(View()).Squash()
      ensures old(|stack|) >= 2 ==>
        && stack[..|stack| - 1] == old(stack)[..|stack| - 1]
        && forall id: nat :: CellOf(stack[|stack| - 1], id)
             == Merge(CellOf(old(stack)[|stack| - 1], id), CellOf(old(stack)[|stack|], id))
    {
      if stack == [] {
        return;
      }
      if |stack| == 1 {
        stack, snapshots := [], [];
        return;
      }
      hide Chained, AllStable, Records, Applicable, KeyedById, Disjoint, MergedRemovals, CellOf, Merge;
      var n := |stack|;
      var state, prev := stack[n - 1], stack[n - 2];
      BeforeSquash(stack, snapshots, Current(), revision);
      var merged := MergeStates(prev, state);
      MergedEverywhere(merged, prev, state);
      AfterSquash(stack, snapshots, Current(), revision, merged);
      stack := stack[..n - 2] + [merged];
      snapshots := snapshots[..n - 1];
      revision := revision - 1;
    }

    // Replays the later state's records on the earlier one: its updates, then its new objects, then its removals.
    method MergeStates(a: UndoState<K, V>, b: UndoState<K, V>) returns (d: UndoState<K, V>)
      requires Disjoint(a) && Disjoint(b) && Applicable(a, b) && KeyedById(b)
      ensures MergedRemovals(d, a, b, {})
    {
      d := MergeUpdates(a, b);
      MergeNewStep(d, a, b);
      d := MergeRemovals(a, b, d.(newIds := d.newIds + b.newIds));
    }

    method MergeUpdates(a: UndoState<K, V>, b: UndoState<K, V>) returns (d: UndoState<K, V>)
      requires Disjoint(a) && Disjoint(b) && Applicable(a, b) && KeyedById(b)
      ensures MergedUpdates(d, a, b, {})
    {
      d := a;
      var todo := b.oldValues.Keys;
      assert b.oldValues.Keys - todo == {};
      while todo != {}
        invariant todo <= b.oldValues.Keys
        invariant MergedUpdates(d, a, b, todo)
        decreases |todo|
      {
        var id :| id in todo;
        MergeUpdateStep(d, a, b, todo, id);
        d := OnModify(d, b.oldValues[id]);
        todo := todo - {id};
      }
    }

    method MergeRemovals(a: UndoState<K, V>, b: UndoState<K, V>, d0: UndoState<K, V>) returns (d: UndoState<K, V>)
      requires Disjoint(a) && Disjoint(b) && Applicable(a, b) && KeyedById(b)
      requires MergedRemovals(d0, a, b, b.removedValues.Keys)
      ensures MergedRemovals(d, a, b, {})
    {
      d := d0;
      var todo := b.removedValues.Keys;
      while todo != {}
        invariant todo <= b.removedValues.Keys
        invariant MergedRemovals(d, a, b, todo)
        decreases |todo|
      {
        var id :| id in todo;
        MergeRemovalStep(d, a, b, todo, id);
        d := OnRemove(d, b.removedValues[id]);
        todo := todo - {id};
      }
    }

    /** commit: drops the oldest states with a revision of at most r. */
    method Commit(r: int)
      requires Valid()
      modifies this
      ensures Valid() && (old(Stable()) ==> Stable())
      ensures View() == old(View()).Commit(r)
    {
      hide AllStable, Records, WellFormed, CellHolds;
      ghost var k := 0;
      while stack != [] && stack[0].revision <= r
        invariant 0 <= k <= old(|stack|)
        invariant stack == old(stack)[k..] && snapshots == old(snapshots)[k..]
        invariant rows == old(rows) && nextId == old(nextId) && revision == old(revision)
        invariant k == 0 || old(View()).RevisionOf(k - 1) <= r
        invariant Valid() && (old(Stable()) ==> Stable())
        decreases |stack|
      {
        DropOldest(stack, snapshots, Current(), revision);
        stack, snapshots := stack[1..], snapshots[1..];
        k := k + 1;
      }
      assert k == old(View()).Committed(r);
    }

    // Every undo, from the newest session down, meets free keys.
    ghost predicate AllKeysFree()
      reads this
      requires |snapshots| == |stack|
    {
      KeysFreeDown(stack, snapshots, Current())
    }

    method UndoAll() returns (ok: bool)
      requires Valid()
      modifies this
      ensures ok <==> old(AllKeysFree())
      ensures old(Stable()) ==> ok
      ensures ok ==> Valid() && (old(Stable()) ==> Stable())
      ensures ok ==> View() == old(View()).UndoAll()
    {
      hide Chained, AllStable, KeysFree, StoppedAt, KeysFreeDown;
      while stack != []
        invariant Valid() && (old(Stable()) ==> Stable())
        invariant AllKeysFree() <==> old(AllKeysFree())
        invariant View().UndoAll() == old(View()).UndoAll()
        decreases |stack|
      {
        KeysFreeBelow(stack, snapshots, Current());
        ok := Undo();
        if !ok {
          return;
        }
      }
      NothingToFree(Current());
      assert stack == [] && snapshots == [];
      ok := true;
    }

    method SetRevision(r: int) returns (ok: bool)
      requires Valid()
      modifies this`revision
      ensures ok <==> stack == []
      ensures Valid() && View() == if ok then old(View()).(revision := r) else old(View())
    {
      if stack != [] {
        return false;
      }
      revision := r;
      ok := true;
    }
  }
}
