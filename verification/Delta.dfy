/**
 * One undo state (`undo_state`): what a session has changed, relative to the
 * table it started from. `Records` says what it means; the four-by-four matrix
 * `Merge` says how two consecutive ones compose.
 */
module Delta {

  // A stored object. `keys` are its unique secondary keys, each tagged with its index,
  // so that two objects violate a uniqueness constraint iff they share one.
  datatype Row<K, V> = Row(id: nat, keys: set<K>, value: V)

  datatype Table<K, V> = Table(rows: map<nat, Row<K, V>>, nextId: nat)

  datatype UndoState<K, V> = UndoState(
    oldValues: map<nat, Row<K, V>>,
    removedValues: map<nat, Row<K, V>>,
    newIds: set<nat>,
    oldNextId: nat,
    revision: int)

  // Inserting or storing `row` would violate a uniqueness constraint.
  predicate Clashes<K, V>(rows: map<nat, Row<K, V>>, row: Row<K, V>) {
    exists id :: id in rows && id != row.id && !(rows[id].keys !! row.keys)
  }

  ghost predicate WellFormed<K, V>(t: Table<K, V>) {
    && (forall id :: id in t.rows ==> t.rows[id].id == id && id < t.nextId)
    && (forall i, j :: i in t.rows && j in t.rows && i != j ==> t.rows[i].keys !! t.rows[j].keys)
  }

  // An object's relationship to an undo state.
  datatype Cell<K, V> = New | Upd(was: Row<K, V>) | Del(was: Row<K, V>) | Nop

  function CellOf<K, V>(d: UndoState<K, V>, id: nat): Cell<K, V> {
    if id in d.newIds then New
    else if id in d.oldValues then Upd(d.oldValues[id])
    else if id in d.removedValues then Del(d.removedValues[id])
    else Nop
  }

  ghost predicate Disjoint<K, V>(d: UndoState<K, V>) {
    && d.newIds !! d.oldValues.Keys
    && d.newIds !! d.removedValues.Keys
    && d.oldValues.Keys !! d.removedValues.Keys
  }

  // What a cell says about one object before and after the session.
  ghost predicate CellHolds<K, V>(c: Cell<K, V>, id: nat, before: Table<K, V>, after: Table<K, V>) {
    match c
    case New => id !in before.rows && id in after.rows && before.nextId <= id
    case Upd(was) => id in before.rows && before.rows[id] == was && id in after.rows && id < before.nextId
    case Del(was) => id in before.rows && before.rows[id] == was && id !in after.rows && id < before.nextId
    case Nop =>
      && (id in before.rows <==> id in after.rows)
      && (id in before.rows ==> before.rows[id] == after.rows[id])
  }

  // `d` records how to get from `after` back to `before`.
  ghost predicate Records<K, V>(d: UndoState<K, V>, before: Table<K, V>, after: Table<K, V>) {
    && Disjoint(d)
    && d.oldNextId == before.nextId <= after.nextId
    && (forall id: nat :: CellHolds(CellOf(d, id), id, before, after))
  }

  // No recorded update has touched a unique key.
  ghost predicate KeysStable<K, V>(d: UndoState<K, V>, after: Table<K, V>) {
    forall id :: id in d.oldValues && id in after.rows ==> after.rows[id].keys == d.oldValues[id].keys
  }

  /** The matrix of chainbase.hpp for merging the change `a` followed by the change `b`. */
  function Merge<K, V>(a: Cell<K, V>, b: Cell<K, V>): Cell<K, V> {
    match (a, b)
    case (New, Upd(_)) => New
    case (New, Del(_)) => Nop
    case (New, Nop) => New
    case (Upd(x), Upd(_)) => Upd(x)
    case (Upd(x), Del(_)) => Del(x)
    case (Upd(x), Nop) => Upd(x)
    case (Del(x), Nop) => Del(x)
    case (Nop, _) => b
    case (_, _) => Nop  // violates causal timing, see MergeIsCausal
  }

  predicate NotApplicable<K, V>(a: Cell<K, V>, b: Cell<K, V>) {
    || (b.New? && !a.Nop?)
    || (a.Del? && !b.Nop?)
  }

  // The cells marked N/A cannot meet: the asserts of squash never fire.
  lemma MergeIsCausal<K, V>(a: UndoState<K, V>, b: UndoState<K, V>, s0: Table<K, V>, s1: Table<K, V>, s2: Table<K, V>, id: nat)
    requires Records(a, s0, s1) && Records(b, s1, s2)
    requires WellFormed(s0) && WellFormed(s1) && WellFormed(s2)
    ensures !NotApplicable(CellOf(a, id), CellOf(b, id))
  {
    assert CellHolds(CellOf(a, id), id, s0, s1);
    assert CellHolds(CellOf(b, id), id, s1, s2);
  }

  // A state with the merged cells takes two sessions back at once.
  lemma MergeComposes<K, V>(a: UndoState<K, V>, b: UndoState<K, V>, d: UndoState<K, V>, s0: Table<K, V>, s1: Table<K, V>, s2: Table<K, V>)
    requires Records(a, s0, s1) && Records(b, s1, s2)
    requires WellFormed(s0) && WellFormed(s1) && WellFormed(s2)
    requires Disjoint(d) && d.oldNextId == a.oldNextId
    requires forall id: nat :: CellOf(d, id) == Merge(CellOf(a, id), CellOf(b, id))
    ensures Records(d, s0, s2)
    ensures KeysStable(a, s1) && KeysStable(b, s2) ==> KeysStable(d, s2)
  {
    forall id: nat ensures CellHolds(CellOf(d, id), id, s0, s2) {
      MergeIsCausal(a, b, s0, s1, s2, id);
      assert CellHolds(CellOf(a, id), id, s0, s1);
      assert CellHolds(CellOf(b, id), id, s1, s2);
    }
    if KeysStable(a, s1) && KeysStable(b, s2) {
      forall id | id in d.oldValues && id in s2.rows
        ensures s2.rows[id].keys == d.oldValues[id].keys
      {
        assert CellOf(d, id) == Merge(CellOf(a, id), CellOf(b, id));
        assert CellHolds(CellOf(a, id), id, s0, s1);
        assert CellHolds(CellOf(b, id), id, s1, s2);
      }
    }
  }

  // A recorded state determines the table it started from.
  lemma RecordsIsFunctional<K, V>(d: UndoState<K, V>, s0: Table<K, V>, s0': Table<K, V>, s1: Table<K, V>)
    requires Records(d, s0, s1) && Records(d, s0', s1)
    ensures s0 == s0'
  {
    forall id: nat
      ensures id in s0.rows <==> id in s0'.rows
      ensures id in s0.rows ==> s0.rows[id] == s0'.rows[id]
    {
      assert CellHolds(CellOf(d, id), id, s0, s1);
      assert CellHolds(CellOf(d, id), id, s0', s1);
    }
  }

  // ---------- The bookkeeping of on_create, on_modify and on_remove ----------

  function OnCreate<K, V>(d: UndoState<K, V>, id: nat): UndoState<K, V> {
    d.(newIds := d.newIds + {id})
  }

  function OnModify<K, V>(d: UndoState<K, V>, row: Row<K, V>): UndoState<K, V> {
    if row.id in d.newIds || row.id in d.oldValues then d
    else d.(oldValues := d.oldValues[row.id := row])
  }

  function OnRemove<K, V>(d: UndoState<K, V>, row: Row<K, V>): UndoState<K, V> {
    if row.id in d.newIds then d.(newIds := d.newIds - {row.id})
    else if row.id in d.oldValues then
      d.(removedValues := d.removedValues[row.id := d.oldValues[row.id]],
         oldValues := d.oldValues - {row.id})
    else if row.id in d.removedValues then d
    else d.(removedValues := d.removedValues[row.id := row])
  }

  lemma OnCreateRecords<K, V>(d: UndoState<K, V>, before: Table<K, V>, after: Table<K, V>, row: Row<K, V>)
    requires Records(d, before, after) && WellFormed(before) && WellFormed(after)
    requires row.id == after.nextId
    ensures Records(OnCreate(d, row.id), before, Table(after.rows[row.id := row], after.nextId + 1))
    ensures KeysStable(d, after) ==>
      KeysStable(OnCreate(d, row.id), Table(after.rows[row.id := row], after.nextId + 1))
  {
    var d' := OnCreate(d, row.id);
    var after' := Table(after.rows[row.id := row], after.nextId + 1);
    assert CellHolds(CellOf(d, row.id), row.id, before, after);
    forall id: nat ensures CellHolds(CellOf(d', id), id, before, after') {
      assert CellHolds(CellOf(d, id), id, before, after);
    }
    assert Disjoint(d');
  }

  lemma OnModifyRecords<K, V>(d: UndoState<K, V>, before: Table<K, V>, after: Table<K, V>, row: Row<K, V>)
    requires Records(d, before, after) && WellFormed(before) && WellFormed(after)
    requires row.id in after.rows
    ensures Records(OnModify(d, after.rows[row.id]), before, after.(rows := after.rows[row.id := row]))
    ensures KeysStable(d, after) && row.keys == after.rows[row.id].keys ==>
      KeysStable(OnModify(d, after.rows[row.id]), after.(rows := after.rows[row.id := row]))
  {
    var d' := OnModify(d, after.rows[row.id]);
    var after' := after.(rows := after.rows[row.id := row]);
    assert CellHolds(CellOf(d, row.id), row.id, before, after);
    forall id: nat ensures CellHolds(CellOf(d', id), id, before, after') {
      assert CellHolds(CellOf(d, id), id, before, after);
    }
    assert Disjoint(d');
  }

  lemma OnRemoveRecords<K, V>(d: UndoState<K, V>, before: Table<K, V>, after: Table<K, V>, id: nat)
    requires Records(d, before, after) && WellFormed(before) && WellFormed(after)
    requires id in after.rows
    ensures Records(OnRemove(d, after.rows[id]), before, after.(rows := after.rows - {id}))
    ensures KeysStable(d, after) ==>
      KeysStable(OnRemove(d, after.rows[id]), after.(rows := after.rows - {id}))
  {
    var d' := OnRemove(d, after.rows[id]);
    var after' := after.(rows := after.rows - {id});
    assert CellHolds(CellOf(d, id), id, before, after);
    forall i: nat ensures CellHolds(CellOf(d', i), i, before, after') {
      assert CellHolds(CellOf(d, i), i, before, after);
    }
    assert Disjoint(d');
  }
}
