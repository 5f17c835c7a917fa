/**
 * chainbase's `database`: several object indices whose undo stacks move in
 * lockstep, so that together they have one history; and its `session`, which
 * undoes when it goes out of scope unless it was pushed or squashed first.
 */
module ChainbaseDatabase {
  import opened Undo
  import opened Delta
  import opened GenericIndex

  // ---------- Many histories as one ----------

  ghost predicate Lockstep<S>(hs: seq<History<S>>) {
    forall i, j :: 0 <= i < |hs| && 0 <= j < |hs| ==>
      hs[i].revision == hs[j].revision && |hs[i].saved| == |hs[j].saved|
  }

  ghost function Zip<S>(hs: seq<History<S>>): History<seq<S>>
    requires hs != [] && Lockstep(hs)
  {
    History(
      seq(|hs|, i requires 0 <= i < |hs| => hs[i].current),
      seq(|hs[0].saved|, d requires 0 <= d < |hs[0].saved| =>
        seq(|hs|, i requires 0 <= i < |hs| => hs[i].saved[d])),
      hs[0].revision)
  }

  datatype Move = Start | Undo | Squash | Commit(r: int) | UndoAll

  ghost function Moved<S>(h: History<S>, m: Move): History<S> {
    match m
    case Start => h.StartSession()
    case Undo => h.UndoTop()
    case Squash => h.Squash()
    case Commit(r) => h.Commit(r)
    case UndoAll => h.UndoAll()
  }

  // Histories in lockstep stay so under a move, and a saved value of each comes from one place.
  lemma MovedAlike<S, T>(h: History<S>, z: History<T>, m: Move, d: nat)
    requires h.revision == z.revision && |h.saved| == |z.saved|
    ensures Moved(h, m).revision == Moved(z, m).revision && |Moved(h, m).saved| == |Moved(z, m).saved|
    ensures d < |Moved(h, m).saved| ==>
      if m.Start? && d == |h.saved| then Moved(h, m).saved[d] == h.current && Moved(z, m).saved[d] == z.current
      else
        var e := if m.Commit? then d + h.Committed(m.r) else d;
        e < |h.saved| && Moved(h, m).saved[d] == h.saved[e] && Moved(z, m).saved[d] == z.saved[e]
    ensures if m.Undo? && h.saved != [] then Moved(h, m).current == h.saved[|h.saved| - 1] && Moved(z, m).current == z.saved[|z.saved| - 1]
            else if m.UndoAll? && h.saved != [] then Moved(h, m).current == h.saved[0] && Moved(z, m).current == z.saved[0]
            else Moved(h, m).current == h.current && Moved(z, m).current == z.current
  {
    if m.Commit? {
      CommittedAlike(h, z, m.r);
    }
    hide History.Committed;
  }

  lemma CommittedAlike<S, T>(h: History<S>, z: History<T>, r: int)
    requires h.revision == z.revision && |h.saved| == |z.saved|
    ensures h.Committed(r) == z.Committed(r) <= |h.saved|
  {
  }

  lemma ZipLike<S>(hs: seq<History<S>>, i: nat)
    requires i < |hs| && Lockstep(hs)
    ensures
      var z := Zip(hs);
      && z.revision == hs[i].revision && |z.saved| == |hs[i].saved| && z.current[i] == hs[i].current
      && forall d :: 0 <= d < |z.saved| ==> z.saved[d][i] == hs[i].saved[d]
    ensures |Zip(hs).current| == |hs| && forall d :: 0 <= d < |Zip(hs).saved| ==> |Zip(hs).saved[d]| == |hs|
  {
  }

  // Moving every index moves the whole database, in one piece.
  lemma ZipMoved<S>(hs: seq<History<S>>, hs': seq<History<S>>, m: Move)
    requires hs != [] && Lockstep(hs) && |hs'| == |hs|
    requires forall i :: 0 <= i < |hs| ==> hs'[i] == Moved(hs[i], m)
    ensures Lockstep(hs') && Zip(hs') == Moved(Zip(hs), m)
  {
    var z, z' := Zip(hs), Moved(Zip(hs), m);
    forall i | 0 <= i < |hs| ensures hs'[i].revision == z'.revision && |hs'[i].saved| == |z'.saved| {
      ZipLike(hs, i);
      MovedAlike(hs[i], z, m, 0);
    }
    var y := Zip(hs');
    hide Moved, Zip;
    ZipLike(hs', 0);
    ZipLike(hs, 0);
    MovedAlike(hs[0], z, m, 0);
    assert y.current == z'.current by {
      forall i | 0 <= i < |hs| ensures y.current[i] == z'.current[i] {
        ZipLike(hs, i);
        ZipLike(hs', i);
        MovedAlike(hs[i], z, m, 0);
      }
    }
    forall d | 0 <= d < |z'.saved| ensures y.saved[d] == z'.saved[d] {
      MovedAlike(hs[0], z, m, d);
      forall i | 0 <= i < |hs| ensures y.saved[d][i] == z'.saved[d][i] {
        ZipLike(hs, i);
        ZipLike(hs', i);
        MovedAlike(hs[i], z, m, d);
      }
    }
    assert y.saved == z'.saved;
  }

  // Changing the current table of one index is a write of the whole database.
  lemma ZipWrite<S>(hs: seq<History<S>>, hs': seq<History<S>>, k: nat, s: S)
    requires hs != [] && Lockstep(hs) && k < |hs| && hs' == hs[k := hs[k].Write(s)]
    ensures Lockstep(hs') && Zip(hs') == Zip(hs).Write(Zip(hs).current[k := s])
  {
    assert Zip(hs').current == Zip(hs).current[k := s];
    forall d | 0 <= d < |hs[0].saved| ensures Zip(hs').saved[d] == Zip(hs).saved[d] {
      forall i | 0 <= i < |hs| ensures Zip(hs').saved[d][i] == Zip(hs).saved[d][i] {
        assert |hs[i].saved| == |hs[0].saved|;
      }
    }
    assert Zip(hs').saved == Zip(hs).saved;
  }

  class Database<K(==), V> {
    const indexes: seq<Index<K, V>>

    constructor (indexes: seq<Index<K, V>>)
      ensures this.indexes == indexes
    {
      this.indexes := indexes;
    }

    ghost function Views(): seq<History<Table<K, V>>>
      reads indexes
    {
      seq(|indexes|, i requires 0 <= i < |indexes| reads indexes => indexes[i].View())
    }

    ghost predicate Valid()
      reads indexes
    {
      && indexes != []
      && (forall i, j :: 0 <= i < j < |indexes| ==> indexes[i] != indexes[j])
      && (forall i :: 0 <= i < |indexes| ==> indexes[i].Valid())
      && Lockstep(Views())
    }

    ghost predicate Stable()
      reads indexes
      requires Valid()
    {
      forall i :: 0 <= i < |indexes| ==> indexes[i].Stable()
    }

    ghost function View(): History<seq<Table<K, V>>>
      reads indexes
      requires Valid()
    {
      Zip(Views())
    }

    function Revision(): int
      reads indexes
    {
      if indexes == [] then -1 else indexes[0].revision
    }

    method StartUndoSession()
      requires Valid()
      modifies indexes
      ensures Valid() && (old(Stable()) ==> Stable())
      ensures View() == old(View()).StartSession()
    {
      hide Chained, AllStable, Zip, Lockstep, History.StartSession;
      ghost var views := Views();
      for k := 0 to |indexes|
        invariant forall i :: 0 <= i < |indexes| ==> indexes[i].Valid() && (old(Stable()) ==> indexes[i].Stable())
        invariant forall i :: 0 <= i < |indexes| ==>
          indexes[i].View() == if i < k then Moved(views[i], Move.Start) else views[i]
      {
        indexes[k].StartUndoSession();
      }
      ZipMoved(views, Views(), Move.Start);
    }

    ghost predicate KeysAreFree()
      reads indexes
    {
      forall i :: 0 <= i < |indexes| ==> indexes[i].KeysAreFree()
    }

    ghost predicate UndoneUpTo(views: seq<History<Table<K, V>>>, k: nat)
      reads indexes
      requires k <= |indexes| == |views|
    {
      forall i :: 0 <= i < k ==> indexes[i].View() == views[i].UndoTop()
    }

    /** undo; when an index throws, those before it are undone and those after it are not. */
    method Undo() returns (ok: bool)
      requires Valid()
      modifies indexes
      ensures ok <==> old(KeysAreFree())
      ensures old(Stable()) ==> ok
      ensures ok ==> Valid() && (old(Stable()) ==> Stable())
      ensures ok ==> View() == old(View()).UndoTop()
      ensures !ok ==>
        exists k :: 0 <= k < |indexes| && !old(indexes[k].KeysAreFree()) && UndoneUpTo(old(Views()), k) &&
                    forall i :: k < i < |indexes| ==> unchanged(indexes[i])
    {
      hide KeysAreFree, Stable, Valid, Views, UndoneUpTo, Index.KeysAreFree;
      var done := UndoInTurn();
      ok := done == |indexes|;
    }

    /** The loop of undo over the indexes: how many of them are undone, before one throws. */
    method UndoInTurn() returns (done: nat)
      requires Valid()
      modifies indexes
      ensures done <= |indexes| && (done == |indexes| <==> old(KeysAreFree()))
      ensures old(Stable()) ==> done == |indexes|
      ensures done == |indexes| ==> Valid() && (old(Stable()) ==> Stable()) && View() == old(View()).UndoTop()
      ensures done < |indexes| ==>
        && !old(indexes[done].KeysAreFree()) && UndoneUpTo(old(Views()), done)
        && forall i :: done < i < |indexes| ==> unchanged(indexes[i])
    {
      hide Chained, AllStable, Zip, Lockstep, History.UndoTop, Index.KeysAreFree, KeysFree, StoppedAt;
      ghost var views := Views();
      done := 0;
      while done < |indexes|
        invariant done <= |indexes|
        invariant forall i :: 0 <= i < |indexes| ==> indexes[i].Valid() && (old(Stable()) ==> indexes[i].Stable())
        invariant forall i :: 0 <= i < |indexes| ==>
          indexes[i].View() == if i < done then Moved(views[i], Move.Undo) else views[i]
        invariant forall i :: done <= i < |indexes| ==> unchanged(indexes[i])
        invariant forall i :: 0 <= i < done ==> old(indexes[i].KeysAreFree())
      {
        var ok := indexes[done].Undo();
        if !ok {
          assert UndoneUpTo(views, done);
          return;
        }
        done := done + 1;
      }
      ZipMoved(views, Views(), Move.Undo);
    }

    method Squash()
      requires Valid()
      modifies indexes
      ensures Valid() && (old(Stable()) ==> Stable())
      ensures View() == old(View()).Squash()
    {
      hide Chained, AllStable, Zip, Lockstep, History.Squash;
      ghost var views := Views();
      for k := 0 to |indexes|
        invariant forall i :: 0 <= i < |indexes| ==> indexes[i].Valid() && (old(Stable()) ==> indexes[i].Stable())
        invariant forall i :: 0 <= i < |indexes| ==>
          indexes[i].View() == if i < k then Moved(views[i], Move.Squash) else views[i]
      {
        indexes[k].Squash();
      }
      ZipMoved(views, Views(), Move.Squash);
    }

    method Commit(r: int)
      requires Valid()
      modifies indexes
      ensures Valid() && (old(Stable()) ==> Stable())
      ensures View() == old(View()).Commit(r)
    {
      hide Chained, AllStable, Zip, Lockstep, History.Commit;
      ghost var views := Views();
      for k := 0 to |indexes|
        invariant forall i :: 0 <= i < |indexes| ==> indexes[i].Valid() && (old(Stable()) ==> indexes[i].Stable())
        invariant forall i :: 0 <= i < |indexes| ==>
          indexes[i].View() == if i < k then Moved(views[i], Move.Commit(r)) else views[i]
      {
        indexes[k].Commit(r);
      }
      ZipMoved(views, Views(), Move.Commit(r));
    }

    method UndoAll() returns (ok: bool)
      requires Valid()
      modifies indexes
      ensures ok <==> old(forall i :: 0 <= i < |indexes| ==> indexes[i].AllKeysFree())
      ensures old(Stable()) ==> ok
      ensures ok ==> Valid() && (old(Stable()) ==> Stable())
      ensures ok ==> View() == old(View()).UndoAll()
    {
      hide Chained, AllStable, Zip, Lockstep, History.UndoAll, KeysFreeDown;
      ghost var views := Views();
      for k := 0 to |indexes|
        invariant forall i :: 0 <= i < |indexes| ==> indexes[i].Valid() && (old(Stable()) ==> indexes[i].Stable())
        invariant forall i :: 0 <= i < |indexes| ==>
          indexes[i].View() == if i < k then Moved(views[i], Move.UndoAll) else views[i]
        invariant forall i :: k <= i < |indexes| ==> unchanged(indexes[i])
        invariant forall i :: 0 <= i < k ==> old(indexes[i].AllKeysFree())
      {
        ok := indexes[k].UndoAll();
        if !ok {
          return;
        }
      }
      ok := true;
      ZipMoved(views, Views(), Move.UndoAll);
    }

    /** create in the k-th index: the whole database is written at one place, or left alone. */
    method Create(k: nat, keys: set<K>, value: V) returns (id: nat, ok: bool)
      requires Valid() && k < |indexes|
      modifies indexes[k]
      ensures Valid() && (old(Stable()) ==> Stable())
      ensures ok <==> !Clashes(old(indexes[k].rows), Row(old(indexes[k].nextId), keys, value))
      ensures View() == if ok
        then old(View()).Write(old(View()).current[k := Table(old(indexes[k].rows)[id := Row(id, keys, value)], id + 1)])
        else old(View())
    {
      hide Chained, AllStable;
      ghost var views := Views();
      id, ok := indexes[k].Emplace(keys, value);
      if ok {
        assert Views() == views[k := views[k].Write(Table(old(indexes[k].rows)[id := Row(id, keys, value)], id + 1))];
        ZipWrite(views, Views(), k, Table(old(indexes[k].rows)[id := Row(id, keys, value)], id + 1));
      } else {
        assert Views() == views;
      }
    }

    /** modify in the k-th index. */
    method Modify(k: nat, id: nat, keys: set<K>, value: V) returns (ok: bool)
      requires Valid() && k < |indexes| && id in indexes[k].rows
      modifies indexes[k]
      ensures ok <==> !Clashes(old(indexes[k].rows), Row(id, keys, value))
      ensures ok ==> Valid()
      ensures ok && old(Stable()) && keys == old(indexes[k].rows[id].keys) ==> Stable()
      ensures !ok ==>
        indexes[k].View() == old(indexes[k].View()).Write(Table(old(indexes[k].rows) - {id}, old(indexes[k].nextId)))
      ensures ok ==>
        View() == old(View()).Write(old(View()).current[k := Table(old(indexes[k].rows)[id := Row(id, keys, value)], old(indexes[k].nextId))])
    {
      hide Chained, AllStable;
      ghost var views, t := Views(), Table(indexes[k].rows[id := Row(id, keys, value)], indexes[k].nextId);
      ok := indexes[k].Modify(id, keys, value);
      if ok {
        assert Views() == views[k := views[k].Write(t)];
        ZipWrite(views, Views(), k, t);
      }
    }

    /** remove in the k-th index. */
    method Remove(k: nat, id: nat)
      requires Valid() && k < |indexes| && id in indexes[k].rows
      modifies indexes[k]
      ensures Valid() && (old(Stable()) ==> Stable())
      ensures View() == old(View()).Write(old(View()).current[k := Table(old(indexes[k].rows) - {id}, old(indexes[k].nextId))])
    {
      hide Chained, AllStable;
      ghost var views, t := Views(), Table(indexes[k].rows - {id}, indexes[k].nextId);
      indexes[k].Remove(id);
      assert Views() == views[k := views[k].Write(t)];
      ZipWrite(views, Views(), k, t);
    }
  }

  /**
   * A session holds one undo state of every index of its database until it is pushed, squashed or undone. The
   * sub-sessions of the first `disarmed` indexes have been; an exception on the way leaves the others armed.
   */
  class Session<K(==), V> {
    const db: Database<K, V>
    var disarmed: nat

    ghost predicate Armed()
      reads this
    {
      disarmed == 0
    }

    // Nothing more to do: destroying the session does nothing.
    ghost predicate Used()
      reads this
    {
      disarmed == |db.indexes|
    }

    constructor (db: Database<K, V>)
      requires db.Valid()
      modifies db.indexes
      ensures this.db == db && Armed() && !Used()
      ensures db.Valid() && (old(db.Stable()) ==> db.Stable())
      ensures db.View() == old(db.View()).StartSession()
    {
      hide Chained, AllStable, Zip, Lockstep, History.StartSession;
      this.db := db;
      disarmed := 0;
      new;
      db.StartUndoSession();
    }

    // Leaves the undo state on the stack.
    method Push()
      requires db.Valid()
      modifies this
      ensures Used() && db.Valid() && db.View() == old(db.View())
      ensures old(db.Stable()) ==> db.Stable()
    {
      disarmed := |db.indexes|;
    }

    method Squash()
      requires db.Valid() && (Armed() || Used())
      modifies this, db.indexes
      ensures Used() && db.Valid()
      ensures old(db.Stable()) ==> db.Stable()
      ensures db.View() == if old(Armed()) then old(db.View()).Squash() else old(db.View())
    {
      hide Chained, AllStable, Zip, Lockstep, History.Squash;
      if disarmed == 0 {
        db.Squash();
      }
      disarmed := |db.indexes|;
    }

    // Also what the destructor does. When an index throws, its sub-session and those after it stay armed.
    method Undo() returns (ok: bool)
      requires db.Valid() && (Armed() || Used())
      modifies this, db.indexes
      ensures ok <==> old(Used()) || old(db.KeysAreFree())
      ensures old(db.Stable()) ==> ok
      ensures ok ==> Used() && db.Valid() && (old(db.Stable()) ==> db.Stable())
      ensures ok ==> db.View() == if old(Armed()) then old(db.View()).UndoTop() else old(db.View())
      ensures !ok ==>
        var k := disarmed;
        && k < |db.indexes| && !old(db.indexes[k].KeysAreFree()) && db.UndoneUpTo(old(db.Views()), k)
        && forall i :: k < i < |db.indexes| ==> unchanged(db.indexes[i])
    {
      hide Chained, AllStable, Zip, Lockstep, History.UndoTop, KeysFree, Index.KeysAreFree;
      if disarmed == 0 {
        disarmed := db.UndoInTurn();
      }
      ok := disarmed == |db.indexes|;
    }
  }
}
