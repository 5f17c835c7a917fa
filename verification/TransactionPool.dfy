/**
 * Pending transactions around the chain: push_transaction, push_block with the
 * pending transactions set aside and put back, and block generation.
 */
module TransactionPool {
  import opened Undo
  import opened Common
  import opened ChainTypes
  import opened ChainState
  import opened Evaluators
  import opened ChainNode
  import opened Controller

  const MAX_TRANSACTIONS_PER_BLOCK := 3000

  // pack_size of an empty signed_block_header
  type HeaderSize = n: nat | n + 1 <= NEWS_MAX_BLOCK_SIZE witness 0

  // The size of an unsigned_int in packed form.
  function VarintSize(n: nat): nat {
    if n < 128 then 1 else 1 + VarintSize(n / 128)
  }

  function SizeOf(ts: seq<Transaction>): nat {
    if ts == [] then 0 else SizeOf(ts[..|ts| - 1]) + ts[|ts| - 1].size
  }

  // pack_size of a signed block whose header packs into `header` bytes.
  function PackSize(header: nat, ts: seq<Transaction>): nat {
    header + VarintSize(|ts|) + SizeOf(ts)
  }

  /**
   * The transactions a block is made of: in order, those that have not expired by `when` and apply
   * on top of the ones taken before, until one would not fit or the count is used up.
   */
  function Select(checks: Checks, s: State, pending: seq<Transaction>, when: nat, size: nat, count: nat): seq<Transaction>
    decreases |pending|
  {
    if pending == [] then []
    else
      var t, rest := pending[0], pending[1..];
      if t.id.expiration < when then Select(checks, s, rest, when, size, count)
      else if count == 0 || size + t.size >= NEWS_MAX_BLOCK_SIZE then []
      else
        var r := ApplyTransaction(checks, s, t);
        if r.Threw? then Select(checks, s, rest, when, size, count)
        else [t] + Select(checks, r.state, rest, when, size + t.size, count - 1)
  }

  // The selected transactions apply again, in order, from the state they were selected on.
  lemma {:induction false} SelectedApply(checks: Checks, s: State, pending: seq<Transaction>, when: nat, size: nat, count: nat)
    ensures ApplyTransactions(checks, s, Select(checks, s, pending, when, size, count)).Applied?
    decreases |pending|
  {
    if pending != [] {
      var t, rest := pending[0], pending[1..];
      SelectedApply(checks, s, rest, when, size, count);
      var r := ApplyTransaction(checks, s, t);
      if r.Applied? && count > 0 {
        SelectedApply(checks, r.state, rest, when, size + t.size, count - 1);
        var more := Select(checks, r.state, rest, when, size + t.size, count - 1);
        assert ([t] + more)[1..] == more;
      }
    }
  }

  lemma {:induction false} SizeOfPrepend(t: Transaction, ts: seq<Transaction>)
    ensures SizeOf([t] + ts) == t.size + SizeOf(ts)
    decreases |ts|
  {
    if ts == [] {
      assert ([t] + ts)[..0] == [];
    } else {
      var n := |ts| - 1;
      SizeOfPrepend(t, ts[..n]);
      assert ([t] + ts)[..n + 1] == [t] + ts[..n];
    }
  }

  lemma {:induction false} SelectedFit(checks: Checks, s: State, pending: seq<Transaction>, when: nat, size: nat, count: nat)
    ensures
      var ts := Select(checks, s, pending, when, size, count);
      && |ts| <= count
      && (ts != [] ==> size + SizeOf(ts) < NEWS_MAX_BLOCK_SIZE)
    ensures forall t :: t in Select(checks, s, pending, when, size, count) ==> t in pending && when <= t.id.expiration
    decreases |pending|
  {
    hide ApplyTransaction;
    if pending != [] {
      var t, rest := pending[0], pending[1..];
      SelectedFit(checks, s, rest, when, size, count);
      var r := ApplyTransaction(checks, s, t);
      if r.Applied? && count > 0 {
        SelectedFit(checks, r.state, rest, when, size + t.size, count - 1);
        SizeOfPrepend(t, Select(checks, r.state, rest, when, size + t.size, count - 1));
      }
    }
  }

  // The assert on the size of a generated block cannot fail.
  lemma GeneratedSize(checks: Checks, s: State, pending: seq<Transaction>, when: nat, header: HeaderSize)
    ensures PackSize(header, Select(checks, s, pending, when, header + 4, MAX_TRANSACTIONS_PER_BLOCK)) <= NEWS_MAX_BLOCK_SIZE
  {
    SelectedFit(checks, s, pending, when, header + 4, MAX_TRANSACTIONS_PER_BLOCK);
    var n := |Select(checks, s, pending, when, header + 4, MAX_TRANSACTIONS_PER_BLOCK)|;
    assert n / 128 < 128;
    assert VarintSize(n) <= 2;
  }

  // A generated block applies to the state it was generated on exactly when its slot lies ahead.
  lemma GeneratedBlockApplies(checks: Checks, s: State, pending: seq<Transaction>, when: nat, header: nat, b: Block)
    requires b.timestamp == when && b.merkleRootMatches
    requires b.transactions == Select(checks, s, pending, when, header + 4, MAX_TRANSACTIONS_PER_BLOCK)
    ensures ApplyBlock(checks, s, b).Applied? <==> SlotAt(s, when) > 0
  {
    SelectedApply(checks, s, pending, when, header + 4, MAX_TRANSACTIONS_PER_BLOCK);
    TransactionsKeep(checks, s, b.transactions);
  }

  // While there is room for all that is pending, the next transaction is taken exactly when it has
  // not expired and applies on top of those taken before it.
  lemma {:induction false} SelectNext(checks: Checks, s: State, pending: seq<Transaction>, t: Transaction, when: nat, size: nat, count: nat)
    requires |pending| < count && size + SizeOf(pending + [t]) < NEWS_MAX_BLOCK_SIZE
    ensures
      var before := Select(checks, s, pending, when, size, count);
      var on := ApplyTransactions(checks, s, before).state;
      Select(checks, s, pending + [t], when, size, count) ==
        if t.id.expiration >= when && ApplyTransaction(checks, on, t).Applied? then before + [t] else before
    decreases |pending|
  {
    hide *;
    if pending == [] {
      SelectOne(checks, s, t, when, size, count);
    } else {
      var u, rest := pending[0], pending[1..];
      FirstAndRest(pending);
      Associate([u], rest, [t]);
      SizeOfPrepend(u, rest + [t]);
      var r := ApplyTransaction(checks, s, u);
      SelectFirst(checks, s, u, rest, when, size, count);
      SelectFirst(checks, s, u, rest + [t], when, size, count);
      if u.id.expiration < when || r.Threw? {
        SelectNext(checks, s, rest, t, when, size, count);
      } else {
        SelectNext(checks, r.state, rest, t, when, size + u.size, count - 1);
        var more := Select(checks, r.state, rest, when, size + u.size, count - 1);
        AppliesFirst(checks, s, u, more);
        Associate([u], more, [t]);
      }
    }
  }

  lemma SelectOne(checks: Checks, s: State, t: Transaction, when: nat, size: nat, count: nat)
    requires count > 0 && size + SizeOf([] + [t]) < NEWS_MAX_BLOCK_SIZE
    ensures Select(checks, s, [], when, size, count) == [] && ApplyTransactions(checks, s, []) == Applied(s)
    ensures Select(checks, s, [] + [t], when, size, count) ==
      if t.id.expiration >= when && ApplyTransaction(checks, s, t).Applied? then [t] else []
  {
    hide ApplyTransaction;
    assert [] + [t] == [t];
    assert SizeOf([t]) == SizeOf([t][..0]) + t.size;
  }

  lemma AppliesFirst(checks: Checks, s: State, u: Transaction, more: seq<Transaction>)
    requires ApplyTransaction(checks, s, u).Applied?
    ensures ApplyTransactions(checks, s, [u] + more) == ApplyTransactions(checks, ApplyTransaction(checks, s, u).state, more)
  {
    hide ApplyTransaction;
    assert ([u] + more)[1..] == more;
  }

  lemma SelectFirst(checks: Checks, s: State, u: Transaction, rest: seq<Transaction>, when: nat, size: nat, count: nat)
    requires count > 0 && size + u.size < NEWS_MAX_BLOCK_SIZE
    ensures
      var r := ApplyTransaction(checks, s, u);
      Select(checks, s, [u] + rest, when, size, count) ==
        if u.id.expiration < when || r.Threw? then Select(checks, s, rest, when, size, count)
        else [u] + Select(checks, r.state, rest, when, size + u.size, count - 1)
  {
    hide ApplyTransaction;
    assert ([u] + rest)[1..] == rest;
  }

  // What limits a block: so many bytes and so many transactions.
  datatype Room = Room(size: nat, count: nat)

  // An unexpired transaction for which there is no room after those taken.
  predicate Overflows(taken: seq<Transaction>, t: Transaction, when: nat, room: Room) {
    when <= t.id.expiration && (|taken| == room.count || room.size + SizeOf(taken) + t.size >= NEWS_MAX_BLOCK_SIZE)
  }

  // The selection has come to such a transaction.
  predicate Stops(checks: Checks, s: State, pending: seq<Transaction>, when: nat, room: Room)
    decreases |pending|
  {
    pending != [] &&
    var before := pending[..|pending| - 1];
    Stops(checks, s, before, when, room) || Overflows(Select(checks, s, before, when, room.size, room.count), Last(pending), when, room)
  }

  // The limits with one transaction taken.
  function Less(room: Room, u: Transaction): Room
    requires room.count > 0
  {
    Room(room.size + u.size, room.count - 1)
  }

  lemma SelectUnfold(checks: Checks, s: State, u: Transaction, rest: seq<Transaction>, when: nat, room: Room)
    ensures
      var r := ApplyTransaction(checks, s, u);
      Select(checks, s, [u] + rest, when, room.size, room.count) ==
        if u.id.expiration < when then Select(checks, s, rest, when, room.size, room.count)
        else if Overflows([], u, when, room) then []
        else if r.Threw? then Select(checks, s, rest, when, room.size, room.count)
        else [u] + Select(checks, r.state, rest, when, Less(room, u).size, Less(room, u).count)
  {
    hide ApplyTransaction;
    assert ([u] + rest)[1..] == rest;
  }

  lemma OverflowsAfter(taken: seq<Transaction>, u: Transaction, t: Transaction, when: nat, room: Room)
    requires room.count > 0
    ensures Overflows([u] + taken, t, when, room) <==> Overflows(taken, t, when, Less(room, u))
  {
    SizeOfPrepend(u, taken);
  }

  // What the first transaction makes of the rest.
  lemma {:induction false} StopsUnfold(checks: Checks, s: State, u: Transaction, rest: seq<Transaction>, when: nat, room: Room)
    ensures
      var r := ApplyTransaction(checks, s, u);
      Stops(checks, s, [u] + rest, when, room) <==>
        if u.id.expiration < when then Stops(checks, s, rest, when, room)
        else if Overflows([], u, when, room) then true
        else if r.Threw? then Stops(checks, s, rest, when, room)
        else Stops(checks, r.state, rest, when, Less(room, u))
    decreases |rest|
  {
    var r := ApplyTransaction(checks, s, u);
    if rest == [] {
      StopsFirst(checks, s, u, when, room);
    } else {
      var before, t := rest[..|rest| - 1], Last(rest);
      StopsLast(checks, s, [u] + before, t, when, room);
      StopsLast(checks, s, before, t, when, room);
      StopsUnfold(checks, s, u, before, when, room);
      SelectUnfold(checks, s, u, before, when, room);
      if r.Applied? && room.count > 0 {
        StopsLast(checks, r.state, before, t, when, Less(room, u));
        OverflowsAfter(Select(checks, r.state, before, when, Less(room, u).size, Less(room, u).count), u, t, when, room);
      }
      hide *;
      assert before + [t] == rest;
      Associate([u], before, [t]);
    }
  }

  lemma StopsFirst(checks: Checks, s: State, u: Transaction, when: nat, room: Room)
    ensures Stops(checks, s, [u] + [], when, room) <==> Overflows([], u, when, room)
    ensures forall at, more :: !Stops(checks, at, [], when, more)
  {
    assert [u] + [] == [u] && [u][..0] == [];
  }

  lemma StopsLast(checks: Checks, s: State, before: seq<Transaction>, t: Transaction, when: nat, room: Room)
    ensures Stops(checks, s, before + [t], when, room) <==>
      Stops(checks, s, before, when, room) || Overflows(Select(checks, s, before, when, room.size, room.count), t, when, room)
  {
    assert (before + [t])[..|before|] == before;
  }

  /**
   * The next transaction is taken exactly when the selection has not come to one without room, and it has not
   * expired, has room, and applies on top of those taken.
   */
  lemma {:induction false} SelectExactly(checks: Checks, s: State, pending: seq<Transaction>, t: Transaction, when: nat, room: Room)
    ensures
      var taken := Select(checks, s, pending, when, room.size, room.count);
      var on := ApplyTransactions(checks, s, taken).state;
      Select(checks, s, pending + [t], when, room.size, room.count) ==
        if !Stops(checks, s, pending, when, room) && when <= t.id.expiration && !Overflows(taken, t, when, room)
           && ApplyTransaction(checks, on, t).Applied?
        then taken + [t] else taken
    decreases |pending|
  {
    if pending == [] {
      SelectUnfold(checks, s, t, [], when, room);
      StopsFirst(checks, s, t, when, room);
      SelectNothing(checks, s, when, room);
      if room.count > 0 {
        SelectNothing(checks, ApplyTransaction(checks, s, t).state, when, Less(room, t));
      }
      hide *;
      assert [t] + [] == [] + [t];
    } else {
      var u, rest := pending[0], pending[1..];
      var r := ApplyTransaction(checks, s, u);
      SelectUnfold(checks, s, u, rest, when, room);
      SelectUnfold(checks, s, u, rest + [t], when, room);
      StopsUnfold(checks, s, u, rest, when, room);
      if r.Applied? && room.count > 0 {
        SelectExactly(checks, r.state, rest, t, when, Less(room, u));
        var taken := Select(checks, r.state, rest, when, Less(room, u).size, Less(room, u).count);
        AppliesFirst(checks, s, u, taken);
        OverflowsAfter(taken, u, t, when, room);
        Associate([u], taken, [t]);
      }
      SelectExactly(checks, s, rest, t, when, room);
      NoRoomAtAll(u, when, room);
      hide *;
      FirstAndRest(pending);
      Associate([u], rest, [t]);
    }
  }

  lemma NoRoomAtAll(u: Transaction, when: nat, room: Room)
    ensures when <= u.id.expiration && room.count == 0 ==> Overflows([], u, when, room)
  {
  }

  lemma SelectNothing(checks: Checks, s: State, when: nat, room: Room)
    ensures Select(checks, s, [], when, room.size, room.count) == [] && ApplyTransactions(checks, s, []) == Applied(s)
  {
  }

  // ---------- Putting transactions back ----------

  // Those of the transactions that are taken again, in order: unknown ones that apply.
  function Repushed(checks: Checks, s: State, ts: seq<Transaction>): seq<Transaction>
    decreases |ts|
  {
    if ts == [] then []
    else
      var r := ApplyTransaction(checks, s, ts[0]);
      if ts[0].id in s.recent || r.Threw? then Repushed(checks, s, ts[1..])
      else [ts[0]] + Repushed(checks, r.state, ts[1..])
  }

  // Transactions that apply one after the other are all taken again.
  lemma {:induction false} AllRepushed(checks: Checks, s: State, ts: seq<Transaction>)
    requires checks.Dupes() && ApplyTransactions(checks, s, ts).Applied?
    ensures Repushed(checks, s, ts) == ts
    decreases |ts|
  {
    if ts != [] {
      AllRepushed(checks, ApplyTransaction(checks, s, ts[0]).state, ts[1..]);
    }
  }

  lemma RepushedNext(checks: Checks, s: State, ts: seq<Transaction>, i: nat, taken: seq<Transaction>)
    requires i < |ts|
    ensures
      var r := ApplyTransaction(checks, s, ts[i]);
      taken + Repushed(checks, s, ts[i..]) ==
        if ts[i].id in s.recent || r.Threw? then taken + Repushed(checks, s, ts[i + 1..])
        else taken + [ts[i]] + Repushed(checks, r.state, ts[i + 1..])
  {
    hide ApplyTransaction;
    assert ts[i..][0] == ts[i] && ts[i..][1..] == ts[i + 1..];
  }

  lemma RepushedNothing(checks: Checks, s: State, ts: seq<Transaction>)
    ensures Repushed(checks, s, ts[|ts|..]) == []
  {
  }

  // What is taken of the first list is the ground for the second.
  lemma {:induction false} RepushedInTurn(checks: Checks, s: State, a: seq<Transaction>, b: seq<Transaction>)
    ensures ApplyTransactions(checks, s, Repushed(checks, s, a)).Applied?
    ensures Repushed(checks, s, a + b)
         == Repushed(checks, s, a) + Repushed(checks, ApplyTransactions(checks, s, Repushed(checks, s, a)).state, b)
    decreases |a|
  {
    hide ApplyTransaction;
    if a == [] {
      assert a + b == b;
    } else {
      assert (a + b)[1..] == a[1..] + b;
      var r := ApplyTransaction(checks, s, a[0]);
      if a[0].id in s.recent || r.Threw? {
        RepushedInTurn(checks, s, a[1..], b);
      } else {
        RepushedInTurn(checks, r.state, a[1..], b);
        assert ([a[0]] + Repushed(checks, r.state, a[1..]))[1..] == Repushed(checks, r.state, a[1..]);
      }
    }
  }

  // The transactions given, up to n, that are kept.
  function Picked(given: seq<Transaction>, kept: set<nat>, n: nat): seq<Transaction>
    requires n <= |given|
  {
    if n == 0 then []
    else Picked(given, kept, n - 1) + if n - 1 in kept then [given[n - 1]] else []
  }

  // At its turn, on top of those kept before it, a transaction is unknown and applies.
  ghost predicate Takes(checks: Checks, s: State, given: seq<Transaction>, kept: set<nat>, i: nat)
    requires i < |given|
  {
    var at := ApplyTransactions(checks, s, Picked(given, kept, i)).state;
    given[i].id !in at.recent && ApplyTransaction(checks, at, given[i]).Applied?
  }

  // One list of transactions after another, given in turn: pending are then exactly those that are taken at their turn.
  ghost predicate PutBack(checks: Checks, s: State, given: seq<Transaction>, pending: seq<Transaction>) {
    exists kept :: PutBackBy(checks, s, given, pending, kept)
  }

  ghost predicate PutBackBy(checks: Checks, s: State, given: seq<Transaction>, pending: seq<Transaction>, kept: set<nat>) {
    && pending == Picked(given, kept, |given|)
    && forall i :: 0 <= i < |given| ==> (i in kept <==> Takes(checks, s, given, kept, i))
  }

  lemma {:induction false} PickedSame(a: seq<Transaction>, b: seq<Transaction>, kept: set<nat>, kept': set<nat>, n: nat)
    requires n <= |a| && n <= |b| && a[..n] == b[..n]
    requires forall i :: 0 <= i < n ==> (i in kept <==> i in kept')
    ensures Picked(a, kept, n) == Picked(b, kept', n)
    decreases n
  {
    if n > 0 {
      assert a[..n][n - 1] == b[..n][n - 1];
      assert a[..n - 1] == a[..n][..n - 1] && b[..n - 1] == b[..n][..n - 1];
      PickedSame(a, b, kept, kept', n - 1);
    }
  }

  lemma {:induction false} RepushedIsPutBack(checks: Checks, s: State, ts: seq<Transaction>) returns (kept: set<nat>)
    ensures PutBackBy(checks, s, ts, Repushed(checks, s, ts), kept)
    decreases |ts|
  {
    hide PutBackBy;
    if ts == [] {
      kept := {};
      NothingPutBack(checks, s);
    } else {
      var n := |ts| - 1;
      var before := RepushedIsPutBack(checks, s, ts[..n]);
      RepushedLast(checks, s, ts[..n], ts[n]);
      kept := OneMorePutBack(checks, s, ts[..n], ts[n], Repushed(checks, s, ts[..n]), before);
      hide Repushed;
      assert ts[..n] + [ts[n]] == ts;
    }
  }

  lemma NothingPutBack(checks: Checks, s: State)
    ensures Repushed(checks, s, []) == [] && PutBackBy(checks, s, [], [], {})
  {
  }

  lemma OneMorePutBack(checks: Checks, s: State, ts: seq<Transaction>, t: Transaction, pending: seq<Transaction>, before: set<nat>)
    returns (kept: set<nat>)
    requires PutBackBy(checks, s, ts, pending, before)
    ensures
      var at := ApplyTransactions(checks, s, pending).state;
      var taken := t.id !in at.recent && ApplyTransaction(checks, at, t).Applied?;
      PutBackBy(checks, s, ts + [t], pending + if taken then [t] else [], kept)
  {
    var at, all, n := ApplyTransactions(checks, s, pending).state, ts + [t], |ts|;
    hide ApplyTransaction, ApplyTransactions, Takes, Picked;
    var taken := t.id !in at.recent && ApplyTransaction(checks, at, t).Applied?;
    kept := (set i | i in before && i < n) + if taken then {n} else {};
    forall m | 0 <= m <= n ensures Picked(all, kept, m) == Picked(ts, before, m) {
      assert all[..m] == ts[..m];
      PickedSame(all, ts, kept, before, m);
    }
    forall i | 0 <= i < n ensures i in kept <==> Takes(checks, s, all, kept, i) {
      TakesLike(checks, s, all, ts, kept, before, i);
    }
    TakesIs(checks, s, all, kept, n);
    PickedLast(all, kept);
  }

  lemma TakesIs(checks: Checks, s: State, given: seq<Transaction>, kept: set<nat>, i: nat)
    requires i < |given|
    ensures Takes(checks, s, given, kept, i) <==>
      var at := ApplyTransactions(checks, s, Picked(given, kept, i)).state;
      given[i].id !in at.recent && ApplyTransaction(checks, at, given[i]).Applied?
  {
  }

  lemma TakesLike(checks: Checks, s: State, a: seq<Transaction>, b: seq<Transaction>, kept: set<nat>, kept': set<nat>, i: nat)
    requires i < |a| && i < |b| && a[i] == b[i] && Picked(a, kept, i) == Picked(b, kept', i)
    ensures Takes(checks, s, a, kept, i) <==> Takes(checks, s, b, kept', i)
  {
  }

  lemma PickedLast(given: seq<Transaction>, kept: set<nat>)
    requires given != []
    ensures Picked(given, kept, |given|) == Picked(given, kept, |given| - 1) + if |given| - 1 in kept then [Last(given)] else []
  {
  }

  // There is only one way to put back.
  lemma {:induction false} PutBackOnce(checks: Checks, s: State, given: seq<Transaction>, kept: set<nat>, kept': set<nat>, n: nat)
    requires n <= |given|
    requires forall i :: 0 <= i < |given| ==> (i in kept <==> Takes(checks, s, given, kept, i))
    requires forall i :: 0 <= i < |given| ==> (i in kept' <==> Takes(checks, s, given, kept', i))
    ensures Picked(given, kept, n) == Picked(given, kept', n)
    decreases n
  {
    hide Takes;
    if n > 0 {
      PutBackOnce(checks, s, given, kept, kept', n - 1);
      TakesLike(checks, s, given, given, kept, kept', n - 1);
    }
  }

  lemma RepushedLast(checks: Checks, s: State, ts: seq<Transaction>, t: Transaction)
    ensures
      var at := ApplyTransactions(checks, s, Repushed(checks, s, ts)).state;
      Repushed(checks, s, ts + [t]) == Repushed(checks, s, ts) +
        if t.id !in at.recent && ApplyTransaction(checks, at, t).Applied? then [t] else []
  {
    RepushedInTurn(checks, s, ts, [t]);
    hide ApplyTransaction, ApplyTransactions;
    assert [t][1..] == [];
  }

  // ---------- The node with its pending transactions ----------

  // `node` is the chain without the session in which the pending transactions are applied.
  datatype Ledger = Ledger(node: Node, pending: seq<Transaction>)

  // The pending transactions apply one after the other on top of the head block.
  ghost predicate PendingApply(checks: Checks, v: Ledger) {
    ApplyTransactions(checks, v.node.db.current, v.pending).Applied?
  }

  // push_block: afterwards the popped transactions and those that were pending are put back.
  ghost function Settled(checks: Checks, n: Node, pending: seq<Transaction>): Ledger {
    Ledger(n, Repushed(checks, n.db.current, n.popped + pending))
  }

  ghost function AfterPush(checks: Checks, v: Ledger, b: Block): Ledger {
    Settled(checks, Push(checks, v.node, b).node, v.pending)
  }

  /**
   * After a push the pending transactions are those put back of the popped ones and, after them, of those that were
   * pending; when nothing has been popped and these still apply in order, they are all there again.
   */
  lemma PushPutsBack(checks: Checks, v: Ledger, b: Block)
    ensures
      var r := AfterPush(checks, v, b);
      && PutBack(checks, r.node.db.current, r.node.popped + v.pending, r.pending)
      && (checks.Dupes() && r.node.popped == [] && ApplyTransactions(checks, r.node.db.current, v.pending).Applied? ==>
            r.pending == v.pending)
  {
    var r := AfterPush(checks, v, b);
    hide Push, ApplyTransaction;
    var kept := RepushedIsPutBack(checks, r.node.db.current, r.node.popped + v.pending);
    if checks.Dupes() && r.node.popped == [] && ApplyTransactions(checks, r.node.db.current, v.pending).Applied? {
      AllRepushed(checks, r.node.db.current, v.pending);
      assert r.node.popped + v.pending == v.pending;
    }
  }

  // _generate_block
  function Generated(checks: Checks, header: HeaderSize, v: Ledger, when: nat, hash: nat): Block {
    var selected := Select(checks, v.node.db.current, v.pending, when, header + 4, MAX_TRANSACTIONS_PER_BLOCK);
    Block(v.node.db.current.headId, hash, when, selected, true)
  }

  // push_transaction: on an exception the pending state is as it was.
  function AfterTransaction(checks: Checks, v: Ledger, t: Transaction): Ledger {
    var s := ApplyTransactions(checks, v.node.db.current, v.pending).state;
    if ApplyTransaction(checks, s, t).Applied? then v.(pending := v.pending + [t]) else v
  }

  lemma TransactionKeepsPending(checks: Checks, v: Ledger, t: Transaction)
    requires PendingApply(checks, v)
    ensures PendingApply(checks, AfterTransaction(checks, v, t))
  {
    TransactionsAppend(checks, v.node.db.current, v.pending, t);
  }

  lemma SettledPendingApply(checks: Checks, n: Node, pending: seq<Transaction>)
    ensures PendingApply(checks, Settled(checks, n, pending))
  {
    RepushedInTurn(checks, n.db.current, n.popped + pending, []);
  }

  class Pool {
    const chain: ChainDatabase
    const headerSize: HeaderSize
    var pending: seq<Transaction>
    var sessionOpen: bool            // _pending_trx_session
    ghost var rest: History<State>   // the chain's history without the pending session

    ghost function View(): Ledger
      reads this, chain, chain.store, chain.fork
    {
      Ledger(chain.Value().(db := rest), pending)
    }

    // The pending session, when open, stands on `rest`.
    ghost predicate Shape()
      reads this, chain.store
    {
      if sessionOpen
      then chain.store.db == rest.StartSession().Write(chain.store.db.current)
      else chain.store.db == rest
    }

    ghost predicate Valid()
      reads this, chain.store
    {
      Shape() && ApplyTransactions(chain.checks, rest.current, pending) == Applied(chain.store.db.current)
    }

    constructor (checks: Checks, genesis: State, headerSize: HeaderSize)
      ensures Valid() && View() == Ledger(Fresh(genesis), [])
      ensures chain.checks == checks && this.headerSize == headerSize
      ensures fresh(chain) && fresh(chain.store) && fresh(chain.fork)
    {
      chain := new ChainDatabase(checks, genesis);
      this.headerSize := headerSize;
      pending, sessionOpen := [], false;
      rest := History(genesis, [], 0);
    }

    // _pending_trx_session.reset(): the session, if any, is undone.
    method CloseSession()
      requires Shape()
      modifies this`sessionOpen, chain.store
      ensures !sessionOpen && Shape() && chain.store.db == rest
    {
      if sessionOpen {
        SessionUndone(rest, chain.store.db.current);
        chain.store.db := chain.store.db.UndoTop();
      }
      sessionOpen := false;
    }

    // A transaction in a session of its own, squashed into the pending one or undone.
    method Try(t: Transaction) returns (ok: bool)
      requires sessionOpen && Shape()
      modifies chain.store
      ensures Shape()
      ensures ok <==> ApplyTransaction(chain.checks, old(chain.store.db.current), t).Applied?
      ensures chain.store.db.current == if ok then ApplyTransaction(chain.checks, old(chain.store.db.current), t).state
                                        else old(chain.store.db.current)
    {
      hide ApplyTransaction;
      ghost var before := chain.store.db;
      chain.store.db := chain.store.db.StartSession();
      ok := chain.store.DoApplyTransaction(chain.checks, t);
      if ok {
        chain.store.db := chain.store.db.Squash();
        assert chain.store.db.saved == before.saved;
      } else {
        SessionUndone(before, chain.store.db.current);
        chain.store.db := chain.store.db.UndoTop();
      }
    }

    /** _push_transaction */
    method PushTransaction(t: Transaction) returns (ok: bool)
      requires Valid()
      modifies this`pending, this`sessionOpen, chain.store
      ensures Valid()
      ensures ok <==> ApplyTransaction(chain.checks, old(chain.store.db.current), t).Applied?
      ensures chain.store.db.current == if ok then ApplyTransaction(chain.checks, old(chain.store.db.current), t).state
                                        else old(chain.store.db.current)
      ensures pending == if ok then old(pending) + [t] else old(pending)
      ensures View() == AfterTransaction(chain.checks, old(View()), t)
    {
      if !sessionOpen {
        chain.store.db := chain.store.db.StartSession();
        sessionOpen := true;
      }
      ok := Try(t);
      if ok {
        TransactionsAppend(chain.checks, rest.current, pending, t);
        pending := pending + [t];
      }
    }

    // Pushes back the transactions that are not known yet; exceptions are swallowed.
    method PushAll(ts: seq<Transaction>)
      requires Valid()
      modifies this`pending, this`sessionOpen, chain.store
      ensures Valid()
      ensures pending == old(pending) + Repushed(chain.checks, old(chain.store.db.current), ts)
    {
      hide ApplyTransaction, ApplyTransactions, Repushed;
      ghost var whole := pending + Repushed(chain.checks, chain.store.db.current, ts);
      assert ts[0..] == ts;
      for i := 0 to |ts|
        invariant Valid()
        invariant whole == pending + Repushed(chain.checks, chain.store.db.current, ts[i..])
      {
        RepushedNext(chain.checks, chain.store.db.current, ts, i, pending);
        if ts[i].id !in chain.store.db.current.recent {  // is_know_transaction
          var ok := PushTransaction(ts[i]);
        }
      }
      RepushedNothing(chain.checks, chain.store.db.current, ts);
    }

    // What without_pending_transactions does at the end: the popped ones first, then the old input.
    method RestorePending(popped: seq<Transaction>, oldInput: seq<Transaction>)
      requires Valid() && pending == [] && chain.store.db.current == rest.current
      modifies this`pending, this`sessionOpen, chain.store
      ensures Valid()
      ensures pending == Repushed(chain.checks, rest.current, popped + oldInput)
    {
      RepushedInTurn(chain.checks, rest.current, popped, oldInput);
      hide ApplyTransaction, ApplyTransactions, Repushed;
      PushAll(popped);
      ghost var first := Repushed(chain.checks, rest.current, popped);
      assert pending == first;
      assert chain.store.db.current == ApplyTransactions(chain.checks, rest.current, first).state;
      PushAll(oldInput);
    }

    /**
     * push_block: the pending transactions are undone first, and afterwards those that still apply are
     * applied again on top of whatever the chain has become.
     */
    method PushBlock(b: Block) returns (r: PushOutcome)
      requires Shape()
      modifies this, chain, chain.store, chain.fork
      ensures Valid()
      ensures r == Push(chain.checks, old(View()).node, b).outcome
      ensures View() == AfterPush(chain.checks, old(View()), b)
      ensures PutBack(chain.checks, rest.current, chain.poppedTx + old(pending), pending)
      ensures chain.checks.Dupes() && chain.poppedTx == [] && ApplyTransactions(chain.checks, rest.current, old(pending)).Applied? ==>
                pending == old(pending)
    {
      PushPutsBack(chain.checks, View(), b);
      hide PutBack, ApplyTransactions;
      var oldInput := pending;
      CloseSession();
      pending := [];
      r := chain.DoPushBlock(b);
      rest := chain.store.db;
      RestorePending(chain.poppedTx, oldInput);
    }

    /**
     * The selection of _generate_block, each transaction tried in a session of its own. Afterwards
     * the head state is exactly what it was: the pending session is undone.
     */
    method SelectTransactions(when: nat) returns (selected: seq<Transaction>)
      requires Shape()
      modifies this`sessionOpen, chain.store
      ensures !sessionOpen && chain.store.db == rest
      ensures selected == Select(chain.checks, rest.current, pending, when, headerSize + 4, MAX_TRANSACTIONS_PER_BLOCK)
    {
      hide ApplyTransaction;
      CloseSession();
      chain.store.db := chain.store.db.StartSession();
      sessionOpen := true;
      selected := [];
      var size: nat, count: nat := headerSize + 4, MAX_TRANSACTIONS_PER_BLOCK;
      ghost var whole := Select(chain.checks, rest.current, pending, when, size, count);
      var i := 0;
      assert pending[0..] == pending;
      while i < |pending|
        invariant 0 <= i <= |pending| && 0 <= count
        invariant sessionOpen && Shape()
        invariant whole == selected + Select(chain.checks, chain.store.db.current, pending[i..], when, size, count)
      {
        var t := pending[i];
        ghost var tail := pending[i..];
        assert tail[0] == t && tail[1..] == pending[i + 1..];
        if t.id.expiration < when {
          i := i + 1;
          continue;
        }
        if count == 0 {
          break;
        }
        if size + t.size >= NEWS_MAX_BLOCK_SIZE {
          break;
        }
        var ok := Try(t);
        if ok {
          size := size + t.size;
          selected := selected + [t];
          count := count - 1;
        }
        i := i + 1;
      }
      CloseSession();
    }

    /** _generate_block: makes a block of the pending transactions and pushes it. */
    method GenerateBlock(when: nat, hash: nat) returns (b: Block, r: PushOutcome)
      requires Valid()
      modifies this, chain, chain.store, chain.fork
      ensures Valid()
      ensures b == Generated(chain.checks, headerSize, old(View()), when, hash)
      ensures PackSize(headerSize, b.transactions) <= NEWS_MAX_BLOCK_SIZE
      ensures r == Push(chain.checks, old(View()).node, b).outcome
      ensures View() == AfterPush(chain.checks, old(View()), b)
      ensures b.previous == old(rest.current.headId) && b.timestamp == when && b.merkleRootMatches
      ensures b.transactions == Select(chain.checks, old(rest.current), old(pending), when, headerSize + 4, MAX_TRANSACTIONS_PER_BLOCK)
      ensures PutBack(chain.checks, rest.current, chain.poppedTx + old(pending), pending)
      ensures chain.checks.Dupes() && chain.poppedTx == [] && ApplyTransactions(chain.checks, rest.current, old(pending)).Applied? ==>
                pending == old(pending)
    {
      hide PutBack;
      var selected := SelectTransactions(when);
      b := Block(chain.store.db.current.headId, hash, when, selected, true);
      GeneratedSize(chain.checks, rest.current, pending, when, headerSize);
      assert PackSize(headerSize, b.transactions) <= NEWS_MAX_BLOCK_SIZE;
      r := PushBlock(b);
    }
  }
}
