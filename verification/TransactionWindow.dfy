/**
 * The duplicate window: with the dupe check on, no transaction occurs twice on a
 * chain, although its row is dropped once it has expired. And what the
 * evaluators conserve.
 */
module TransactionWindow {
  import opened Common
  import opened ChainTypes
  import opened ChainState

  // The transactions of a chain, in the order they were applied.
  function TransactionsOf(blocks: seq<Block>): seq<Transaction> {
    if blocks == [] then []
    else TransactionsOf(blocks[..|blocks| - 1]) + blocks[|blocks| - 1].transactions
  }

  ghost predicate NoDuplicates(ts: seq<Transaction>) {
    forall i, j :: 0 <= i < j < |ts| ==> ts[i].id != ts[j].id
  }

  // Every transaction applied so far is in the index, or expired before the head block; the rows hold expirations.
  ghost predicate Covered(s: State, ts: seq<Transaction>) {
    && (forall i :: 0 <= i < |ts| ==> ts[i].id in s.recent || (s.headNum > 0 && ts[i].id.expiration < s.time))
    && (forall id :: id in s.recent ==> s.recent[id] == id.expiration)
  }

  // No row outlives its expiration.
  ghost predicate NoneExpired(s: State) {
    forall id :: id in s.recent ==> s.time <= s.recent[id]
  }

  lemma ApplyOneCovered(checks: Checks, s: State, ts: seq<Transaction>, t: Transaction)
    requires checks.Dupes() && Covered(s, ts) && NoDuplicates(ts)
    requires ApplyTransaction(checks, s, t).Applied?
    ensures Covered(ApplyTransaction(checks, s, t).state, ts + [t]) && NoDuplicates(ts + [t])
  {
    OperationsKeep(s.(recent := s.recent[t.id := t.id.expiration]), t.id.operations);
    forall i | 0 <= i < |ts| ensures ts[i].id != t.id {
      // a recorded twin is refused by the unique index, a forgotten one has expired
    }
  }

  lemma {:induction false} ApplyAllCovered(checks: Checks, s: State, ts: seq<Transaction>, more: seq<Transaction>)
    requires checks.Dupes() && Covered(s, ts) && NoDuplicates(ts)
    requires ApplyTransactions(checks, s, more).Applied?
    ensures Covered(ApplyTransactions(checks, s, more).state, ts + more) && NoDuplicates(ts + more)
    decreases |more|
  {
    hide ApplyTransaction, Covered, NoDuplicates;
    if more == [] {
      assert ts + more == ts;
    } else {
      var s1 := ApplyTransaction(checks, s, more[0]).state;
      ApplyOneCovered(checks, s, ts, more[0]);
      ApplyAllCovered(checks, s1, ts + [more[0]], more[1..]);
      assert ts + [more[0]] + more[1..] == ts + more;
    }
  }

  lemma BlockCovered(checks: Checks, s: State, ts: seq<Transaction>, b: Block)
    requires checks.Dupes() && Covered(s, ts) && NoDuplicates(ts)
    requires ApplyBlock(checks, s, b).Applied?
    ensures
      var s' := ApplyBlock(checks, s, b).state;
      Covered(s', ts + b.transactions) && NoDuplicates(ts + b.transactions) && NoneExpired(s')
  {
    ApplyAllCovered(checks, s, ts, b.transactions);
    TransactionsKeep(checks, s, b.transactions);
    BlockEffect(checks, s, b);
    var all := ts + b.transactions;
    var s1, s' := ApplyTransactions(checks, s, b.transactions).state, ApplyBlock(checks, s, b).state;
    forall i | 0 <= i < |all|
      ensures all[i].id in s'.recent || (s'.headNum > 0 && all[i].id.expiration < s'.time)
    {
      assert all[i].id in s1.recent || (s1.headNum > 0 && all[i].id.expiration < s1.time);
    }
  }

  /**
   * On any chain applied with the dupe check on, no transaction id occurs twice, and every
   * applied transaction is still in the index unless it expired before the head block.
   */
  lemma {:induction false} ChainHasNoDuplicates(checks: Checks, g: State, blocks: seq<Block>)
    requires checks.Dupes() && IsGenesis(g) && Replay(checks, g, blocks).Applied?
    ensures NoDuplicates(TransactionsOf(blocks))
    ensures Covered(Replay(checks, g, blocks).state, TransactionsOf(blocks))
    ensures NoneExpired(Replay(checks, g, blocks).state)
    decreases |blocks|
  {
    if blocks != [] {
      var n := |blocks| - 1;
      ChainHasNoDuplicates(checks, g, blocks[..n]);
      BlockCovered(checks, Replay(checks, g, blocks[..n]).state, TransactionsOf(blocks[..n]), blocks[n]);
    }
  }

  // After a block, the index holds a transaction of the chain exactly while it has not expired.
  lemma IndexIsTheWindow(checks: Checks, g: State, blocks: seq<Block>, i: nat)
    requires checks.Dupes() && IsGenesis(g) && Replay(checks, g, blocks).Applied?
    requires i < |TransactionsOf(blocks)|
    ensures
      var s := Replay(checks, g, blocks).state;
      var t := TransactionsOf(blocks)[i];
      t.id in s.recent <==> s.time <= t.id.expiration
  {
    ChainHasNoDuplicates(checks, g, blocks);
  }

  // A transaction already on the chain cannot be applied again on top of it, although the duplicate
  // assertion lets it pass.
  lemma ReplayedTransactionThrows(checks: Checks, g: State, blocks: seq<Block>, i: nat)
    requires checks.Dupes() && IsGenesis(g) && Replay(checks, g, blocks).Applied?
    requires i < |TransactionsOf(blocks)|
    ensures ApplyTransaction(checks, Replay(checks, g, blocks).state, TransactionsOf(blocks)[i]).Threw?
    ensures checks.DupeAssertion(TransactionsOf(blocks)[i].id in Replay(checks, g, blocks).state.recent)
  {
    ChainHasNoDuplicates(checks, g, blocks);
    DupeAssertionHolds(checks, TransactionsOf(blocks)[i].id in Replay(checks, g, blocks).state.recent);
  }

  // ---------- Conservation ----------

  ghost function Total(balances: map<Name, int>): int
    decreases |balances|
  {
    if balances == map[] then 0
    else
      var n :| n in balances;
      balances[n] + Total(balances - {n})
  }

  lemma {:induction false} TotalSplit(balances: map<Name, int>, n: Name)
    requires n in balances
    ensures Total(balances) == balances[n] + Total(balances - {n})
    decreases |balances|
  {
    var m :| m in balances && Total(balances) == balances[m] + Total(balances - {m});
    if m != n {
      TotalSplit(balances - {m}, n);
      TotalSplit(balances - {n}, m);
      assert balances - {m} - {n} == balances - {n} - {m};
    }
  }

  lemma TotalUpdate(balances: map<Name, int>, n: Name, x: int)
    ensures Total(balances[n := x]) == Total(balances) + x - if n in balances then balances[n] else 0
  {
    TotalSplit(balances[n := x], n);
    assert balances[n := x] - {n} == balances - {n};
    if n in balances {
      TotalSplit(balances, n);
    } else {
      assert balances - {n} == balances;
    }
  }

  lemma {:induction false} CreditTotal(balances: map<Name, int>, credits: seq<Credit>)
    requires forall i :: 0 <= i < |credits| ==> credits[i].name in balances
    ensures Total(CreditAll(balances, credits)) == Total(balances) + Sum(credits)
    decreases |credits|
  {
    if credits != [] {
      var c := credits[0];
      TotalUpdate(balances, c.name, balances[c.name] + c.amount);
      CreditTotal(balances[c.name := balances[c.name] + c.amount], credits[1..]);
    }
  }

  lemma OperationConserves(s: State, op: Operation)
    ensures Total(ApplyOperation(s, op).state.balances) == Total(s.balances)
  {
    match op
    case CreateAccount(name, _, _, _) => TotalUpdate(s.balances, name, 0);
    case Transfer(from, to, amount) =>
      if ApplyOperation(s, op).Applied? {
        var b1 := s.balances[from := s.balances[from] - amount];
        TotalUpdate(s.balances, from, s.balances[from] - amount);
        TotalUpdate(b1, to, b1[to] + amount);
      }
    case Transfers(from, toNames) =>
      if ApplyOperation(s, op).Applied? {
        TotalUpdate(s.balances, from, s.balances[from] - Sum(toNames));
        CreditTotal(s.balances[from := s.balances[from] - Sum(toNames)], toNames);
      }
  }

  lemma {:induction false} OperationsConserve(s: State, ops: seq<Operation>)
    ensures Total(ApplyOperations(s, ops).state.balances) == Total(s.balances)
    decreases |ops|
  {
    if ops != [] {
      OperationConserves(s, ops[0]);
      if ApplyOperation(s, ops[0]).Applied? {
        OperationsConserve(ApplyOperation(s, ops[0]).state, ops[1..]);
      }
    }
  }

  lemma {:induction false} TransactionsConserve(checks: Checks, s: State, ts: seq<Transaction>)
    ensures Total(ApplyTransactions(checks, s, ts).state.balances) == Total(s.balances)
    decreases |ts|
  {
    if ts != [] {
      var s1 := if checks.Dupes() then s.(recent := s.recent[ts[0].id := ts[0].id.expiration]) else s;
      OperationsConserve(s1, ts[0].id.operations);
      var r := ApplyTransaction(checks, s, ts[0]);
      if r.Applied? {
        TransactionsConserve(checks, r.state, ts[1..]);
      }
    }
  }

  // The sum of all balances is the same on every chain, whatever it contains.
  lemma {:induction false} ChainConserves(checks: Checks, g: State, blocks: seq<Block>)
    ensures Total(Replay(checks, g, blocks).state.balances) == Total(g.balances)
    decreases |blocks|
  {
    if blocks != [] {
      var n := |blocks| - 1;
      ChainConserves(checks, g, blocks[..n]);
      TransactionsConserve(checks, Replay(checks, g, blocks[..n]).state, blocks[n].transactions);
    }
  }
}
