/**
 * The object store being changed in place: evaluators, transactions and the
 * expiry loop, each proved to compute the function of module ChainState.
 */
module Evaluators {
  import opened Undo
  import opened Common
  import opened Words
  import opened ChainTypes
  import opened ChainState
  import opened OperationEffects
  import opened Admission

  // The credits up to n, and then the rest.
  lemma {:induction false} CreditAllSplit(balances: map<Name, int>, credits: seq<Credit>, n: nat)
    requires n < |credits|
    requires forall i :: 0 <= i < |credits| ==> credits[i].name in balances
    ensures
      var before := CreditAll(balances, credits[..n]);
      var c := credits[n];
      CreditAll(balances, credits[..n + 1]) == before[c.name := before[c.name] + c.amount]
    decreases n
  {
    if n == 0 {
      assert credits[..1] == [credits[0]];
      assert credits[..0] == [];
    } else {
      var c := credits[0];
      var b1 := balances[c.name := balances[c.name] + c.amount];
      assert credits[..n][1..] == credits[1..][..n - 1];
      assert credits[..n + 1][1..] == credits[1..][..n];
      CreditAllSplit(b1, credits[1..], n - 1);
    }
  }

  lemma {:induction false} SumSplit(credits: seq<Credit>, n: nat)
    requires n < |credits|
    ensures Sum(credits[..n + 1]) == Sum(credits[..n]) + credits[n].amount
    decreases n
  {
    if n == 0 {
      assert credits[..1] == [credits[0]];
    } else {
      assert credits[..n][1..] == credits[1..][..n - 1];
      assert credits[..n + 1][1..] == credits[1..][..n];
      SumSplit(credits[1..], n - 1);
    }
  }

  lemma {:induction false} OperationsSplit(s: State, ops: seq<Operation>, n: nat)
    requires n < |ops|
    ensures ApplyOperations(s, ops[..n + 1]) ==
      var r := ApplyOperations(s, ops[..n]);
      if r.Threw? then r else ApplyOperation(r.state, ops[n])
    decreases n
  {
    assert ops[..n + 1] == ops[..n] + [ops[n]];
    OperationsAppend(s, ops[..n], ops[n]);
  }

  lemma {:induction false} OperationsAppend(s: State, ops: seq<Operation>, op: Operation)
    ensures ApplyOperations(s, ops + [op]) ==
      var r := ApplyOperations(s, ops);
      if r.Threw? then r else ApplyOperation(r.state, op)
    decreases |ops|
  {
    if ops == [] {
      assert ops + [op] == [op];
      assert [op][1..] == [];
    } else {
      assert (ops + [op])[1..] == ops[1..] + [op];
      var r := ApplyOperation(s, ops[0]);
      if r.Applied? {
        OperationsAppend(r.state, ops[1..], op);
      }
    }
  }

  lemma {:induction false} OperationsStop(s: State, ops: seq<Operation>, n: nat)
    requires n <= |ops| && ApplyOperations(s, ops[..n]).Threw?
    ensures ApplyOperations(s, ops) == ApplyOperations(s, ops[..n])
    decreases n
  {
    if n > 0 {
      var r := ApplyOperation(s, ops[0]);
      assert ops[..n][1..] == ops[1..][..n - 1];
      if r.Applied? {
        OperationsStop(r.state, ops[1..], n - 1);
      }
    }
  }

  lemma {:induction false} TransactionsAppend(checks: Checks, s: State, ts: seq<Transaction>, t: Transaction)
    ensures ApplyTransactions(checks, s, ts + [t]) ==
      var r := ApplyTransactions(checks, s, ts);
      if r.Threw? then r else ApplyTransaction(checks, r.state, t)
    decreases |ts|
  {
    if ts == [] {
      assert ts + [t] == [t];
      assert [t][1..] == [];
    } else {
      assert (ts + [t])[1..] == ts[1..] + [t];
      var r := ApplyTransaction(checks, s, ts[0]);
      if r.Applied? {
        TransactionsAppend(checks, r.state, ts[1..], t);
      }
    }
  }

  lemma {:induction false} TransactionsStop(checks: Checks, s: State, ts: seq<Transaction>, n: nat)
    requires n <= |ts| && ApplyTransactions(checks, s, ts[..n]).Threw?
    ensures ApplyTransactions(checks, s, ts) == ApplyTransactions(checks, s, ts[..n])
    decreases n
  {
    if n > 0 {
      var r := ApplyTransaction(checks, s, ts[0]);
      assert ts[..n][1..] == ts[1..][..n - 1];
      if r.Applied? {
        TransactionsStop(checks, r.state, ts[1..], n - 1);
      }
    }
  }

  ghost predicate EarliestIn(recent: map<TransactionId, nat>, id: TransactionId) {
    id in recent && forall other :: other in recent ==> recent[id] <= recent[other]
  }

  lemma Earliest(recent: map<TransactionId, nat>) returns (id: TransactionId)
    requires recent != map[]
    ensures EarliestIn(recent, id)
    decreases |recent|
  {
    var x :| x in recent;
    var rest := recent - {x};
    id := x;
    assert rest.Keys == recent.Keys - {x};
    if rest == map[] {
      forall other | other in recent ensures other == x {
        assert other !in rest;
      }
    } else {
      var e := Earliest(rest);
      if recent[e] < recent[x] {
        id := e;
      }
      forall other | other in recent ensures recent[id] <= recent[other] {
        if other != x {
          assert other in rest && rest[other] == recent[other] && rest[e] == recent[e];
        }
      }
    }
  }

  class Store {
    var db: History<State>

    constructor (g: State)
      ensures db == History(g, [], 0)
    {
      db := History(g, [], 0);
    }

    /** The three do_apply functions; false stands for the exception. */
    method DoApply(op: Operation) returns (ok: bool)
      modifies this
      ensures ok <==> Performable(old(db.current), op)
      ensures ok ==> Performed(old(db.current), op, db.current)
      ensures ok <==> ApplyOperation(old(db.current), op).Applied?
      ensures db == old(db).Write(ApplyOperation(old(db.current), op).state)
    {
      OperationIff(db.current, op);
      hide Performable, Performed, Sum, CreditAll;
      match op
      case CreateAccount(name, creator, posting, owner) =>
        if creator !in db.current.balances || name in db.current.balances {
          return false;
        }
        db := db.Write(db.current.(balances := db.current.balances[name := 0]));
        if name in db.current.authorities {
          return false;
        }
        db := db.Write(db.current.(authorities := db.current.authorities[name := Authority(posting, owner)]));
        ok := true;
      case Transfer(from, to, amount) =>
        if from !in db.current.balances || to !in db.current.balances || db.current.balances[from] < amount {
          return false;
        }
        db := db.Write(db.current.(balances := db.current.balances[from := db.current.balances[from] - amount]));
        db := db.Write(db.current.(balances := db.current.balances[to := db.current.balances[to] + amount]));
        ok := true;
      case Transfers(from, toNames) =>
        ok := DoTransfers(from, toNames);
    }

    method DoTransfers(from: Name, toNames: seq<Credit>) returns (ok: bool)
      modifies this
      ensures
        var r := ApplyOperation(old(db.current), Transfers(from, toNames));
        (ok <==> r.Applied?) && db == old(db).Write(r.state)
    {
      var s := db.current;
      if from !in s.balances {
        return false;
      }
      var known, sum := SumUp(toNames);
      if !known || s.balances[from] < sum {
        return false;
      }
      db := db.Write(s.(balances := s.balances[from := s.balances[from] - sum]));
      CreditEach(toNames);
      ok := true;
    }

    // The first loop, which stops at an account that is not there.
    method SumUp(toNames: seq<Credit>) returns (known: bool, sum: int)
      ensures known <==> forall i :: 0 <= i < |toNames| ==> toNames[i].name in db.current.balances
      ensures known ==> sum == Sum(toNames)
    {
      sum := 0;
      for n := 0 to |toNames|
        invariant sum == Sum(toNames[..n])
        invariant forall i :: 0 <= i < n ==> toNames[i].name in db.current.balances
      {
        if toNames[n].name !in db.current.balances {
          return false, sum;
        }
        SumSplit(toNames, n);
        sum := sum + toNames[n].amount;
      }
      assert toNames[..|toNames|] == toNames;
      known := true;
    }

    // The second loop.
    method CreditEach(toNames: seq<Credit>)
      requires forall i :: 0 <= i < |toNames| ==> toNames[i].name in db.current.balances
      modifies this
      ensures db == old(db).Write(old(db.current).(balances := CreditAll(old(db.current.balances), toNames)))
    {
      var s := db.current;
      for n := 0 to |toNames|
        invariant db == old(db).Write(s.(balances := CreditAll(s.balances, toNames[..n])))
      {
        CreditAllSplit(s.balances, toNames, n);
        var c := toNames[n];
        db := db.Write(db.current.(balances := db.current.balances[c.name := db.current.balances[c.name] + c.amount]));
      }
      assert toNames[..|toNames|] == toNames;
    }

    /** _apply_transaction: the checks one by one, the row that remembers the transaction, and its operations. */
    method DoApplyTransaction(checks: Checks, t: Transaction) returns (ok: bool)
      modifies this
      ensures ok ==> Acceptable(checks, old(db.current), t)
      ensures !Acceptable(checks, old(db.current), t) ==> !ok && db == old(db)
      ensures ok && checks.Dupes() ==> db.current.recent == old(db.current.recent)[t.id := t.id.expiration]
      ensures ok ==> Carried(Remembering(checks, old(db.current), t), t.id.operations, db.current)
      ensures ok <==> ApplyTransaction(checks, old(db.current), t).Applied?
      ensures db == old(db).Write(ApplyTransaction(checks, old(db.current), t).state)
    {
      TransactionIff(checks, db.current, t);
      hide ApplyOperation, Validates, TaposMatches, Authorized, Or, Acceptable, Carried;
      if checks.Validate() && !Validates(t.id) {
        return false;
      }
      DupeAssertionHolds(checks, t.id in db.current.recent);
      if !(Or(checks.skip, SKIP_TRANSACTION_DUPE_CHECK) != 0 || t.id !in db.current.recent) {
        assert false;  // the duplicate assertion never fires
      }
      if db.current.headNum > 0 {
        if checks.Tapos() && !TaposMatches(db.current, t.id) {
          return false;
        }
        if t.id.expiration < db.current.time {
          return false;
        }
      }
      if checks.Authority() && !Authorized(db.current, t) {
        return false;
      }
      if checks.Dupes() {
        if t.id in db.current.recent {
          return false;  // the unique index refuses the row
        }
        db := db.Write(db.current.(recent := db.current.recent[t.id := t.id.expiration]));
      }
      var ops := t.id.operations;
      ghost var s1 := db.current;
      for n := 0 to |ops|
        invariant db == old(db).Write(ApplyOperations(s1, ops[..n]).state)
        invariant ApplyOperations(s1, ops[..n]).Applied?
      {
        OperationsSplit(s1, ops, n);
        ok := DoApply(ops[n]);
        if !ok {
          OperationsStop(s1, ops, n + 1);
          return;
        }
      }
      assert ops[..|ops|] == ops;
      ok := true;
    }

    method DoApplyTransactions(checks: Checks, ts: seq<Transaction>) returns (ok: bool)
      modifies this
      ensures ok <==> ApplyTransactions(checks, old(db.current), ts).Applied?
      ensures db == old(db).Write(ApplyTransactions(checks, old(db.current), ts).state)
    {
      for n := 0 to |ts|
        invariant db == old(db).Write(ApplyTransactions(checks, old(db.current), ts[..n]).state)
        invariant ApplyTransactions(checks, old(db.current), ts[..n]).Applied?
      {
        assert ts[..n + 1] == ts[..n] + [ts[n]];
        TransactionsAppend(checks, old(db.current), ts[..n], ts[n]);
        ok := DoApplyTransaction(checks, ts[n]);
        if !ok {
          TransactionsStop(checks, old(db.current), ts, n + 1);
          return;
        }
      }
      assert ts[..|ts|] == ts;
      ok := true;
    }

    /** clear_expired_transactions: from the earliest expiration on, while it lies before the head time. */
    method ClearExpired()
      modifies this
      ensures db == old(db).Write(WithoutExpired(old(db.current)))
    {
      var s := db.current;
      while db.current.recent != map[]
        invariant db == old(db).Write(s.(recent := db.current.recent))
        invariant forall id :: id in db.current.recent ==> id in s.recent && db.current.recent[id] == s.recent[id]
        invariant forall id :: id in s.recent && s.time <= s.recent[id] ==> id in db.current.recent
        decreases |db.current.recent|
      {
        ghost var first := Earliest(db.current.recent);
        var id :| id in db.current.recent && forall other :: other in db.current.recent ==> db.current.recent[id] <= db.current.recent[other];
        if db.current.time <= db.current.recent[id] {
          break;
        }
        assert |db.current.recent - {id}| < |db.current.recent| by {
          assert (db.current.recent - {id}).Keys == db.current.recent.Keys - {id};
        }
        db := db.Write(db.current.(recent := db.current.recent - {id}));
      }
      assert db.current.recent == WithoutExpired(s).recent;
    }
  }
}
