/**
 * What the operations do, said of the balances and keys before and after, and what every chain keeps of them:
 * nobody owes, and nobody's keys change.
 */
module OperationEffects {
  import opened Common
  import opened ChainTypes
  import opened ChainState

  // ---------- One operation ----------

  // What the credits of a batch transfer give one account.
  function Credited(credits: seq<Credit>, name: Name): int {
    if credits == [] then 0
    else (if credits[0].name == name then credits[0].amount else 0) + Credited(credits[1..], name)
  }

  // The accounts named are there, or not yet, and the payer has what is taken.
  predicate Performable(s: State, op: Operation) {
    match op
    case CreateAccount(name, creator, _, _) =>
      creator in s.balances && name !in s.balances && name !in s.authorities
    case Transfer(from, to, amount) =>
      from in s.balances && to in s.balances && amount <= s.balances[from]
    case Transfers(from, toNames) =>
      && from in s.balances && (forall c :: c in toNames ==> c.name in s.balances)
      && Sum(toNames) <= s.balances[from]
  }

  // What an account loses and gains.
  function Paid(op: Operation, name: Name): int {
    match op
    case CreateAccount(_, _, _, _) => 0
    case Transfer(from, _, amount) => if name == from then amount else 0
    case Transfers(from, toNames) => if name == from then Sum(toNames) else 0
  }

  function Received(op: Operation, name: Name): int {
    match op
    case CreateAccount(_, _, _, _) => 0
    case Transfer(_, to, amount) => if name == to then amount else 0
    case Transfers(_, toNames) => Credited(toNames, name)
  }

  // From one state to another: a new account with nothing on it and the keys given, or payments; all else as it was.
  ghost predicate Performed(s: State, op: Operation, s': State) {
    && s' == s.(balances := s'.balances, authorities := s'.authorities)
    && match op
       case CreateAccount(name, _, posting, owner) =>
         && s'.balances == s.balances[name := 0]
         && s'.authorities == s.authorities[name := Authority(posting, owner)]
       case _ =>
         && s'.authorities == s.authorities && s'.balances.Keys == s.balances.Keys
         && forall n :: n in s.balances ==> s'.balances[n] == s.balances[n] - Paid(op, n) + Received(op, n)
  }

  lemma {:induction false} CreditedTo(balances: map<Name, int>, credits: seq<Credit>, n: Name)
    requires (forall i :: 0 <= i < |credits| ==> credits[i].name in balances) && n in balances
    ensures CreditAll(balances, credits)[n] == balances[n] + Credited(credits, n)
    decreases |credits|
  {
    if credits != [] {
      var c := credits[0];
      CreditedTo(balances[c.name := balances[c.name] + c.amount], credits[1..], n);
    }
  }

  /** An operation applies exactly when it is performable, and then performs what it says. */
  lemma OperationIff(s: State, op: Operation)
    ensures ApplyOperation(s, op).Applied? <==> Performable(s, op)
    ensures Performable(s, op) ==> Performed(s, op, ApplyOperation(s, op).state)
    ensures !Performable(s, op) ==>
      var s' := ApplyOperation(s, op).state;
      s' == s || (op.CreateAccount? && s' == s.(balances := s.balances[op.name := 0]))
  {
    if op.Transfers? {
      if Performable(s, op) {
        var b1 := s.balances[op.from := s.balances[op.from] - Sum(op.toNames)];
        forall n | n in s.balances ensures CreditAll(b1, op.toNames)[n] == b1[n] + Credited(op.toNames, n) {
          CreditedTo(b1, op.toNames, n);
        }
      } else if op.from in s.balances && forall i :: 0 <= i < |op.toNames| ==> op.toNames[i].name in s.balances {
        assert forall c :: c in op.toNames ==> c.name in s.balances;
      }
    }
  }

  // ---------- The operations of a transaction ----------

  // The states one passes through, each operation performed in turn.
  ghost predicate Course(states: seq<State>, ops: seq<Operation>) {
    && |states| == |ops| + 1
    && forall i :: 0 <= i < |ops| ==> Performable(states[i], ops[i]) && Performed(states[i], ops[i], states[i + 1])
  }

  // All of them are performed, in order, and lead from one state to the other.
  ghost predicate Carried(s: State, ops: seq<Operation>, s': State) {
    exists states :: Course(states, ops) && states[0] == s && Last(states) == s'
  }

  lemma PerformedOnce(s: State, op: Operation, a: State, b: State)
    requires Performed(s, op, a) && Performed(s, op, b)
    ensures a == b
  {
    if !op.CreateAccount? {
      assert forall n :: n in s.balances ==> a.balances[n] == b.balances[n];
      assert a.balances == b.balances;
    }
  }

  lemma {:induction false} AppliedCourse(s: State, ops: seq<Operation>) returns (states: seq<State>)
    requires ApplyOperations(s, ops).Applied?
    ensures Course(states, ops) && states[0] == s && Last(states) == ApplyOperations(s, ops).state
    decreases |ops|
  {
    hide ApplyOperation, Performed, Performable;
    if ops == [] {
      states := [s];
    } else {
      OperationIff(s, ops[0]);
      var later := AppliedCourse(ApplyOperation(s, ops[0]).state, ops[1..]);
      states := [s] + later;
      forall i | 0 <= i < |ops| ensures Performable(states[i], ops[i]) && Performed(states[i], ops[i], states[i + 1]) {
        if i > 0 {
          assert states[i] == later[i - 1] && ops[i] == ops[1..][i - 1];
        }
      }
    }
  }

  lemma {:induction false} CourseApplies(states: seq<State>, ops: seq<Operation>)
    requires Course(states, ops)
    ensures ApplyOperations(states[0], ops) == Applied(Last(states))
    decreases |ops|
  {
    hide ApplyOperation, Performed, Performable;
    if ops != [] {
      var s, op := states[0], ops[0];
      assert Performable(s, op) && Performed(s, op, states[1]);
      OperationIff(s, op);
      PerformedOnce(s, op, states[1], ApplyOperation(s, op).state);
      forall i | 0 <= i < |ops| - 1
        ensures Performable(states[1..][i], ops[1..][i]) && Performed(states[1..][i], ops[1..][i], states[1..][i + 1])
      {
        assert ops[1..][i] == ops[i + 1];
      }
      CourseApplies(states[1..], ops[1..]);
    }
  }

  /** Operations apply in order exactly when they can be performed one after the other, and lead where that leads. */
  lemma OperationsIff(s: State, ops: seq<Operation>)
    ensures ApplyOperations(s, ops).Applied? ==> Carried(s, ops, ApplyOperations(s, ops).state)
    ensures forall s' :: Carried(s, ops, s') ==> ApplyOperations(s, ops) == Applied(s')
  {
    if ApplyOperations(s, ops).Applied? {
      var states := AppliedCourse(s, ops);
    }
    hide ApplyOperations, Course;
    forall s' | Carried(s, ops, s') ensures ApplyOperations(s, ops) == Applied(s') {
      var states :| Course(states, ops) && states[0] == s && Last(states) == s';
      CourseApplies(states, ops);
    }
  }

  // ---------- No debts ----------

  // What validate asks of an operation.
  predicate Sensible(op: Operation) {
    match op
    case CreateAccount(_, _, _, _) => true
    case Transfer(from, to, amount) => from != to && 0 < amount
    case Transfers(from, toNames) => toNames != [] && forall c :: c in toNames ==> c.name != from && 0 < c.amount
  }

  lemma SensibleIs(op: Operation)
    ensures op.Validates() <==> Sensible(op)
  {
    if op.Transfers? {
      forall i | 0 <= i < |op.toNames| ensures op.toNames[i] in op.toNames {
      }
    }
  }

  ghost predicate NoDebts(s: State) {
    forall n :: n in s.balances ==> 0 <= s.balances[n]
  }

  lemma {:induction false} CreditedPositive(credits: seq<Credit>, n: Name)
    requires forall c :: c in credits ==> 0 < c.amount
    ensures 0 <= Credited(credits, n)
    decreases |credits|
  {
    if credits != [] {
      CreditedPositive(credits[1..], n);
    }
  }

  lemma OperationNoDebts(s: State, op: Operation)
    requires NoDebts(s) && Sensible(op)
    ensures NoDebts(ApplyOperation(s, op).state)
  {
    OperationIff(s, op);
    hide ApplyOperation;
    if op.Transfers? {
      forall n ensures 0 <= Credited(op.toNames, n) {
        CreditedPositive(op.toNames, n);
      }
    }
  }

  lemma {:induction false} OperationsNoDebts(s: State, ops: seq<Operation>)
    requires NoDebts(s) && forall i :: 0 <= i < |ops| ==> Sensible(ops[i])
    ensures NoDebts(ApplyOperations(s, ops).state)
    decreases |ops|
  {
    hide ApplyOperation, NoDebts, Sensible;
    if ops != [] {
      OperationNoDebts(s, ops[0]);
      OperationsNoDebts(ApplyOperation(s, ops[0]).state, ops[1..]);
    }
  }

  lemma {:induction false} TransactionsNoDebts(checks: Checks, s: State, ts: seq<Transaction>)
    requires NoDebts(s) && checks.Validate()
    ensures NoDebts(ApplyTransactions(checks, s, ts).state)
    decreases |ts|
  {
    if ts != [] {
      var t := ts[0];
      if Admitted(checks, s, t) {
        forall i | 0 <= i < |t.id.operations| ensures Sensible(t.id.operations[i]) {
          SensibleIs(t.id.operations[i]);
        }
        OperationsNoDebts(if checks.Dupes() then s.(recent := s.recent[t.id := t.id.expiration]) else s, t.id.operations);
      }
      hide Admitted, Sensible, ApplyOperations;
      var r := ApplyTransaction(checks, s, t);
      if r.Applied? {
        TransactionsNoDebts(checks, r.state, ts[1..]);
      }
    }
  }

  /** With validation on, and none at genesis, no account ever owes, on any chain. */
  lemma {:induction false} ChainNoDebts(checks: Checks, g: State, blocks: seq<Block>)
    requires NoDebts(g) && checks.Validate()
    ensures NoDebts(Replay(checks, g, blocks).state)
    decreases |blocks|
  {
    hide ApplyTransactions;
    if blocks != [] {
      var n := |blocks| - 1;
      ChainNoDebts(checks, g, blocks[..n]);
      TransactionsNoDebts(checks, Replay(checks, g, blocks[..n]).state, blocks[n].transactions);
    }
  }

  // ---------- Keys and accounts stay ----------

  ghost predicate Stay(s: State, s': State) {
    && s.balances.Keys <= s'.balances.Keys
    && forall n :: n in s.authorities ==> n in s'.authorities && s'.authorities[n] == s.authorities[n]
  }

  lemma {:induction false} OperationsStay(s: State, ops: seq<Operation>)
    ensures Stay(s, ApplyOperations(s, ops).state)
    decreases |ops|
  {
    if ops != [] {
      OperationIff(s, ops[0]);
      hide ApplyOperation;
      OperationsStay(ApplyOperation(s, ops[0]).state, ops[1..]);
    }
  }

  lemma TransactionStays(checks: Checks, s: State, t: Transaction)
    ensures Stay(s, ApplyTransaction(checks, s, t).state)
  {
    OperationsStay(if checks.Dupes() then s.(recent := s.recent[t.id := t.id.expiration]) else s, t.id.operations);
    hide ApplyOperations, Admitted;
  }

  lemma {:induction false} TransactionsStay(checks: Checks, s: State, ts: seq<Transaction>)
    ensures Stay(s, ApplyTransactions(checks, s, ts).state)
    decreases |ts|
  {
    hide ApplyTransaction;
    if ts != [] {
      TransactionStays(checks, s, ts[0]);
      TransactionsStay(checks, ApplyTransaction(checks, s, ts[0]).state, ts[1..]);
    }
  }

  lemma BlockStays(checks: Checks, s: State, b: Block)
    ensures Stay(s, ApplyBlock(checks, s, b).state)
  {
    TransactionsStay(checks, s, b.transactions);
    hide ApplyTransactions;
  }

  /** Up a chain accounts stay, and so do their keys. */
  lemma {:induction false} ChainStays(checks: Checks, g: State, blocks: seq<Block>, n: nat)
    requires n <= |blocks|
    ensures Stay(Replay(checks, g, blocks[..n]).state, Replay(checks, g, blocks).state)
    decreases |blocks|
  {
    hide ApplyBlock;
    if n < |blocks| {
      var m := |blocks| - 1;
      assert blocks[..m][..n] == blocks[..n];
      ChainStays(checks, g, blocks[..m], n);
      BlockStays(checks, Replay(checks, g, blocks[..m]).state, blocks[m]);
    } else {
      assert blocks[..n] == blocks;
    }
  }
}
