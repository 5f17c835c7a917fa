/**
 * Whole runs of the node: blocks pushed, blocks generated and transactions pushed, in any order and
 * number, and what holds after every such run.
 */
module NodeRuns {
  import opened Undo
  import opened Common
  import opened ChainTypes
  import opened ChainState
  import opened OperationEffects
  import opened Admission
  import opened TransactionWindow
  import opened ForkDatabase
  import opened MainChain
  import opened ChainNode
  import opened ChainSafety
  import opened ChainLog
  import opened ForkSwitch
  import opened LogPrefix
  import opened PushAtRest
  import opened TransactionPool

  datatype Event =
    | PushBlock(block: Block)
    | GenerateBlock(when: nat, hash: nat)
    | PushTransaction(transaction: Transaction)

  // The block an event pushes.
  function BlockOf(checks: Checks, header: HeaderSize, v: Ledger, e: Event): Option<Block> {
    match e
    case PushBlock(b) => Some(b)
    case GenerateBlock(when, hash) => Some(Generated(checks, header, v, when, hash))
    case PushTransaction(_) => None
  }

  ghost function Step(checks: Checks, header: HeaderSize, v: Ledger, e: Event): Ledger {
    match e
    case PushTransaction(t) => AfterTransaction(checks, v, t)
    case _ => AfterPush(checks, v, BlockOf(checks, header, v, e).value)
  }

  ghost function Run(checks: Checks, header: HeaderSize, v: Ledger, events: seq<Event>): Ledger
    decreases |events|
  {
    if events == [] then v else Run(checks, header, Step(checks, header, v, events[0]), events[1..])
  }

  // What is asked of every push of a run, given the node it meets.
  datatype Care =
    | Linking   // no block is misapplied
    | Logging   // nor does the log take a block that is not the chain's own
    | Tidying   // or, so that it cannot, no gap is opened in the fork database
    | Resting   // every push is calm and keeps the blocks that are needed

  ghost predicate Meets(care: Care, checks: Checks, g: State, n: Node, b: Block) {
    match care
    case Linking => !Misapplies(checks, n, b)
    case Logging => !Misapplies(checks, n, b) && LogsOwn(checks, g, n, b)
    case Tidying => !Misapplies(checks, n, b) && Tidy(n, b)
    case Resting => Calm(checks, g, n, b) && ErasesNothing(n, b) && RollbackKeeps(checks, g, n, b)
  }

  ghost predicate Careful(care: Care, checks: Checks, g: State, header: HeaderSize, v: Ledger, events: seq<Event>)
    decreases |events|
  {
    events == [] ||
    var b := BlockOf(checks, header, v, events[0]);
    && (b.Some? ==> Meets(care, checks, g, v.node, b.value))
    && Careful(care, checks, g, header, Step(checks, header, v, events[0]), events[1..])
  }

  // What such runs keep.
  ghost predicate Kept(care: Care, checks: Checks, g: State, v: Ledger) {
    && PendingApply(checks, v)
    && match care
       case Linking => Replayed(checks, g, v.node.db) && Levels(v.node, Main(v.node.db))
       case Logging => Replayed(checks, g, v.node.db) && Levels(v.node, Main(v.node.db)) && v.node.log <= Main(v.node.db)
       case Tidying => Consistent(checks, g, v.node)
       case Resting => AtRest(checks, g, v.node) && Capped(v.node)
  }

  lemma FreshKept(care: Care, checks: Checks, g: State)
    requires IsGenesis(g)
    ensures Kept(care, checks, g, Ledger(Fresh(g), []))
  {
    FreshIsConsistent(checks, g);
  }

  lemma StepKeeps(care: Care, checks: Checks, g: State, header: HeaderSize, v: Ledger, e: Event)
    requires Kept(care, checks, g, v)
    requires BlockOf(checks, header, v, e).Some? ==> Meets(care, checks, g, v.node, BlockOf(checks, header, v, e).value)
    ensures Kept(care, checks, g, Step(checks, header, v, e))
  {
    hide Replayed, Consistent, AtRest, Capped, Push, ApplyTransaction, ApplyTransactions, Tidy, ErasesNothing, RollbackKeeps, Generated;
    hide Misapplies, LogsOwn, Levels, Main;
    if e.PushTransaction? {
      TransactionKeepsPending(checks, v, e.transaction);
    } else {
      var b := BlockOf(checks, header, v, e).value;
      SettledPendingApply(checks, Push(checks, v.node, b).node, v.pending);
      match care
      case Linking => PushLogIff(checks, g, v.node, b);
      case Logging => PushLogIff(checks, g, v.node, b);
      case Tidying => PushKeepsLog(checks, g, v.node, b);
      case Resting =>
        CappedOneHigher(checks, g, v.node, b);
        CalmMisapplies(checks, g, v.node, b);
        StaysAtRest(checks, g, v.node, b);
        StaysCapped(checks, g, v.node, b);
    }
  }

  lemma CalmMisapplies(checks: Checks, g: State, n: Node, b: Block)
    requires Calm(checks, g, n, b)
    ensures !Misapplies(checks, n, b) && ReachesParent(n, b)
  {
  }

  // What the careful runs keep, they keep in every state they pass through.
  lemma {:induction false} RunKeeps(care: Care, checks: Checks, g: State, header: HeaderSize, v: Ledger, events: seq<Event>)
    requires Kept(care, checks, g, v) && Careful(care, checks, g, header, v, events)
    ensures Kept(care, checks, g, Run(checks, header, v, events))
    decreases |events|
  {
    hide Kept, Meets, Step, BlockOf;
    if events != [] {
      StepKeeps(care, checks, g, header, v, events[0]);
      RunKeeps(care, checks, g, header, Step(checks, header, v, events[0]), events[1..]);
    }
  }

  /**
   * At rest, a block that is generated extends the chain if and only if its slot lies ahead; there is no
   * other way for it to fail than the assertion on its slot.
   */
  lemma GeneratedBlockExtends(checks: Checks, g: State, header: HeaderSize, v: Ledger, when: nat, hash: nat)
    requires AtRest(checks, g, v.node) && Capped(v.node)
    ensures
      var b := Generated(checks, header, v, when, hash);
      var r := Push(checks, v.node, b);
      && r.outcome == (if SlotAt(v.node.db.current, when) > 0 then Extended else RejectedBlock)
      && Main(r.node.db) == (if r.outcome.Extended? then Main(v.node.db) + [b] else Main(v.node.db))
  {
    var b := Generated(checks, header, v, when, hash);
    GeneratedBlockApplies(checks, v.node.db.current, v.pending, when, header, b);
    hide Push, AtRest, Capped, ApplyBlock, Generated, SlotAt;
    ChildAccepted(checks, g, v.node, b);
    CappedOneHigher(checks, g, v.node, b);
    PushAtRestIs(checks, g, v.node, b);
  }

  // A child of the head is always accepted, and tried on top of the head.
  lemma ChildAccepted(checks: Checks, g: State, n: Node, b: Block)
    requires AtRest(checks, g, n) && Capped(n) && b.previous == n.db.current.headId
    ensures Classify(n.index, n.head, n.maxSize, b).Accepted? && HeadAfter(n.head, b).previous == n.db.current.headId
  {
    hide OnChain, Base;
    var main := Main(n.db);
    MainIs(checks, g, n.db, main);
    HeadNumber(main);
    if main != [] {
      assert Last(main) in n.index;
    }
  }

  // ---------- What it means ----------

  /**
   * The state is the replay of a linked chain from genesis, with its head, irreversible block, slot and total
   * of balances; the undo stack holds the states below it, not beyond the irreversible block; the roots of
   * the blocks match; no transaction is on the chain twice, and each is signed by those responsible; nobody
   * owes; and the pending transactions apply in order.
   */
  ghost predicate ReplaysOneChain(checks: Checks, g: State, v: Ledger) {
    var db, s, main := v.node.db, v.node.db.current, Main(v.node.db);
    && Linked(main) && Replay(checks, g, main) == Applied(s)
    && s.headNum == |main| == db.revision && s.headId == HeadId(main) && s.lastIrreversible == Irreversible(|main|)
    && |db.saved| <= s.headNum - s.lastIrreversible
    && (forall i :: 0 <= i < |db.saved| ==>
          db.saved[i] == StateOf(checks, g, main[..|main| - |db.saved| + i]) && db.RevisionOf(i) == |main| - |db.saved| + i + 1)
    && Total(s.balances) == Total(g.balances)
    && s.currentSlot == SlotOf(g, main)
    && (checks.Merkle() ==> RootsMatch(main))
    && (checks.Authority() ==> AllSigned(s, main))
    && (checks.Validate() && NoDebts(g) ==> NoDebts(s))
    && (checks.Dupes() ==>
          NoDuplicates(TransactionsOf(main)) && Covered(s, TransactionsOf(main)) && NoneExpired(s))
    && ApplyTransactions(checks, s, v.pending).Applied?
  }

  // The block log is as long as the chain is irreversible, or longer, and no longer than can be undone.
  ghost predicate LogsAsMuch(v: Ledger) {
    var db, main := v.node.db, Main(v.node.db);
    db.current.lastIrreversible <= |v.node.log| <= |main| - |db.saved|
  }

  // It is a part of the chain from its first block on.
  ghost predicate LogsTheChain(v: Ledger) {
    v.node.log <= Main(v.node.db)
  }

  // Undo stack and log meet exactly at the irreversible block, and the fork database holds the chain from there.
  ghost predicate MeetsAtIrreversible(v: Ledger) {
    var db, main := v.node.db, Main(v.node.db);
    && |db.saved| == db.current.headNum - db.current.lastIrreversible
    && db.current.lastIrreversible <= |main| && v.node.log == main[..db.current.lastIrreversible]
    && Retained(v.node.index, main, Lowest(|main|))
  }

  ghost predicate Promised(care: Care, checks: Checks, g: State, v: Ledger) {
    && ReplaysOneChain(checks, g, v) && LogsAsMuch(v)
    && (!care.Linking? ==> LogsTheChain(v))
    && (care.Resting? ==> MeetsAtIrreversible(v))
  }

  lemma KeptIsPromised(care: Care, checks: Checks, g: State, v: Ledger)
    requires Kept(care, checks, g, v)
    ensures Promised(care, checks, g, v)
  {
    var main := Main(v.node.db);
    assert Replayed(checks, g, v.node.db);
    ReplayedPromises(checks, g, v);
    MainIs(checks, g, v.node.db, main);
    hide ReplaysOneChain, OnChain, Retained, ChainTo, NoGap;
    SavedAbove(checks, g, v.node.db, main, Base(v.node.db, main));
  }

  lemma ReplayedPromises(checks: Checks, g: State, v: Ledger)
    requires Replayed(checks, g, v.node.db) && PendingApply(checks, v)
    ensures ReplaysOneChain(checks, g, v)
  {
    hide NoDuplicates, Covered, NoneExpired, Total, ApplyTransactions, SlotOf, RootsMatch, AllSigned, NoDebts;
    var main := Main(v.node.db);
    MainIs(checks, g, v.node.db, main);
    ChainConserves(checks, g, main);
    ChainRootsAndSlots(checks, g, main);
    if checks.Authority() {
      ChainAllSigned(checks, g, main);
    }
    if checks.Validate() && NoDebts(g) {
      ChainNoDebts(checks, g, main);
    }
    if checks.Dupes() {
      ChainHasNoDuplicates(checks, g, main);
    }
  }

  /** What holds after every run from genesis, by what its pushes meet. */
  lemma WhatEveryRunKeeps(care: Care, checks: Checks, g: State, header: HeaderSize, events: seq<Event>)
    requires IsGenesis(g) && Careful(care, checks, g, header, Ledger(Fresh(g), []), events)
    ensures Promised(care, checks, g, Run(checks, header, Ledger(Fresh(g), []), events))
  {
    hide Kept, Promised, Careful;
    FreshKept(care, checks, g);
    RunKeeps(care, checks, g, header, Ledger(Fresh(g), []), events);
    KeptIsPromised(care, checks, g, Run(checks, header, Ledger(Fresh(g), []), events));
  }

  // After every event of the run the log is a part of the chain.
  ghost predicate LogFollows(checks: Checks, header: HeaderSize, v: Ledger, events: seq<Event>)
    decreases |events|
  {
    LogsTheChain(v) && (events == [] || LogFollows(checks, header, Step(checks, header, v, events[0]), events[1..]))
  }

  /** Of the runs that misapply no block, the log follows the chain in exactly those that add none but its own blocks. */
  lemma {:induction false} LogFollowsIff(checks: Checks, g: State, header: HeaderSize, v: Ledger, events: seq<Event>)
    requires Kept(Linking, checks, g, v) && Careful(Linking, checks, g, header, v, events) && LogsTheChain(v)
    ensures LogFollows(checks, header, v, events) <==> Careful(Logging, checks, g, header, v, events)
    decreases |events|
  {
    hide Replayed, Levels, Main, Push, Misapplies, LogsOwn, ApplyTransactions, ApplyTransaction, Generated, ErasesNothing, RollbackKeeps, Tidy, Calm;
    if events != [] {
      var e, v1 := events[0], Step(checks, header, v, events[0]);
      StepKeeps(Linking, checks, g, header, v, e);
      if e.PushTransaction? {
        assert v1.node == v.node;
      } else {
        var b := BlockOf(checks, header, v, e).value;
        assert v1.node == Push(checks, v.node, b).node;
        PushLogIff(checks, g, v.node, b);
      }
      if LogsTheChain(v1) {
        LogFollowsIff(checks, g, header, v1, events[1..]);
      } else {
        hide LogsTheChain, Step;
      }
    }
  }

  // What an event makes of the pending transactions, given those before.
  ghost predicate PendingStep(checks: Checks, header: HeaderSize, v: Ledger, e: Event, v1: Ledger) {
    match e
    case PushTransaction(t) =>
      var on := ApplyTransactions(checks, v.node.db.current, v.pending).state;
      && v1.node == v.node
      && v1.pending == v.pending + if ApplyTransaction(checks, on, t).Applied? then [t] else []
    case _ =>
      && PutBack(checks, v1.node.db.current, v1.node.popped + v.pending, v1.pending)
      && (checks.Dupes() && v1.node.popped == [] && ApplyTransactions(checks, v1.node.db.current, v.pending).Applied? ==>
            v1.pending == v.pending)
  }

  ghost predicate PendingFollows(checks: Checks, header: HeaderSize, v: Ledger, events: seq<Event>)
    decreases |events|
  {
    events == [] ||
    var v1 := Step(checks, header, v, events[0]);
    PendingStep(checks, header, v, events[0], v1) && PendingFollows(checks, header, v1, events[1..])
  }

  /** In every run, each event adds its transaction, or puts back what is to be put back, and loses no other. */
  lemma {:induction false} PendingOverRuns(checks: Checks, header: HeaderSize, v: Ledger, events: seq<Event>)
    ensures PendingFollows(checks, header, v, events)
    decreases |events|
  {
    hide PutBack, ApplyTransactions, ApplyTransaction, Push, Generated;
    if events != [] {
      var e, v1 := events[0], Step(checks, header, v, events[0]);
      if !e.PushTransaction? {
        PushPutsBack(checks, v, BlockOf(checks, header, v, e).value);
      } else {
        assert v.pending + [] == v.pending;
      }
      PendingOverRuns(checks, header, v1, events[1..]);
    }
  }

  // ---------- The node in place ----------

  /** A run on a node that is changed in place. */
  method RunOn(pool: Pool, events: seq<Event>)
    requires pool.Valid()
    modifies pool, pool.chain, pool.chain.store, pool.chain.fork
    ensures pool.Valid()
    ensures pool.View() == Run(pool.chain.checks, pool.headerSize, old(pool.View()), events)
  {
    hide Step, AfterPush, AfterTransaction, Push, Generated, ApplyTransactions;
    assert events[0..] == events;
    for i := 0 to |events|
      invariant pool.Valid()
      invariant Run(pool.chain.checks, pool.headerSize, pool.View(), events[i..])
             == Run(pool.chain.checks, pool.headerSize, old(pool.View()), events)
    {
      ghost var before := pool.View();
      StepIs(pool.chain.checks, pool.headerSize, before, events[i]);
      assert events[i..][0] == events[i] && events[i..][1..] == events[i + 1..];
      match events[i]
      case PushBlock(b) =>
        var r := pool.PushBlock(b);
      case GenerateBlock(when, hash) =>
        var b, r := pool.GenerateBlock(when, hash);
      case PushTransaction(t) =>
        var ok := pool.PushTransaction(t);
    }
  }

  lemma StepIs(checks: Checks, header: HeaderSize, v: Ledger, e: Event)
    ensures Step(checks, header, v, e) ==
      match e
      case PushBlock(b) => AfterPush(checks, v, b)
      case GenerateBlock(when, hash) => AfterPush(checks, v, Generated(checks, header, v, when, hash))
      case PushTransaction(t) => AfterTransaction(checks, v, t)
  {
  }

  /** A node made from genesis and run: every promise its pushes have earned holds of it. */
  method RunFromGenesis(checks: Checks, genesis: State, header: HeaderSize, events: seq<Event>) returns (pool: Pool)
    requires IsGenesis(genesis)
    ensures fresh(pool) && pool.Valid()
    ensures forall care :: Careful(care, checks, genesis, header, Ledger(Fresh(genesis), []), events) ==>
      Promised(care, checks, genesis, pool.View())
  {
    hide Careful, Promised, Run;
    pool := new Pool(checks, genesis, header);
    RunOn(pool, events);
    forall care | Careful(care, checks, genesis, header, Ledger(Fresh(genesis), []), events)
      ensures Promised(care, checks, genesis, pool.View())
    {
      WhatEveryRunKeeps(care, checks, genesis, header, events);
    }
  }
}
