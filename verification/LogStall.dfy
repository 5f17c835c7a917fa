/**
 * What becomes of a block of the chain that the fork database has lost before it was logged, once it is due for
 * the log. If no item has its number, no push extends the chain or switches to another fork any more; if exactly
 * one has, that one is logged, whatever chain it is on.
 */
module LogStall {
  import opened Undo
  import opened Common
  import opened ChainTypes
  import opened ChainState
  import opened ForkTree
  import opened ForkDatabase
  import opened MainChain
  import opened ChainNode
  import opened ChainSafety
  import opened ChainLog
  import opened ForkSwitch
  import opened LogPrefix
  import opened PushAtRest
  import opened Incidents

  /**
   * The log's next block is missing, the chain is so high that its next block needs it, and the fork
   * database's head is a child of the chain's that could not be applied.
   */
  ghost predicate Halted(checks: Checks, g: State, n: Node) {
    var main := Main(n.db);
    && Replayed(checks, g, n.db) && NextMissing(n, n.index)
    && |n.log| == Irreversible(|main|) < Irreversible(|main| + 1)
    && n.head.Some? && n.head.value.previous == n.db.current.headId
    && (forall x :: x in n.index ==> x.Num() <= |main|)
  }

  ghost predicate NextMissing(n: Node, index: Index) {
    forall x :: x in index ==> x.Num() != |n.log| + 1
  }

  lemma MissingBreaks(n: Node, head: Block, upTo: nat)
    requires NextMissing(n, n.index) && |n.log| < upTo
    ensures GrowLog(n.index, head, n.log, upTo) == Growth(false, n.log)
  {
    assert AtNumber(n.index, |n.log| + 1) == {};
    MissingBlockLogged(n.index, head, n.log, upTo);
  }

  // A halted node takes no block above the one that failed, so that one stays the fork database's head.
  lemma HaltedAccepts(checks: Checks, g: State, n: Node, b: Block)
    requires Halted(checks, g, n) && Classify(n.index, n.head, n.maxSize, b).Accepted?
    ensures b.Num() <= |Main(n.db)| + 1 && HeadAfter(n.head, b) == n.head.value
    ensures b.Num() == |Main(n.db)| + 1 ==> b.Num() != |n.log| + 1
  {
    hide OnChain, Base;
    MainIs(checks, g, n.db, Main(n.db));
    HeadNumber(Main(n.db));
  }

  // What a block meets there: an exception, or a head that it does not extend.
  lemma HaltedAttempt(checks: Checks, g: State, n: Node, b: Block)
    requires Halted(checks, g, n) && b.Num() <= |Main(n.db)| + 1
    requires b.Num() == |Main(n.db)| + 1 ==> b.Num() != |n.log| + 1
    ensures
      var a := TryApply(checks, n.(index := n.index + {b}), b);
      && (a.ok <==> ApplyBlock(checks, n.db.current, b).Applied? && b.Num() <= |Main(n.db)|)
      && (a.ok ==> b.previous != n.db.current.headId)
      && (!a.ok ==>
            && Replayed(checks, g, a.node.db) && Main(a.node.db) == Main(n.db)
            && a.node.db.current == n.db.current && a.node.log == n.log && a.node.index == n.index + {b})
  {
    hide OnChain, Base, ExecuteBlock, ApplyBlock, GrowLog, TryApply, Pruned, ForkSize, FinishBlock, AfterApply, WithIrreversible, Irreversible, History.Commit;
    var n1, main := n.(index := n.index + {b}), Main(n.db);
    MainIs(checks, g, n.db, main);
    HeadNumber(main);
    TryApplyIs(checks, n1, b);
    FailedOnChain(checks, g, n1, main, b);
    ExecutedApplies(checks, n.db.current, b);
    var r := ExecuteBlock(checks, n.db.current, b);
    if r.Applied? {
      var upTo := WithIrreversible(r.state).lastIrreversible;
      ExecutedIrreversible(checks, n.db.current, b);
      OnChainRevision(checks, g, n.db, main);
      if b.Num() == |main| + 1 {
        ExecutedHead(checks, n.db.current, b);
        MissingBreaks(n1, n.head.value, upTo);
      } else {
        ExecutedLow(checks, n.db.current, b);
        assert GrowLog(n1.index, n.head.value, n.log, upTo) == Growth(true, n.log) by {
          NothingToGrow(n1.index, n.head.value, n.log, upTo);
        }
      }
    }
  }

  /**
   * A halted node: a block is refused or throws, also one that extends the head, unless it does not extend it.
   * As long as none of those is applied, the node stays halted.
   */
  lemma StaysHalted(checks: Checks, g: State, n: Node, b: Block)
    requires Halted(checks, g, n)
    ensures
      var r := Push(checks, n, b);
      && r.outcome == (
           if !Classify(n.index, n.head, n.maxSize, b).Accepted? then RejectedByForkDb
           else if ApplyBlock(checks, n.db.current, b).Threw? then RejectedBlock
           else if b.Num() > |Main(n.db)| then LogBroken
           else Misapplied)
      && (!Misapplies(checks, n, b) ==> Halted(checks, g, r.node) && Main(r.node.db) == Main(n.db) && r.node.log == n.log)
  {
    MisappliedIff(checks, n, b);
    hide OnChain, Base, Classify, TryApply, ExecuteBlock, ApplyBlock, Irreversible, ChainTo, Misapplies;
    ExecutedApplies(checks, n.db.current, b);
    if Classify(n.index, n.head, n.maxSize, b).Accepted? {
      HaltedAccepts(checks, g, n, b);
      HaltedAttempt(checks, g, n, b);
    }
  }

  ghost predicate NeverMisapplies(checks: Checks, n: Node, blocks: seq<Block>) {
    forall i :: 0 <= i < |blocks| ==> !Misapplies(checks, After(checks, n, blocks[..i]), blocks[i])
  }

  /** So no run of pushes moves the chain of a halted node, but one that applies a block where it does not belong. */
  lemma {:induction false} HaltsForGood(checks: Checks, g: State, n: Node, blocks: seq<Block>)
    requires Halted(checks, g, n) && NeverMisapplies(checks, n, blocks)
    ensures
      var r := After(checks, n, blocks);
      Halted(checks, g, r) && Main(r.db) == Main(n.db) && r.log == n.log
    decreases |blocks|
  {
    hide Halted, Push, Main, Misapplies;
    if blocks != [] {
      var before := blocks[..|blocks| - 1];
      assert NeverMisapplies(checks, n, before) by {
        forall i | 0 <= i < |before| ensures !Misapplies(checks, After(checks, n, before[..i]), before[i]) {
          assert before[..i] == blocks[..i];
        }
      }
      HaltsForGood(checks, g, n, before);
      StaysHalted(checks, g, After(checks, n, before), Last(blocks));
    }
  }

  // ---------- How a node comes to halt ----------

  // A young chain of k blocks, none of them in the log, of which the fork database has the last; of the first
  // number it has the items `firsts`.
  ghost predicate Young(checks: Checks, g: State, n: Node, k: nat, firsts: set<Block>)
    requires k > 0
  {
    && Replayed(checks, g, n.db) && Main(n.db) == MainBlocks(g, k)
    && n.log == [] && AtNumber(n.index, 1) == firsts && MainBlock(g, k) in n.index
    && n.head == Some(MainBlock(g, k)) && n.maxSize == ForkSizeAt(k)
    && (forall x :: x in n.index ==> x.Num() <= k)
  }

  // The run of RollbackLosesBlocks, some late blocks, and then the chain's next blocks up to the k-th.
  function LossyRun(g: State, late: seq<Block>, k: nat): seq<Block>
    requires k >= 4
  {
    MainBlocks(g, 4) + ForkBlocks(g, 5) + late + MainBlocks(g, k)[4..]
  }

  lemma LosesFirst(checks: Checks, g: State)
    requires IsGenesis(g)
    ensures Young(checks, g, After(checks, Fresh(g), LossyRun(g, [], 4)), 4, {})
  {
    hide Push, AtRest, Capped, Flatten, ApplyBlock, After, Replayed;
    var n := After(checks, Fresh(g), MainBlocks(g, 4) + ForkBlocks(g, 4));
    RivalledTo(checks, g, 4, 4);
    RivalSwitches(checks, g, n, 4);
    FirstThrows(checks, g, ForkBlocks(g, 5));
    LossyUnfold(checks, g, n);
    LostFirst(checks, g, n, Push(checks, n, ForkBlock(g, 5)).node);
  }

  lemma LossyUnfold(checks: Checks, g: State, n: Node)
    requires n == After(checks, Fresh(g), MainBlocks(g, 4) + ForkBlocks(g, 4))
    ensures After(checks, Fresh(g), LossyRun(g, [], 4)) == Push(checks, n, ForkBlock(g, 5)).node
  {
    hide Push, After, MainBlock, ForkBlock;
    AfterUnfold(checks, Fresh(g), LossyRun(g, [], 4));
    assert LossyRun(g, [], 4)[..8] == MainBlocks(g, 4) + ForkBlocks(g, 4);
    assert Last(LossyRun(g, [], 4)) == ForkBlock(g, 5);
  }

  lemma RestLog(checks: Checks, g: State, n: Node, k: nat)
    requires AtRest(checks, g, n) && Main(n.db) == MainBlocks(g, k) && k <= IRREVERSIBLE_BLOCK_NUM
    ensures n.log == []
  {
  }

  lemma LostFirst(checks: Checks, g: State, n: Node, r: Node)
    requires Rivalled(checks, g, n, 4, 4)
    requires r == RolledBack(Received(n, ForkBlock(g, 5)), MainBlocks(g, 4), ForkBlocks(g, 5), 0, 0)
    ensures Young(checks, g, r, 4, {})
  {
    RestReplayed(checks, g, n);
    RestLog(checks, g, n, 4);
    LostIndex(g, Received(n, ForkBlock(g, 5)).index);
    hide Flatten, Replayed, AtRest, Capped, MainBlock, ForkBlock;
    assert MainBlocks(g, 4)[3] == MainBlock(g, 4);
  }

  // What is left of the fork database: the chain above its first block.
  lemma LostIndex(g: State, index: Index)
    requires index == Blocks(MainBlocks(g, 4)) + Blocks(ForkBlocks(g, 4)) + {ForkBlock(g, 5)}
    ensures
      var left := Pruned(FailedIndex(index, ForkBlocks(g, 5), 0, 0), Below(4, ForkSizeAt(1)));
      && MainBlock(g, 4) in left && forall x :: x in left ==> 1 < x.Num() <= 4
  {
    BlockNumbers(g, 4);
    assert ForkBlocks(g, 5) == ForkBlocks(g, 4) + [ForkBlock(g, 5)] && ForkBlocks(g, 5)[0..] == ForkBlocks(g, 5);
    assert MainBlocks(g, 4)[3] == MainBlock(g, 4);
    forall x | x in Blocks(MainBlocks(g, 4)) ensures x.Num() <= 4 && x !in Blocks(ForkBlocks(g, 5)) {
      var i :| 0 <= i < 4 && x == MainBlocks(g, 4)[i];
      BlockNumbers(g, i + 1);
      assert x.hash == 0;
    }
  }

  lemma NextOnTop(checks: Checks, g: State, n: Node, k: nat, firsts: set<Block>)
    requires 0 < k <= IRREVERSIBLE_BLOCK_NUM && Young(checks, g, n, k, firsts)
    ensures
      var b := MainBlock(g, k + 1);
      && Classify(n.index, n.head, n.maxSize, b).Accepted? && HeadAfter(n.head, b) == b && b.Num() == k + 1
      && b.previous == n.db.current.headId && ApplyBlock(checks, n.db.current, b).Applied?
  {
    var b := MainBlock(g, k + 1);
    NextInTurn(checks, g, n, k, firsts);
    hide OnChain, Base, ApplyBlock, ForkSizeAt, Below;
    YoungSize(k);
    BlockNumbers(g, k);
    BlockNumbers(g, k + 1);
    YoungAccepts(n, b);
    EmptyApplies(checks, n.db.current, b.previous, 0, b.timestamp);
  }

  lemma NextInTurn(checks: Checks, g: State, n: Node, k: nat, firsts: set<Block>)
    requires k > 0 && Young(checks, g, n, k, firsts)
    ensures
      var b := MainBlock(g, k + 1);
      && b.previous == MainBlock(g, k).Id() == n.db.current.headId
      && b.timestamp == n.db.current.time + NEWS_BLOCK_INTERVAL
  {
    hide OnChain, Base;
    assert MainBlocks(g, k) == MainBlocks(g, k - 1) + [MainBlock(g, k)];
    HeadTime(checks, g, n.db, MainBlocks(g, k - 1), MainBlock(g, k));
    MainIs(checks, g, n.db, MainBlocks(g, k));
  }

  // The chain's next block is applied if a block is found for the log, where one is due.
  lemma NextAttempt(checks: Checks, g: State, n: Node, k: nat, firsts: set<Block>)
    requires 0 < k <= IRREVERSIBLE_BLOCK_NUM && Young(checks, g, n, k, firsts)
    ensures
      var b := MainBlock(g, k + 1);
      var n1, a := Received(n, b), TryApply(checks, Received(n, b), b);
      var grown := GrowLog(n1.index, b, [], Irreversible(k + 1));
      && n1.head == Some(b) && (a.ok <==> grown.complete) && a.node.log == grown.log && ExecuteBlock(checks, n.db.current, b).Applied?
      && (a.ok ==>
            && Replayed(checks, g, a.node.db) && Main(a.node.db) == MainBlocks(g, k + 1)
            && a.node.index == Pruned(n1.index, 0) && a.node.maxSize == ForkSizeAt(k + 1) && a.node.head == n1.head)
      && (!a.ok ==> Replayed(checks, g, a.node.db) && Main(a.node.db) == MainBlocks(g, k)
                    && a.node.index == n1.index && a.node.db.current == n.db.current && a.node.head == n1.head)
  {
    hide *;
    NextReady(checks, g, n, k, firsts);
    NextApplied(checks, g, Received(n, MainBlock(g, k + 1)), MainBlocks(g, k), MainBlock(g, k + 1));
  }

  lemma NextReady(checks: Checks, g: State, n: Node, k: nat, firsts: set<Block>)
    requires 0 < k <= IRREVERSIBLE_BLOCK_NUM && Young(checks, g, n, k, firsts)
    ensures
      var main, b := MainBlocks(g, k), MainBlock(g, k + 1);
      var n1 := Received(n, b);
      && |main| == k && MainBlocks(g, k + 1) == main + [b]
      && n1.head == Some(b) && OnChain(checks, g, n1.db, main) && Irreversible(|main|) <= Base(n1.db, main)
      && b.previous == HeadId(main) && Levels(n1, main) && ApplyBlock(checks, n1.db.current, b).Applied? && b.Num() == |main| + 1
      && Below(|main| + 1, ForkSizeAt(|main| + 1)) == 0 && n1.log == [] && n1.db == n.db
  {
    NextOnTop(checks, g, n, k, firsts);
    MainIs(checks, g, n.db, MainBlocks(g, k));
    YoungLevels(checks, g, n, k, firsts);
    YoungSize(k + 1);
    MainNext(g, k);
    hide OnChain, Base, Levels, ApplyBlock, Below, ForkSizeAt, MainBlock, MainBlocks, Irreversible, Classify, Main, ChainTo;
  }

  lemma MainNext(g: State, k: nat)
    ensures |MainBlocks(g, k)| == k && MainBlocks(g, k + 1) == MainBlocks(g, k) + [MainBlock(g, k + 1)]
  {
    hide MainBlock;
  }

  lemma NextApplied(checks: Checks, g: State, n: Node, main: seq<Block>, b: Block)
    requires n.head == Some(b) && OnChain(checks, g, n.db, main) && Irreversible(|main|) <= Base(n.db, main)
    requires b.previous == HeadId(main) && Levels(n, main) && ApplyBlock(checks, n.db.current, b).Applied? && b.Num() == |main| + 1
    requires Below(|main| + 1, ForkSizeAt(|main| + 1)) == 0
    ensures
      var a, grown := TryApply(checks, n, b), GrowLog(n.index, b, n.log, Irreversible(|main| + 1));
      && (a.ok <==> grown.complete) && a.node.log == grown.log && a.node.head == n.head
      && Replayed(checks, g, a.node.db) && Main(a.node.db) == (if a.ok then main + [b] else main)
      && ExecuteBlock(checks, n.db.current, b).Applied?
      && (a.ok ==> a.node.index == Pruned(n.index, 0) && a.node.maxSize == ForkSizeAt(|main| + 1))
      && (!a.ok ==> a.node.index == n.index && a.node.db.current == n.db.current)
  {
    hide OnChain, Base, TryApply, ApplyBlock, ExecuteBlock, ForkSizeAt, Below, Pruned, ChainTo, GrowLog, Levels, Linked;
    ExecutedApplies(checks, n.db.current, b);
    AttemptGrows(checks, g, n, main, b);
    TryApplyOnChain(checks, g, n, main, b);
    var a := TryApply(checks, n, b);
    MainIs(checks, g, a.node.db, if a.ok then main + [b] else main);
    if a.ok {
      TryApplyIndex(checks, g, n, main, b);
    }
  }

  lemma YoungLevels(checks: Checks, g: State, n: Node, k: nat, firsts: set<Block>)
    requires 0 < k <= IRREVERSIBLE_BLOCK_NUM && Young(checks, g, n, k, firsts)
    ensures
      var main, n1 := MainBlocks(g, k), Received(n, MainBlock(g, k + 1));
      OnChain(checks, g, n1.db, main) && Irreversible(k) <= Base(n1.db, main) && Levels(n1, main) && |main| == k && n1.log == []
  {
  }

  // Before the 22nd no block is due.
  lemma YoungGrows(checks: Checks, g: State, n: Node, k: nat, firsts: set<Block>)
    requires 0 < k < IRREVERSIBLE_BLOCK_NUM && Young(checks, g, n, k, firsts)
    ensures
      var r := Push(checks, n, MainBlock(g, k + 1));
      r.outcome == Extended && Young(checks, g, r.node, k + 1, firsts)
  {
    var b := MainBlock(g, k + 1);
    NextOnTop(checks, g, n, k, firsts);
    NextAttempt(checks, g, n, k, firsts);
    NothingToGrow(Received(n, b).index, b, [], Irreversible(k + 1));
    SameFirsts(n.index, b, k);
    hide Replayed, TryApply, ApplyBlock, ExecuteBlock, Classify, HeadAfter, ForkSizeAt, MainBlock, MainBlocks, Main, GrowLog, AtNumber, Pruned;
  }

  lemma SameFirsts(index: Index, b: Block, k: nat)
    requires b.Num() == k + 1 > 1 && forall x :: x in index ==> x.Num() <= k
    ensures
      var after := Pruned(index + {b}, 0);
      AtNumber(after, 1) == AtNumber(index, 1) && b in after && forall x :: x in after ==> x.Num() <= k + 1
  {
  }

  // At the 22nd the first is, and no item has its number.
  lemma LackingBreaks(checks: Checks, g: State, n: Node)
    requires Young(checks, g, n, IRREVERSIBLE_BLOCK_NUM, {})
    ensures
      var r := Push(checks, n, MainBlock(g, IRREVERSIBLE_BLOCK_NUM + 1));
      && r.outcome == LogBroken && Halted(checks, g, r.node)
      && Main(r.node.db) == MainBlocks(g, IRREVERSIBLE_BLOCK_NUM)
  {
    var k: nat := IRREVERSIBLE_BLOCK_NUM;
    var b := MainBlock(g, k + 1);
    NextOnTop(checks, g, n, k, {});
    NextAttempt(checks, g, n, k, {});
    NoneAtFirst(n, b);
    MissingBreaks(n.(index := n.index + {b}), b, 1);
    hide Replayed, TryApply, ApplyBlock, ExecuteBlock, Classify, HeadAfter, ForkSizeAt, MainBlock, MainBlocks, GrowLog, ChainTo;
  }

  lemma NoneAtFirst(n: Node, b: Block)
    requires AtNumber(n.index, 1) == {} && n.log == [] && b.Num() > 1
    ensures NextMissing(n, n.index + {b}) && NextMissing(n, n.index)
  {
    forall x | x in n.index ensures x.Num() != 1 {
      assert x !in AtNumber(n.index, 1);
    }
  }

  // Or exactly one item has its number, and that is logged, whatever chain it is on.
  lemma OtherLogged(checks: Checks, g: State, n: Node, other: Block)
    requires Young(checks, g, n, IRREVERSIBLE_BLOCK_NUM, {other})
    ensures
      var r := Push(checks, n, MainBlock(g, IRREVERSIBLE_BLOCK_NUM + 1));
      && r.outcome == Extended && Main(r.node.db) == MainBlocks(g, IRREVERSIBLE_BLOCK_NUM + 1) && r.node.log == [other]
  {
    var k: nat := IRREVERSIBLE_BLOCK_NUM;
    var b := MainBlock(g, k + 1);
    NextOnTop(checks, g, n, k, {other});
    NextAttempt(checks, g, n, k, {other});
    var index := n.index + {b};
    assert AtNumber(index, 1) == {other};
    OtherGrown(index, b, other);
    hide Replayed, TryApply, ApplyBlock, ExecuteBlock, Classify, HeadAfter, ForkSizeAt, MainBlock, MainBlocks, GrowLog, ChainTo;
  }

  lemma OtherGrown(index: Index, head: Block, other: Block)
    requires AtNumber(index, 1) == {other}
    ensures GrowLog(index, head, [], 1) == Growth(true, [other])
  {
    var b :| b in AtNumber(index, 1) && OnMainBranch(index, head, 1) == Some(b);
    assert [] + [other] == [other];
    NothingToGrow(index, head, [other], 1);
  }

  lemma LossyNext(g: State, late: seq<Block>, k: nat)
    requires k >= 4
    ensures LossyRun(g, late, k + 1) == LossyRun(g, late, k) + [MainBlock(g, k + 1)]
  {
    hide MainBlock, ForkBlock;
    assert MainBlocks(g, k + 1)[4..] == MainBlocks(g, k)[4..] + [MainBlock(g, k + 1)];
  }

  lemma {:induction false} LossyTo(checks: Checks, g: State, late: seq<Block>, firsts: set<Block>, k: nat)
    requires IsGenesis(g) && 4 <= k <= IRREVERSIBLE_BLOCK_NUM
    requires Young(checks, g, After(checks, Fresh(g), LossyRun(g, late, 4)), 4, firsts)
    ensures Young(checks, g, After(checks, Fresh(g), LossyRun(g, late, k)), k, firsts)
    decreases k
  {
    hide Push, Young, After, LossyRun;
    if k > 4 {
      LossyTo(checks, g, late, firsts, k - 1);
      LossyAppend(checks, g, late, k - 1);
      YoungGrows(checks, g, After(checks, Fresh(g), LossyRun(g, late, k - 1)), k - 1, firsts);
    }
  }

  lemma LossyAppend(checks: Checks, g: State, late: seq<Block>, k: nat)
    requires k >= 4
    ensures After(checks, Fresh(g), LossyRun(g, late, k + 1))
         == Push(checks, After(checks, Fresh(g), LossyRun(g, late, k)), MainBlock(g, k + 1)).node
  {
    hide Push, After, LossyRun, MainBlock;
    LossyNext(g, late, k);
    AfterOneMore(checks, Fresh(g), LossyRun(g, late, k), MainBlock(g, k + 1));
  }

  lemma AfterOneMore(checks: Checks, n: Node, before: seq<Block>, b: Block)
    ensures After(checks, n, before + [b]) == Push(checks, After(checks, n, before), b).node
  {
    hide Push, After;
    AfterUnfold(checks, n, before + [b]);
    assert (before + [b])[..|before| + 1 - 1] == before && Last(before + [b]) == b;
  }

  /**
   * A failed switch on a chain four blocks high, and the chain's next blocks up to the 22nd: at that one the
   * lost block is due for the log, and the chain halts below it for good.
   */
  lemma LostBlockHalts(checks: Checks, g: State, later: seq<Block>)
    requires IsGenesis(g)
    ensures
      var n := After(checks, Fresh(g), LossyRun(g, [], IRREVERSIBLE_BLOCK_NUM));
      var r := Push(checks, n, MainBlock(g, IRREVERSIBLE_BLOCK_NUM + 1));
      && Main(n.db) == MainBlocks(g, IRREVERSIBLE_BLOCK_NUM) && r.outcome == LogBroken
      && (NeverMisapplies(checks, r.node, later) ==> Main(After(checks, r.node, later).db) == Main(n.db))
  {
    hide Push, After, LossyRun, Halted, NeverMisapplies;
    var n := After(checks, Fresh(g), LossyRun(g, [], IRREVERSIBLE_BLOCK_NUM));
    LosesFirst(checks, g);
    LossyTo(checks, g, [], {}, IRREVERSIBLE_BLOCK_NUM);
    LackingBreaks(checks, g, n);
    var r := Push(checks, n, MainBlock(g, IRREVERSIBLE_BLOCK_NUM + 1));
    if NeverMisapplies(checks, r.node, later) {
      HaltsForGood(checks, g, r.node, later);
    }
  }

  // A rival of the first block, which does not apply and nobody has tried to apply.
  function LateRival(g: State): Block {
    Empty(NO_BLOCK, 2, g.time)
  }

  lemma LateRivalIgnored(checks: Checks, g: State, n: Node)
    requires Young(checks, g, n, 4, {})
    ensures Push(checks, n, LateRival(g)).outcome == Ignored
    ensures Young(checks, g, Push(checks, n, LateRival(g)).node, 4, {LateRival(g)})
  {
    var b := LateRival(g);
    BlockNumbers(g, 4);
    BlockNumbers(g, 3);
    YoungSize(4);
    YoungAccepts(n, b);
    NotOwnParent(g, 4);
    MainOfYoung(checks, g, n);
    assert b.previous.Num() == 0 && b.Num() == 1;
    assert AtNumber(n.index + {b}, 1) == AtNumber(n.index, 1) + {b};
    hide Replayed, Main, ForkSizeAt, MainBlocks;
  }

  lemma MainOfYoung(checks: Checks, g: State, n: Node)
    requires Young(checks, g, n, 4, {})
    ensures n.db.current.headId == HeadId(MainBlocks(g, 4)) && n.db.current.headNum == 4
  {
    MainIs(checks, g, n.db, MainBlocks(g, 4));
  }

  /**
   * The same run, but that a rival of the first block arrives after the failed switch: it is the only item of
   * that number when the first block is due, and gets into the log instead, of which the chain has no part.
   */
  lemma RivalGetsLogged(checks: Checks, g: State)
    requires IsGenesis(g)
    ensures
      var n := After(checks, Fresh(g), LossyRun(g, [LateRival(g)], IRREVERSIBLE_BLOCK_NUM));
      var b := MainBlock(g, IRREVERSIBLE_BLOCK_NUM + 1);
      var r := Push(checks, n, b);
      && r.outcome == Extended && Main(r.node.db) == MainBlocks(g, IRREVERSIBLE_BLOCK_NUM + 1)
      && n.log == [] && r.node.log == [LateRival(g)] && !(r.node.log <= Main(r.node.db)) && !LogsOwn(checks, g, n, b)
  {
    var late := [LateRival(g)];
    LosesFirst(checks, g);
    LateRivalIgnored(checks, g, After(checks, Fresh(g), LossyRun(g, [], 4)));
    assert LossyRun(g, late, 4) == LossyRun(g, [], 4) + late;
    AfterOneMore(checks, Fresh(g), LossyRun(g, [], 4), LateRival(g));
    hide Push, After, LossyRun, Replayed, LogsOwn, Misapplies, Main;
    LossyTo(checks, g, late, {LateRival(g)}, IRREVERSIBLE_BLOCK_NUM);
    var n := After(checks, Fresh(g), LossyRun(g, late, IRREVERSIBLE_BLOCK_NUM));
    var b := MainBlock(g, IRREVERSIBLE_BLOCK_NUM + 1);
    OtherLogged(checks, g, n, LateRival(g));
    NotFirst(g);
    MisappliedIff(checks, n, b);
    SmallLevels(checks, g, n);
    PushLogIff(checks, g, n, b);
  }

  lemma NotFirst(g: State)
    ensures !([LateRival(g)] <= MainBlocks(g, IRREVERSIBLE_BLOCK_NUM + 1))
  {
    assert MainBlocks(g, IRREVERSIBLE_BLOCK_NUM + 1)[0] == MainBlock(g, 1);
  }

  lemma SmallLevels(checks: Checks, g: State, n: Node)
    requires Young(checks, g, n, IRREVERSIBLE_BLOCK_NUM, {LateRival(g)})
    ensures Levels(n, Main(n.db))
  {
  }
}
