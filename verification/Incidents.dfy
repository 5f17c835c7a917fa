/**
 * Runs from any genesis, under any skip flags, on which the controller does not do what one would
 * expect. All blocks are empty; those that do not apply have a time that lies in no slot.
 */
module Incidents {
  import opened Undo
  import opened Common
  import opened ChainTypes
  import opened ChainState
  import opened ForkTree
  import opened ForkDatabase
  import opened MainChain
  import opened ChainNode
  import opened ChainSafety
  import opened ChainLog
  import opened ForkSwitch
  import opened PushAtRest

  // The node after the blocks have been pushed one after the other.
  ghost function After(checks: Checks, n: Node, blocks: seq<Block>): Node
    decreases |blocks|
  {
    if blocks == [] then n else Push(checks, After(checks, n, blocks[..|blocks| - 1]), Last(blocks)).node
  }

  function Empty(previous: BlockId, hash: nat, timestamp: nat): Block {
    Block(previous, hash, timestamp, [], true)
  }

  lemma EmptyApplies(checks: Checks, s: State, previous: BlockId, hash: nat, timestamp: nat)
    ensures timestamp >= s.time + NEWS_BLOCK_INTERVAL ==> ApplyBlock(checks, s, Empty(previous, hash, timestamp)).Applied?
    ensures timestamp <= s.time ==> ApplyBlock(checks, s, Empty(previous, hash, timestamp)).Threw?
  {
    LaterSlot(s, timestamp);
  }

  // The k-th block of the main chain, and of a fork from genesis whose first block does not apply.
  function MainBlock(g: State, k: nat): Block
    requires k > 0
  {
    Empty(if k == 1 then NO_BLOCK else MainBlock(g, k - 1).Id(), 0, g.time + NEWS_BLOCK_INTERVAL * k)
  }

  function ForkBlock(g: State, k: nat): Block
    requires k > 0
  {
    Empty(if k == 1 then NO_BLOCK else ForkBlock(g, k - 1).Id(), 1, g.time + NEWS_BLOCK_INTERVAL * (k - 1))
  }

  function MainBlocks(g: State, k: nat): (r: seq<Block>)
    ensures |r| == k
    ensures forall i :: 0 <= i < k ==> r[i] == MainBlock(g, i + 1)
  {
    if k == 0 then [] else MainBlocks(g, k - 1) + [MainBlock(g, k)]
  }

  lemma {:induction false} BlockNumbers(g: State, k: nat)
    requires k > 0
    ensures MainBlock(g, k).Num() == ForkBlock(g, k).Num() == k
  {
    if k > 1 {
      BlockNumbers(g, k - 1);
    }
  }

  // A young chain of k blocks, with nothing else received.
  ghost predicate Grown(checks: Checks, g: State, n: Node, k: nat) {
    && AtRest(checks, g, n) && Capped(n) && Main(n.db) == MainBlocks(g, k)
    && n.index == Blocks(MainBlocks(g, k)) && n.db.current.time == g.time + NEWS_BLOCK_INTERVAL * k
    && n.head == (if k == 0 then None else Some(MainBlock(g, k)))
    && n.maxSize == (if k == 0 then 1024 else ForkSizeAt(k))
  }

  lemma FreshGrown(checks: Checks, g: State)
    requires IsGenesis(g)
    ensures Grown(checks, g, Fresh(g), 0)
  {
  }

  lemma Grows(checks: Checks, g: State, n: Node, k: nat)
    requires Grown(checks, g, n, k) && k <= IRREVERSIBLE_BLOCK_NUM
    ensures
      var r := Push(checks, n, MainBlock(g, k + 1));
      r.outcome == Extended && Grown(checks, g, r.node, k + 1)
  {
    hide *;
    NextAccepted(checks, g, n, k);
    NextBlockApplies(checks, g, n, k);
    GrownFacts(checks, g, n, k);
    DirectPush(checks, g, n, MainBlock(g, k + 1));
    MakeGrown(checks, g, n, Push(checks, n, MainBlock(g, k + 1)).node, k);
  }

  lemma NextBlockApplies(checks: Checks, g: State, n: Node, k: nat)
    requires Grown(checks, g, n, k)
    ensures ApplyBlock(checks, n.db.current, MainBlock(g, k + 1)).Applied?
  {
    hide AtRest, Capped, ApplyBlock;
    var b := MainBlock(g, k + 1);
    EmptyApplies(checks, n.db.current, b.previous, 0, b.timestamp);
  }

  lemma GrownFacts(checks: Checks, g: State, n: Node, k: nat)
    requires Grown(checks, g, n, k)
    ensures AtRest(checks, g, n) && Capped(n) && Main(n.db) == MainBlocks(g, k) && n.index == Blocks(MainBlocks(g, k))
    ensures |Main(n.db)| == k && MainBlocks(g, k + 1) == MainBlocks(g, k) + [MainBlock(g, k + 1)]
  {
  }

  lemma MakeGrown(checks: Checks, g: State, n: Node, r: Node, k: nat)
    requires AtRest(checks, g, r) && Capped(r) && Main(r.db) == MainBlocks(g, k) + [MainBlock(g, k + 1)]
    requires r.index == Pruned(Blocks(MainBlocks(g, k)) + {MainBlock(g, k + 1)}, Below(k + 1, ForkSizeAt(k + 1)))
    requires r.head == Some(MainBlock(g, k + 1)) && r.maxSize == ForkSizeAt(k + 1) && k <= IRREVERSIBLE_BLOCK_NUM
    ensures Grown(checks, g, r, k + 1)
  {
    YoungSize(k + 1);
    hide AtRest, Capped, ForkSizeAt, Below, Pruned, Blocks;
    UnprunedIndex(MainBlocks(g, k), MainBlock(g, k + 1));
    assert Replayed(checks, g, r.db) by {
      RestReplayed(checks, g, r);
    }
    HeadTime(checks, g, r.db, MainBlocks(g, k), MainBlock(g, k + 1));
  }

  lemma RestReplayed(checks: Checks, g: State, n: Node)
    requires AtRest(checks, g, n)
    ensures Replayed(checks, g, n.db)
  {
  }

  lemma UnprunedIndex(main: seq<Block>, b: Block)
    ensures Pruned(Blocks(main) + {b}, 0) == Blocks(main + [b])
  {
  }

  lemma YoungSize(h: nat)
    requires 0 < h <= IRREVERSIBLE_BLOCK_NUM + 1
    ensures Below(h, ForkSizeAt(h)) == 0
  {
  }

  lemma NextAccepted(checks: Checks, g: State, n: Node, k: nat)
    requires Grown(checks, g, n, k)
    ensures
      var b := MainBlock(g, k + 1);
      && Classify(n.index, n.head, n.maxSize, b).Accepted? && HeadAfter(n.head, b) == b
      && b.previous == n.db.current.headId && n.db.current.time + NEWS_BLOCK_INTERVAL == b.timestamp
  {
    hide OnChain, Base, Retained, Lowest;
    MainIs(checks, g, n.db, MainBlocks(g, k));
    BlockNumbers(g, k + 1);
    if k > 0 {
      BlockNumbers(g, k);
      assert MainBlocks(g, k)[k - 1] == MainBlock(g, k);
      assert MainBlock(g, k) in n.index;
    }
  }

  // A block that extends the head of a node at rest.
  lemma DirectPush(checks: Checks, g: State, n: Node, b: Block)
    requires AtRest(checks, g, n) && Capped(n) && Classify(n.index, n.head, n.maxSize, b).Accepted?
    requires HeadAfter(n.head, b).previous == n.db.current.headId == b.previous
    requires ApplyBlock(checks, n.db.current, b).Applied?
    ensures
      var r, h := Push(checks, n, b), |Main(n.db)| + 1;
      && r.outcome == Extended && Main(r.node.db) == Main(n.db) + [b] && AtRest(checks, g, r.node) && Capped(r.node)
      && Replayed(checks, g, r.node.db)
      && r.node.index == Pruned(n.index + {b}, Below(h, ForkSizeAt(h)))
      && r.node.head == Some(HeadAfter(n.head, b)) && r.node.maxSize == ForkSizeAt(h)
  {
    CappedOneHigher(checks, g, n, b);
    PushAtRestIs(checks, g, n, b);
    CalmIff(checks, g, n, b);
    hide OnChain, Push, Capped, Classify, HeadAfter, ApplyBlock, ForkSizeAt, Below, Pruned, Calm;
    StaysCapped(checks, g, n, b);
  }

  lemma HeadTime(checks: Checks, g: State, db: History<State>, main: seq<Block>, b: Block)
    requires Replayed(checks, g, db) && Main(db) == main + [b]
    ensures db.current.time == b.timestamp
  {
    assert (main + [b])[..|main|] == main;
    BlockEffect(checks, Replay(checks, g, main).state, b);
  }

  lemma FailedPush(checks: Checks, g: State, n: Node, b: Block)
    requires AtRest(checks, g, n) && Capped(n) && Classify(n.index, n.head, n.maxSize, b).Accepted?
    requires HeadAfter(n.head, b).previous == n.db.current.headId && ApplyBlock(checks, n.db.current, b).Threw?
    requires b !in n.index
    ensures Push(checks, n, b) == Pushed(RejectedBlock, n.(head := Some(HeadAfter(n.head, b))))
  {
    CappedOneHigher(checks, g, n, b);
    PushAtRestIs(checks, g, n, b);
    assert n.index + {b} - {b} == n.index;
  }

  lemma SidePush(checks: Checks, g: State, n: Node, b: Block)
    requires AtRest(checks, g, n) && Capped(n) && Classify(n.index, n.head, n.maxSize, b).Accepted?
    requires n.head.Some? && b.Num() <= n.head.value.Num() <= |Main(n.db)| && n.head.value.previous != n.db.current.headId
    ensures Push(checks, n, b) == Pushed(Ignored, n.(index := n.index + {b}))
    ensures AtRest(checks, g, Push(checks, n, b).node) && Capped(Push(checks, n, b).node)
  {
    CappedOneHigher(checks, g, n, b);
    PushAtRestIs(checks, g, n, b);
    ReceivedAtRest(checks, g, n, b);
  }

  /**
   * A child of the head that does not apply stays the fork database's head. The next block pushed, here a
   * rival of the head with a later time, is applied on top of the head it does not extend.
   */
  lemma StaleHeadMisapplies(checks: Checks, g: State)
    requires IsGenesis(g)
    ensures
      var b1 := MainBlock(g, 1);
      var child := Empty(b1.Id(), 1, g.time);
      var rival := Empty(NO_BLOCK, 1, g.time + 3 * NEWS_BLOCK_INTERVAL);
      var p1 := Push(checks, Fresh(g), b1);
      var p2 := Push(checks, p1.node, child);
      var p3 := Push(checks, p2.node, rival);
      && p1.outcome == Extended && p2.outcome == RejectedBlock && p3.outcome == Misapplied
  {
    hide Push, AtRest, Capped, ApplyBlock;
    FreshGrown(checks, g);
    Grows(checks, g, Fresh(g), 0);
    var n1 := Push(checks, Fresh(g), MainBlock(g, 1)).node;
    var b1 := MainBlock(g, 1);
    BlockNumbers(g, 1);
    assert MainBlocks(g, 1)[0] == b1;
    MainIsAtRest(checks, g, n1);
    var child := Empty(b1.Id(), 1, g.time);
    EmptyApplies(checks, n1.db.current, b1.Id(), 1, g.time);
    assert child !in n1.index;
    assert child.previous.Num() == 1 && child.Num() == 2;
    YoungAccepts(n1, child);
    assert HeadAfter(n1.head, child) == child && n1.db.current.headId == b1.Id();
    FailedPush(checks, g, n1, child);
    var n2 := Push(checks, n1, child).node;
    var rival := Empty(NO_BLOCK, 1, g.time + 3 * NEWS_BLOCK_INTERVAL);
    EmptyApplies(checks, n2.db.current, NO_BLOCK, 1, g.time + 3 * NEWS_BLOCK_INTERVAL);
    assert n2.db == n1.db;
    HeadMoved(checks, g, n1, child);
    assert rival.previous.Num() == 0 && rival.Num() == 1 && Below(2, 2) == 0;
    assert HeadAfter(n2.head, rival) == child;
    PushAtRestIs(checks, g, n2, rival);
  }

  lemma MainIsAtRest(checks: Checks, g: State, n: Node)
    requires AtRest(checks, g, n)
    ensures n.db.current.headId == HeadId(Main(n.db)) && n.db.current.headNum == |Main(n.db)|
  {
    MainIs(checks, g, n.db, Main(n.db));
  }

  lemma HeadMoved(checks: Checks, g: State, n: Node, b: Block)
    requires AtRest(checks, g, n)
    ensures AtRest(checks, g, n.(head := Some(b)))
  {
  }

  /**
   * A fork from genesis of which only the last block does not apply: the rollback takes its blocks off but
   * the first, and then cannot pop, so that the chain is left on the fork.
   */
  lemma RollbackGetsStuck(checks: Checks, g: State)
    requires IsGenesis(g)
    ensures
      var b1 := MainBlock(g, 1);
      var rival := Empty(NO_BLOCK, 1, g.time + NEWS_BLOCK_INTERVAL);
      var child := Empty(rival.Id(), 1, g.time);
      var p1 := Push(checks, Fresh(g), b1);
      var p2 := Push(checks, p1.node, rival);
      var p3 := Push(checks, p2.node, child);
      && p1.outcome == Extended && p2.outcome == Ignored
      && p3.outcome == RollbackStuck && Main(p3.node.db) == [rival]
  {
    hide Push, AtRest, Capped, ApplyBlock, SwitchExactly, Flatten, Below, ForkSizeAt, MainBlock;
    FreshGrown(checks, g);
    Grows(checks, g, Fresh(g), 0);
    var n1, b1 := Push(checks, Fresh(g), MainBlock(g, 1)).node, MainBlock(g, 1);
    var rival := Empty(NO_BLOCK, 1, g.time + NEWS_BLOCK_INTERVAL);
    OneRival(checks, g, n1, rival);
    RivalChild(checks, g, Push(checks, n1, rival).node, b1, rival, Empty(rival.Id(), 1, g.time));
  }

  // A node one block high, which has also received a rival of that block.
  ghost predicate HasRival(checks: Checks, g: State, n: Node, b1: Block, rival: Block) {
    && AtRest(checks, g, n) && Capped(n) && Main(n.db) == [b1] && n.index == {b1, rival} && n.head == Some(b1) && n.maxSize == 2
    && b1 != rival && b1.previous == rival.previous == NO_BLOCK
  }

  lemma OneRival(checks: Checks, g: State, n: Node, rival: Block)
    requires Grown(checks, g, n, 1) && rival == Empty(NO_BLOCK, 1, rival.timestamp)
    ensures
      var r := Push(checks, n, rival);
      r.outcome == Ignored && HasRival(checks, g, r.node, MainBlock(g, 1), rival)
  {
    hide Push, AtRest, Capped;
    BlockNumbers(g, 1);
    assert MainBlocks(g, 1) == [MainBlock(g, 1)] && Blocks([MainBlock(g, 1)]) == {MainBlock(g, 1)};
    MainIsAtRest(checks, g, n);
    YoungAccepts(n, rival);
    SidePush(checks, g, n, rival);
  }

  lemma RivalChild(checks: Checks, g: State, n: Node, b1: Block, rival: Block, child: Block)
    requires IsGenesis(g) && HasRival(checks, g, n, b1, rival)
    requires rival == Empty(NO_BLOCK, rival.hash, rival.timestamp) && rival.timestamp >= g.time + NEWS_BLOCK_INTERVAL
    requires child == Empty(rival.Id(), child.hash, child.timestamp) && child.timestamp <= g.time
    ensures
      var r := Push(checks, n, child);
      r.outcome == RollbackStuck && Main(r.node.db) == [rival]
  {
    hide Push, AtRest, Capped, Flatten, ForkSizeAt;
    MainIsAtRest(checks, g, n);
    YoungAccepts(n, child);
    assert rival.previous.Num() == 0 && rival.Num() == 1;
    assert child.previous.Num() == rival.Num();
    assert child.Num() == 2 && b1.previous.Num() == 0 && b1.Num() == 1;
    CappedOneHigher(checks, g, n, child);
    PushAtRestIs(checks, g, n, child);
    RivalBranch(n.index + {child}, b1, rival, child);
    RivalReplays(checks, g, rival, child);
    assert [rival, child][..1] == [rival];
  }

  lemma RivalBranch(index: Index, b1: Block, rival: Block, child: Block)
    requires b1 in index && rival in index && child in index && child.previous == rival.Id()
    requires b1.previous == rival.previous == NO_BLOCK
    ensures BranchFrom(index, child.Id(), b1.Id()) == Branches([child, rival], [b1])
    ensures ChainTo(child.Id()) == [rival, child]
  {
    assert b1.previous.Num() == 0 && b1.Num() == 1 && rival.Num() == 1 && child.Num() == 2;
    assert Prev(index, child) == Some(rival);
    assert Branch(index, rival, b1) == Branches([rival], [b1]);
    assert [child] + [rival] == [child, rival];
    assert ChainTo(rival.Id()) == [] + [rival];
  }

  lemma YoungAccepts(n: Node, b: Block)
    requires n.head.Some? && Below(n.head.value.Num(), n.maxSize) == 0 && (b.previous == NO_BLOCK || Indexed(n.index, b.previous))
    ensures Classify(n.index, n.head, n.maxSize, b).Accepted?
  {
  }

  lemma RivalReplays(checks: Checks, g: State, rival: Block, child: Block)
    requires IsGenesis(g) && rival == Empty(NO_BLOCK, rival.hash, rival.timestamp) && rival.timestamp >= g.time + NEWS_BLOCK_INTERVAL
    requires child == Empty(rival.Id(), child.hash, child.timestamp) && child.timestamp <= g.time
    ensures ReplaysTo(checks, g, [rival, child], 0) == 1
  {
    hide ApplyBlock;
    var whole := [rival, child];
    EmptyApplies(checks, g, NO_BLOCK, rival.hash, rival.timestamp);
    var s := ApplyBlock(checks, g, rival).state;
    BlockEffect(checks, g, rival);
    EmptyApplies(checks, s, rival.Id(), child.hash, child.timestamp);
    assert whole[..1] == [rival] && [rival][..0] == [] && whole[..2] == whole && whole[..2][..1] == [rival];
    assert Replay(checks, g, [rival]) == ApplyBlock(checks, g, rival);
    ReplaysToIs(checks, g, whole, 0, 1);
  }

  // ---------- Lost blocks ----------

  function ForkBlocks(g: State, k: nat): (r: seq<Block>)
    ensures |r| == k
    ensures forall i :: 0 <= i < k ==> r[i] == ForkBlock(g, i + 1)
  {
    if k == 0 then [] else ForkBlocks(g, k - 1) + [ForkBlock(g, k)]
  }

  lemma ForkBlocksLinked(g: State, k: nat)
    ensures Linked(ForkBlocks(g, k))
  {
    var blocks := ForkBlocks(g, k);
    forall i | 0 <= i < k ensures LinksAt(blocks, i) {
      assert blocks[i] == ForkBlock(g, i + 1);
    }
  }

  // A chain of h blocks, and j blocks of a fork from genesis that nobody has tried to apply.
  ghost predicate Rivalled(checks: Checks, g: State, n: Node, h: nat, j: nat)
    requires h > 0
  {
    && AtRest(checks, g, n) && Capped(n) && Main(n.db) == MainBlocks(g, h)
    && n.index == Blocks(MainBlocks(g, h)) + Blocks(ForkBlocks(g, j))
    && n.head == Some(MainBlock(g, h)) && n.maxSize == ForkSizeAt(h)
  }

  lemma {:induction false} GrownTo(checks: Checks, g: State, k: nat)
    requires IsGenesis(g) && k <= IRREVERSIBLE_BLOCK_NUM + 1
    ensures Grown(checks, g, After(checks, Fresh(g), MainBlocks(g, k)), k)
  {
    if k == 0 {
      FreshGrown(checks, g);
    } else {
      GrownTo(checks, g, k - 1);
      hide Push, Grown;
      assert MainBlocks(g, k)[..k - 1] == MainBlocks(g, k - 1);
      Grows(checks, g, After(checks, Fresh(g), MainBlocks(g, k - 1)), k - 1);
    }
  }

  lemma Rivals(checks: Checks, g: State, n: Node, h: nat, j: nat)
    requires 0 < h <= IRREVERSIBLE_BLOCK_NUM + 1 && j < h && Rivalled(checks, g, n, h, j)
    ensures
      var r := Push(checks, n, ForkBlock(g, j + 1));
      r.outcome == Ignored && Rivalled(checks, g, r.node, h, j + 1)
  {
    hide AtRest, Capped, Push, ForkSizeAt, Below;
    var b := ForkBlock(g, j + 1);
    BlockNumbers(g, h);
    BlockNumbers(g, j + 1);
    MainIsAtRest(checks, g, n);
    YoungSize(h);
    RivalParent(g, n.index, j);
    YoungAccepts(n, b);
    NotOwnParent(g, h);
    SidePush(checks, g, n, b);
    assert n.index + {b} == Blocks(MainBlocks(g, h)) + Blocks(ForkBlocks(g, j + 1)) by {
      assert ForkBlocks(g, j + 1) == ForkBlocks(g, j) + [b];
    }
  }

  lemma NotOwnParent(g: State, h: nat)
    requires h > 0
    ensures MainBlock(g, h).previous != HeadId(MainBlocks(g, h)) && Last(MainBlocks(g, h)) == MainBlock(g, h)
  {
    assert MainBlocks(g, h)[h - 1] == MainBlock(g, h);
    if h > 1 {
      assert MainBlock(g, h - 1).timestamp != MainBlock(g, h).timestamp;
    }
  }

  lemma RivalParent(g: State, index: Index, j: nat)
    requires Blocks(ForkBlocks(g, j)) <= index
    ensures ForkBlock(g, j + 1).previous == NO_BLOCK || Indexed(index, ForkBlock(g, j + 1).previous)
  {
    if j > 0 {
      assert ForkBlocks(g, j)[j - 1] == ForkBlock(g, j);
      assert ForkBlock(g, j) in Blocks(ForkBlocks(g, j));
    }
  }

  lemma AfterUnfold(checks: Checks, n: Node, blocks: seq<Block>)
    ensures blocks != [] ==> After(checks, n, blocks) == Push(checks, After(checks, n, blocks[..|blocks| - 1]), Last(blocks)).node
  {
    hide Push;
  }

  lemma NotRivalledYet(checks: Checks, g: State, n: Node, h: nat)
    requires h > 0 && Grown(checks, g, n, h)
    ensures Rivalled(checks, g, n, h, 0)
  {
    hide AtRest, Capped, MainBlocks, ForkSizeAt;
    assert Blocks(ForkBlocks(g, 0)) == {};
  }

  lemma {:induction false} RivalledTo(checks: Checks, g: State, h: nat, j: nat)
    requires IsGenesis(g) && 0 < h <= IRREVERSIBLE_BLOCK_NUM + 1 && j <= h
    ensures Rivalled(checks, g, After(checks, Fresh(g), MainBlocks(g, h) + ForkBlocks(g, j)), h, j)
    decreases j
  {
    hide Push, Rivalled, Grown, After;
    AfterUnfold(checks, Fresh(g), MainBlocks(g, h) + ForkBlocks(g, j));
    if j == 0 {
      GrownTo(checks, g, h);
      assert MainBlocks(g, h) + ForkBlocks(g, 0) == MainBlocks(g, h);
      NotRivalledYet(checks, g, After(checks, Fresh(g), MainBlocks(g, h)), h);
    } else {
      RivalledTo(checks, g, h, j - 1);
      assert (MainBlocks(g, h) + ForkBlocks(g, j))[..h + j - 1] == MainBlocks(g, h) + ForkBlocks(g, j - 1);
      assert Last(MainBlocks(g, h) + ForkBlocks(g, j)) == ForkBlock(g, j);
      Rivals(checks, g, After(checks, Fresh(g), MainBlocks(g, h) + ForkBlocks(g, j - 1)), h, j - 1);
    }
  }

  lemma {:induction false} RivalBranches(g: State, index: Index, k: nat)
    requires k > 0 && forall i :: 0 < i <= k ==> MainBlock(g, i) in index && ForkBlock(g, i) in index
    ensures
      var r := Branch(index, ForkBlock(g, k), MainBlock(g, k));
      r.Branches? && |r.second| == k
    decreases k
  {
    BlockNumbers(g, k);
    if k > 1 {
      BlockNumbers(g, k - 1);
      assert MainBlock(g, k - 1) in index && ForkBlock(g, k - 1) in index;
      assert MainBlock(g, k - 1).hash == 0 && ForkBlock(g, k - 1).hash == 1;
      RivalBranches(g, index, k - 1);
    }
  }

  // The block that makes the fork longer starts a switch to the whole of it.
  lemma RivalSwitches(checks: Checks, g: State, n: Node, h: nat)
    requires IsGenesis(g) && 0 < h <= IRREVERSIBLE_BLOCK_NUM + 1 && Rivalled(checks, g, n, h, h)
    ensures
      var b := ForkBlock(g, h + 1);
      && MainBlock(g, 1) in n.index
      && SwitchExactly(checks, g, Received(n, b), MainBlocks(g, h), ForkBlocks(g, h + 1), 0,
                       ReplaysTo(checks, g, ForkBlocks(g, h + 1), 0), Push(checks, n, b))
      && Received(n, b).db == n.db && Received(n, b).log == n.log
  {
    var b := ForkBlock(g, h + 1);
    RivalsTraced(checks, g, n, h);
    hide Push, AtRest, Capped, Flatten, ApplyBlock, SwitchExactly, ForkSizeAt, Below, ReplaysTo, Linked, ForkBlock, MainBlock, Branch;
    MainIsAtRest(checks, g, n);
    CappedOneHigher(checks, g, n, b);
    PushAtRestIs(checks, g, n, b);
  }

  lemma RivalsTraced(checks: Checks, g: State, n: Node, h: nat)
    requires 0 < h <= IRREVERSIBLE_BLOCK_NUM + 1 && Rivalled(checks, g, n, h, h)
    ensures
      var b := ForkBlock(g, h + 1);
      var r := BranchFrom(n.index + {b}, b.Id(), n.db.current.headId);
      && MainBlock(g, 1) in n.index && Classify(n.index, n.head, n.maxSize, b).Accepted? && HeadAfter(n.head, b) == b
      && b.Num() == h + 1 && b.previous != n.db.current.headId
      && r.Branches? && |r.second| == h && ChainTo(b.Id()) == ForkBlocks(g, h + 1)
  {
    hide AtRest, Capped, ForkSizeAt, Below, Linked, Branch;
    var b := ForkBlock(g, h + 1);
    BlockNumbers(g, h + 1);
    BlockNumbers(g, h);
    MainIsAtRest(checks, g, n);
    YoungSize(h);
    RivalParent(g, n.index, h);
    YoungAccepts(n, b);
    NotOwnParent(g, h);
    AllIndexed(g, n.index, h);
    TopRivals(g, n.index + {b}, h);
  }

  // The branches back from the top of the fork and from the top of the chain.
  lemma TopRivals(g: State, index: Index, h: nat)
    requires h > 0 && ForkBlock(g, h + 1) in index
    requires forall i :: 0 < i <= h ==> MainBlock(g, i) in index && ForkBlock(g, i) in index
    ensures
      var b := ForkBlock(g, h + 1);
      var r := BranchFrom(index, b.Id(), MainBlock(g, h).Id());
      && r.Branches? && |r.second| == h && b.previous != MainBlock(g, h).Id() && ChainTo(b.Id()) == ForkBlocks(g, h + 1)
  {
    var b := ForkBlock(g, h + 1);
    BlockNumbers(g, h + 1);
    BlockNumbers(g, h);
    RivalBranches(g, index, h);
    assert MainBlock(g, h).hash == 0 && ForkBlock(g, h).hash == 1;
    assert Prev(index, b) == Some(ForkBlock(g, h));
    ForkBlocksLinked(g, h + 1);
    LinkedIsChainTo(ForkBlocks(g, h + 1));
  }

  lemma AllIndexed(g: State, index: Index, h: nat)
    requires index == Blocks(MainBlocks(g, h)) + Blocks(ForkBlocks(g, h))
    ensures forall i :: 0 < i <= h ==> MainBlock(g, i) in index && ForkBlock(g, i) in index
  {
    forall i | 0 < i <= h ensures MainBlock(g, i) in index && ForkBlock(g, i) in index {
      assert MainBlocks(g, h)[i - 1] in Blocks(MainBlocks(g, h));
      assert ForkBlocks(g, h)[i - 1] in Blocks(ForkBlocks(g, h));
    }
  }

  /**
   * On a chain four blocks high, a fork from genesis arrives whose first block does not apply. The rollback
   * restores the state, but leaves the fork database without the chain's first block.
   */
  lemma RollbackLosesBlocks(checks: Checks, g: State)
    requires IsGenesis(g)
    ensures
      var n := After(checks, Fresh(g), MainBlocks(g, 4) + ForkBlocks(g, 4));
      var r := Push(checks, n, ForkBlock(g, 5));
      && AtRest(checks, g, n) && MainBlock(g, 1) in n.index
      && r.outcome == SwitchRolledBack && r.node.db == n.db
      && MainBlock(g, 1) !in r.node.index && !AtRest(checks, g, r.node)
  {
    hide Push, AtRest, Capped, Flatten, ApplyBlock, After;
    RivalledTo(checks, g, 4, 4);
    var n := After(checks, Fresh(g), MainBlocks(g, 4) + ForkBlocks(g, 4));
    RivalSwitches(checks, g, n, 4);
    FirstThrows(checks, g, ForkBlocks(g, 5));
    BlockNumbers(g, 1);
    LostIsNotAtRest(checks, g, Push(checks, n, ForkBlock(g, 5)).node, MainBlocks(g, 4));
  }

  /**
   * On a chain 22 blocks high, whose first block is irreversible, a longer fork from genesis arrives. The
   * pops stop at that block, with an exception, and leave the chain there.
   */
  lemma DeepForkTruncates(checks: Checks, g: State)
    requires IsGenesis(g)
    ensures
      var n := After(checks, Fresh(g), MainBlocks(g, 22) + ForkBlocks(g, 22));
      var r := Push(checks, n, ForkBlock(g, 23));
      && AtRest(checks, g, n) && Main(n.db) == MainBlocks(g, 22)
      && r.outcome == SwitchStuck && Main(r.node.db) == [MainBlock(g, 1)] && r.node.db.saved == []
  {
    hide Push, AtRest, Capped, Flatten, ApplyBlock, After;
    RivalledTo(checks, g, 22, 22);
    var n := After(checks, Fresh(g), MainBlocks(g, 22) + ForkBlocks(g, 22));
    RivalSwitches(checks, g, n, 22);
    assert MainBlocks(g, 22)[..1] == [MainBlock(g, 1)];
  }

  lemma FirstThrows(checks: Checks, g: State, whole: seq<Block>)
    requires whole != [] && whole[0] == ForkBlock(g, 1)
    ensures ReplaysTo(checks, g, whole, 0) == 0
  {
    EmptyApplies(checks, g, NO_BLOCK, 1, g.time);
    assert whole[..1] == [ForkBlock(g, 1)] && [ForkBlock(g, 1)][..0] == [];
    assert Replay(checks, g, [ForkBlock(g, 1)]) == ApplyBlock(checks, g, ForkBlock(g, 1));
  }

  lemma LostIsNotAtRest(checks: Checks, g: State, n: Node, main: seq<Block>)
    requires Main(n.db) == main && main != [] && main[0] !in n.index && |main| < IRREVERSIBLE_BLOCK_NUM
    ensures !AtRest(checks, g, n)
  {
  }

  // ---------- A chain that never starts ----------

  // The chain is at genesis, and the fork database's head is a block that names some other predecessor.
  ghost predicate Rootless(g: State, n: Node) {
    n.db == Fresh(g).db && n.log == [] && n.head.Some? && n.head.value.previous != NO_BLOCK
  }

  lemma StaysRootless(checks: Checks, g: State, n: Node, b: Block)
    requires IsGenesis(g) && (Rootless(g, n) || (n == Fresh(g) && b.previous != NO_BLOCK))
    ensures
      var r := Push(checks, n, b);
      (r.outcome == RejectedByForkDb || r.outcome == SwitchUnresolved) && Rootless(g, r.node)
  {
    hide Switch, ApplyDirectly, Below;
    if b.previous == NO_BLOCK {
      assert b.previous.Num() == 0 && b.Num() == 1;
    }
  }

  /**
   * A fresh node whose first block is not a first block takes it as the head of its fork database, answers
   * every later block with an exception, and never leaves genesis.
   */
  lemma {:induction false} NeverStarts(checks: Checks, g: State, first: Block, later: seq<Block>)
    requires IsGenesis(g) && first.previous != NO_BLOCK
    ensures
      var n := After(checks, Fresh(g), [first] + later);
      Rootless(g, n) && forall b :: Push(checks, n, b).outcome == RejectedByForkDb || Push(checks, n, b).outcome == SwitchUnresolved
    decreases |later|
  {
    hide Push, Rootless;
    var blocks := [first] + later;
    AfterUnfold(checks, Fresh(g), blocks);
    if later == [] {
      assert blocks[..|blocks| - 1] == [] && Last(blocks) == first;
      StaysRootless(checks, g, Fresh(g), first);
    } else {
      var before := later[..|later| - 1];
      assert blocks[..|blocks| - 1] == [first] + before && Last(blocks) == Last(later);
      NeverStarts(checks, g, first, before);
      StaysRootless(checks, g, After(checks, Fresh(g), [first] + before), Last(later));
    }
    var n := After(checks, Fresh(g), blocks);
    forall b ensures Push(checks, n, b).outcome == RejectedByForkDb || Push(checks, n, b).outcome == SwitchUnresolved {
      StaysRootless(checks, g, n, b);
    }
  }

  // It does start, with any first block that applies to genesis.
  lemma FirstPush(checks: Checks, g: State, first: Block)
    requires IsGenesis(g)
    ensures Push(checks, Fresh(g), first).outcome ==
      if first.previous != NO_BLOCK then SwitchUnresolved
      else if ApplyBlock(checks, g, first).Threw? then RejectedBlock
      else Extended
  {
    hide ApplyBlock;
    FreshGrown(checks, g);
    CappedOneHigher(checks, g, Fresh(g), first);
    PushAtRestIs(checks, g, Fresh(g), first);
  }
}
