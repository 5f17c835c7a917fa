/** Exactly what a push does to a node at rest, and when it leaves the node at rest again. */
module PushAtRest {
  import opened Undo
  import opened Common
  import opened ChainTypes
  import opened ChainState
  import opened ForkTree
  import opened ForkDatabase
  import opened MainChain
  import opened ChainNode
  import opened ChainSafety
  import opened ChainLog
  import opened ForkSwitch

  // ---------- On top of the head ----------

  // From a child of the chain's head, everything that becomes irreversible can be found.
  lemma ChildFindable(index: Index, main: seq<Block>, head: Block, upTo: nat)
    requires Linked(main) && Retained(index, main, Lowest(|main|)) && head.previous == HeadId(main)
    requires upTo <= |main|
    ensures Findable(index, head, main, Irreversible(|main|), upTo)
  {
    HeadNumber(main);
    forall k | Irreversible(|main|) < k <= upTo ensures FoundAt(index, head, main, k) {
      LinkedNumbers(main, k - 1);
      WalkOnChain(index, main, k, |main| - 1, k);
      assert Lowest(|main|) <= k && Lowest(|main|) <= |main| && main[|main| - 1] in index;
      assert Prev(index, head) == Some(main[|main| - 1]);
    }
  }

  // A block applied where the fork database's head is a child of the chain's.
  lemma DirectAttempt(checks: Checks, g: State, n: Node, main: seq<Block>, b: Block)
    requires AtRest(checks, g, n) && main == Main(n.db) && n.head.Some? && n.head.value.previous == n.db.current.headId
    requires b.Num() <= |main| + 1
    ensures
      var a := TryApply(checks, n, b);
      && (a.ok <==> ApplyBlock(checks, n.db.current, b).Applied?)
      && (!a.ok ==> a.node == n && ExecuteBlock(checks, n.db.current, b).Threw?)
      && (a.ok && b.previous == n.db.current.headId ==> a.node.log == main[..Irreversible(|main| + 1)])
  {
    hide OnChain, ExecuteBlock, WithIrreversible, GrowLog, Pruned, TryApply, FinishBlock, AfterApply, Findable, Retained, ForkSize, Linked, HeadId, ChainTo, Base;
    MainIs(checks, g, n.db, main);
    TryApplyIs(checks, n, b);
    ExecutedApplies(checks, n.db.current, b);
    if ExecuteBlock(checks, n.db.current, b).Applied? {
      var upTo := WithIrreversible(ExecuteBlock(checks, n.db.current, b).state).lastIrreversible;
      ExecutedUpTo(checks, n.db.current, b);
      ChildFindable(n.index, main, n.head.value, upTo);
      assert |n.log| == Irreversible(|main|);
      GrowLogFinds(n.index, n.head.value, n.log, main, upTo);
      if b.previous == n.db.current.headId {
        HeadNumber(main);
        ExecutedHead(checks, n.db.current, b);
      }
    }
  }

  lemma ExecutedUpTo(checks: Checks, s: State, b: Block)
    requires ExecuteBlock(checks, s, b).Applied? && s.lastIrreversible == Irreversible(s.headNum) && b.Num() <= s.headNum + 1
    ensures WithIrreversible(ExecuteBlock(checks, s, b).state).lastIrreversible <= Irreversible(s.headNum + 1) <= s.headNum
  {
    TransactionsKeep(checks, s, b.transactions);
  }

  // The chain one block higher is at rest.
  lemma ExtendedAtRest(checks: Checks, g: State, n: Node, main: seq<Block>, b: Block)
    requires AtRest(checks, g, n) && main == Main(n.db) && n.head.Some? && n.head.value.previous == n.db.current.headId
    requires b in n.index && b.previous == n.db.current.headId && TryApply(checks, n, b).ok
    ensures
      var m := TryApply(checks, n, b).node;
      && Main(m.db) == main + [b] && AtRest(checks, g, m)
      && m.index == Pruned(n.index, Below(|main| + 1, ForkSizeAt(|main| + 1)))
      && m.maxSize == ForkSizeAt(|main| + 1) && m.popped == n.popped && m.head == n.head
  {
    hide OnChain, TryApply, Pruned, Linked, ChainTo, Base, Retained, ForkSizeAt, Below, ApplyBlock, ExecuteBlock;
    MainIs(checks, g, n.db, main);
    HeadNumber(main);
    DirectAttempt(checks, g, n, main, b);
    TryApplyOnChain(checks, g, n, main, b);
    TryApplyIndex(checks, g, n, main, b);
    var m := TryApply(checks, n, b).node;
    MainIs(checks, g, m.db, main + [b]);
    assert (main + [b])[..Irreversible(|main| + 1)] == main[..Irreversible(|main| + 1)];
    RetainedHigher(n.index, main, b);
  }

  lemma RetainedHigher(index: Index, main: seq<Block>, b: Block)
    requires Linked(main + [b]) && Retained(index, main, Lowest(|main|)) && b in index
    ensures Retained(Pruned(index, Below(|main| + 1, ForkSizeAt(|main| + 1))), main + [b], Lowest(|main| + 1))
  {
    assert Retained(index, main + [b], Lowest(|main| + 1));
    PrunedRetains(index, main + [b], Lowest(|main| + 1), Below(|main| + 1, ForkSizeAt(|main| + 1)));
  }

  // ---------- All outcomes ----------

  // A fork that is switched to is one block higher than the chain.
  ghost predicate OneHigher(n: Node, b: Block) {
    var n1, headId := Received(n, b), n.db.current.headId;
    var newBlock := n1.head.value;
    Classify(n.index, n.head, n.maxSize, b).Accepted? && newBlock.previous != headId && newBlock.Num() > n.db.current.headNum
    && BranchFrom(n1.index, newBlock.Id(), headId).Branches? ==>
      newBlock.Num() == n.db.current.headNum + 1
  }

  ghost predicate PushExactly(checks: Checks, g: State, n: Node, b: Block, r: Pushed) {
    var main, n1, headId := Main(n.db), Received(n, b), n.db.current.headId;
    var newBlock := n1.head.value;
    if !Classify(n.index, n.head, n.maxSize, b).Accepted? then
      r == Pushed(RejectedByForkDb, n)
    else if newBlock.previous == headId then
      if ApplyBlock(checks, n.db.current, b).Threw? then
        r == Pushed(RejectedBlock, n1.(index := n1.index - {b}))
      else if b.previous == headId then
        && r.outcome == Extended && Main(r.node.db) == main + [b] && AtRest(checks, g, r.node)
        && r.node.index == Pruned(n1.index, Below(|main| + 1, ForkSizeAt(|main| + 1)))
        && r.node.head == n1.head && r.node.maxSize == ForkSizeAt(|main| + 1) && r.node.popped == n.popped
      else
        r.outcome == Misapplied
    else if newBlock.Num() <= |main| then
      r == Pushed(Ignored, n1)
    else
      var branches, whole := BranchFrom(n1.index, newBlock.Id(), headId), ChainTo(newBlock.Id());
      if branches.Unlinked? then r == Pushed(SwitchUnresolved, n1)
      else
        && |branches.second| <= |main| && |whole| == |main| + 1
        && var c := |main| - |branches.second|;
           SwitchExactly(checks, g, n1, main, whole, c, ReplaysTo(checks, g, whole, c), r)
  }

  lemma ReceivedAtRest(checks: Checks, g: State, n: Node, b: Block)
    requires AtRest(checks, g, n)
    ensures AtRest(checks, g, Received(n, b))
  {
  }

  /** What a push does to a node at rest: each outcome, exactly when it happens, and what it leaves. */
  lemma PushAtRestIs(checks: Checks, g: State, n: Node, b: Block)
    requires AtRest(checks, g, n) && OneHigher(n, b)
    ensures PushExactly(checks, g, n, b, Push(checks, n, b))
  {
    hide OnChain, Switch, Classify, ExecuteBlock, ApplyBlock, TryApply, BranchFrom, Linked, Base, ChainTo, Retained, SwitchExactly, ReplaysTo, Pruned, Below, ForkSizeAt, Lowest;
    if Classify(n.index, n.head, n.maxSize, b).Accepted? {
      var n1, main := Received(n, b), Main(n.db);
      var newBlock := n1.head.value;
      ReceivedAtRest(checks, g, n, b);
      MainIs(checks, g, n.db, main);
      if newBlock.previous == n.db.current.headId {
        NotHigher(n, b, main);
        DirectAttempt(checks, g, n1, main, b);
        if TryApply(checks, n1, b).ok && b.previous == n.db.current.headId {
          ExtendedAtRest(checks, g, n1, main, b);
        }
      } else if newBlock.Num() > n.db.current.headNum {
        if BranchFrom(n1.index, newBlock.Id(), n.db.current.headId).Branches? {
          SwitchAtRest(checks, g, n1, newBlock);
        }
      }
    }
  }

  // ---------- Staying at rest ----------

  // A block is tried in place, where the fork database's head is a child of the chain's.
  ghost predicate TriedInPlace(n: Node, b: Block) {
    Classify(n.index, n.head, n.maxSize, b).Accepted? && HeadAfter(n.head, b).previous == n.db.current.headId
  }

  // A higher fork calls for a switch.
  ghost predicate CallsForSwitch(n: Node, b: Block) {
    && Classify(n.index, n.head, n.maxSize, b).Accepted? && HeadAfter(n.head, b).previous != n.db.current.headId
    && HeadAfter(n.head, b).Num() > n.db.current.headNum
  }

  // What a switch goes from and to: the fork's chain, and the height at which it leaves the main chain.
  datatype Forking = Untraced | Forking(whole: seq<Block>, c: nat)

  function ForkingOf(n: Node, b: Block): Forking {
    var newBlock, main := HeadAfter(n.head, b), Main(n.db);
    var r := BranchFrom(n.index + {b}, newBlock.Id(), n.db.current.headId);
    if r.Branches? && |r.second| <= |main| <= |ChainTo(newBlock.Id())|
    then Forking(ChainTo(newBlock.Id()), |main| - |r.second|)
    else Untraced
  }

  // A fork that is switched to leaves the chain no lower than it can be undone.
  ghost predicate ReachesParent(n: Node, b: Block) {
    CallsForSwitch(n, b) ==>
      match ForkingOf(n, b)
      case Untraced => true
      case Forking(_, c) => Irreversible(|Main(n.db)|) <= c
  }

  // A block tried in place is none of the chain that is still needed, and so none that is erased.
  ghost predicate ErasesNothing(n: Node, b: Block) {
    TriedInPlace(n, b) ==> forall k :: 0 <= k < |Main(n.db)| && Lowest(|Main(n.db)|) <= k + 1 ==> Main(n.db)[k] != b
  }

  // If the fork does not replay to its end and the rollback can pop what did, it prunes no block that is still needed.
  ghost predicate RollbackKeeps(checks: Checks, g: State, n: Node, b: Block) {
    var height := |Main(n.db)|;
    CallsForSwitch(n, b) ==>
      match ForkingOf(n, b)
      case Untraced => true
      case Forking(whole, c) =>
        var h := ReplaysTo(checks, g, whole, c);
        Irreversible(height) <= c && h < |whole| && h - c < height ==> RollbackKeepsBlocks(height, c, h - c)
  }

  lemma RetainedWithout(index: Index, main: seq<Block>, low: nat, b: Block)
    requires Retained(index, main, low)
    ensures Retained(index + {b} - {b}, main, low) <==> forall k :: 0 <= k < |main| && low <= k + 1 ==> main[k] != b
  {
    var left := index + {b} - {b};
    if forall k :: 0 <= k < |main| && low <= k + 1 ==> main[k] != b {
      forall k | 0 <= k < |main| && low <= k + 1 ensures main[k] in left {
      }
    } else {
      var k :| 0 <= k < |main| && low <= k + 1 && main[k] == b;
      assert main[k] !in left;
    }
  }

  lemma InPlaceAtRest(checks: Checks, g: State, n: Node, b: Block)
    requires AtRest(checks, g, n) && OneHigher(n, b) && TriedInPlace(n, b)
    ensures AtRest(checks, g, Push(checks, n, b).node) <==> !Misapplies(checks, n, b) && ErasesNothing(n, b)
  {
    hide OnChain, Push, Classify, ApplyBlock, BranchFrom, Base, ChainTo, Retained, Pruned, Below, ForkSizeAt, Lowest, Irreversible, Misapplies, HeadAfter;
    PushAtRestIs(checks, g, n, b);
    MisappliedIff(checks, n, b);
    PushKeepsReplay(checks, g, n, b);
    var r, main := Push(checks, n, b), Main(n.db);
    MainIs(checks, g, n.db, main);
    if ApplyBlock(checks, n.db.current, b).Threw? {
      RetainedWithout(n.index, main, Lowest(|main|), b);
      assert r.node.db == n.db && r.node.log == n.log;
    } else if b.previous == n.db.current.headId {
      HeadNumber(main);
      forall k | 0 <= k < |main| ensures main[k] != b {
        LinkedNumbers(main, k);
      }
    }
  }

  // Where the pops have got stuck, nothing can be undone, and the chain is higher than what is irreversible.
  lemma StuckIsNotAtRest(checks: Checks, g: State, n: Node, main: seq<Block>, m: nat)
    requires m <= |main| && 0 < m && Main(n.db) == main[..m] && n.db.saved == []
    ensures !AtRest(checks, g, n)
  {
    hide Replayed, Retained, Main;
  }

  lemma SwitchStaysAtRest(checks: Checks, g: State, n: Node, b: Block)
    requires AtRest(checks, g, n) && OneHigher(n, b) && CallsForSwitch(n, b) && ForkingOf(n, b).Forking?
    ensures AtRest(checks, g, Push(checks, n, b).node) <==> ReachesParent(n, b) && RollbackKeeps(checks, g, n, b)
  {
    hide OnChain, Push, Classify, ApplyBlock, BranchFrom, Base, ChainTo, Retained, ReplaysTo, Pruned, Below, ForkSizeAt, Lowest, Flatten, FailedIndex, HeadAfter;
    PushAtRestIs(checks, g, n, b);
    var r, main := Push(checks, n, b), Main(n.db);
    MainIs(checks, g, n.db, main);
    if r.outcome.SwitchStuck? {
      StuckIsNotAtRest(checks, g, r.node, main, Irreversible(|main|));
    } else if r.outcome.SwitchRolledBack? {
      assert r.node.db == n.db && r.node.log == n.log;
    }
  }

  lemma NoSwitch(checks: Checks, g: State, n: Node, b: Block)
    requires !CallsForSwitch(n, b) || ForkingOf(n, b).Untraced?
    ensures ReachesParent(n, b) && RollbackKeeps(checks, g, n, b)
  {
    hide ForkingOf;
  }

  lemma NotInPlace(checks: Checks, n: Node, b: Block)
    requires !TriedInPlace(n, b)
    ensures !Misapplies(checks, n, b) && ErasesNothing(n, b)
  {
    hide ExecuteBlock, OnMainBranch;
  }

  // A block that is refused, ignored, or the top of a fork that cannot be traced back, changes the fork database only.
  lemma NothingTried(checks: Checks, g: State, n: Node, b: Block)
    requires AtRest(checks, g, n) && OneHigher(n, b) && !TriedInPlace(n, b) && (!CallsForSwitch(n, b) || ForkingOf(n, b).Untraced?)
    ensures AtRest(checks, g, Push(checks, n, b).node) && ReachesParent(n, b) && RollbackKeeps(checks, g, n, b)
  {
    hide OnChain, Push, Classify, ApplyBlock, BranchFrom, Base, ChainTo, Retained, ReplaysTo, Pruned, Below, ForkSizeAt, Lowest, Irreversible, Flatten, FailedIndex, HeadAfter, SwitchExactly;
    NoSwitch(checks, g, n, b);
    PushAtRestIs(checks, g, n, b);
    MainIs(checks, g, n.db, Main(n.db));
    ReceivedAtRest(checks, g, n, b);
  }

  /**
   * A node at rest stays at rest exactly when the push misapplies no block, starts no switch below what can be
   * undone, erases no block of the chain as a failed one, and a rollback keeps what is needed.
   */
  lemma StaysAtRest(checks: Checks, g: State, n: Node, b: Block)
    requires AtRest(checks, g, n) && OneHigher(n, b)
    ensures AtRest(checks, g, Push(checks, n, b).node) <==>
      !Misapplies(checks, n, b) && ReachesParent(n, b) && ErasesNothing(n, b) && RollbackKeeps(checks, g, n, b)
  {
    hide AtRest, ErasesNothing, RollbackKeeps, ReachesParent, Push, ForkingOf, OneHigher;
    if TriedInPlace(n, b) {
      InPlaceAtRest(checks, g, n, b);
      NoSwitch(checks, g, n, b);
    } else if CallsForSwitch(n, b) && ForkingOf(n, b).Forking? {
      SwitchStaysAtRest(checks, g, n, b);
      NotInPlace(checks, n, b);
    } else {
      NothingTried(checks, g, n, b);
      NotInPlace(checks, n, b);
    }
  }

  // All blocks of the fork database are as high as the chain at most; its head may be a child of the chain's,
  // which then has been erased as failed.
  ghost predicate Capped(n: Node) {
    && n.maxSize > 0
    && (forall x :: x in n.index ==> x.Num() <= |Main(n.db)|)
    && (n.head.Some? ==> n.head.value.Num() <= |Main(n.db)| || n.head.value.previous == n.db.current.headId)
  }

  // Then a fork is never more than one block higher.
  lemma CappedOneHigher(checks: Checks, g: State, n: Node, b: Block)
    requires AtRest(checks, g, n) && Capped(n)
    ensures OneHigher(n, b)
  {
    hide OnChain, Base, Retained, Lowest, Branch;
    MainIs(checks, g, n.db, Main(n.db));
    HeadNumber(Main(n.db));
    if Classify(n.index, n.head, n.maxSize, b).Accepted? && n.head.Some? {
      assert b.Num() <= |Main(n.db)| + 1;
    }
  }

  // The outcomes that leave the fork database no higher than the chain.
  predicate Ordinary(o: PushOutcome) {
    o.RejectedByForkDb? || o.Ignored? || o.Extended? || o.RejectedBlock? || o.Switched? || o.SwitchRolledBack?
  }

  /**
   * No block is misapplied, and a fork that calls for a switch can be traced back, to a block that can be popped
   * to; and it is not one from genesis of which all blocks replay but the last.
   */
  ghost predicate Calm(checks: Checks, g: State, n: Node, b: Block) {
    && !Misapplies(checks, n, b)
    && ReachesParent(n, b)
    && (CallsForSwitch(n, b) ==>
          match ForkingOf(n, b)
          case Untraced => false
          case Forking(whole, c) =>
            var h := ReplaysTo(checks, g, whole, c);
            h == |whole| || h - c != |Main(n.db)|)
  }

  // Of a switch by its heights.
  lemma SwitchOrdinary(checks: Checks, g: State, n: Node, main: seq<Block>, whole: seq<Block>, c: nat, h: nat, r: Pushed)
    requires c < |main| && |whole| == |main| + 1 && c <= h <= |whole| && SwitchExactly(checks, g, n, main, whole, c, h, r)
    ensures Ordinary(r.outcome) <==> Irreversible(|main|) <= c && (h == |whole| || h - c != |main|)
  {
    hide AtRest, Main, Pruned, Below, ForkSizeAt, Flatten, FailedIndex, Retained, Lowest, Irreversible, RollbackKeepsBlocks;
  }

  // At rest the calm pushes are those with an ordinary outcome.
  lemma CalmIff(checks: Checks, g: State, n: Node, b: Block)
    requires AtRest(checks, g, n) && OneHigher(n, b)
    ensures Ordinary(Push(checks, n, b).outcome) <==> Calm(checks, g, n, b)
  {
    hide OnChain, Push, Classify, ApplyBlock, BranchFrom, Base, ChainTo, Retained, ReplaysTo, Pruned, Below, ForkSizeAt, Lowest, Irreversible, Flatten, FailedIndex, Misapplies, HeadAfter, AtRest, SwitchExactly;
    PushAtRestIs(checks, g, n, b);
    MisappliedIff(checks, n, b);
    RestHead(checks, g, n);
    if CallsForSwitch(n, b) && ForkingOf(n, b).Forking? {
      var whole, c := ForkingOf(n, b).whole, ForkingOf(n, b).c;
      SwitchOrdinary(checks, g, Received(n, b), Main(n.db), whole, c, ReplaysTo(checks, g, whole, c), Push(checks, n, b));
    }
  }

  lemma RestHead(checks: Checks, g: State, n: Node)
    requires AtRest(checks, g, n)
    ensures n.db.current.headId == HeadId(Main(n.db)) && n.db.current.headNum == |Main(n.db)|
  {
    MainIs(checks, g, n.db, Main(n.db));
  }

  lemma SwitchedCapped(checks: Checks, g: State, n1: Node, main: seq<Block>, whole: seq<Block>, c: nat, h: nat, r: Pushed)
    requires c < |main| && |whole| == |main| + 1 && c <= h <= |whole| && Linked(main) && Linked(whole) && main == Main(n1.db)
    requires SwitchExactly(checks, g, n1, main, whole, c, h, r) && (r.outcome.Switched? || r.outcome.SwitchRolledBack?)
    requires forall x :: x in n1.index ==> x.Num() <= |main| || x == Last(whole)
    ensures Capped(r.node)
  {
    hide Main, AtRest, Below, Flatten, RollbackKeepsBlocks, Retained, Linked;
    LinkedNumbers(whole, |main|);
    LinkedNumbers(whole, c);
    if r.outcome.SwitchRolledBack? {
      LinkedNumbers(main, |main| - 1 - (h - c));
      assert Last(whole) == whole[h..][|whole| - 1 - h];
      assert Last(whole) in Blocks(whole[h..]);
    }
  }

  // The outcomes of a switch are no others.
  lemma SwitchOutcomes(checks: Checks, g: State, n: Node, b: Block, r: Pushed)
    requires PushExactly(checks, g, n, b, r) && (r.outcome.RejectedByForkDb? || r.outcome.Ignored? || r.outcome.Extended? || r.outcome.RejectedBlock?)
    ensures
      var newBlock := Received(n, b).head.value;
      match r.outcome
      case RejectedByForkDb => r.node == n
      case Ignored => r.node == Received(n, b) && newBlock.Num() <= |Main(n.db)|
      case Extended => newBlock.previous == n.db.current.headId && r.node.index <= n.index + {b} && r.node.head == Some(newBlock)
                       && Main(r.node.db) == Main(n.db) + [b] && r.node.maxSize > 0
      case RejectedBlock => newBlock.previous == n.db.current.headId && r.node.index <= n.index && r.node.head == Some(newBlock)
                            && r.node.db == n.db && r.node.maxSize == n.maxSize
  {
    hide Main, AtRest, ApplyBlock, Classify, BranchFrom, ChainTo, ReplaysTo, Below, Flatten, FailedIndex;
  }

  lemma StaysCapped(checks: Checks, g: State, n: Node, b: Block)
    requires AtRest(checks, g, n) && Capped(n) && OneHigher(n, b) && Calm(checks, g, n, b)
    ensures Capped(Push(checks, n, b).node)
  {
    CalmIff(checks, g, n, b);
    hide OnChain, Push, PushExactly, Linked, Main, Base, Retained, Lowest, Irreversible, Calm;
    PushAtRestIs(checks, g, n, b);
    var r, main, n1 := Push(checks, n, b), Main(n.db), Received(n, b);
    MainIs(checks, g, n.db, main);
    HeadNumber(main);
    var newBlock := n1.head.value;
    if r.outcome.Switched? || r.outcome.SwitchRolledBack? {
      SwitchStaysCapped(checks, g, n, b);
    } else {
      SwitchOutcomes(checks, g, n, b, r);
      if newBlock.previous == n.db.current.headId {
        ChildNumber(newBlock, main);
      }
    }
  }

  lemma SwitchStaysCapped(checks: Checks, g: State, n: Node, b: Block)
    requires AtRest(checks, g, n) && Capped(n) && OneHigher(n, b)
    requires Push(checks, n, b).outcome.Switched? || Push(checks, n, b).outcome.SwitchRolledBack?
    ensures Capped(Push(checks, n, b).node)
  {
    hide OnChain, Push, ApplyBlock, Base, Retained, ReplaysTo, Below, ForkSizeAt, Lowest, Irreversible, Flatten, FailedIndex, SwitchExactly, Branch, Main, Classify, Linked, ChainTo;
    PushAtRestIs(checks, g, n, b);
    var r, main, n1 := Push(checks, n, b), Main(n.db), Received(n, b);
    MainIs(checks, g, n.db, main);
    var newBlock := n1.head.value;
    var whole := ChainTo(newBlock.Id());
    var branches := BranchFrom(n1.index, newBlock.Id(), n.db.current.headId);
    TracedBranches(checks, g, n1, newBlock);
    var c := |main| - |branches.second|;
    assert Last(whole) == newBlock == b;
    SwitchedCapped(checks, g, n1, main, whole, c, ReplaysTo(checks, g, whole, c), r);
  }
}
