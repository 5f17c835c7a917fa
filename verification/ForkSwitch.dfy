/**
 * Exactly what a push does to a node at rest: which outcome it has and when, how a switch that fails
 * part way is rolled back, and what is then left in the fork database.
 */
module ForkSwitch {
  import opened Undo
  import opened Common
  import opened ChainTypes
  import opened ChainState
  import opened ForkTree
  import opened ForkDatabase
  import opened MainChain
  import opened ChainNode
  import opened ChainSafety
  import opened ChainLog

  function Max(a: int, b: int): int {
    if a > b then a else b
  }

  // The lowest block of the main chain the fork database has to keep.
  function Lowest(height: nat): nat {
    if Irreversible(height) == 0 then 1 else Irreversible(height)
  }

  function ForkSizeAt(num: nat): nat {
    num - Irreversible(num) + 1
  }

  /**
   * At rest the undo stack reaches down to the irreversible block, the log up to it, and the fork
   * database holds the chain from there.
   */
  ghost predicate AtRest(checks: Checks, g: State, n: Node) {
    var main := Main(n.db);
    && Replayed(checks, g, n.db)
    && Base(n.db, main) == Irreversible(|main|)
    && n.log == main[..Irreversible(|main|)]
    && Retained(n.index, main, Lowest(|main|))
    && (n.head.None? ==> main == [])
  }

  // At rest every block of the chain is found, those that have been pruned in the log.
  lemma ChainFetched(checks: Checks, g: State, n: Node, k: nat)
    requires AtRest(checks, g, n) && k < |Main(n.db)|
    ensures n.Fetch(Main(n.db)[k].Id()) == Some(Main(n.db)[k])
  {
    var main := Main(n.db);
    hide OnChain, Base, ChainTo;
    MainIs(checks, g, n.db, main);
    LinkedNumbers(main, k);
    if main[k] !in n.index {
      assert n.log[k] == main[k];
    }
  }

  // The transactions of a run of blocks, oldest first.
  function Flatten(blocks: seq<Block>): seq<Transaction> {
    if blocks == [] then [] else blocks[0].transactions + Flatten(blocks[1..])
  }

  // ---------- Pops ----------

  // The node after t pops, which leave the chain at `kept` and have taken `gone` off it.
  function Down(n: Node, t: nat, head: Block, gone: seq<Block>): Node {
    n.(db := UndoTimes(n.db, t), head := Some(head), popped := Flatten(gone) + n.popped)
  }

  // The first t of the pops, while the fork database's head goes down the blocks of `down`.
  lemma {:induction false} PopsDown(checks: Checks, g: State, n: Node, stop: BlockId, main: seq<Block>, t: nat, down: seq<Block>)
    requires OnChain(checks, g, n.db, main) && t <= |n.db.saved|
    requires t < |down| && Descends(n.index, down) && n.head == Some(down[0])
    requires t <= |main| && forall k :: |main| - t <= k < |main| ==> main[k] in n.index && main[k].Id() != stop
    ensures
      var n1 := Down(n, t, down[t], main[|main| - t..]);
      && PopUntil(n, stop) == PopUntil(n1, stop)
      && OnChain(checks, g, n1.db, main[..|main| - t])
      && Base(n1.db, main[..|main| - t]) == Base(n.db, main)
    decreases t
  {
    hide *;
    if t == 0 {
      DownNone(n, main, down);
    } else {
      var m: nat := |main| - 1;
      assert main[m] in n.index && main[m].Id() != stop;
      OnePop(checks, g, n, main, down);
      var n2 := n.(db := n.db.UndoTop(), head := Some(down[1]), popped := main[m].transactions + n.popped);
      PopUnfold(n, stop);
      BelowLast(n.index, stop, main, t);
      PopsDown(checks, g, n2, stop, main[..m], t - 1, down[1..]);
      DownOneMore(n, n2, main, t, down);
    }
  }

  lemma DownNone(n: Node, main: seq<Block>, down: seq<Block>)
    requires down != [] && n.head == Some(down[0])
    ensures Down(n, 0, down[0], main[|main| - 0..]) == n && main[..|main| - 0] == main
  {
    FlattenNothing(main[|main|..], n.popped);
  }

  // One pop takes the head block off the chain, while the fork database's head goes to its parent.
  lemma OnePop(checks: Checks, g: State, n: Node, main: seq<Block>, down: seq<Block>)
    requires OnChain(checks, g, n.db, main) && n.db.saved != [] && main != [] && main[|main| - 1] in n.index
    requires |down| > 1 && Descends(n.index, down) && n.head == Some(down[0])
    ensures
      var m := |main| - 1;
      var n2 := n.(db := n.db.UndoTop(), head := Some(down[1]), popped := main[m].transactions + n.popped);
      && n.db.current.headId == main[m].Id() && PopOnce(n) == Some(n2)
      && OnChain(checks, g, n2.db, main[..m]) && Base(n2.db, main[..m]) == Base(n.db, main)
      && |n2.db.saved| == |n.db.saved| - 1 && Descends(n.index, down[1..])
  {
    hide OnChain, Base, Linked, Descends, History.UndoTop, ChainTo;
    MainIs(checks, g, n.db, main);
    DescendsTail(n.index, down);
    PoppedOnChain(checks, g, n.db, main);
    UndoneOne(n.db);
  }

  lemma PopUnfold(n: Node, stop: BlockId)
    requires n.db.current.headId != stop && PopOnce(n).Some?
    ensures PopUntil(n, stop) == PopUntil(PopOnce(n).value, stop)
  {
    hide PopOnce;
  }

  lemma BelowLast(index: Index, stop: BlockId, main: seq<Block>, t: nat)
    requires 0 < t <= |main| && forall k :: |main| - t <= k < |main| ==> main[k] in index && main[k].Id() != stop
    ensures
      var m := |main| - 1;
      |main[..m]| == m && forall k :: m - (t - 1) <= k < m ==> main[..m][k] in index && main[..m][k].Id() != stop
  {
  }

  lemma DownOneMore(n: Node, n2: Node, main: seq<Block>, t: nat, down: seq<Block>)
    requires 0 < t <= |main| && t < |down|
    requires n2 == n.(db := n.db.UndoTop(), head := Some(down[1]), popped := main[|main| - 1].transactions + n.popped)
    ensures
      var m := |main| - 1;
      && Down(n2, t - 1, down[1..][t - 1], main[..m][|main[..m]| - (t - 1)..]) == Down(n, t, down[t], main[|main| - t..])
      && main[..m][..|main[..m]| - (t - 1)] == main[..|main| - t]
  {
    hide Flatten, History.UndoTop;
    var m := |main| - 1;
    FlattenLast(main[|main| - t..], n.popped);
    assert main[|main| - t..][..t - 1] == main[..m][m - (t - 1)..];
    assert Last(main[|main| - t..]) == main[m];
    assert main[..m][..m - (t - 1)] == main[..|main| - t];
  }

  lemma UndoneOne(db: History<State>)
    requires db.saved != []
    ensures |db.UndoTop().saved| == |db.saved| - 1
  {
  }

  lemma DescendsTail(index: Index, xs: seq<Block>)
    requires Descends(index, xs) && |xs| > 1
    ensures Descends(index, xs[1..]) && Prev(index, xs[0]) == Some(xs[1])
  {
    forall i | 0 <= i < |xs| - 2 ensures Prev(index, xs[1..][i]) == Some(xs[1..][i + 1]) {
      assert Prev(index, xs[i + 1]) == Some(xs[i + 2]);
    }
  }

  lemma FlattenNothing(blocks: seq<Block>, tail: seq<Transaction>)
    requires blocks == []
    ensures Flatten(blocks) + tail == tail
  {
  }

  lemma {:induction false} FlattenAppend(a: seq<Block>, b: seq<Block>)
    ensures Flatten(a + b) == Flatten(a) + Flatten(b)
    decreases |a|
  {
    if a == [] {
      assert a + b == b;
    } else {
      assert (a + b)[1..] == a[1..] + b;
      FlattenAppend(a[1..], b);
    }
  }

  lemma FlattenLast(blocks: seq<Block>, tail: seq<Transaction>)
    requires blocks != []
    ensures Flatten(blocks[..|blocks| - 1]) + (Last(blocks).transactions + tail) == Flatten(blocks) + tail
  {
    hide Flatten;
    var n := |blocks| - 1;
    FlattenAppend(blocks[..n], [blocks[n]]);
    FlattenOne(blocks[n]);
    assert blocks[..n] + [blocks[n]] == blocks;
    Associate(Flatten(blocks[..n]), blocks[n].transactions, tail);
  }

  lemma FlattenOne(b: Block)
    ensures Flatten([b]) == b.transactions
  {
    assert [b][1..] == [];
    assert Flatten([b]) == b.transactions + [];
  }

  // With nothing left to undo, pops go on down the fork database only, until they throw.
  lemma {:induction false} PopsAtBase(n: Node, stop: BlockId)
    requires n.db.saved == [] && n.db.current.headId != stop
    ensures !PopUntil(n, stop).ok && PopUntil(n, stop).node.db == n.db
    decreases if n.head.Some? then n.head.value.Num() + 1 else 0
  {
    if PopOnce(n).Some? {
      PopsAtBase(PopOnce(n).value, stop);
    }
  }

  // ---------- Climbs ----------

  // The walk from the fork database's head meets the chain's block of number k.
  ghost predicate FoundAt(index: Index, head: Block, whole: seq<Block>, k: nat)
    requires 1 <= k <= |whole|
  {
    whole[k - 1] in index && whole[k - 1].Num() == k <= head.Num() && WalkTo(index, head, k) == Some(whole[k - 1])
  }

  // All blocks the log will need can be found.
  ghost predicate Findable(index: Index, head: Block, whole: seq<Block>, logged: nat, upTo: nat) {
    logged < upTo ==> upTo <= |whole| && forall k :: logged < k <= upTo ==> FoundAt(index, head, whole, k)
  }

  lemma {:induction false} GrowLogFinds(index: Index, head: Block, log: seq<Block>, whole: seq<Block>, upTo: nat)
    requires log <= whole && Findable(index, head, whole, |log|, upTo)
    ensures GrowLog(index, head, log, upTo) == Growth(true, whole[..Max(|log|, upTo)])
    decreases upTo - |log|
  {
    hide OnMainBranch, WalkTo;
    if upTo > |log| {
      assert FoundAt(index, head, whole, |log| + 1);
      OnMainBranchFinds(index, head, |log| + 1, whole[|log|]);
      assert log + [whole[|log|]] == whole[..|log| + 1];
      GrowLogFinds(index, head, log + [whole[|log|]], whole, upTo);
    }
  }

  lemma {:induction false} WalkPruned(index: Index, b: Block, k: nat, bound: nat)
    requires bound <= k
    ensures WalkTo(Pruned(index, bound), b, k) == WalkTo(index, b, k)
    decreases b
  {
    if b.Num() > k && Prev(index, b).Some? {
      WalkPruned(index, Prev(index, b).value, k, bound);
    }
  }

  // Pruning no higher than the log leaves everything above it findable.
  lemma FindablePruned(index: Index, head: Block, whole: seq<Block>, logged: nat, logged': nat, upTo: nat, bound: nat)
    requires Findable(index, head, whole, logged, upTo) && logged <= logged' && bound <= logged'
    ensures Findable(Pruned(index, bound), head, whole, logged', upTo)
  {
    if logged' < upTo {
      forall k | logged' < k <= upTo ensures FoundAt(Pruned(index, bound), head, whole, k) {
        assert FoundAt(index, head, whole, k);
        WalkPruned(index, head, k, bound);
      }
    }
  }

  lemma ForkSizeIs(s: State)
    requires s.lastIrreversible == Irreversible(s.headNum)
    ensures ForkSize(s) == ForkSizeAt(s.headNum)
  {
  }

  lemma ExecutedForkSize(checks: Checks, s: State, b: Block)
    requires ExecuteBlock(checks, s, b).Applied? && s.lastIrreversible == Irreversible(s.headNum) && b.Num() == s.headNum + 1
    ensures ForkSize(WithIrreversible(ExecuteBlock(checks, s, b).state)) == ForkSizeAt(b.Num())
  {
    TransactionsKeep(checks, s, b.transactions);
    ForkSizeIs(WithIrreversible(ExecuteBlock(checks, s, b).state));
  }

  // What an applied block leaves of the fork database.
  lemma TryApplyIndex(checks: Checks, g: State, n: Node, main: seq<Block>, b: Block)
    requires n.head.Some? && OnChain(checks, g, n.db, main) && b.previous == HeadId(main)
    requires TryApply(checks, n, b).ok
    ensures
      var a := TryApply(checks, n, b);
      && a.node.index == Pruned(n.index, Below(n.head.value.Num(), ForkSizeAt(|main| + 1)))
      && a.node.maxSize == ForkSizeAt(|main| + 1)
  {
    hide OnChain, ExecuteBlock, WithIrreversible, GrowLog, Pruned, TryApply, FinishBlock, AfterApply, ForkSizeAt, ForkSize;
    MainIs(checks, g, n.db, main);
    HeadNumber(main);
    TryApplyIs(checks, n, b);
    ExecutedForkSize(checks, n.db.current, b);
  }

  // Of a run of applied blocks, the first one prunes the most.
  lemma {:induction false} ClimbIndex(checks: Checks, g: State, n: Node, blocks: seq<Block>)
    requires n.head.Some? && Replayed(checks, g, n.db) && Linked(Main(n.db) + blocks)
    ensures
      var c, h := Climb(checks, n, blocks), |Main(n.db)|;
      && (c.applied > 0 ==> c.node.index == Pruned(n.index, Below(n.head.value.Num(), ForkSizeAt(h + 1))))
      && (c.applied > 0 ==> c.node.maxSize == ForkSizeAt(h + c.applied))
      && (c.applied == 0 ==> c.node.index == n.index && c.node.maxSize == n.maxSize)
    decreases |blocks|
  {
    hide OnChain, TryApply, Linked, ChainTo, HeadId, Base, Pruned, Below, ForkSizeAt;
    if blocks != [] {
      var main, b := Main(n.db), blocks[0];
      var a := TryApply(checks, n, b);
      MainIs(checks, g, n.db, main);
      LinkedAt(main + blocks, |main|);
      assert (main + blocks)[..|main|] == main;
      TryApplyOnChain(checks, g, n, main, b);
      if a.ok {
        TryApplyIndex(checks, g, n, main, b);
        MainIs(checks, g, a.node.db, main + [b]);
        StandsHigher(n.db, a.node.db, main, b);
        FirstAndRest(blocks);
        Associate(main, [b], blocks[1..]);
        ClimbIndex(checks, g, a.node, blocks[1..]);
        PrunedFurther(n.index, n.head.value.Num(), |main| + 1);
      } else {
        TryApplyFails(checks, n, b);
      }
    }
  }

  lemma PrunedFurther(index: Index, num: nat, h: nat)
    ensures
      var index1 := Pruned(index, Below(num, ForkSizeAt(h)));
      Pruned(index1, Below(num, ForkSizeAt(h + 1))) == index1
  {
    PrunedTwice(index, Below(num, ForkSizeAt(h)), Below(num, ForkSizeAt(h + 1)));
  }

  lemma TryApplyFails(checks: Checks, n: Node, b: Block)
    requires n.head.Some? && !TryApply(checks, n, b).ok
    ensures TryApply(checks, n, b).node.index == n.index && TryApply(checks, n, b).node.maxSize == n.maxSize
  {
  }

  // With the log's blocks at hand, whether a block applies depends on the state alone.
  lemma TryApplyExact(checks: Checks, g: State, n: Node, main: seq<Block>, b: Block, whole: seq<Block>)
    requires n.head.Some? && OnChain(checks, g, n.db, main) && b.previous == HeadId(main)
    requires n.log <= whole && Irreversible(|main| + 1) <= |whole|
    requires Findable(n.index, n.head.value, whole, |n.log|, Irreversible(|main| + 1))
    ensures
      var a := TryApply(checks, n, b);
      && (a.ok <==> ApplyBlock(checks, n.db.current, b).Applied?)
      && (a.ok ==> a.node.log == whole[..Max(|n.log|, Irreversible(|main| + 1))])
      && (!a.ok ==> a.node == n)
  {
    hide OnChain, ExecuteBlock, WithIrreversible, GrowLog, Pruned, TryApply, FinishBlock, AfterApply, Findable, ForkSize;
    MainIs(checks, g, n.db, main);
    HeadNumber(main);
    TryApplyIs(checks, n, b);
    ExecutedApplies(checks, n.db.current, b);
    if ExecuteBlock(checks, n.db.current, b).Applied? {
      ExecutedHead(checks, n.db.current, b);
      GrowLogFinds(n.index, n.head.value, n.log, whole, Irreversible(|main| + 1));
    }
  }

  // Going up `whole`, `height` blocks of it being applied, with a log that can be kept up.
  ghost predicate Climbing(checks: Checks, g: State, n: Node, whole: seq<Block>, height: nat) {
    && n.head.Some? && Linked(whole) && height <= |whole|
    && OnChain(checks, g, n.db, whole[..height]) && Irreversible(height) <= Base(n.db, whole[..height])
    && n.log <= whole && Irreversible(height) <= |n.log|
    && Findable(n.index, n.head.value, whole, |n.log|, Irreversible(|whole|))
    && (|n.log| < Irreversible(|whole|) ==> n.head.value.Num() <= height + 1)
  }

  lemma ClimbStep(checks: Checks, g: State, n: Node, whole: seq<Block>, height: nat)
    requires Climbing(checks, g, n, whole, height) && height < |whole|
    ensures
      var a := TryApply(checks, n, whole[height]);
      && (a.ok <==> Replay(checks, g, whole[..height + 1]).Applied?)
      && (a.ok ==>
            && Climbing(checks, g, a.node, whole, height + 1)
            && a.node.log == whole[..Max(|n.log|, Irreversible(height + 1))]
            && |a.node.log| == Max(|n.log|, Irreversible(height + 1))
            && Base(a.node.db, whole[..height + 1]) == Max(Base(n.db, whole[..height]), Irreversible(height + 1)))
      && (!a.ok ==> a.node == n)
  {
    hide OnChain, TryApply, Linked, ChainTo, HeadId, Base, Pruned, Replay, ApplyBlock, Findable, Below, ForkSizeAt, Ancestor;
    var main, b := whole[..height], whole[height];
    LinkedAt(whole, height);
    assert whole[..height + 1] == main + [b];
    FindableLess(n.index, n.head.value, whole, |n.log|, Irreversible(height + 1), Irreversible(|whole|));
    TryApplyOnChain(checks, g, n, main, b);
    TryApplyExact(checks, g, n, main, b, whole);
    ReplayAppend(checks, g, main, b);
    CurrentIs(checks, g, n.db, main);
    if TryApply(checks, n, b).ok {
      var a := TryApply(checks, n, b);
      TryApplyIndex(checks, g, n, main, b);
      if |a.node.log| < Irreversible(|whole|) {
        PruneBelowLog(n.head.value.Num(), height);
        FindablePruned(n.index, n.head.value, whole, |n.log|, |a.node.log|, Irreversible(|whole|),
                       Below(n.head.value.Num(), ForkSizeAt(height + 1)));
      } else {
        FindableNothing(a.node.index, n.head.value, whole, |a.node.log|, Irreversible(|whole|));
      }
    }
  }

  // A climb that began with so much logged and with that base has ended: exactly the blocks that replay
  // are applied, and log and undo stack have moved as far as the height says.
  ghost predicate ClimbEnded(checks: Checks, g: State, n: Node, whole: seq<Block>, height: nat, logged: nat, base: int) {
    && height <= |whole| && OnChain(checks, g, n.db, whole[..height])
    && (height < |whole| ==> Replay(checks, g, whole[..height + 1]).Threw?)
    && Max(logged, Irreversible(height)) <= |whole| && n.log == whole[..Max(logged, Irreversible(height))]
    && Base(n.db, whole[..height]) == Max(base, Irreversible(height))
  }

  lemma {:induction false} ClimbExact(checks: Checks, g: State, n: Node, whole: seq<Block>, height: nat)
    requires Climbing(checks, g, n, whole, height)
    ensures ClimbedFrom(checks, g, n, whole, height)
    decreases |whole| - height
  {
    ClimbingFacts(checks, g, n, whole, height);
    hide Climbing, TryApply, Base, Replay, OnChain, ClimbedFrom;
    if height < |whole| {
      ClimbStep(checks, g, n, whole, height);
      var a := TryApply(checks, n, whole[height]);
      if a.ok {
        ClimbExact(checks, g, a.node, whole, height + 1);
        ClimbedFurther(checks, g, n, whole, height);
        return;
      }
    }
    ClimbEndsHere(checks, g, n, whole, height);
  }

  ghost predicate ClimbedFrom(checks: Checks, g: State, n: Node, whole: seq<Block>, height: nat)
    requires n.head.Some? && height <= |whole|
  {
    var c := Climb(checks, n, whole[height..]);
    ClimbEnded(checks, g, c.node, whole, height + c.applied, |n.log|, Base(n.db, whole[..height]))
  }

  lemma ClimbedFurther(checks: Checks, g: State, n: Node, whole: seq<Block>, height: nat)
    requires n.head.Some? && height < |whole|
    requires
      var a := TryApply(checks, n, whole[height]);
      && a.ok && ClimbedFrom(checks, g, a.node, whole, height + 1)
      && |a.node.log| == Max(|n.log|, Irreversible(height + 1))
      && Base(a.node.db, whole[..height + 1]) == Max(Base(n.db, whole[..height]), Irreversible(height + 1))
    ensures ClimbedFrom(checks, g, n, whole, height)
  {
    hide TryApply, ClimbEnded, Climb, Max, Base, Irreversible;
    ClimbUnfold(checks, n, whole, height);
    var a := TryApply(checks, n, whole[height]);
    var c := Climb(checks, a.node, whole[height + 1..]);
    ClimbedFromHigher(checks, g, c.node, whole, height + 1 + c.applied, height + 1, |n.log|, Base(n.db, whole[..height]));
  }

  lemma ClimbEndsHere(checks: Checks, g: State, n: Node, whole: seq<Block>, height: nat)
    requires Climbing(checks, g, n, whole, height)
    requires height < |whole| ==> Replay(checks, g, whole[..height + 1]).Threw?
    requires height < |whole| ==> !TryApply(checks, n, whole[height]).ok && TryApply(checks, n, whole[height]).node == n
    ensures ClimbedFrom(checks, g, n, whole, height)
  {
    hide OnChain, Replay, Linked, Base, Findable, TryApply;
    ClimbUnfold(checks, n, whole, height);
  }

  lemma ClimbUnfold(checks: Checks, n: Node, whole: seq<Block>, height: nat)
    requires n.head.Some? && height <= |whole|
    ensures Climb(checks, n, whole[height..]) ==
      if height == |whole| then Climbed(n, 0)
      else
        var a := TryApply(checks, n, whole[height]);
        if !a.ok then Climbed(a.node, 0)
        else
          var c := Climb(checks, a.node, whole[height + 1..]);
          Climbed(c.node, c.applied + 1)
  {
    hide TryApply;
    if height < |whole| {
      assert whole[height..][1..] == whole[height + 1..];
    }
  }

  lemma ClimbedFromHigher(checks: Checks, g: State, n: Node, whole: seq<Block>, height: nat, from: nat, logged: nat, base: int)
    requires ClimbEnded(checks, g, n, whole, height, Max(logged, Irreversible(from)), Max(base, Irreversible(from))) && from <= height
    ensures ClimbEnded(checks, g, n, whole, height, logged, base)
  {
  }

  lemma ClimbingFacts(checks: Checks, g: State, n: Node, whole: seq<Block>, height: nat)
    requires Climbing(checks, g, n, whole, height)
    ensures n.head.Some? && height <= |whole| && OnChain(checks, g, n.db, whole[..height])
    ensures Base(n.db, whole[..height]) == Max(Base(n.db, whole[..height]), Irreversible(height))
    ensures n.log == whole[..Max(|n.log|, Irreversible(height))]
  {
  }

  lemma CurrentIs(checks: Checks, g: State, db: History<State>, main: seq<Block>)
    requires OnChain(checks, g, db, main)
    ensures Replay(checks, g, main) == Applied(db.current)
  {
  }

  lemma FindableLess(index: Index, head: Block, whole: seq<Block>, logged: nat, upTo: nat, further: nat)
    requires Findable(index, head, whole, logged, further) && upTo <= further
    ensures Findable(index, head, whole, logged, upTo)
  {
  }

  lemma FindableNothing(index: Index, head: Block, whole: seq<Block>, logged: nat, upTo: nat)
    requires upTo <= logged
    ensures Findable(index, head, whole, logged, upTo)
  {
  }

  lemma PruneBelowLog(num: nat, height: nat)
    requires num <= height + 1
    ensures Below(num, ForkSizeAt(height + 1)) <= Irreversible(height + 1)
  {
  }

  // ---------- A switch at rest ----------

  // The height up to which a chain replays, counted from a height at which it does.
  ghost function ReplaysTo(checks: Checks, g: State, chain: seq<Block>, height: nat): (h: nat)
    requires height <= |chain|
    ensures height <= h <= |chain|
    decreases |chain| - height
  {
    if height < |chain| && Replay(checks, g, chain[..height + 1]).Applied? then ReplaysTo(checks, g, chain, height + 1)
    else height
  }

  lemma {:induction false} ReplaysToIs(checks: Checks, g: State, chain: seq<Block>, height: nat, h: nat)
    requires height <= h <= |chain| && Replay(checks, g, chain[..h]).Applied?
    requires h < |chain| ==> Replay(checks, g, chain[..h + 1]).Threw?
    ensures ReplaysTo(checks, g, chain, height) == h
    decreases h - height
  {
    hide Replay;
    if height < h {
      ReplayPrefix(checks, g, chain[..h], height + 1);
      assert chain[..h][..height + 1] == chain[..height + 1];
      ReplaysToIs(checks, g, chain, height + 1, h);
    }
  }

  // A fork higher than the main chain has been traced back to the parent at height c.
  ghost predicate Traced(n: Node, main: seq<Block>, whole: seq<Block>, c: nat, first: seq<Block>, second: seq<Block>) {
    && Linked(main) && Linked(whole) && c < |main| < |whole|
    && whole[..c] == main[..c] && Reversed(first) == whole[c..] && Reversed(second) == main[c..]
    && n.head == Some(Last(whole)) && second[0] == Last(main)
    && Last(second).previous == HeadId(main[..c])
    && Descends(n.index, first)
    && (forall k :: c <= k < |main| ==> main[k] in n.index)
    && (forall k :: c <= k < |whole| ==> whole[k] in n.index)
  }

  lemma TracedBranches(checks: Checks, g: State, n: Node, newBlock: Block)
    requires Replayed(checks, g, n.db) && n.head == Some(newBlock) && newBlock.Num() > |Main(n.db)|
    requires BranchFrom(n.index, newBlock.Id(), n.db.current.headId).Branches?
    ensures
      var r := BranchFrom(n.index, newBlock.Id(), n.db.current.headId);
      && |r.second| <= |Main(n.db)| && |ChainTo(newBlock.Id())| == newBlock.Num()
      && Traced(n, Main(n.db), ChainTo(newBlock.Id()), |Main(n.db)| - |r.second|, r.first, r.second)
      && |r.first| - |r.second| == newBlock.Num() - |Main(n.db)|
  {
    hide OnChain, ChainTo, Branch, Base, Traced, Descends, Linked;
    var main := Main(n.db);
    MainIs(checks, g, n.db, main);
    HeadNumber(main);
    BranchesForked(n, newBlock);
    BranchShape(n.index, newBlock, n.db.current.headId.block);
    var r := BranchFrom(n.index, newBlock.Id(), n.db.current.headId);
    ForkedIsTraced(n, main, newBlock, r.first, r.second);
  }

  lemma ForkedIsTraced(n: Node, main: seq<Block>, newBlock: Block, first: seq<Block>, second: seq<Block>)
    requires Forked(n, newBlock, first, second) && Linked(main) && n.db.current.headId == HeadId(main) && |first| > |second|
    ensures |second| <= |main| && Traced(n, main, ChainTo(newBlock.Id()), |main| - |second|, first, second)
    ensures |ChainTo(newBlock.Id())| == newBlock.Num()
  {
    hide Descends, ChainTo, Traced, Reversed;
    assert main != [] && second[0] == Last(main);
    BranchOnChain(n.index, main, second);
    var c := |main| - |second|;
    LinkedPrefix(main, c);
    ForkedChain(n.index, main[..c], first);
    var whole := main[..c] + Reversed(first);
    LinkedIsChainTo(whole);
    assert Last(whole) == newBlock;
    LinkedNumbers(whole, |whole| - 1);
    BranchItems(n.index, first, second);
    TracedParts(n, main, whole, c, first, second);
  }

  lemma BranchItems(index: Index, first: seq<Block>, second: seq<Block>)
    requires first != [] && second != [] && first[0] in index && second[0] in index
    requires Descends(index, first) && Descends(index, second)
    ensures forall i :: 0 <= i < |first| ==> Reversed(first)[i] in index
    ensures forall i :: 0 <= i < |second| ==> Reversed(second)[i] in index
  {
    forall i | 0 <= i < |first| ensures Reversed(first)[i] in index {
      DescendsInIndex(index, first, |first| - 1 - i);
    }
    forall i | 0 <= i < |second| ensures Reversed(second)[i] in index {
      DescendsInIndex(index, second, |second| - 1 - i);
    }
  }

  lemma TracedParts(n: Node, main: seq<Block>, whole: seq<Block>, c: nat, first: seq<Block>, second: seq<Block>)
    requires Linked(main) && Linked(whole) && c < |main| && |first| > |second| == |main| - c
    requires whole == main[..c] + Reversed(first) && Reversed(second) == main[c..] && n.head == Some(Last(whole))
    requires second[0] == Last(main) && Last(second).previous == HeadId(main[..c]) && Descends(n.index, first)
    requires forall i :: 0 <= i < |first| ==> Reversed(first)[i] in n.index
    requires forall i :: 0 <= i < |second| ==> Reversed(second)[i] in n.index
    ensures Traced(n, main, whole, c, first, second)
  {
    hide Descends, Linked, Reversed;
    SplitAt(main[..c], Reversed(first), whole, n.index);
    SplitAt(main[..c], Reversed(second), main, n.index);
  }

  lemma SplitAt(low: seq<Block>, high: seq<Block>, whole: seq<Block>, index: Index)
    requires whole == low + high && forall i :: 0 <= i < |high| ==> high[i] in index
    ensures whole[..|low|] == low && whole[|low|..] == high
    ensures forall k :: |low| <= k < |whole| ==> whole[k] in index
  {
    forall k | |low| <= k < |whole| ensures whole[k] in index {
      assert whole[k] == high[k - |low|];
    }
  }

  lemma StopsBelow(main: seq<Block>, c: nat, k: nat)
    requires Linked(main) && c <= k < |main|
    ensures main[k].Id() != HeadId(main[..c])
  {
    LinkedNumbers(main, k);
    LinkedPrefix(main, c);
    HeadNumber(main[..c]);
  }

  // The pops at the start of a switch that can reach the common parent.
  lemma SwitchPops(checks: Checks, g: State, n: Node, main: seq<Block>, whole: seq<Block>, c: nat,
                   first: seq<Block>, second: seq<Block>)
    requires second != [] && Traced(n, main, whole, c, first, second)
    requires OnChain(checks, g, n.db, main) && Base(n.db, main) <= c
    ensures
      var n1 := Down(n, |main| - c, whole[|whole| - 1 - (|main| - c)], main[c..]);
      && PopUntil(n, Last(second).previous) == Attempt(true, n1)
      && OnChain(checks, g, n1.db, main[..c]) && Base(n1.db, main[..c]) == Base(n.db, main)
      && n1.db.current.headId == HeadId(main[..c])
  {
    hide OnChain, Flatten, Descends, Reversed, UndoTimes;
    var t := |main| - c;
    assert |first| == |whole| - c && first[t] == Reversed(first)[|first| - 1 - t] == whole[|whole| - 1 - t];
    assert n.head == Some(first[0]) by {
      assert first[0] == Reversed(first)[|first| - 1];
    }
    forall k | c <= k < |main| ensures main[k].Id() != Last(second).previous {
      StopsBelow(main, c, k);
    }
    PopsDown(checks, g, n, Last(second).previous, main, t, first);
    MainIs(checks, g, UndoTimes(n.db, t), main[..c]);
  }

  lemma {:induction false} UndoneAll(db: History<State>)
    ensures UndoTimes(db, |db.saved|).saved == []
    decreases |db.saved|
  {
    if db.saved != [] {
      UndoneAll(db.UndoTop());
    }
  }

  // The pops of a switch to a fork that leaves the chain below what can be undone.
  lemma SwitchPopsStuck(checks: Checks, g: State, n: Node, main: seq<Block>, whole: seq<Block>, c: nat,
                        first: seq<Block>, second: seq<Block>)
    requires second != [] && Traced(n, main, whole, c, first, second)
    requires OnChain(checks, g, n.db, main) && Base(n.db, main) > c
    ensures
      var p := PopUntil(n, Last(second).previous);
      var base := |main| - |n.db.saved|;
      && !p.ok && p.node.db.saved == [] && 0 <= base <= |main| && OnChain(checks, g, p.node.db, main[..base])
  {
    hide OnChain, Flatten, Descends, Reversed, UndoTimes, PopUntil;
    OnChainRevision(checks, g, n.db, main);
    UndoneAll(n.db);
    var t := |n.db.saved|;
    assert |first| == |whole| - c;
    assert n.head == Some(first[0]) by {
      assert first[0] == Reversed(first)[|first| - 1];
    }
    forall k | c <= k < |main| ensures main[k].Id() != Last(second).previous {
      StopsBelow(main, c, k);
    }
    PopsDown(checks, g, n, Last(second).previous, main, t, first);
    var n1 := Down(n, t, first[t], main[|main| - t..]);
    MainIs(checks, g, n1.db, main[..|main| - t]);
    StopsBelow(main, c, |main| - t - 1);
    PopsAtBase(n1, Last(second).previous);
  }

  // Everything the new branch makes irreversible can be found from its lowest block.
  lemma NewBranchFindable(index: Index, main: seq<Block>, whole: seq<Block>, c: nat)
    requires Linked(whole) && c < |main| && |whole| == |main| + 1 && whole[..c] == main[..c] && Irreversible(|main|) <= c
    requires Retained(index, main, Lowest(|main|)) && forall k :: c <= k < |whole| ==> whole[k] in index
    ensures Findable(index, whole[c], whole, Irreversible(|main|), Irreversible(|whole|))
  {
    if Irreversible(|main|) < Irreversible(|whole|) {
      var k := Irreversible(|whole|);
      assert Retained(index, whole, k) by {
        forall i | 0 <= i < |whole| && k <= i + 1 ensures whole[i] in index {
          if i < c {
            assert whole[i] == main[..c][i] == main[i];
          }
        }
      }
      LinkedNumbers(whole, c);
      LinkedNumbers(whole, k - 1);
      WalkOnChain(index, whole, k, c, k);
    }
  }

  lemma UpFromParent(checks: Checks, g: State, n: Node, n1: Node, main: seq<Block>, whole: seq<Block>, c: nat,
                     first: seq<Block>, second: seq<Block>)
    requires |whole| == |main| + 1 && second != [] && Traced(n, main, whole, c, first, second) && Irreversible(|main|) <= c
    requires Retained(n.index, main, Lowest(|main|)) && n.log == main[..Irreversible(|main|)]
    requires OnChain(checks, g, n1.db, main[..c]) && Base(n1.db, main[..c]) == Irreversible(|main|)
    requires n1.index == n.index && n1.log == n.log && n1.head == Some(whole[c])
    ensures Climbing(checks, g, n1, whole, c) && |n1.log| == Irreversible(|main|)
  {
    hide OnChain, Descends, Reversed, Base, Retained, Findable;
    NewBranchFindable(n.index, main, whole, c);
    LinkedNumbers(whole, c);
    assert n.log == whole[..Irreversible(|main|)] by {
      assert whole[..c][..Irreversible(|main|)] == whole[..Irreversible(|main|)];
      assert main[..c][..Irreversible(|main|)] == main[..Irreversible(|main|)];
    }
    LinkedAt(whole, c);
  }

  // ---------- A rollback ----------

  // The fork database when the rollback starts: what the applied blocks pruned and the failed ones erased.
  function FailedIndex(index: Index, whole: seq<Block>, c: nat, h: nat): Index
    requires c <= h <= |whole|
  {
    (if h > c then Pruned(index, Below(c + 1, ForkSizeAt(c + 1))) else index) - Blocks(whole[h..])
  }

  lemma FailedIndexKeeps(index: Index, main: seq<Block>, whole: seq<Block>, c: nat, h: nat)
    requires Linked(main) && Linked(whole) && c < |main| && |whole| == |main| + 1 && c <= h < |whole|
    requires Irreversible(|main|) <= c && Retained(index, main, Lowest(|main|))
    requires forall k :: c <= k < |whole| ==> whole[k] in index
    requires forall i :: h <= i < |whole| ==> whole[i] !in main
    ensures Retained(FailedIndex(index, whole, c, h), main, Lowest(|main|))
    ensures forall k :: c <= k < h ==> whole[k] in FailedIndex(index, whole, c, h)
  {
    var bound := Below(c + 1, ForkSizeAt(c + 1));
    PrunedRetains(index, main, Lowest(|main|), bound);
    var gone := Blocks(whole[h..]);
    forall k | 0 <= k < |main| && Lowest(|main|) <= k + 1 ensures main[k] in FailedIndex(index, whole, c, h) {
      assert main[k] !in gone;
    }
    HigherBlocks(whole, h);
    forall k | c <= k < h ensures whole[k] in FailedIndex(index, whole, c, h) {
      LinkedNumbers(whole, k);
      assert whole[k] in whole[..h];
    }
  }

  // The last t + 1 blocks of a chain, from its head down.
  function TopDown(chain: seq<Block>, t: nat): (down: seq<Block>)
    requires t < |chain|
    ensures |down| == t + 1 && forall i :: 0 <= i <= t ==> down[i] == chain[|chain| - 1 - i]
  {
    Reversed(chain[|chain| - 1 - t..])
  }

  lemma TopDownDescends(index: Index, chain: seq<Block>, t: nat)
    requires Linked(chain) && t < |chain| && forall k :: |chain| - 1 - t <= k < |chain| - 1 ==> chain[k] in index
    ensures Descends(index, TopDown(chain, t))
  {
    var down := TopDown(chain, t);
    forall i | 0 <= i < t ensures Prev(index, down[i]) == Some(down[i + 1]) {
      assert LinksAt(chain, |chain| - 1 - i);
    }
  }

  // The node of a rollback before its pops: h blocks of the new chain stand, the fork database is back on
  // the old one.
  ghost predicate Failed(checks: Checks, g: State, n: Node, main: seq<Block>, whole: seq<Block>, c: nat, h: nat) {
    && Linked(main) && Linked(whole) && c < |main| && c <= h < |whole| == |main| + 1 && whole[..c] == main[..c]
    && Irreversible(|main|) <= c
    && OnChain(checks, g, n.db, whole[..h]) && Base(n.db, whole[..h]) == Irreversible(|main|)
    && n.head == Some(Last(main)) && Retained(n.index, main, Lowest(|main|))
    && (forall k :: c <= k < h ==> whole[k] in n.index)
  }

  // The first t pops of a rollback take the new branch off while the fork database goes down the old one.
  lemma RollbackPopsDown(checks: Checks, g: State, n: Node, main: seq<Block>, whole: seq<Block>, c: nat, h: nat, t: nat)
    requires Failed(checks, g, n, main, whole, c, h) && t <= h - c && t < |main|
    ensures
      var n1 := Down(n, t, main[|main| - 1 - t], whole[h - t..h]);
      && PopUntil(n, HeadId(main[..c])) == PopUntil(n1, HeadId(main[..c]))
      && OnChain(checks, g, n1.db, whole[..h - t]) && Base(n1.db, whole[..h - t]) == Irreversible(|main|)
      && n1.db.current.headId == HeadId(whole[..h - t])
  {
    hide *;
    FailedFacts(checks, g, n, main, whole, c, h);
    var chain := whole[..h];
    OldBranchDown(checks, g, n, main, whole, c, h, t);
    NewBranchUp(checks, g, n, main, whole, chain, c, h, t);
    SliceTwice(whole, h, t);
    PopsDown(checks, g, n, HeadId(main[..c]), chain, t, TopDown(main, t));
    MainIs(checks, g, Down(n, t, TopDown(main, t)[t], chain[|chain| - t..]).db, chain[..|chain| - t]);
  }

  lemma SliceTwice<T>(s: seq<T>, h: nat, t: nat)
    requires t <= h <= |s|
    ensures s[..h][|s[..h]| - t..] == s[h - t..h] && s[..h][..|s[..h]| - t] == s[..h - t]
  {
  }

  lemma OldBranchDown(checks: Checks, g: State, n: Node, main: seq<Block>, whole: seq<Block>, c: nat, h: nat, t: nat)
    requires Failed(checks, g, n, main, whole, c, h) && t <= h - c && t < |main|
    ensures Descends(n.index, TopDown(main, t)) && n.head == Some(TopDown(main, t)[0])
  {
    hide OnChain, Descends, Base;
    TopDownDescends(n.index, main, t);
  }

  lemma NewBranchUp(checks: Checks, g: State, n: Node, main: seq<Block>, whole: seq<Block>, chain: seq<Block>, c: nat, h: nat, t: nat)
    requires Failed(checks, g, n, main, whole, c, h) && t <= h - c && chain == whole[..h]
    ensures OnChain(checks, g, n.db, chain) && Base(n.db, chain) == Irreversible(|main|) && t <= |n.db.saved|
    ensures t <= |chain| && forall k :: |chain| - t <= k < |chain| ==> chain[k] in n.index && chain[k].Id() != HeadId(main[..c])
  {
    hide OnChain;
    SavedAbove(checks, g, n.db, chain, Irreversible(|main|));
    forall k | h - t <= k < h ensures chain[k] in n.index && chain[k].Id() != HeadId(main[..c]) {
      StopsBelow(whole, c, k);
    }
  }

  lemma RollbackPops(checks: Checks, g: State, n: Node, main: seq<Block>, whole: seq<Block>, c: nat, h: nat)
    requires Failed(checks, g, n, main, whole, c, h) && h - c < |main|
    ensures
      var n1 := Down(n, h - c, main[|main| - 1 - (h - c)], whole[c..h]);
      && PopUntil(n, HeadId(main[..c])) == Attempt(true, n1)
      && OnChain(checks, g, n1.db, main[..c]) && Base(n1.db, main[..c]) == Irreversible(|main|)
  {
    hide OnChain, Flatten, Base;
    RollbackPopsDown(checks, g, n, main, whole, c, h, h - c);
  }

  // When all but the last block of a fork from genesis applied, its first block cannot be taken off.
  lemma RollbackPopsStuck(checks: Checks, g: State, n: Node, main: seq<Block>, whole: seq<Block>, c: nat, h: nat)
    requires Failed(checks, g, n, main, whole, c, h) && h - c == |main|
    ensures
      var n1 := Down(n, h - 1, main[0], whole[1..h]);
      && c == 0 && PopUntil(n, HeadId(main[..c])) == Attempt(false, n1)
      && OnChain(checks, g, n1.db, whole[..1]) && Base(n1.db, whole[..1]) == 0
  {
    hide OnChain, Flatten, Base;
    RollbackPopsDown(checks, g, n, main, whole, c, h, h - 1);
    LinkedAt(main, 0);
    StopsBelow(whole, 0, 0);
  }

  lemma SavedAbove(checks: Checks, g: State, db: History<State>, chain: seq<Block>, base: int)
    requires OnChain(checks, g, db, chain) && Base(db, chain) == base
    ensures |db.saved| == |chain| - base
  {
  }

  // The rollback keeps every block the controller may still need: blocks from max(1, base) to the
  // head, after the first block of the old branch has been applied again with the fork head j below it.
  predicate RollbackKeepsBlocks(height: nat, c: nat, j: nat)
    requires j <= height
  {
    Below(height - j, ForkSizeAt(c + 1)) <= Lowest(height)
  }

  // On a chain whose common parent is 20 blocks up or more nothing is lost.
  lemma TallForksKeep(height: nat, c: nat, j: nat)
    requires c < height && j <= height && c + 1 >= IRREVERSIBLE_BLOCK_NUM
    ensures RollbackKeepsBlocks(height, c, j)
  {
  }

  // The chain is back at the common parent, and the fork database's head is j below the old branch's top.
  ghost predicate Restorable(checks: Checks, g: State, n: Node, n0: Node, main: seq<Block>, c: nat, j: nat) {
    && c < |main| && j < |main| && Linked(main) && Replay(checks, g, main).Applied?
    && OnChain(checks, g, n0.db, main) && Base(n0.db, main) == Irreversible(|main|) <= c
    && OnChain(checks, g, n.db, main[..c]) && Base(n.db, main[..c]) == Irreversible(|main|)
    && n.log == n0.log == main[..Irreversible(|main|)] && n.head == Some(main[|main| - 1 - j])
  }

  // The old branch is applied again.
  lemma Restored(checks: Checks, g: State, n: Node, n0: Node, main: seq<Block>, c: nat, j: nat)
    requires Restorable(checks, g, n, n0, main, c, j)
    ensures
      var r := Climb(checks, n, main[c..]);
      && r.applied == |main| - c
      && r.node == n.(db := n0.db, index := Pruned(n.index, Below(|main| - j, ForkSizeAt(c + 1))), maxSize := ForkSizeAt(|main|))
  {
    hide OnChain, Climb, Base, Below, ForkSizeAt, Pruned, Replay, Linked;
    RestoredChain(checks, g, n, main, c);
    RestoredFork(checks, g, n, main, c);
    LinkedNumbers(main, |main| - 1 - j);
    var r := Climb(checks, n, main[c..]);
    SameHeights(n0.db, r.node.db, main);
    SameHistory(checks, g, r.node.db, n0.db, main);
  }

  lemma RestoredFork(checks: Checks, g: State, n: Node, main: seq<Block>, c: nat)
    requires Linked(main) && c < |main| && n.head.Some?
    requires OnChain(checks, g, n.db, main[..c]) && Irreversible(c) <= Base(n.db, main[..c])
    requires Climb(checks, n, main[c..]).applied == |main| - c
    ensures
      var r := Climb(checks, n, main[c..]).node;
      && r.index == Pruned(n.index, Below(n.head.value.Num(), ForkSizeAt(c + 1))) && r.maxSize == ForkSizeAt(|main|)
      && r.popped == n.popped && r.head == n.head
  {
    hide OnChain, Climb, Base, Below, ForkSizeAt, Pruned, Linked, ChainTo;
    MainIs(checks, g, n.db, main[..c]);
    assert main[..c] + main[c..] == main;
    ClimbIndex(checks, g, n, main[c..]);
    ClimbReplayed(checks, g, n, main[c..]);
  }

  lemma RestoredChain(checks: Checks, g: State, n: Node, main: seq<Block>, c: nat)
    requires Linked(main) && Replay(checks, g, main).Applied? && c <= |main| && n.head.Some?
    requires OnChain(checks, g, n.db, main[..c]) && Base(n.db, main[..c]) == Irreversible(|main|) <= c
    requires n.log == main[..Irreversible(|main|)]
    ensures
      var r := Climb(checks, n, main[c..]);
      && r.applied == |main| - c && r.node.log == n.log
      && OnChain(checks, g, r.node.db, main) && Base(r.node.db, main) == Irreversible(|main|)
  {
    hide OnChain, Climb, Base, Replay, Linked;
    FindableNothing(n.index, n.head.value, main, |n.log|, Irreversible(|main|));
    assert Climbing(checks, g, n, main, c);
    ClimbExact(checks, g, n, main, c);
    var r := Climb(checks, n, main[c..]);
    if c + r.applied < |main| {
      ReplayPrefix(checks, g, main, c + r.applied + 1);
      assert false;
    }
    assert main[..|main|] == main;
  }

  lemma SameHeights(db: History<State>, db': History<State>, main: seq<Block>)
    requires Base(db, main) == Base(db', main)
    ensures |db.saved| == |db'.saved|
  {
  }

  // ---------- The outcome of a switch at rest ----------

  /**
   * A switch to the chain `whole`, one block higher than `main`, from the common parent at height c: h is
   * the height up to which `whole` replays.
   */
  ghost predicate SwitchExactly(checks: Checks, g: State, n: Node, main: seq<Block>, whole: seq<Block>, c: nat, h: nat, r: Pushed)
    requires c < |main| && |whole| == |main| + 1 && c <= h <= |whole|
  {
    var j := h - c;
    if c < Irreversible(|main|) then
      && r.outcome == SwitchStuck && Main(r.node.db) == main[..Irreversible(|main|)] && r.node.db.saved == []
      && r.node.log == n.log && r.node.index == n.index
    else if h == |whole| then
      && r.outcome == Switched && Main(r.node.db) == whole && AtRest(checks, g, r.node)
      && r.node.index == Pruned(n.index, Below(c + 1, ForkSizeAt(c + 1))) && r.node.head == Some(whole[c])
      && r.node.maxSize == ForkSizeAt(|whole|) && r.node.popped == Flatten(main[c..]) + n.popped
    else if j == |main| then
      && r.outcome == RollbackStuck && c == 0 && Main(r.node.db) == whole[..1] && AtRest(checks, g, r.node)
      && r.node.index == FailedIndex(n.index, whole, c, h) && r.node.head == Some(main[0])
      && r.node.popped == Flatten(whole[1..h]) + (Flatten(main[c..]) + n.popped)
    else
      && r.outcome == SwitchRolledBack && r.node == RolledBack(n, main, whole, c, h)
      && (Retained(r.node.index, main, Lowest(|main|)) <==> RollbackKeepsBlocks(|main|, c, j))
  }

  // What a rollback leaves: the state and the log as they were, a fork database that is not.
  function RolledBack(n: Node, main: seq<Block>, whole: seq<Block>, c: nat, h: nat): Node
    requires c < |main| && c <= h < |whole| && h - c < |main|
  {
    n.(index := Pruned(FailedIndex(n.index, whole, c, h), Below(|main| - (h - c), ForkSizeAt(c + 1))),
       head := Some(main[|main| - 1 - (h - c)]),
       maxSize := ForkSizeAt(|main|),
       popped := Flatten(whole[c..h]) + (Flatten(main[c..]) + n.popped))
  }

  // The new branch as far as it went: the node after `h` blocks of `whole`.
  ghost predicate WentUp(checks: Checks, g: State, n: Node, m: Node, main: seq<Block>, whole: seq<Block>, c: nat, h: nat) {
    && c <= h <= |whole| && c < |main| && |whole| == |main| + 1 && Irreversible(|main|) <= c && Linked(whole)
    && h == ReplaysTo(checks, g, whole, c)
    && ClimbEnded(checks, g, m, whole, h, Irreversible(|main|), Irreversible(|main|))
    && m.index == (if h > c then Pruned(n.index, Below(c + 1, ForkSizeAt(c + 1))) else n.index)
    && (h > c ==> m.maxSize == ForkSizeAt(h))
    && m.head == Some(whole[c]) && m.popped == Flatten(main[c..]) + n.popped
  }

  lemma UpEnds(checks: Checks, g: State, n: Node, n1: Node, main: seq<Block>, whole: seq<Block>, c: nat)
    requires Linked(whole) && c < |main| && |whole| == |main| + 1 && Irreversible(|main|) <= c
    requires Climbing(checks, g, n1, whole, c) && |n1.log| == Irreversible(|main|) && Base(n1.db, whole[..c]) == Irreversible(|main|)
    requires n1.index == n.index && n1.head == Some(whole[c]) && n1.popped == Flatten(main[c..]) + n.popped
    ensures
      var r := Climb(checks, n1, whole[c..]);
      WentUp(checks, g, n, r.node, main, whole, c, c + r.applied)
  {
    hide OnChain, Climb, Climbing, Base, Flatten, Replay, Below, ForkSizeAt, Linked, ReplaysTo, Pruned, Irreversible, ClimbEnded;
    ClimbExact(checks, g, n1, whole, c);
    UpEndsFork(checks, g, n1, whole, c);
    var r := Climb(checks, n1, whole[c..]);
    EndedReplays(checks, g, r.node, whole, c, c + r.applied, Irreversible(|main|), Irreversible(|main|));
  }

  lemma EndedReplays(checks: Checks, g: State, m: Node, whole: seq<Block>, c: nat, h: nat, logged: nat, base: int)
    requires ClimbEnded(checks, g, m, whole, h, logged, base) && c <= h
    ensures c <= h <= |whole| && h == ReplaysTo(checks, g, whole, c)
  {
    hide Replay, ReplaysTo, Linked;
    OnChainReplays(checks, g, m.db, whole[..h]);
    ReplaysToIs(checks, g, whole, c, h);
  }

  lemma UpEndsFork(checks: Checks, g: State, n1: Node, whole: seq<Block>, c: nat)
    requires Climbing(checks, g, n1, whole, c) && c < |whole| && n1.head == Some(whole[c])
    ensures
      var r := Climb(checks, n1, whole[c..]);
      && r.node.index == (if r.applied > 0 then Pruned(n1.index, Below(c + 1, ForkSizeAt(c + 1))) else n1.index)
      && (r.applied > 0 ==> r.node.maxSize == ForkSizeAt(c + r.applied))
      && r.node.popped == n1.popped
  {
    hide OnChain, Climb, Base, Findable, Below, ForkSizeAt, Linked, ChainTo, Pruned;
    MainIs(checks, g, n1.db, whole[..c]);
    assert whole[..c] + whole[c..] == whole;
    LinkedAt(whole, c);
    ClimbIndex(checks, g, n1, whole[c..]);
    ClimbReplayed(checks, g, n1, whole[c..]);
  }

  lemma SwitchGoesUp(checks: Checks, g: State, n: Node, main: seq<Block>, whole: seq<Block>, c: nat,
                     first: seq<Block>, second: seq<Block>)
    requires AtRest(checks, g, n) && main == Main(n.db) && Irreversible(|main|) <= c
    requires |whole| == |main| + 1 && second != [] && Traced(n, main, whole, c, first, second)
    ensures
      var p := PopUntil(n, Last(second).previous);
      var r := Climb(checks, p.node, Reversed(first));
      p.ok && WentUp(checks, g, n, r.node, main, whole, c, c + r.applied)
  {
    hide OnChain, Climb, Base, Retained, Findable, Flatten, Descends, Reversed, Linked, UndoTimes, ChainTo, WentUp, Climbing;
    SwitchPops(checks, g, n, main, whole, c, first, second);
    var n1 := Down(n, |main| - c, whole[c], main[c..]);
    UpFromParent(checks, g, n, n1, main, whole, c, first, second);
    assert whole[c..] == Reversed(first) && whole[..c] == main[..c];
    UpEnds(checks, g, n, n1, main, whole, c);
  }

  lemma SwitchedAtRest(checks: Checks, g: State, n: Node, m: Node, main: seq<Block>, whole: seq<Block>, c: nat)
    requires WentUp(checks, g, n, m, main, whole, c, |whole|) && whole[..c] == main[..c]
    requires Retained(n.index, main, Lowest(|main|)) && forall k :: c <= k < |whole| ==> whole[k] in n.index
    ensures Main(m.db) == whole && AtRest(checks, g, m)
  {
    hide OnChain, ReplaysTo, ChainTo, Flatten;
    assert whole[..|whole|] == whole;
    MainIs(checks, g, m.db, whole);
    forall k | 0 <= k < |whole| && Lowest(|main|) <= k + 1 ensures whole[k] in n.index {
      if k < c {
        assert whole[k] == main[..c][k] == main[k];
      }
    }
    PrunedRetains(n.index, whole, Lowest(|whole|), Below(c + 1, ForkSizeAt(c + 1)));
  }

  // The failed part of the new branch holds no block of the old chain.
  lemma FailedPart(checks: Checks, g: State, n: Node, main: seq<Block>, whole: seq<Block>, c: nat, h: nat)
    requires Linked(main) && Linked(whole) && c < |main| && |whole| == |main| + 1 && c <= h < |whole| && whole[..c] == main[..c]
    requires Replay(checks, g, main).Applied? && h == ReplaysTo(checks, g, whole, c) && Replay(checks, g, whole[..h + 1]).Threw?
    ensures forall i :: h <= i < |whole| ==> whole[i] !in main
  {
    hide Replay, ReplaysTo;
    forall i | h <= i < |whole| ensures whole[i] !in main {
      if whole[i] in main {
        var k :| 0 <= k < |main| && main[k] == whole[i];
        SharedBelow(main, k, whole, i);
        assert whole[..h + 1] == whole[..i + 1][..h + 1];
        assert main[..h + 1] == main[..k + 1][..h + 1];
        ReplayPrefix(checks, g, main, h + 1);
        assert false;
      }
    }
  }

  lemma {:induction false} ReplaysNoFurther(checks: Checks, g: State, chain: seq<Block>, height: nat)
    requires height <= |chain| && ReplaysTo(checks, g, chain, height) < |chain|
    ensures Replay(checks, g, chain[..ReplaysTo(checks, g, chain, height) + 1]).Threw?
    decreases |chain| - height
  {
    hide Replay;
    if Replay(checks, g, chain[..height + 1]).Applied? {
      ReplaysNoFurther(checks, g, chain, height + 1);
    }
  }

  lemma RollbackBegins(checks: Checks, g: State, n: Node, m: Node, main: seq<Block>, whole: seq<Block>, c: nat, h: nat)
    requires AtRest(checks, g, n) && main == Main(n.db) && WentUp(checks, g, n, m, main, whole, c, h) && h < |whole|
    requires whole[..c] == main[..c] && forall k :: c <= k < |whole| ==> whole[k] in n.index
    ensures
      var n1 := m.(index := m.index - Blocks(whole[h..]), head := Some(Last(main)));
      && n1.index == FailedIndex(n.index, whole, c, h) && n1.log == n.log
      && Failed(checks, g, n1, main, whole, c, h)
  {
    hide OnChain, ReplaysTo, ChainTo, Flatten, Replay, Retained, Below, ForkSizeAt, Pruned, Blocks, Base, Linked;
    MainIs(checks, g, n.db, main);
    OnChainReplays(checks, g, n.db, main);
    ReplaysNoFurther(checks, g, whole, c);
    FailedPart(checks, g, n, main, whole, c, h);
    FailedIndexKeeps(n.index, main, whole, c, h);
    assert whole[..c][..Irreversible(|main|)] == whole[..Irreversible(|main|)];
    assert main[..c][..Irreversible(|main|)] == main[..Irreversible(|main|)];
  }

  lemma RolledBackExactly(checks: Checks, g: State, n: Node, m: Node, main: seq<Block>, whole: seq<Block>, c: nat, h: nat,
                          first: seq<Block>, second: seq<Block>)
    requires AtRest(checks, g, n) && main == Main(n.db) && WentUp(checks, g, n, m, main, whole, c, h) && h < |whole|
    requires second != [] && Traced(n, main, whole, c, first, second) && h - c < |main|
    ensures
      var r := Rollback(checks, m, first, second, h - c);
      && r == Pushed(SwitchRolledBack, RolledBack(n, main, whole, c, h))
      && (Retained(r.node.index, main, Lowest(|main|)) <==> RollbackKeepsBlocks(|main|, c, h - c))
  {
    var n1 := m.(index := m.index - Blocks(whole[h..]), head := Some(Last(main)));
    RollbackBegins(checks, g, n, m, main, whole, c, h);
    RollbackUnfold(checks, n, m, main, whole, c, h, first, second);
    SamePopped(checks, g, n, m, main, whole, c, h);
    RestFacts(checks, g, n);
    hide *;
    PoppedAndRestored(checks, g, n, n1, main, whole, c, h);
    RetainedRolledBack(checks, g, n, n1, main, whole, c, h);
  }

  lemma SamePopped(checks: Checks, g: State, n: Node, m: Node, main: seq<Block>, whole: seq<Block>, c: nat, h: nat)
    requires WentUp(checks, g, n, m, main, whole, c, h)
    ensures m.popped == Flatten(main[c..]) + n.popped
  {
  }

  lemma RetainedRolledBack(checks: Checks, g: State, n: Node, n1: Node, main: seq<Block>, whole: seq<Block>, c: nat, h: nat)
    requires Failed(checks, g, n1, main, whole, c, h) && h - c < |main| && n1.index == FailedIndex(n.index, whole, c, h)
    ensures Retained(RolledBack(n, main, whole, c, h).index, main, Lowest(|main|)) <==> RollbackKeepsBlocks(|main|, c, h - c)
  {
    RetainedAfter(n1.index, main, c, h - c);
  }

  lemma RollbackUnfold(checks: Checks, n: Node, m: Node, main: seq<Block>, whole: seq<Block>, c: nat, h: nat,
                       first: seq<Block>, second: seq<Block>)
    requires second != [] && Traced(n, main, whole, c, first, second) && c <= h < |whole|
    ensures
      var n1 := m.(index := m.index - Blocks(whole[h..]), head := Some(Last(main)));
      var p := PopUntil(n1, HeadId(main[..c]));
      Rollback(checks, m, first, second, h - c) ==
        if !p.ok then Pushed(RollbackStuck, p.node)
        else
          var r := Climb(checks, p.node, main[c..]);
          Pushed(if r.applied == |main| - c then SwitchRolledBack else RestoreFailed, r.node)
  {
    hide Climb, PopUntil, Blocks, Descends, Linked, Reversed;
    assert Reversed(first)[h - c..] == whole[h..];
  }

  // From the start of the rollback to its end.
  lemma PoppedAndRestored(checks: Checks, g: State, n: Node, n1: Node, main: seq<Block>, whole: seq<Block>, c: nat, h: nat)
    requires AtRest(checks, g, n) && main == Main(n.db) && Failed(checks, g, n1, main, whole, c, h) && h - c < |main|
    requires n1.index == FailedIndex(n.index, whole, c, h) && n1.log == n.log && n1.popped == Flatten(main[c..]) + n.popped
    ensures
      var p := PopUntil(n1, HeadId(main[..c]));
      var r := Climb(checks, p.node, main[c..]);
      p.ok && r.applied == |main| - c && r.node == RolledBack(n, main, whole, c, h)
  {
    FailedFacts(checks, g, n1, main, whole, c, h);
    RollbackPops(checks, g, n1, main, whole, c, h);
    var n2 := Down(n1, h - c, main[|main| - 1 - (h - c)], whole[c..h]);
    PoppedRestorable(checks, g, n, n1, n2, main, whole, c, h);
    hide *;
    Restored(checks, g, n2, n, main, c, h - c);
    RolledBackIs(n, n1, n2, Climb(checks, n2, main[c..]).node, main, whole, c, h);
  }

  lemma PoppedRestorable(checks: Checks, g: State, n: Node, n1: Node, n2: Node, main: seq<Block>, whole: seq<Block>, c: nat, h: nat)
    requires AtRest(checks, g, n) && main == Main(n.db) && c < |main| && c <= h < |whole| && h - c < |main|
    requires Irreversible(|main|) <= c && n1.log == n.log
    requires n2 == Down(n1, h - c, main[|main| - 1 - (h - c)], whole[c..h])
    requires OnChain(checks, g, n2.db, main[..c]) && Base(n2.db, main[..c]) == Irreversible(|main|)
    ensures Restorable(checks, g, n2, n, main, c, h - c)
  {
    RestFacts(checks, g, n);
    hide OnChain, Flatten, Base, UndoTimes, Linked, Replay, Main, AtRest, Irreversible;
  }

  lemma RolledBackIs(n: Node, n1: Node, n2: Node, r: Node, main: seq<Block>, whole: seq<Block>, c: nat, h: nat)
    requires c < |main| && c <= h < |whole| && h - c < |main|
    requires n1.index == FailedIndex(n.index, whole, c, h) && n1.log == n.log && n1.popped == Flatten(main[c..]) + n.popped
    requires n2 == Down(n1, h - c, main[|main| - 1 - (h - c)], whole[c..h])
    requires r == n2.(db := n.db, index := Pruned(n2.index, Below(|main| - (h - c), ForkSizeAt(c + 1))), maxSize := ForkSizeAt(|main|))
    ensures r == RolledBack(n, main, whole, c, h)
  {
    hide Flatten, Pruned, Below, ForkSizeAt, FailedIndex, UndoTimes;
  }

  lemma FailedFacts(checks: Checks, g: State, n: Node, main: seq<Block>, whole: seq<Block>, c: nat, h: nat)
    requires Failed(checks, g, n, main, whole, c, h)
    ensures c < |main| && c <= h < |whole| == |main| + 1 && Irreversible(|main|) <= c
  {
  }

  lemma RestFacts(checks: Checks, g: State, n: Node)
    requires AtRest(checks, g, n)
    ensures
      var main := Main(n.db);
      && OnChain(checks, g, n.db, main) && Base(n.db, main) == Irreversible(|main|) && Linked(main)
      && Replay(checks, g, main).Applied? && Irreversible(|main|) <= |main| && n.log == main[..Irreversible(|main|)]
  {
  }

  lemma RetainedAfter(index: Index, main: seq<Block>, c: nat, j: nat)
    requires Linked(main) && Retained(index, main, Lowest(|main|)) && c < |main| && j < |main| && Irreversible(|main|) <= c
    ensures Retained(Pruned(index, Below(|main| - j, ForkSizeAt(c + 1))), main, Lowest(|main|)) <==> RollbackKeepsBlocks(|main|, c, j)
  {
    var bound := Below(|main| - j, ForkSizeAt(c + 1));
    if bound <= Lowest(|main|) {
      PrunedRetains(index, main, Lowest(|main|), bound);
    } else {
      PrunedLoses(index, main, Lowest(|main|), bound);
    }
  }

  lemma StuckExactly(checks: Checks, g: State, n: Node, m: Node, main: seq<Block>, whole: seq<Block>, c: nat, h: nat,
                     first: seq<Block>, second: seq<Block>)
    requires AtRest(checks, g, n) && main == Main(n.db) && WentUp(checks, g, n, m, main, whole, c, h) && h < |whole|
    requires second != [] && Traced(n, main, whole, c, first, second) && h - c == |main|
    ensures SwitchExactly(checks, g, n, main, whole, c, h, Rollback(checks, m, first, second, h - c))
  {
    var n1 := m.(index := m.index - Blocks(whole[h..]), head := Some(Last(main)));
    RollbackBegins(checks, g, n, m, main, whole, c, h);
    RollbackUnfold(checks, n, m, main, whole, c, h, first, second);
    SamePopped(checks, g, n, m, main, whole, c, h);
    StuckAtRest(checks, g, n, n1, main, whole, c, h);
    hide OnChain, ReplaysTo, ChainTo, Flatten, Replay, Pruned, Blocks, Linked, Rollback, Reversed, Descends, Climb, PopUntil, UndoTimes, FailedIndex, AtRest, Main;
  }

  lemma StuckAtRest(checks: Checks, g: State, n: Node, n1: Node, main: seq<Block>, whole: seq<Block>, c: nat, h: nat)
    requires AtRest(checks, g, n) && main == Main(n.db) && Failed(checks, g, n1, main, whole, c, h) && h - c == |main|
    requires n1.log == n.log
    ensures
      var p := PopUntil(n1, HeadId(main[..c]));
      && c == 0 && !p.ok && Main(p.node.db) == whole[..1] && AtRest(checks, g, p.node)
      && p.node.index == n1.index && p.node.head == Some(main[0]) && p.node.popped == Flatten(whole[1..h]) + n1.popped
  {
    hide OnChain, ReplaysTo, ChainTo, Flatten, Replay, Pruned, Linked, PopUntil, UndoTimes, FailedIndex;
    RollbackPopsStuck(checks, g, n1, main, whole, c, h);
    var n2 := Down(n1, h - 1, main[0], whole[1..h]);
    MainIs(checks, g, n2.db, whole[..1]);
    assert whole[..1][0] == whole[0] && whole[0] in n1.index;
    assert n2.log == [] == whole[..1][..0];
  }

  // What a switch does to a node at rest, when the fork is one block higher than the chain.
  lemma SwitchAtRest(checks: Checks, g: State, n: Node, newBlock: Block)
    requires AtRest(checks, g, n) && n.head == Some(newBlock) && newBlock.Num() == |Main(n.db)| + 1
    requires BranchFrom(n.index, newBlock.Id(), n.db.current.headId).Branches?
    ensures
      var main, whole := Main(n.db), ChainTo(newBlock.Id());
      var r := BranchFrom(n.index, newBlock.Id(), n.db.current.headId);
      && |r.second| <= |main| && |whole| == |main| + 1
      && var c := |main| - |r.second|;
         SwitchExactly(checks, g, n, main, whole, c, ReplaysTo(checks, g, whole, c), Switch(checks, n, r.first, r.second))
  {
    hide OnChain, ReplaysTo, ChainTo, Flatten, Replay, Below, ForkSizeAt, Pruned, Blocks, Linked, Reversed, Descends, Climb, PopUntil, UndoTimes, FailedIndex, BranchFrom, Rollback, Retained, Lowest;
    var main, whole := Main(n.db), ChainTo(newBlock.Id());
    var r := BranchFrom(n.index, newBlock.Id(), n.db.current.headId);
    TracedBranches(checks, g, n, newBlock);
    var c := |main| - |r.second|;
    if c < Irreversible(|main|) {
      SwitchPopsStuck(checks, g, n, main, whole, c, r.first, r.second);
      MainIs(checks, g, PopUntil(n, Last(r.second).previous).node.db, main[..Irreversible(|main|)]);
    } else {
      SwitchGoesUp(checks, g, n, main, whole, c, r.first, r.second);
      var p := PopUntil(n, Last(r.second).previous);
      var m := Climb(checks, p.node, Reversed(r.first));
      var h := c + m.applied;
      if h == |whole| {
        SwitchedAtRest(checks, g, n, m.node, main, whole, c);
      } else if h - c == |main| {
        StuckExactly(checks, g, n, m.node, main, whole, c, h, r.first, r.second);
      } else {
        RolledBackExactly(checks, g, n, m.node, main, whole, c, h, r.first, r.second);
      }
    }
  }
}
