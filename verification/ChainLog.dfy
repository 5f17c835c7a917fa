/**
 * The block log is a prefix of the main chain as long as the fork database has no gap in that chain:
 * it holds every block of the chain that is as high as its lowest item or higher.
 */
module ChainLog {
  import opened Undo
  import opened Common
  import opened ChainTypes
  import opened ChainState
  import opened ForkTree
  import opened ForkDatabase
  import opened MainChain
  import opened ChainNode
  import opened ChainSafety

  ghost predicate NoGap(index: Index, chain: seq<Block>) {
    forall x, k :: x in index && x.Num() - 1 <= k < |chain| ==> chain[k] in index
  }

  // The log holds as many blocks as are irreversible, and no more than cannot be undone.
  ghost predicate Levels(n: Node, main: seq<Block>) {
    Irreversible(|main|) <= |n.log| <= Base(n.db, main)
  }

  // The log holds all irreversible blocks of the chain, and none that can still be undone.
  ghost predicate Logged(n: Node, main: seq<Block>) {
    n.log <= main && Levels(n, main)
  }

  ghost predicate Consistent(checks: Checks, g: State, n: Node) {
    && Replayed(checks, g, n.db)
    && Logged(n, Main(n.db))
    && NoGap(n.index, Main(n.db))
    && (n.head.None? ==> Main(n.db) == [])
  }

  lemma NoGapPrefix(index: Index, chain: seq<Block>, shorter: seq<Block>)
    requires NoGap(index, chain) && shorter <= chain
    ensures NoGap(index, shorter)
  {
    forall x, k | x in index && x.Num() - 1 <= k < |shorter| ensures shorter[k] in index {
      assert chain[k] in index;
    }
  }

  lemma NoGapPruned(index: Index, chain: seq<Block>, bound: nat)
    requires NoGap(index, chain) && Linked(chain)
    ensures NoGap(Pruned(index, bound), chain)
  {
    forall x, k | x in Pruned(index, bound) && x.Num() - 1 <= k < |chain| ensures chain[k] in Pruned(index, bound) {
      LinkedNumbers(chain, k);
    }
  }

  lemma NoGapAppended(index: Index, chain: seq<Block>, more: seq<Block>)
    requires NoGap(index, chain) && forall b :: b in more ==> b in index
    ensures NoGap(index, chain + more)
  {
    var all := chain + more;
    forall x, k | x in index && x.Num() - 1 <= k < |all| ensures all[k] in index {
      if k >= |chain| {
        assert all[k] in more;
      }
    }
  }

  // The blocks below the head are those of the chain.
  ghost predicate HeadOn(head: Block, main: seq<Block>) {
    forall x :: Ancestor(x, head) && 1 <= x.Num() <= |main| ==> main[x.Num() - 1] == x
  }

  lemma HeadBelow(head: Block, chain: seq<Block>)
    requires Linked(chain) && chain != [] && Ancestor(head, Last(chain))
    ensures HeadOn(head, chain)
  {
    forall x | Ancestor(x, head) && 1 <= x.Num() <= |chain| ensures chain[x.Num() - 1] == x {
      AncestorTransitive(x, head, Last(chain));
      AncestorOnChain(chain, |chain| - 1, x);
    }
  }

  lemma HeadIsChild(head: Block, main: seq<Block>)
    requires Linked(main) && head.previous == HeadId(main)
    ensures HeadOn(head, main)
  {
    HeadNumber(main);
    forall x | Ancestor(x, head) && 1 <= x.Num() <= |main| ensures main[x.Num() - 1] == x {
      if x != head {
        AncestorOnChain(main, |main| - 1, x);
      }
    }
  }

  // While there is no gap, whatever is found for the log is the chain's block.
  lemma {:induction false} GrowLogOnChain(index: Index, head: Block, log: seq<Block>, upTo: nat, main: seq<Block>)
    requires Linked(main) && NoGap(index, main) && HeadOn(head, main)
    requires log <= main && upTo <= |main|
    ensures
      var grown := GrowLog(index, head, log, upTo);
      && grown.log <= main && |log| <= |grown.log| <= (if upTo > |log| then upTo else |log|)
      && (grown.complete ==> upTo <= |grown.log|)
    decreases upTo - |log|
  {
    hide OnMainBranch, Ancestor;
    var found := OnMainBranch(index, head, |log| + 1);
    if upTo > |log| && found.Some? {
      var b := found.value;
      OnMainBranchFound(index, head, |log| + 1);
      LinkedNumbers(main, |log|);
      if b in index && AtNumber(index, |log| + 1) == {b} {
        assert main[|log|] in AtNumber(index, |log| + 1);
      }
      assert b == main[|log|];
      GrowLogOnChain(index, head, log + [b], upTo, main);
    }
  }

  // ---------- Applying ----------

  lemma TryApplyNoGap(checks: Checks, n: Node, b: Block, chain: seq<Block>)
    requires n.head.Some? && NoGap(n.index, chain) && Linked(chain)
    ensures NoGap(TryApply(checks, n, b).node.index, chain)
  {
    hide NoGap, ExecuteBlock, GrowLog, Pruned, FinishBlock, WithIrreversible, WithSummary, WithoutExpired, Linked, ForkSize, Below;
    hide History.Commit, History.UndoTop, History.StartSession;
    forall bound: nat ensures NoGap(Pruned(n.index, bound), chain) {
      NoGapPruned(n.index, chain, bound);
    }
  }

  lemma {:induction false} ClimbNoGap(checks: Checks, n: Node, blocks: seq<Block>, chain: seq<Block>)
    requires n.head.Some? && NoGap(n.index, chain) && Linked(chain)
    ensures NoGap(Climb(checks, n, blocks).node.index, chain)
    decreases |blocks|
  {
    hide NoGap, TryApply, Linked;
    if blocks != [] {
      TryApplyNoGap(checks, n, blocks[0], chain);
      if TryApply(checks, n, blocks[0]).ok {
        ClimbNoGap(checks, TryApply(checks, n, blocks[0]).node, blocks[1..], chain);
      }
    }
  }

  lemma TryApplyLogged(checks: Checks, g: State, n: Node, main: seq<Block>, b: Block)
    requires n.head.Some? && OnChain(checks, g, n.db, main) && b.previous == HeadId(main)
    requires Logged(n, main) && NoGap(n.index, main) && HeadOn(n.head.value, main)
    ensures
      var a := TryApply(checks, n, b);
      Logged(a.node, if a.ok then main + [b] else main)
  {
    hide OnChain, ExecuteBlock, WithIrreversible, GrowLog, Pruned, TryApply, FinishBlock, AfterApply, NoGap, HeadOn, Linked, HeadId, Base, History.Commit;
    MainIs(checks, g, n.db, main);
    HeadNumber(main);
    TryApplyIs(checks, n, b);
    TryApplyOnChain(checks, g, n, main, b);
    var r := ExecuteBlock(checks, n.db.current, b);
    if r.Applied? {
      var s := WithIrreversible(r.state);
      ExecutedHead(checks, n.db.current, b);
      OnChainRevision(checks, g, n.db, main);
      GrowLogOnChain(n.index, n.head.value, n.log, s.lastIrreversible, main);
      CommitOnChain(checks, g, n.db, main, s.lastIrreversible);
    }
  }

  lemma HeadOnPrefix(head: Block, chain: seq<Block>, shorter: seq<Block>)
    requires HeadOn(head, chain) && shorter <= chain
    ensures HeadOn(head, shorter)
  {
    forall x | Ancestor(x, head) && 1 <= x.Num() <= |shorter| ensures shorter[x.Num() - 1] == x {
      assert chain[x.Num() - 1] == x;
    }
  }

  // Going up `whole`, the log stays a prefix of what has been applied.
  lemma {:induction false} ClimbLogged(checks: Checks, g: State, n: Node, blocks: seq<Block>, whole: seq<Block>)
    requires n.head.Some? && Replayed(checks, g, n.db) && Linked(whole) && whole == Main(n.db) + blocks
    requires Logged(n, Main(n.db)) && NoGap(n.index, whole) && HeadOn(n.head.value, whole)
    ensures
      var c := Climb(checks, n, blocks);
      Logged(c.node, Main(c.node.db))
    decreases |blocks|
  {
    hide OnChain, TryApply, Linked, ChainTo, HeadId, NoGap, HeadOn, Logged, Base;
    var main := Main(n.db);
    MainIs(checks, g, n.db, main);
    if blocks != [] {
      var b := blocks[0];
      var a := TryApply(checks, n, b);
      LinkedAt(whole, |main|);
      assert whole[..|main|] == main;
      assert main + [b] + blocks[1..] == whole;
      NoGapPrefix(n.index, whole, main);
      HeadOnPrefix(n.head.value, whole, main);
      TryApplyOnChain(checks, g, n, main, b);
      TryApplyLogged(checks, g, n, main, b);
      MainIs(checks, g, a.node.db, if a.ok then main + [b] else main);
      if a.ok {
        TryApplyNoGap(checks, n, b, whole);
        assert Replayed(checks, g, a.node.db) by {
          StandsHigher(n.db, a.node.db, main, b);
        }
        ClimbLogged(checks, g, a.node, blocks[1..], whole);
      }
    }
  }

  lemma StandsHigher(db: History<State>, db': History<State>, main: seq<Block>, b: Block)
    requires
      var base := Base(db, main);
      Base(db', main + [b]) == if Irreversible(|main| + 1) > base then Irreversible(|main| + 1) else base
    ensures Irreversible(|main + [b]|) <= Base(db', main + [b])
  {
  }

  // Blocks of a chain that replays apply again, once the log holds what they make irreversible.
  lemma {:induction false} ClimbRetraces(checks: Checks, g: State, n: Node, blocks: seq<Block>, chain: seq<Block>, t: nat)
    requires n.head.Some? && Replayed(checks, g, n.db) && Linked(chain) && Replay(checks, g, chain).Applied?
    requires t <= |blocks| && Main(n.db) + blocks[..t] <= chain && Irreversible(|chain|) <= |n.log|
    ensures Climb(checks, n, blocks).applied >= t
    decreases |blocks|
  {
    hide OnChain, TryApply, Linked, ChainTo, HeadId, Base, ExecuteBlock, ApplyBlock, Replay;
    if t > 0 {
      var main, b := Main(n.db), blocks[0];
      MainIs(checks, g, n.db, main);
      assert blocks[..t][0] == b && main + blocks[..t] == main + [b] + blocks[1..][..t - 1];
      assert chain[..|main|] == main && chain[|main|] == b;
      LinkedAt(chain, |main|);
      NextApplies(checks, g, n.db, chain, |main|);
      ExecutedApplies(checks, n.db.current, b);
      ExecutedHead(checks, n.db.current, b);
      TryApplyIs(checks, n, b);
      TryApplyOnChain(checks, g, n, main, b);
      var a := TryApply(checks, n, b);
      StandsHigher(n.db, a.node.db, main, b);
      MainIs(checks, g, a.node.db, main + [b]);
      ClimbRetraces(checks, g, a.node, blocks[1..], chain, t - 1);
    }
  }

  // ---------- Popping ----------

  lemma UndoBase(checks: Checks, g: State, db: History<State>)
    requires Replayed(checks, g, db)
    ensures Base(db.UndoTop(), Main(db.UndoTop())) == Base(db, Main(db))
  {
    UndoReplayed(checks, g, db);
  }

  lemma {:induction false} PopsLevel(checks: Checks, g: State, n: Node, stop: BlockId)
    requires Replayed(checks, g, n.db) && Levels(n, Main(n.db))
    ensures Levels(PopUntil(n, stop).node, Main(PopUntil(n, stop).node.db))
    decreases if n.head.Some? then n.head.value.Num() + 1 else 0
  {
    hide OnChain, ChainTo, History.UndoTop, Base;
    if n.db.current.headId != stop && PopOnce(n).Some? {
      var n1 := PopOnce(n).value;
      UndoReplayed(checks, g, n.db);
      UndoBase(checks, g, n.db);
      MainIs(checks, g, n.db, Main(n.db));
      MainIs(checks, g, n1.db, Main(n1.db));
      OnChainRevision(checks, g, n1.db, Main(n1.db));
      PopsLevel(checks, g, n1, stop);
    }
  }

  lemma PopsLogged(checks: Checks, g: State, n: Node, stop: BlockId)
    requires Replayed(checks, g, n.db) && Logged(n, Main(n.db))
    ensures Logged(PopUntil(n, stop).node, Main(PopUntil(n, stop).node.db))
  {
    hide OnChain, ChainTo, PopUntil;
    PopsLevel(checks, g, n, stop);
    PopsReplayed(checks, g, n, stop);
  }

  lemma {:induction false} PopsHead(n: Node, stop: BlockId)
    requires n.head.Some?
    ensures Ancestor(PopUntil(n, stop).node.head.value, n.head.value)
    decreases n.head.value.Num()
  {
    if n.db.current.headId != stop && PopOnce(n).Some? {
      var n1 := PopOnce(n).value;
      PopsHead(n1, stop);
      assert Ancestor(n1.head.value, n.head.value);
      AncestorTransitive(PopUntil(n1, stop).node.head.value, n1.head.value, n.head.value);
    }
  }

  // ---------- Switching ----------

  lemma BranchLogged(checks: Checks, g: State, n: Node, index: Index, xs: seq<Block>)
    requires n.head.Some? && Replayed(checks, g, n.db)
    requires xs != [] && Descends(index, xs) && Last(xs).previous == n.db.current.headId
    requires Logged(n, Main(n.db)) && NoGap(n.index, ChainTo(xs[0].Id())) && Ancestor(n.head.value, xs[0])
    ensures
      var c := Climb(checks, n, Reversed(xs));
      && Logged(c.node, Main(c.node.db)) && NoGap(c.node.index, ChainTo(xs[0].Id()))
      && Linked(ChainTo(xs[0].Id())) && ChainTo(xs[0].Id()) == Main(n.db) + Reversed(xs)
      && Replayed(checks, g, c.node.db) && Main(c.node.db) == Main(n.db) + Reversed(xs)[..c.applied]
      && |n.log| <= |c.node.log|
  {
    hide OnChain, Climb, Descends, ChainTo, NoGap, HeadOn, Logged, Base, Ancestor;
    var main, whole := Main(n.db), Main(n.db) + Reversed(xs);
    MainIs(checks, g, n.db, main);
    ForkedChain(index, main, xs);
    LinkedIsChainTo(whole);
    assert Last(whole) == xs[0];
    HeadBelow(n.head.value, whole);
    ClimbReplayed(checks, g, n, Reversed(xs));
    ClimbLogged(checks, g, n, Reversed(xs), whole);
    ClimbNoGap(checks, n, Reversed(xs), whole);
  }

  // A switch never forgets a block of the main chain as failed: what the two chains share applies again.
  lemma FailedNotOnMain(checks: Checks, g: State, n: Node, up: seq<Block>, main: seq<Block>, i: nat)
    requires n.head.Some? && Replayed(checks, g, n.db) && Linked(main) && Replay(checks, g, main).Applied?
    requires Irreversible(|main|) <= |n.log| && Linked(Main(n.db) + up)
    requires Climb(checks, n, up).applied <= i < |up|
    ensures up[i] !in main
  {
    hide Climb, OnChain, ChainTo, Replay, Base, Linked, Main;
    var whole, c := Main(n.db) + up, |Main(n.db)|;
    if up[i] in main {
      var k :| 0 <= k < |main| && main[k] == up[i];
      assert whole[c + i] == up[i];
      SharedBelow(main, k, whole, c + i);
      PartOfSum(Main(n.db), up, i + 1);
      ClimbRetraces(checks, g, n, up, main, i + 1);
      assert false;
    }
  }

  lemma NoGapErased(index: Index, gone: Index, chain: seq<Block>)
    requires NoGap(index, chain) && forall b :: b in chain ==> b !in gone
    ensures NoGap(index - gone, chain)
  {
    forall x, k | x in index - gone && x.Num() - 1 <= k < |chain| ensures chain[k] in index - gone {
      assert chain[k] in chain;
    }
  }

  lemma HigherBlocks(whole: seq<Block>, c: nat)
    requires Linked(whole) && c <= |whole|
    ensures forall b :: b in whole[..c] ==> b !in Blocks(whole[c..])
  {
    forall b | b in whole[..c] ensures b !in Blocks(whole[c..]) {
      var i :| 0 <= i < c && whole[i] == b;
      LinkedNumbers(whole, i);
      if b in whole[c..] {
        var k :| 0 <= k < |whole| - c && whole[c..][k] == b;
        LinkedNumbers(whole, c + k);
      }
    }
  }

  lemma BranchIndexed(n: Node, newBlock: Block, first: seq<Block>, second: seq<Block>)
    requires Forked(n, newBlock, first, second)
    ensures forall b :: b in Reversed(first) ==> b in n.index
  {
    forall b | b in Reversed(first) ensures b in n.index {
      var i :| 0 <= i < |first| && Reversed(first)[i] == b;
      DescendsInIndex(n.index, first, |first| - 1 - i);
    }
  }

  // The new branch has been climbed as far as it applies; the rest of it is not on the old chain.
  lemma ClimbConsistent(checks: Checks, g: State, n: Node, newBlock: Block, first: seq<Block>, second: seq<Block>)
    requires Consistent(checks, g, n) && Forked(n, newBlock, first, second)
    requires PopUntil(n, Last(second).previous).ok
    ensures
      var p := PopUntil(n, Last(second).previous).node;
      var c := Climb(checks, p, Reversed(first));
      var index1 := c.node.index - Blocks(Reversed(first)[c.applied..]);
      && Replayed(checks, g, c.node.db) && Logged(c.node, Main(c.node.db)) && |n.log| <= |c.node.log|
      && NoGap(c.node.index, Main(c.node.db)) && NoGap(index1, Main(c.node.db)) && NoGap(index1, Main(n.db))
  {
    hide OnChain, Climb, Descends, ChainTo, HeadOn, Logged, PopUntil, Base, Ancestor, NoGap, Linked, Reversed, Replay;
    var main, p := Main(n.db), PopUntil(n, Last(second).previous).node;
    PopsReplayed(checks, g, n, Last(second).previous);
    PopsLogged(checks, g, n, Last(second).previous);
    PopsHead(n, Last(second).previous);
    MainIs(checks, g, n.db, main);
    MainIs(checks, g, p.db, Main(p.db));
    var up := Reversed(first);
    var c := Climb(checks, p, up);
    assert NoGap(p.index, ChainTo(first[0].Id())) by {
      NoGapPrefix(n.index, main, Main(p.db));
      BranchIndexed(n, newBlock, first, second);
      NoGapAppended(n.index, Main(p.db), up);
      ForkedChain(n.index, Main(p.db), first);
      LinkedIsChainTo(Main(p.db) + up);
      assert Last(Main(p.db) + up) == first[0];
    }
    BranchLogged(checks, g, p, n.index, first);
    ClimbNoGap(checks, p, up, main);
    var whole := Main(p.db) + up;
    var done := |Main(p.db)| + c.applied;
    assert Main(c.node.db) == whole[..done] && up[c.applied..] == whole[done..];
    NoGapPrefix(c.node.index, whole, Main(c.node.db));
    HigherBlocks(whole, done);
    NoGapErased(c.node.index, Blocks(up[c.applied..]), Main(c.node.db));
    OnChainReplays(checks, g, n.db, main);
    LoggedEnough(n, p, main);
    forall b | b in main ensures b !in Blocks(up[c.applied..]) {
      if b in up[c.applied..] {
        var i :| 0 <= i < |up| - c.applied && up[c.applied..][i] == b;
        FailedNotOnMain(checks, g, p, up, main, c.applied + i);
      }
    }
    NoGapErased(c.node.index, Blocks(up[c.applied..]), main);
  }

  lemma OnChainReplays(checks: Checks, g: State, db: History<State>, main: seq<Block>)
    requires OnChain(checks, g, db, main)
    ensures Replay(checks, g, main).Applied? && Linked(main)
  {
  }

  lemma LoggedEnough(n: Node, p: Node, main: seq<Block>)
    requires Logged(n, main) && p.log == n.log
    ensures Irreversible(|main|) <= |p.log|
  {
  }

  lemma SwitchKeepsLog(checks: Checks, g: State, n: Node, newBlock: Block, first: seq<Block>, second: seq<Block>)
    requires Consistent(checks, g, n) && Forked(n, newBlock, first, second)
    ensures
      var r := Switch(checks, n, first, second);
      Consistent(checks, g, r.node) && !r.outcome.RestoreFailed?
  {
    hide Replayed, Climb, Descends, Main, PopUntil, ChainTo, NoGap, Logged, Ancestor, Reversed;
    var p := PopUntil(n, Last(second).previous);
    PopsReplayed(checks, g, n, Last(second).previous);
    PopsLogged(checks, g, n, Last(second).previous);
    if !p.ok {
      NoGapPrefix(n.index, Main(n.db), Main(p.node.db));
    } else {
      ClimbConsistent(checks, g, n, newBlock, first, second);
      var c := Climb(checks, p.node, Reversed(first));
      if c.applied < |first| {
        var n1 := c.node.(index := c.node.index - Blocks(Reversed(first)[c.applied..]), head := Some(second[0]));
        SameLogged(c.node, n1, Main(n1.db));
        RollbackKeepsLog(checks, g, n, n1, second);
      }
    }
  }

  lemma SameLogged(n: Node, n1: Node, main: seq<Block>)
    requires Logged(n, main) && n1.log == n.log && n1.db == n.db
    ensures Logged(n1, main)
  {
  }

  lemma RollbackKeepsLog(checks: Checks, g: State, n: Node, n1: Node, second: seq<Block>)
    requires Consistent(checks, g, n) && second != [] && Descends(n.index, second) && second[0].Id() == n.db.current.headId
    requires Replayed(checks, g, n1.db) && Logged(n1, Main(n1.db)) && |n.log| <= |n1.log| && n1.head == Some(second[0])
    requires NoGap(n1.index, Main(n1.db)) && NoGap(n1.index, Main(n.db))
    ensures
      var p := PopUntil(n1, Last(second).previous);
      var c := Climb(checks, p.node, Reversed(second));
      && (!p.ok ==> Consistent(checks, g, p.node))
      && (p.ok ==> Consistent(checks, g, c.node) && c.applied == |second|)
  {
    hide OnChain, Climb, Descends, PopUntil, ChainTo, NoGap, Logged, Ancestor, Reversed, Base, Linked;
    var main := Main(n.db);
    var p := PopUntil(n1, Last(second).previous);
    PopsReplayed(checks, g, n1, Last(second).previous);
    PopsLogged(checks, g, n1, Last(second).previous);
    PopsHead(n1, Last(second).previous);
    if !p.ok {
      NoGapPrefix(n1.index, Main(n1.db), Main(p.node.db));
    } else {
      MainOfHead(n.db, second[0]);
      BranchLogged(checks, g, p.node, n.index, second);
      BranchApplied(checks, g, p.node, n.index, second);
      OnChainReplays(checks, g, n.db, main);
      assert Reversed(second)[..|second|] == Reversed(second);
      LoggedEnough(n, n, main);
      ClimbRetraces(checks, g, p.node, Reversed(second), main, |second|);
    }
  }

  // ---------- Pushing a block ----------

  // The two kinds of push that can open a gap: of a first block, once blocks of the chain have been
  // pruned, and of a block of the chain itself, while the fork database's head is a failed child of the
  // chain's head.
  ghost predicate Tidy(n: Node, b: Block) {
    Classify(n.index, n.head, n.maxSize, b).Accepted? ==>
      && (b.previous == NO_BLOCK ==> forall c :: c in Main(n.db) ==> c in n.index + {b})
      && (HeadAfter(n.head, b).previous == n.db.current.headId ==> b !in Main(n.db))
  }

  lemma NoGapReceived(checks: Checks, g: State, n: Node, b: Block)
    requires Consistent(checks, g, n) && Tidy(n, b) && Classify(n.index, n.head, n.maxSize, b).Accepted?
    ensures NoGap(n.index + {b}, Main(n.db))
  {
    hide Replayed, Main, HeadAfter, Below, Logged;
    var main, index := Main(n.db), n.index + {b};
    forall x, k | x in index && x.Num() - 1 <= k < |main| ensures main[k] in index {
      if x == b {
        assert main[k] in main;
        if b.previous != NO_BLOCK {
          var parent := b.previous.block;
          assert parent in n.index && b.Num() == parent.Num() + 1;
        }
      }
    }
  }

  lemma NoGapWithout(index: Index, main: seq<Block>, b: Block)
    requires NoGap(index, main) && b !in main
    ensures NoGap(index - {b}, main)
  {
    NoGapErased(index, {b}, main);
  }

  lemma DirectKeepsLog(checks: Checks, g: State, n: Node, b: Block)
    requires Consistent(checks, g, n) && n.head.Some? && n.head.value.previous == n.db.current.headId
    requires b.Num() <= n.head.value.Num() && b in n.index && b !in Main(n.db)
    ensures
      var r := ApplyDirectly(checks, n, b);
      r.outcome.Misapplied? || Consistent(checks, g, r.node)
  {
    hide OnChain, ExecuteBlock, TryApply, Linked, Base, ChainTo, Irreversible, NoGap, HeadOn, HeadId;
    var main := Main(n.db);
    MainIs(checks, g, n.db, main);
    var a := TryApply(checks, n, b);
    ChildNumber(n.head.value, main);
    FailedOnChain(checks, g, n, main, b);
    TryApplyNoGap(checks, n, b, main);
    HeadIsChild(n.head.value, main);
    if b.previous == n.db.current.headId {
      TryApplyOnChain(checks, g, n, main, b);
      TryApplyLogged(checks, g, n, main, b);
      MainIs(checks, g, a.node.db, if a.ok then main + [b] else main);
      if a.ok {
        StandsHigher(n.db, a.node.db, main, b);
        NoGapAppended(n.index, main, [b]);
        LinkedAppend(main, b);
        TryApplyNoGap(checks, n, b, main + [b]);
      } else {
        NoGapWithout(a.node.index, main, b);
      }
    } else if !a.ok {
      FailedLogged(checks, g, n, main, b);
      NoGapWithout(a.node.index, main, b);
    }
  }

  lemma ChildNumber(head: Block, main: seq<Block>)
    requires Linked(main) && head.previous == HeadId(main)
    ensures head.Num() == |main| + 1
  {
    HeadNumber(main);
  }

  lemma FailedLogged(checks: Checks, g: State, n: Node, main: seq<Block>, b: Block)
    requires n.head.Some? && Replayed(checks, g, n.db) && main == Main(n.db) && b.Num() <= |main| + 1
    requires Logged(n, main) && NoGap(n.index, main) && HeadOn(n.head.value, main) && !TryApply(checks, n, b).ok
    ensures Logged(TryApply(checks, n, b).node, main)
  {
    hide OnChain, ExecuteBlock, WithIrreversible, GrowLog, Pruned, TryApply, FinishBlock, AfterApply, NoGap, HeadOn, Linked, HeadId, Base, History.Commit;
    MainIs(checks, g, n.db, main);
    TryApplyIs(checks, n, b);
    var r := ExecuteBlock(checks, n.db.current, b);
    if r.Applied? {
      var s := WithIrreversible(r.state);
      ExecutedIrreversible(checks, n.db.current, b);
      OnChainRevision(checks, g, n.db, main);
      GrowLogOnChain(n.index, n.head.value, n.log, s.lastIrreversible, main);
      CommitOnChain(checks, g, n.db, main, s.lastIrreversible);
    }
  }

  /**
   * Every tidy push that misapplies no block, whatever else comes of it, leaves the log a prefix of the main
   * chain that holds its irreversible blocks; and a rollback never fails to restore.
   */
  lemma PushKeepsLog(checks: Checks, g: State, n: Node, b: Block)
    requires Consistent(checks, g, n) && Tidy(n, b)
    ensures
      var r := Push(checks, n, b);
      && (!Misapplies(checks, n, b) ==> Consistent(checks, g, r.node))
      && !r.outcome.RestoreFailed?
  {
    MisappliedIff(checks, n, b);
    hide Misapplies, Replayed, ApplyDirectly, Switch, Classify, BranchFrom, Main, NoGap, Logged;
    if Classify(n.index, n.head, n.maxSize, b).Accepted? {
      var n1 := Received(n, b);
      var newBlock := n1.head.value;
      NoGapReceived(checks, g, n, b);
      SameLogged(n, n1, Main(n.db));
      assert Consistent(checks, g, n1);
      if newBlock.previous == n.db.current.headId {
        DirectKeepsLog(checks, g, n1, b);
        DirectOutcome(checks, n1, b);
      } else if newBlock.Num() > n.db.current.headNum {
        var r := BranchFrom(n1.index, newBlock.Id(), n.db.current.headId);
        if r.Branches? {
          BranchesForked(n1, newBlock);
          SwitchKeepsLog(checks, g, n1, newBlock, r.first, r.second);
        }
      }
    }
  }

  lemma DirectOutcome(checks: Checks, n: Node, b: Block)
    requires n.head.Some?
    ensures
      var o := ApplyDirectly(checks, n, b).outcome;
      o.Extended? || o.Misapplied? || o.RejectedBlock? || o.LogBroken?
  {
  }

  lemma FreshIsConsistent(checks: Checks, g: State)
    requires IsGenesis(g)
    ensures Consistent(checks, g, Fresh(g)) && Main(Fresh(g).db) == []
  {
  }

  // A block of the chain cannot be applied on top of it: its time has passed.
  lemma ChainBlockThrows(checks: Checks, g: State, db: History<State>, b: Block)
    requires Replayed(checks, g, db) && b in Main(db)
    ensures ExecuteBlock(checks, db.current, b).Threw?
  {
    hide ApplyBlock, ExecuteBlock, Linked;
    var main := Main(db);
    var k :| 0 <= k < |main| && main[k] == b;
    var n := |main| - 1;
    if k < n {
      ReplayTimes(checks, g, main, k, n);
    }
    BlockEffect(checks, Replay(checks, g, main[..n]).state, main[n]);
    ExecutedApplies(checks, db.current, b);
    if ApplyBlock(checks, db.current, b).Applied? {
      BlockEffect(checks, db.current, b);
    }
  }

  // Such a block is erased from the fork database, which leaves a gap exactly when an item is left that
  // is not higher.
  lemma ChainBlockErased(checks: Checks, g: State, n: Node, b: Block)
    requires Consistent(checks, g, n) && b in Main(n.db) && NoGap(n.index + {b}, Main(n.db))
    requires Classify(n.index, n.head, n.maxSize, b).Accepted? && HeadAfter(n.head, b).previous == n.db.current.headId
    ensures
      var r := Push(checks, n, b);
      && r == Pushed(RejectedBlock, Received(n, b).(index := n.index - {b}))
      && (NoGap(r.node.index, Main(n.db)) <==> forall x :: x in n.index - {b} ==> x.Num() > b.Num())
  {
    ChainBlockThrows(checks, g, n.db, b);
    TryApplyIs(checks, Received(n, b), b);
    MainIs(checks, g, n.db, Main(n.db));
    GapWithout(n.index, Main(n.db), b);
    hide TryApply, ExecuteBlock, ChainTo, Classify, OnChain, Logged, NoGap;
    assert n.index + {b} - {b} == n.index - {b};
  }

  lemma GapWithout(items: Index, main: seq<Block>, b: Block)
    requires Linked(main) && b in main && NoGap(items + {b}, main)
    ensures NoGap(items - {b}, main) <==> forall x :: x in items - {b} ==> x.Num() > b.Num()
  {
    var k :| 0 <= k < |main| && main[k] == b;
    LinkedNumbers(main, k);
    var index := items - {b};
    if forall x :: x in index ==> x.Num() > b.Num() {
      forall x, m | x in index && x.Num() - 1 <= m < |main| ensures main[m] in index {
        LinkedNumbers(main, m);
        assert x in items + {b};
      }
    } else {
      var x :| x in index && x.Num() <= b.Num();
      assert x.Num() - 1 <= k && main[k] !in index;
    }
  }
}
