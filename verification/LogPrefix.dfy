/**
 * When the block log stays a prefix of the main chain, exactly: a push that makes blocks irreversible keeps it
 * one if and only if every block the lookups find for it is the chain's own.
 */
module LogPrefix {
  import opened Undo
  import opened Common
  import opened ChainTypes
  import opened ChainState
  import opened ForkTree
  import opened ForkDatabase
  import opened MainChain
  import opened ChainNode
  import opened ChainSafety
  import opened ChainLog
  import opened ForkSwitch

  // ---------- What the log takes ----------

  ghost predicate AllFound(index: Index, head: Block, logged: nat, k: nat) {
    forall j :: logged < j <= k ==> OnMainBranch(index, head, j).Some?
  }

  // Of the numbers up to upTo that the log lacks, those for which a block is found, and for all before, lead to the chain's own.
  ghost predicate TakesOwn(index: Index, head: Block, chain: seq<Block>, logged: nat, upTo: nat) {
    forall k :: logged < k <= upTo && AllFound(index, head, logged, k) ==>
      k <= |chain| && OnMainBranch(index, head, k) == Some(chain[k - 1])
  }

  lemma GrownOwnIff(index: Index, head: Block, log: seq<Block>, chain: seq<Block>, upTo: nat)
    requires log <= chain && upTo <= |chain|
    ensures GrowLog(index, head, log, upTo).log <= chain <==> TakesOwn(index, head, chain, |log|, upTo)
  {
    hide OnMainBranch;
    GrowLogIff(index, head, log, upTo);
    GrowLogKeeps(index, head, log, upTo);
    var grown := GrowLog(index, head, log, upTo).log;
    hide GrowLog;
    if TakesOwn(index, head, chain, |log|, upTo) {
      forall i | 0 <= i < |grown| ensures grown[i] == chain[i] {
        if i >= |log| {
          assert AllFound(index, head, |log|, i + 1);
          assert OnMainBranch(index, head, i + 1) == Some(grown[i + 1 - 1]);
        }
      }
    } else {
      var k :| |log| < k <= upTo && AllFound(index, head, |log|, k) && OnMainBranch(index, head, k) != Some(chain[k - 1]);
      assert OnMainBranch(index, head, k).Some?;
      assert k <= |grown|;
      assert OnMainBranch(index, head, k) == Some(grown[k - 1]);
    }
  }

  // The log stops at the first number of which no block is found, however far it is to grow.
  lemma {:induction false} GrowLogFurther(index: Index, head: Block, log: seq<Block>, upTo: nat, further: nat)
    requires upTo <= further
    ensures
      var grown := GrowLog(index, head, log, upTo);
      GrowLog(index, head, log, further) == if grown.complete then GrowLog(index, head, grown.log, further) else grown
    decreases upTo - |log|
  {
    hide OnMainBranch;
    if upTo > |log| && OnMainBranch(index, head, |log| + 1).Some? {
      GrowLogFurther(index, head, log + [OnMainBranch(index, head, |log| + 1).value], upTo, further);
    }
  }

  lemma NothingToGrow(index: Index, head: Block, log: seq<Block>, upTo: nat)
    requires upTo <= |log|
    ensures GrowLog(index, head, log, upTo) == Growth(true, log)
  {
  }

  // ---------- Applying ----------

  // A block that extends the chain, applied: the heights, and the log as far as it grows.
  lemma AttemptGrows(checks: Checks, g: State, n: Node, main: seq<Block>, b: Block)
    requires n.head.Some? && OnChain(checks, g, n.db, main) && b.previous == HeadId(main) && Levels(n, main)
    ensures
      var a, grown := TryApply(checks, n, b), GrowLog(n.index, n.head.value, n.log, Irreversible(|main| + 1));
      && Levels(a.node, if a.ok then main + [b] else main)
      && (a.ok <==> ApplyBlock(checks, n.db.current, b).Applied? && grown.complete)
      && a.node.log == (if ApplyBlock(checks, n.db.current, b).Applied? then grown.log else n.log)
      && (!a.ok ==> a.node.index == n.index && a.node.db.current == n.db.current)
  {
    hide OnChain, ExecuteBlock, ApplyBlock, WithIrreversible, GrowLog, Pruned, TryApply, FinishBlock, AfterApply, Linked, HeadId, Base, History.Commit;
    MainIs(checks, g, n.db, main);
    HeadNumber(main);
    TryApplyIs(checks, n, b);
    TryApplyOnChain(checks, g, n, main, b);
    ExecutedApplies(checks, n.db.current, b);
    OnChainRevision(checks, g, n.db, main);
    GrowLogIff(n.index, n.head.value, n.log, Irreversible(|main| + 1));
    if ApplyBlock(checks, n.db.current, b).Applied? {
      ExecutedHead(checks, n.db.current, b);
      CommitOnChain(checks, g, n.db, main, Irreversible(|main| + 1));
    }
  }

  // The next block of a chain, tried on the state below it.
  lemma NextTried(checks: Checks, g: State, n: Node, blocks: seq<Block>, whole: seq<Block>)
    requires n.head.Some? && Replayed(checks, g, n.db) && Linked(whole) && whole == Main(n.db) + blocks && blocks != []
    ensures
      var main, b := Main(n.db), blocks[0];
      var a := TryApply(checks, n, b);
      && OnChain(checks, g, n.db, main) && b.previous == HeadId(main) && whole[..|main| + 1] == main + [b]
      && (ApplyBlock(checks, n.db.current, b).Applied? <==> Replay(checks, g, whole[..|main| + 1]).Applied?)
      && Replayed(checks, g, a.node.db) && Main(a.node.db) == (if a.ok then main + [b] else main)
      && a.node.head == n.head
      && (a.ok ==> whole == Main(a.node.db) + blocks[1..]
                   && a.node.index == Pruned(n.index, Below(n.head.value.Num(), ForkSizeAt(|main| + 1))))
  {
    hide OnChain, TryApply, Linked, ChainTo, HeadId, Base, Pruned, Below, ForkSizeAt, Replay, ApplyBlock;
    var main, b := Main(n.db), blocks[0];
    MainIs(checks, g, n.db, main);
    LinkedAt(whole, |main|);
    assert whole[..|main|] == main && whole[..|main| + 1] == main + [b];
    TryApplyOnChain(checks, g, n, main, b);
    ReplayAppend(checks, g, main, b);
    CurrentIs(checks, g, n.db, main);
    var a := TryApply(checks, n, b);
    MainIs(checks, g, a.node.db, if a.ok then main + [b] else main);
    if a.ok {
      TryApplyIndex(checks, g, n, main, b);
      StandsHigher(n.db, a.node.db, main, b);
      assert main + [b] + blocks[1..] == whole;
    }
  }

  lemma {:induction false} ClimbLevels(checks: Checks, g: State, n: Node, blocks: seq<Block>)
    requires n.head.Some? && Replayed(checks, g, n.db) && Linked(Main(n.db) + blocks) && Levels(n, Main(n.db))
    ensures Levels(Climb(checks, n, blocks).node, Main(Climb(checks, n, blocks).node.db))
    decreases |blocks|
  {
    hide Replayed, TryApply, Linked, Main, HeadId, Levels, Pruned, GrowLog, OnChain, Replay, ApplyBlock;
    if blocks != [] {
      NextTried(checks, g, n, blocks, Main(n.db) + blocks);
      AttemptGrows(checks, g, n, Main(n.db), blocks[0]);
      var a := TryApply(checks, n, blocks[0]);
      if a.ok {
        ClimbLevels(checks, g, a.node, blocks[1..]);
      }
    }
  }

  // The log after blocks have been applied one after the other, while no pruning changes the fork database.
  lemma {:induction false} ClimbGrows(checks: Checks, g: State, n: Node, blocks: seq<Block>, whole: seq<Block>)
    requires n.head.Some? && Replayed(checks, g, n.db) && Linked(whole) && whole == Main(n.db) + blocks
    requires Levels(n, Main(n.db))
    requires Pruned(n.index, Below(n.head.value.Num(), ForkSizeAt(|Main(n.db)| + 1))) == n.index
    ensures Climb(checks, n, blocks).node.log ==
      GrowLog(n.index, n.head.value, n.log, Irreversible(ReplaysTo(checks, g, whole, |Main(n.db)|))).log
    decreases |blocks|
  {
    hide Replayed, TryApply, Linked, Main, HeadId, Pruned, GrowLog, OnChain, Replay, ApplyBlock, Below, ForkSizeAt, Base;
    var main := Main(n.db);
    NothingToGrow(n.index, n.head.value, n.log, Irreversible(|main|));
    if blocks != [] {
      NextTried(checks, g, n, blocks, whole);
      AttemptGrows(checks, g, n, main, blocks[0]);
      var a := TryApply(checks, n, blocks[0]);
      var h := ReplaysTo(checks, g, whole, |main|);
      if Replay(checks, g, whole[..|main| + 1]).Applied? {
        assert h == ReplaysTo(checks, g, whole, |main| + 1);
        GrowLogFurther(n.index, n.head.value, n.log, Irreversible(|main| + 1), Irreversible(h));
      }
      if a.ok {
        PrunedFurther(n.index, n.head.value.Num(), |main| + 1);
        ClimbGrows(checks, g, a.node, blocks[1..], whole);
      }
    }
  }

  // Of the blocks of a fork, the first one prunes the most, and is not so high that anything is due for the log.
  lemma BranchGrows(checks: Checks, g: State, n: Node, blocks: seq<Block>, whole: seq<Block>)
    requires n.head.Some? && Replayed(checks, g, n.db) && Linked(whole) && whole == Main(n.db) + blocks && blocks != []
    requires Levels(n, Main(n.db)) && Irreversible(|Main(n.db)| + 1) <= |n.log|
    ensures
      var c := |Main(n.db)|;
      Climb(checks, n, blocks).node.log ==
        GrowLog(Pruned(n.index, Below(n.head.value.Num(), ForkSizeAt(c + 1))), n.head.value, n.log,
                Irreversible(ReplaysTo(checks, g, whole, c))).log
  {
    hide Replayed, TryApply, Linked, Main, HeadId, Pruned, GrowLog, OnChain, Replay, ApplyBlock, Below, ForkSizeAt, Base;
    var main := Main(n.db);
    var index1 := Pruned(n.index, Below(n.head.value.Num(), ForkSizeAt(|main| + 1)));
    NextTried(checks, g, n, blocks, whole);
    AttemptGrows(checks, g, n, main, blocks[0]);
    NothingToGrow(n.index, n.head.value, n.log, Irreversible(|main| + 1));
    NothingToGrow(index1, n.head.value, n.log, Irreversible(|main|));
    var a := TryApply(checks, n, blocks[0]);
    if a.ok {
      PrunedFurther(n.index, n.head.value.Num(), |main| + 1);
      ClimbGrows(checks, g, a.node, blocks[1..], whole);
      assert ReplaysTo(checks, g, whole, |main|) == ReplaysTo(checks, g, whole, |main| + 1);
    }
  }

  // Blocks no higher than what the log holds as irreversible add nothing to it.
  lemma {:induction false} ClimbLogsNothing(checks: Checks, g: State, n: Node, blocks: seq<Block>)
    requires n.head.Some? && Replayed(checks, g, n.db) && Linked(Main(n.db) + blocks) && Levels(n, Main(n.db))
    requires Irreversible(|Main(n.db)| + |blocks|) <= |n.log|
    ensures Climb(checks, n, blocks).node.log == n.log
    decreases |blocks|
  {
    hide Replayed, TryApply, Linked, Main, HeadId, Levels, Pruned, GrowLog, OnChain, Replay, ApplyBlock;
    if blocks != [] {
      NextTried(checks, g, n, blocks, Main(n.db) + blocks);
      AttemptGrows(checks, g, n, Main(n.db), blocks[0]);
      NothingToGrow(n.index, n.head.value, n.log, Irreversible(|Main(n.db)| + 1));
      var a := TryApply(checks, n, blocks[0]);
      if a.ok {
        ClimbLogsNothing(checks, g, a.node, blocks[1..]);
      }
    }
  }

  // ---------- Switching ----------

  /**
   * A switch can grow the log while the new branch is applied, as far as that replays: from the block of it
   * that the fork database's head has come down to, in what the first applied block has left of the index.
   */
  ghost predicate SwitchTakesOwn(checks: Checks, g: State, n: Node, newBlock: Block) {
    var main, whole := Main(n.db), ChainTo(newBlock.Id());
    var r := BranchFrom(n.index, newBlock.Id(), n.db.current.headId);
    r.Branches? && |r.second| <= |main| < |whole| ==>
      var c := |main| - |r.second|;
      var head := whole[|whole| - 1 - |r.second|];
      c < Base(n.db, main) ||
      TakesOwn(Pruned(n.index, Below(head.Num(), ForkSizeAt(c + 1))), head, whole, |n.log|,
               Irreversible(ReplaysTo(checks, g, whole, c)))
  }

  lemma PrefixOfPart(log: seq<Block>, part: seq<Block>, whole: seq<Block>)
    requires part <= whole && |log| <= |part|
    ensures log <= part <==> log <= whole
  {
  }

  // The new branch has been applied as far as it goes.
  lemma SwitchClimbs(checks: Checks, g: State, n: Node, main: seq<Block>, whole: seq<Block>, c: nat,
                     first: seq<Block>, second: seq<Block>)
    requires Replayed(checks, g, n.db) && main == Main(n.db) && Levels(n, main) && Base(n.db, main) <= c
    requires second != [] && Traced(n, main, whole, c, first, second)
    ensures
      var p := PopUntil(n, Last(second).previous);
      var m := Climb(checks, p.node, Reversed(first));
      var head := whole[|whole| - 1 - (|main| - c)];
      && p.ok && Replayed(checks, g, m.node.db) && Levels(m.node, Main(m.node.db))
      && Main(m.node.db) == whole[..c + m.applied] && |n.log| <= |m.node.log|
      && (n.log <= main ==>
            (m.node.log <= whole <==>
             TakesOwn(Pruned(n.index, Below(head.Num(), ForkSizeAt(c + 1))), head, whole, |n.log|, Irreversible(ReplaysTo(checks, g, whole, c)))))
  {
    hide Replayed, OnChain, Climb, Base, Pruned, Below, ForkSizeAt, Linked, Descends, Reversed, ReplaysTo, Replay, Flatten, UndoTimes, GrowLog, TakesOwn, PopUntil, ChainTo, HeadId;
    var head := whole[|whole| - 1 - (|main| - c)];
    var h := ReplaysTo(checks, g, whole, c);
    PopsToParent(checks, g, n, main, whole, c, first, second);
    var p := PopUntil(n, Last(second).previous).node;
    assert whole[c..] == Reversed(first) && main[..c] + whole[c..] == whole;
    BranchGrows(checks, g, p, whole[c..], whole);
    ClimbLevels(checks, g, p, whole[c..]);
    ClimbReplayed(checks, g, p, whole[c..]);
    var m := Climb(checks, p, whole[c..]);
    assert whole[..c] + whole[c..][..m.applied] == whole[..c + m.applied];
    GrowLogKeeps(Pruned(n.index, Below(head.Num(), ForkSizeAt(c + 1))), head, n.log, Irreversible(h));
    if n.log <= main {
      LogBelow(n, main, whole, c);
      GrownOwnIff(Pruned(n.index, Below(head.Num(), ForkSizeAt(c + 1))), head, n.log, whole, Irreversible(h));
    }
  }

  lemma LogBelow(n: Node, main: seq<Block>, whole: seq<Block>, c: nat)
    requires Levels(n, main) && n.log <= main && Base(n.db, main) <= c <= |main| && c <= |whole| && main[..c] == whole[..c]
    ensures n.log <= whole
  {
    PrefixOfPart(n.log, main[..c], main);
    PrefixOfPart(n.log, whole[..c], whole);
  }

  lemma PopsToParent(checks: Checks, g: State, n: Node, main: seq<Block>, whole: seq<Block>, c: nat,
                     first: seq<Block>, second: seq<Block>)
    requires Replayed(checks, g, n.db) && main == Main(n.db) && Levels(n, main) && Base(n.db, main) <= c
    requires second != [] && Traced(n, main, whole, c, first, second)
    ensures
      var p := PopUntil(n, Last(second).previous);
      && p.ok && Replayed(checks, g, p.node.db) && Main(p.node.db) == main[..c] && Levels(p.node, main[..c])
      && p.node.head == Some(whole[|whole| - 1 - (|main| - c)]) && p.node.index == n.index && p.node.log == n.log
      && Irreversible(c + 1) <= |n.log|
  {
    hide OnChain, Descends, Reversed, Flatten, UndoTimes, PopUntil, Linked, ChainTo;
    SwitchPops(checks, g, n, main, whole, c, first, second);
    PopsReplayed(checks, g, n, Last(second).previous);
    PopsLevel(checks, g, n, Last(second).previous);
    MainIs(checks, g, PopUntil(n, Last(second).previous).node.db, main[..c]);
  }

  // A rollback: wherever it ends, the log is a prefix of that chain exactly when it is one of the new branch's.
  lemma RollbackEnds(checks: Checks, g: State, n: Node, n1: Node, main: seq<Block>, whole: seq<Block>, c: nat, second: seq<Block>)
    requires Replayed(checks, g, n.db) && main == Main(n.db) && Irreversible(|main|) <= |n1.log| && Linked(main)
    requires c < |main| && c <= |whole| && whole[..c] == main[..c] && second != [] && Reversed(second) == main[c..]
    requires Replayed(checks, g, n1.db) && Levels(n1, Main(n1.db)) && Main(n1.db) <= whole && n1.head.Some?
    requires Last(second).previous == HeadId(main[..c])
    ensures
      var p := PopUntil(n1, Last(second).previous);
      var r := Climb(checks, p.node, Reversed(second));
      && (!p.ok ==> Levels(p.node, Main(p.node.db)) && p.node.log == n1.log
                    && (n1.log <= Main(p.node.db) <==> n1.log <= whole))
      && (p.ok ==> r.applied == |second| && Levels(r.node, Main(r.node.db)) && r.node.log == n1.log
                   && Main(r.node.db) == main && (n1.log <= main <==> n1.log <= whole))
  {
    hide OnChain, Climb, Base, PopUntil, ChainTo, Reversed, Replay, Linked, GrowLog;
    PopsReplayed(checks, g, n1, Last(second).previous);
    PopsLevel(checks, g, n1, Last(second).previous);
    var p := PopUntil(n1, Last(second).previous);
    LevelFits(checks, g, p.node, Main(p.node.db));
    PrefixOfPart(n1.log, Main(p.node.db), whole);
    if p.ok {
      LinkedPrefix(main, c);
      MainFromHead(checks, g, p.node, main[..c]);
      PrefixOfPart(n1.log, main[..c], main);
      assert main[..c] + main[c..] == main;
      OnChainReplays(checks, g, n.db, main);
      assert main[c..][..|second|] == main[c..];
      ClimbRetraces(checks, g, p.node, main[c..], main, |second|);
      ClimbLevels(checks, g, p.node, main[c..]);
      ClimbLogsNothing(checks, g, p.node, main[c..]);
      ClimbReplayed(checks, g, p.node, main[c..]);
    }
  }

  lemma LevelFits(checks: Checks, g: State, n: Node, main: seq<Block>)
    requires Replayed(checks, g, n.db) && main == Main(n.db) && Levels(n, main)
    ensures |n.log| <= |main|
  {
    hide ChainTo;
    OnChainRevision(checks, g, n.db, main);
  }

  lemma MainFromHead(checks: Checks, g: State, n: Node, chain: seq<Block>)
    requires n.db.current.headId == HeadId(chain) && Linked(chain)
    ensures Main(n.db) == chain
  {
    LinkedIsChainTo(chain);
  }

  // Where the climb up the new branch ends, and the rollback after it, if one follows.
  lemma SwitchEnds(checks: Checks, g: State, n: Node, m: Climbed, main: seq<Block>, whole: seq<Block>, c: nat,
                   first: seq<Block>, second: seq<Block>)
    requires Replayed(checks, g, n.db) && main == Main(n.db) && Levels(n, main) && |n.log| <= |m.node.log|
    requires second != [] && Traced(n, main, whole, c, first, second) && m.applied <= |first|
    requires Replayed(checks, g, m.node.db) && Levels(m.node, Main(m.node.db)) && Main(m.node.db) == whole[..c + m.applied]
    ensures
      var r := if m.applied == |first| then Pushed(Switched, m.node) else Rollback(checks, m.node, first, second, m.applied);
      && Levels(r.node, Main(r.node.db)) && !r.outcome.RestoreFailed?
      && (r.node.log <= Main(r.node.db) <==> m.node.log <= whole)
  {
    hide Replayed, Climb, Base, PopUntil, Reversed, Linked, Descends, Main, Levels;
    LevelFits(checks, g, m.node, Main(m.node.db));
    PrefixOfPart(m.node.log, Main(m.node.db), whole);
    if m.applied < |first| {
      var n1 := m.node.(index := m.node.index - Blocks(Reversed(first)[m.applied..]), head := Some(second[0]));
      SameLevels(m.node, n1);
      LeastLogged(n, n1, main);
      RollbackEnds(checks, g, n, n1, main, whole, c, second);
    }
  }

  lemma SwitchLogIff(checks: Checks, g: State, n: Node, newBlock: Block)
    requires Replayed(checks, g, n.db) && Levels(n, Main(n.db))
    requires n.head == Some(newBlock) && newBlock.Num() > |Main(n.db)|
    requires BranchFrom(n.index, newBlock.Id(), n.db.current.headId).Branches?
    ensures
      var branches := BranchFrom(n.index, newBlock.Id(), n.db.current.headId);
      var r := Switch(checks, n, branches.first, branches.second);
      && Levels(r.node, Main(r.node.db)) && !r.outcome.RestoreFailed?
      && (n.log <= Main(n.db) ==> (r.node.log <= Main(r.node.db) <==> SwitchTakesOwn(checks, g, n, newBlock)))
  {
    hide Replayed, Climb, Base, PopUntil, Reversed, Linked, Descends, TakesOwn, Pruned, Below, ForkSizeAt, ReplaysTo, BranchFrom, Main, Levels, ChainTo, Traced, Rollback;
    var branches := BranchFrom(n.index, newBlock.Id(), n.db.current.headId);
    var first, second, main, whole := branches.first, branches.second, Main(n.db), ChainTo(newBlock.Id());
    TracedBranches(checks, g, n, newBlock);
    var c := |main| - |second|;
    if c < Base(n.db, main) {
      PopsTooFar(checks, g, n, main, whole, c, first, second);
    } else {
      SwitchClimbs(checks, g, n, main, whole, c, first, second);
      SwitchEnds(checks, g, n, Climb(checks, PopUntil(n, Last(second).previous).node, Reversed(first)), main, whole, c, first, second);
    }
  }

  lemma SameLevels(n: Node, n1: Node)
    requires Levels(n, Main(n.db)) && n1.log == n.log && n1.db == n.db
    ensures Levels(n1, Main(n1.db))
  {
  }

  lemma LeastLogged(n: Node, n1: Node, main: seq<Block>)
    requires Levels(n, main) && |n.log| <= |n1.log|
    ensures Irreversible(|main|) <= |n1.log|
  {
  }

  // A fork that leaves the chain below what can be undone: the pops throw, before anything is applied.
  lemma PopsTooFar(checks: Checks, g: State, n: Node, main: seq<Block>, whole: seq<Block>, c: nat,
                   first: seq<Block>, second: seq<Block>)
    requires Replayed(checks, g, n.db) && main == Main(n.db) && Levels(n, main) && Base(n.db, main) > c
    requires second != [] && Traced(n, main, whole, c, first, second)
    ensures
      var p := PopUntil(n, Last(second).previous);
      !p.ok && Levels(p.node, Main(p.node.db)) && (n.log <= main ==> p.node.log <= Main(p.node.db))
  {
    hide OnChain, Descends, Reversed, PopUntil, Linked, ChainTo;
    SwitchPopsStuck(checks, g, n, main, whole, c, first, second);
    PopsReplayed(checks, g, n, Last(second).previous);
    PopsLevel(checks, g, n, Last(second).previous);
    var p := PopUntil(n, Last(second).previous).node;
    LevelFits(checks, g, p, Main(p.db));
    PrefixOfPart(n.log, Main(p.db), main);
  }

  // ---------- Applying on top of the head ----------

  // Only a block above the chain's head can make the log grow.
  ghost predicate DirectTakesOwn(checks: Checks, n: Node, b: Block)
    requires n.head.Some?
  {
    var main := Main(n.db);
    b.Num() == |main| + 1 && ApplyBlock(checks, n.db.current, b).Applied? ==>
      TakesOwn(n.index, n.head.value, main, |n.log|, Irreversible(|main| + 1))
  }

  lemma DirectLogIff(checks: Checks, g: State, n: Node, b: Block)
    requires Replayed(checks, g, n.db) && Levels(n, Main(n.db))
    requires n.head.Some? && b.Num() <= |Main(n.db)| + 1 && !ApplyDirectly(checks, n, b).outcome.Misapplied?
    ensures
      var r := ApplyDirectly(checks, n, b);
      && Levels(r.node, Main(r.node.db))
      && (n.log <= Main(n.db) ==> (r.node.log <= Main(r.node.db) <==> DirectTakesOwn(checks, n, b)))
  {
    hide OnChain, TryApply, ExecuteBlock, ApplyBlock, Base, Linked, HeadId, GrowLog, TakesOwn, ChainTo;
    var main, upTo := Main(n.db), Irreversible(|Main(n.db)| + 1);
    MainIs(checks, g, n.db, main);
    HeadNumber(main);
    OnChainRevision(checks, g, n.db, main);
    GrowLogIff(n.index, n.head.value, n.log, upTo);
    if n.log <= main {
      GrownOwnIff(n.index, n.head.value, n.log, main, upTo);
    }
    var a, grown := TryApply(checks, n, b), GrowLog(n.index, n.head.value, n.log, upTo).log;
    if b.previous == n.db.current.headId {
      AttemptGrows(checks, g, n, main, b);
      TryApplyOnChain(checks, g, n, main, b);
      MainIs(checks, g, a.node.db, if a.ok then main + [b] else main);
      PrefixOfPart(grown, main, main + [b]);
    } else {
      FailedGrows(checks, g, n, main, b);
      FailedOnChain(checks, g, n, main, b);
    }
  }

  // One that does not extend it, and throws.
  lemma FailedGrows(checks: Checks, g: State, n: Node, main: seq<Block>, b: Block)
    requires n.head.Some? && Replayed(checks, g, n.db) && main == Main(n.db) && Levels(n, main)
    requires b.Num() <= |main| + 1 && !TryApply(checks, n, b).ok
    ensures
      var a := TryApply(checks, n, b);
      && Levels(a.node, main)
      && a.node.log == (if b.Num() == |main| + 1 && ApplyBlock(checks, n.db.current, b).Applied?
                        then GrowLog(n.index, n.head.value, n.log, Irreversible(|main| + 1)).log else n.log)
  {
    hide OnChain, ExecuteBlock, ApplyBlock, WithIrreversible, GrowLog, Pruned, TryApply, FinishBlock, AfterApply, Linked, HeadId, Base, History.Commit, ChainTo;
    MainIs(checks, g, n.db, main);
    HeadNumber(main);
    TryApplyIs(checks, n, b);
    FailedOnChain(checks, g, n, main, b);
    ExecutedApplies(checks, n.db.current, b);
    OnChainRevision(checks, g, n.db, main);
    if ApplyBlock(checks, n.db.current, b).Applied? {
      var upTo := WithIrreversible(ExecuteBlock(checks, n.db.current, b).state).lastIrreversible;
      ExecutedIrreversible(checks, n.db.current, b);
      if b.Num() == |main| + 1 {
        ExecutedHead(checks, n.db.current, b);
      } else {
        ExecutedLow(checks, n.db.current, b);
        NothingToGrow(n.index, n.head.value, n.log, upTo);
      }
      GrowLogIff(n.index, n.head.value, n.log, upTo);
      CommitOnChain(checks, g, n.db, main, upTo);
    }
  }

  lemma ExecutedLow(checks: Checks, s: State, b: Block)
    requires ExecuteBlock(checks, s, b).Applied? && s.lastIrreversible == Irreversible(s.headNum) && b.Num() <= s.headNum
    ensures WithIrreversible(ExecuteBlock(checks, s, b).state).lastIrreversible <= Irreversible(s.headNum)
  {
    TransactionsKeep(checks, s, b.transactions);
  }

  // ---------- Pushing a block ----------

  /** Every block that the push adds to the log is the block of that number on the chain that the log is of. */
  ghost predicate LogsOwn(checks: Checks, g: State, n: Node, b: Block) {
    var n1 := Received(n, b);
    var newBlock := n1.head.value;
    Classify(n.index, n.head, n.maxSize, b).Accepted? ==>
      if newBlock.previous == n.db.current.headId then DirectTakesOwn(checks, n1, b)
      else newBlock.Num() > n.db.current.headNum ==> SwitchTakesOwn(checks, g, n1, newBlock)
  }

  /**
   * Whatever the push, the log holds as many blocks as are irreversible, and a rollback never fails to restore.
   * A log that is a prefix of the main chain stays one exactly when the push adds none but the chain's own
   * blocks to it.
   */
  lemma PushLogIff(checks: Checks, g: State, n: Node, b: Block)
    requires Replayed(checks, g, n.db) && Levels(n, Main(n.db)) && !Misapplies(checks, n, b)
    ensures
      var r := Push(checks, n, b);
      && Replayed(checks, g, r.node.db) && Levels(r.node, Main(r.node.db)) && !r.outcome.RestoreFailed?
      && (n.log <= Main(n.db) ==> (r.node.log <= Main(r.node.db) <==> LogsOwn(checks, g, n, b)))
  {
    PushKeepsReplay(checks, g, n, b);
    MisappliedIff(checks, n, b);
    hide Replayed, Switch, Classify, BranchFrom, ChainTo, Levels, ApplyDirectly, DirectTakesOwn, Misapplies, HeadAfter, Main;
    if Classify(n.index, n.head, n.maxSize, b).Accepted? {
      var n1 := Received(n, b);
      var newBlock := n1.head.value;
      SameLevels(n, n1);
      HeadIs(checks, g, n.db);
      if newBlock.previous == n.db.current.headId {
        NotHigher(n, b, Main(n.db));
        DirectLogIff(checks, g, n1, b);
        DirectOutcome(checks, n1, b);
      } else if newBlock.Num() > n.db.current.headNum {
        if BranchFrom(n1.index, newBlock.Id(), n.db.current.headId).Branches? {
          SwitchLogIff(checks, g, n1, newBlock);
        }
      }
    }
  }

  // A block that extends the chain: for every number that becomes irreversible the lookup meets the chain's block.
  lemma ExtendedLogIff(checks: Checks, g: State, n: Node, b: Block)
    requires Replayed(checks, g, n.db) && Levels(n, Main(n.db)) && n.log <= Main(n.db) && Push(checks, n, b).outcome.Extended?
    ensures
      var main, r := Main(n.db), Push(checks, n, b).node;
      && Main(r.db) == main + [b]
      && (r.log <= main + [b] <==>
            forall k :: |n.log| < k <= Irreversible(|main| + 1) ==>
              OnMainBranch(n.index + {b}, HeadAfter(n.head, b), k) == Some(main[k - 1]))
  {
    hide *;
    var main, n1, upTo := Main(n.db), Received(n, b), Irreversible(|Main(n.db)| + 1);
    ExtendedIs(checks, g, n, b);
    IrreversibleFits(main);
    AttemptGrows(checks, g, n1, main, b);
    GrowLogIff(n1.index, n1.head.value, n.log, upTo);
    GrownOwnIff(n1.index, n1.head.value, n.log, main, upTo);
    PrefixOfPart(GrowLog(n1.index, n1.head.value, n.log, upTo).log, main, main + [b]);
    AllOwn(n1.index, n1.head.value, main, |n.log|, upTo);
  }

  lemma AllOwn(index: Index, head: Block, chain: seq<Block>, logged: nat, upTo: nat)
    requires upTo <= |chain| && forall k :: logged < k <= upTo ==> OnMainBranch(index, head, k).Some?
    ensures TakesOwn(index, head, chain, logged, upTo) <==>
      forall k :: logged < k <= upTo ==> OnMainBranch(index, head, k) == Some(chain[k - 1])
  {
    hide OnMainBranch;
    forall k | logged < k <= upTo ensures AllFound(index, head, logged, k) {
      assert OnMainBranch(index, head, k).Some?;
    }
  }

  lemma IrreversibleFits(main: seq<Block>)
    ensures Irreversible(|main| + 1) <= |main|
  {
  }

  // It was applied on top of the head.
  lemma ExtendedIs(checks: Checks, g: State, n: Node, b: Block)
    requires Replayed(checks, g, n.db) && Levels(n, Main(n.db)) && Push(checks, n, b).outcome.Extended?
    ensures
      var main, n1 := Main(n.db), Received(n, b);
      var a := TryApply(checks, n1, b);
      && n1.head == Some(HeadAfter(n.head, b)) && n1.index == n.index + {b} && n1.log == n.log && n1.db == n.db
      && OnChain(checks, g, n1.db, main) && Levels(n1, main) && b.previous == HeadId(main)
      && a.ok && Push(checks, n, b).node == a.node && Main(a.node.db) == main + [b]
  {
    hide TryApply, Switch, Classify, BranchFrom, ExecuteBlock, HeadAfter, OnChain, ChainTo, Misapplies;
    SwitchNotExtended(checks, Received(n, b));
    PushKeepsReplay(checks, g, n, b);
    MainIs(checks, g, n.db, Main(n.db));
  }

  lemma SwitchNotExtended(checks: Checks, n: Node)
    requires n.head.Some?
    ensures forall first, second | second != [] :: !Switch(checks, n, first, second).outcome.Extended?
  {
    hide Climb, PopUntil;
  }

  // With no gap in the fork database, tidy pushes log none but the chain's own blocks.
  lemma TidyLogsOwn(checks: Checks, g: State, n: Node, b: Block)
    requires Consistent(checks, g, n) && Tidy(n, b) && !Misapplies(checks, n, b)
    ensures LogsOwn(checks, g, n, b)
  {
    PushKeepsLog(checks, g, n, b);
    hide Misapplies, LogsOwn, Tidy, Push;
    PushLogIff(checks, g, n, b);
  }

  lemma HeadIs(checks: Checks, g: State, db: History<State>)
    requires Replayed(checks, g, db)
    ensures db.current.headId == HeadId(Main(db)) && db.current.headNum == |Main(db)| && Linked(Main(db))
  {
    hide OnChain, ChainTo;
    MainIs(checks, g, db, Main(db));
  }
}
