/**
 * What every push keeps, whatever the fork database has come to hold: the state is the replay of a
 * linked chain and the undo stack the states below it, unless a block that does not extend the head
 * was applied; and the block log is a prefix of that chain while the fork database has not lost a
 * block of the chain above one it still has.
 */
module ChainSafety {
  import opened Undo
  import opened Common
  import opened ChainTypes
  import opened ChainState
  import opened ForkTree
  import opened ForkDatabase
  import opened MainChain
  import opened ChainNode

  // The main chain: what the head block leads back to.
  function Main(db: History<State>): seq<Block> {
    ChainTo(db.current.headId)
  }

  // The state and the undo stack are those of the main chain, and nothing below its irreversible block can be undone.
  ghost predicate Replayed(checks: Checks, g: State, db: History<State>) {
    OnChain(checks, g, db, Main(db)) && Irreversible(|Main(db)|) <= Base(db, Main(db))
  }

  lemma MainIs(checks: Checks, g: State, db: History<State>, main: seq<Block>)
    requires OnChain(checks, g, db, main)
    ensures Main(db) == main && db.current.headId == HeadId(main) && db.current.headNum == |main|
    ensures db.current.lastIrreversible == Irreversible(|main|)
    ensures Linked(main)
  {
    OnChainHead(checks, g, db, main);
    LinkedIsChainTo(main);
  }

  // ---------- Applying a block ----------

  // When the main chain's next block for the log is no item any more, the log breaks if no item has its
  // number, and takes the other block if exactly one has.
  lemma MissingBlockLogged(index: Index, head: Block, log: seq<Block>, upTo: nat)
    requires |log| < upTo
    ensures AtNumber(index, |log| + 1) == {} ==> GrowLog(index, head, log, upTo) == Growth(false, log)
    ensures forall x :: AtNumber(index, |log| + 1) == {x} ==> log + [x] <= GrowLog(index, head, log, upTo).log
  {
    if AtNumber(index, |log| + 1) == {} {
      OnMainBranchMisses(index, head, |log| + 1) by {
        forall b | b in index ensures b.Num() != |log| + 1 {
          assert b !in AtNumber(index, |log| + 1);
        }
      }
    }
    forall x | AtNumber(index, |log| + 1) == {x} ensures log + [x] <= GrowLog(index, head, log, upTo).log {
      GrowLogKeeps(index, head, log + [x], upTo);
    }
  }

  lemma ApplyFinishes(s: State, b: Block)
    ensures
      var s1, s' := WithIrreversible(s), FinishBlock(s, b);
      && WithoutExpired(WithSummary(s1, b)) == s'
      && s'.lastIrreversible == s1.lastIrreversible && ForkSize(s') == ForkSize(s1)
  {
  }

  // What an attempt does: nothing, or, when the log breaks, a commit and part of the log, or a block applied.
  lemma TryApplyIs(checks: Checks, n: Node, b: Block)
    requires n.head.Some?
    ensures
      var r := ExecuteBlock(checks, n.db.current, b);
      var s := WithIrreversible(r.state);
      var grown := GrowLog(n.index, n.head.value, n.log, s.lastIrreversible);
      var a := TryApply(checks, n, b);
      && (a.ok <==> r.Applied? && grown.complete)
      && (r.Threw? ==> a.node == n)
      && (r.Applied? && !grown.complete && s.lastIrreversible <= n.db.revision ==>
            a.node == n.(db := n.db.Commit(s.lastIrreversible), log := grown.log))
      && (a.ok ==>
            a.node == n.(db := AfterApply(checks, n.db, b), log := grown.log,
                         index := Pruned(n.index, Below(n.head.value.Num(), ForkSize(s))), maxSize := ForkSize(s)))
  {
    hide ExecuteBlock, WithIrreversible, WithSummary, WithoutExpired, GrowLog, Pruned, Below, ForkSize, FinishBlock, History.Commit, History.UndoTop;
    var r := ExecuteBlock(checks, n.db.current, b);
    var s := WithIrreversible(r.state);
    ApplyFinishes(r.state, b);
    if r.Threw? {
      SessionUndone(n.db, r.state);
    } else {
      WrittenCommit(n.db.StartSession(), s, FinishBlock(r.state, b), s.lastIrreversible);
      if s.lastIrreversible <= n.db.revision {
        CommitOutlivesSession(n.db, s, s.lastIrreversible);
      }
    }
  }

  lemma WrittenCommit(db: History<State>, s: State, s': State, r: int)
    ensures db.Write(s).Commit(r).Write(s') == db.Write(s').Commit(r)
    ensures db.Write(s).Commit(r).current == s
  {
  }

  lemma CommitOnChain(checks: Checks, g: State, db: History<State>, main: seq<Block>, r: nat)
    requires OnChain(checks, g, db, main) && r <= |main|
    ensures OnChain(checks, g, db.Commit(r), main)
    ensures Base(db.Commit(r), main) == if r > Base(db, main) then r else Base(db, main)
  {
    SavedDrop(checks, g, db.saved, main, db.Committed(r));
  }

  lemma ExecutedHead(checks: Checks, s: State, b: Block)
    requires ExecuteBlock(checks, s, b).Applied? && s.lastIrreversible == Irreversible(s.headNum) && b.Num() == s.headNum + 1
    ensures WithIrreversible(ExecuteBlock(checks, s, b).state).lastIrreversible == Irreversible(b.Num())
  {
    TransactionsKeep(checks, s, b.transactions);
  }

  // Where applying a block leaves the chain and the height from which on it can be undone.
  lemma TryApplyOnChain(checks: Checks, g: State, n: Node, main: seq<Block>, b: Block)
    requires n.head.Some? && OnChain(checks, g, n.db, main) && b.previous == HeadId(main)
    ensures
      var a := TryApply(checks, n, b);
      var base := Base(n.db, main);
      var up := if Irreversible(|main| + 1) > base then Irreversible(|main| + 1) else base;
      && a.node.popped == n.popped && n.log <= a.node.log && a.node.db.current.headId == (if a.ok then b.Id() else n.db.current.headId)
      && (a.ok ==> OnChain(checks, g, a.node.db, main + [b]) && Base(a.node.db, main + [b]) == up)
      && (!a.ok ==> OnChain(checks, g, a.node.db, main) && base <= Base(a.node.db, main) <= up && a.node.db.current == n.db.current)
      && (ExecuteBlock(checks, n.db.current, b).Threw? ==> a.node == n)
  {
    hide OnChain, ExecuteBlock, ApplyBlock, WithIrreversible, GrowLog, Pruned, TryApply, Base, FinishBlock, AfterApply;
    MainIs(checks, g, n.db, main);
    HeadNumber(main);
    TryApplyIs(checks, n, b);
    var r := ExecuteBlock(checks, n.db.current, b);
    if r.Applied? {
      var s := WithIrreversible(r.state);
      GrowLogKeeps(n.index, n.head.value, n.log, s.lastIrreversible);
      ExecutedHead(checks, n.db.current, b);
      OnChainRevision(checks, g, n.db, main);
      if TryApply(checks, n, b).ok {
        ExecutedApplies(checks, n.db.current, b);
        AppliedOnChain(checks, g, n.db, main, b);
        MainIs(checks, g, AfterApply(checks, n.db, b), main + [b]);
      } else {
        CommitOnChain(checks, g, n.db, main, s.lastIrreversible);
      }
    }
  }

  // An attempt that fails leaves the chain, also when the block does not extend it.
  lemma FailedOnChain(checks: Checks, g: State, n: Node, main: seq<Block>, b: Block)
    requires n.head.Some? && Replayed(checks, g, n.db) && main == Main(n.db) && b.Num() <= |main| + 1
    ensures
      var a := TryApply(checks, n, b);
      && n.log <= a.node.log && a.node.popped == n.popped
      && (!a.ok ==> Replayed(checks, g, a.node.db) && Main(a.node.db) == main && a.node.db.current == n.db.current)
      && (ExecuteBlock(checks, n.db.current, b).Threw? ==> a.node == n)
  {
    hide OnChain, ExecuteBlock, WithIrreversible, GrowLog, Pruned, TryApply, Base, FinishBlock, AfterApply;
    MainIs(checks, g, n.db, main);
    TryApplyIs(checks, n, b);
    var r := ExecuteBlock(checks, n.db.current, b);
    if r.Applied? {
      var s := WithIrreversible(r.state);
      GrowLogKeeps(n.index, n.head.value, n.log, s.lastIrreversible);
      ExecutedIrreversible(checks, n.db.current, b);
      OnChainRevision(checks, g, n.db, main);
      CommitOnChain(checks, g, n.db, main, s.lastIrreversible);
      MainIs(checks, g, n.db.Commit(s.lastIrreversible), main);
    }
  }

  lemma ExecutedIrreversible(checks: Checks, s: State, b: Block)
    requires ExecuteBlock(checks, s, b).Applied? && s.lastIrreversible == Irreversible(s.headNum) && b.Num() <= s.headNum + 1
    ensures WithIrreversible(ExecuteBlock(checks, s, b).state).lastIrreversible <= s.headNum
  {
    TransactionsKeep(checks, s, b.transactions);
  }

  lemma OnChainRevision(checks: Checks, g: State, db: History<State>, main: seq<Block>)
    requires OnChain(checks, g, db, main)
    ensures db.revision == |main| && 0 <= Base(db, main) <= |main|
  {
  }

  // Applying blocks that continue the chain extends it by those that apply.
  lemma {:induction false} ClimbReplayed(checks: Checks, g: State, n: Node, blocks: seq<Block>)
    requires n.head.Some? && Replayed(checks, g, n.db) && Linked(Main(n.db) + blocks)
    ensures
      var c := Climb(checks, n, blocks);
      && Replayed(checks, g, c.node.db) && Main(c.node.db) == Main(n.db) + blocks[..c.applied]
      && c.node.popped == n.popped && n.log <= c.node.log
    decreases |blocks|
  {
    hide OnChain, TryApply, Linked, ChainTo, HeadId;
    var main := Main(n.db);
    MainIs(checks, g, n.db, main);
    if blocks == [] {
      assert main + blocks[..0] == main;
    } else {
      var a := TryApply(checks, n, blocks[0]);
      LinkedAt(main + blocks, |main|);
      assert (main + blocks)[..|main|] == main;
      TryApplyOnChain(checks, g, n, main, blocks[0]);
      if a.ok {
        MainIs(checks, g, a.node.db, main + [blocks[0]]);
        assert main + [blocks[0]] + blocks[1..] == main + blocks;
        ClimbReplayed(checks, g, a.node, blocks[1..]);
        var c := Climb(checks, a.node, blocks[1..]);
        assert main + [blocks[0]] + blocks[1..][..c.applied] == main + blocks[..c.applied + 1];
      } else {
        MainIs(checks, g, a.node.db, main);
        assert main + blocks[..0] == main;
      }
    }
  }

  // ---------- Popping ----------

  lemma UndoReplayed(checks: Checks, g: State, db: History<State>)
    requires Replayed(checks, g, db)
    ensures Replayed(checks, g, db.UndoTop())
    ensures Main(db.UndoTop()) == if db.saved == [] then Main(db) else Main(db)[..|Main(db)| - 1]
    ensures Main(db.UndoTop()) <= Main(db)
  {
    if db.saved != [] {
      SavedFits(checks, g, db.saved, Main(db));
      PoppedOnChain(checks, g, db, Main(db));
      MainIs(checks, g, db.UndoTop(), Main(db)[..|Main(db)| - 1]);
    }
  }

  // Each pop puts a block's transactions before those popped earlier.
  ghost predicate EndsWith(longer: seq<Transaction>, ts: seq<Transaction>) {
    |ts| <= |longer| && longer[|longer| - |ts|..] == ts
  }

  // However the pops end, they leave a lower part of the chain.
  lemma {:induction false} PopsReplayed(checks: Checks, g: State, n: Node, stop: BlockId)
    requires Replayed(checks, g, n.db)
    ensures
      var p := PopUntil(n, stop).node;
      && Replayed(checks, g, p.db) && Main(p.db) <= Main(n.db)
      && EndsWith(p.popped, n.popped)
    decreases if n.head.Some? then n.head.value.Num() + 1 else 0
  {
    hide Replayed, History.UndoTop;
    if n.db.current.headId != stop && PopOnce(n).Some? {
      var n1 := PopOnce(n).value;
      UndoReplayed(checks, g, n.db);
      PopsReplayed(checks, g, n1, stop);
      EndsTransitive(PopUntil(n1, stop).node.popped, n1.popped, n.popped);
    }
  }

  lemma EndsTransitive(a: seq<Transaction>, b: seq<Transaction>, c: seq<Transaction>)
    requires EndsWith(a, b) && EndsWith(b, c)
    ensures EndsWith(a, c)
  {
    assert a[|a| - |c|..] == a[|a| - |b|..][|b| - |c|..];
  }

  // ---------- Pushing a block ----------

  // What a switch is started with: the two branches from the new block and from the head down to one parent.
  ghost predicate Forked(n: Node, newBlock: Block, first: seq<Block>, second: seq<Block>) {
    && n.head == Some(newBlock)
    && first != [] && second != [] && first[0] == newBlock && second[0].Id() == n.db.current.headId
    && newBlock in n.index && second[0] in n.index
    && Descends(n.index, first) && Descends(n.index, second)
    && Last(first).previous == Last(second).previous
  }

  lemma BranchesForked(n: Node, newBlock: Block)
    requires n.head == Some(newBlock)
    requires BranchFrom(n.index, newBlock.Id(), n.db.current.headId).Branches?
    ensures
      var r := BranchFrom(n.index, newBlock.Id(), n.db.current.headId);
      Forked(n, newBlock, r.first, r.second)
  {
    BranchShape(n.index, newBlock, n.db.current.headId.block);
  }

  // A branch applied on the parent of its lowest block ends in the chain of its highest.
  lemma BranchApplied(checks: Checks, g: State, n: Node, index: Index, xs: seq<Block>)
    requires n.head.Some? && Replayed(checks, g, n.db)
    requires xs != [] && Descends(index, xs) && Last(xs).previous == n.db.current.headId
    ensures
      var c := Climb(checks, n, Reversed(xs));
      && Replayed(checks, g, c.node.db) && Main(c.node.db) <= ChainTo(xs[0].Id())
      && (c.applied == |xs| <==> Main(c.node.db) == ChainTo(xs[0].Id()))
      && c.node.popped == n.popped && n.log <= c.node.log
  {
    hide OnChain, Climb, Descends, ChainTo;
    var main := Main(n.db);
    MainIs(checks, g, n.db, main);
    ForkedChain(index, main, xs);
    ClimbReplayed(checks, g, n, Reversed(xs));
    LinkedIsChainTo(main + Reversed(xs));
    var c := Climb(checks, n, Reversed(xs));
    assert Last(main + Reversed(xs)) == xs[0];
    assert main + Reversed(xs)[..c.applied] <= main + Reversed(xs);
  }

  lemma SameChainSameState(checks: Checks, g: State, db: History<State>, db': History<State>)
    requires Replayed(checks, g, db) && Replayed(checks, g, db') && Main(db) == Main(db')
    ensures db.current == db'.current
  {
  }

  lemma SwitchKeepsReplay(checks: Checks, g: State, n: Node, newBlock: Block, first: seq<Block>, second: seq<Block>)
    requires Replayed(checks, g, n.db) && Forked(n, newBlock, first, second)
    ensures
      var r := Switch(checks, n, first, second);
      && Replayed(checks, g, r.node.db) && n.log <= r.node.log && EndsWith(r.node.popped, n.popped)
      && SwitchLeaves(n, newBlock, r)
  {
    hide Replayed, Climb, Descends, Main, PopUntil, BranchFrom;
    var p := PopUntil(n, Last(second).previous);
    PopsReplayed(checks, g, n, Last(second).previous);
    if p.ok {
      BranchApplied(checks, g, p.node, n.index, first);
      var c := Climb(checks, p.node, Reversed(first));
      if c.applied < |first| {
        var n1 := c.node.(index := c.node.index - Blocks(Reversed(first)[c.applied..]), head := Some(second[0]));
        PopsReplayed(checks, g, n1, Last(second).previous);
        var p1 := PopUntil(n1, Last(second).previous);
        EndsTransitive(p1.node.popped, n1.popped, n.popped);
        if p1.ok {
          BranchApplied(checks, g, p1.node, n.index, second);
          var c1 := Climb(checks, p1.node, Reversed(second));
          MainOfHead(n.db, second[0]);
          if c1.applied == |second| {
            SameChainSameState(checks, g, n.db, c1.node.db);
          }
        }
      }
    }
  }

  lemma MainOfHead(db: History<State>, b: Block)
    requires b.Id() == db.current.headId
    ensures Main(db) == ChainTo(b.Id())
  {
  }

  lemma NotHigher(n: Node, b: Block, main: seq<Block>)
    requires HeadAfter(n.head, b).previous == n.db.current.headId == HeadId(main) && Linked(main)
    ensures b.Num() <= |main| + 1
  {
    HeadNumber(main);
  }

  // The chain after a switch: that of the new block, the old one, or some lower part of either.
  ghost predicate SwitchLeaves(n: Node, newBlock: Block, r: Pushed) {
    match r.outcome
    case Switched => Main(r.node.db) == ChainTo(newBlock.Id())
    case SwitchRolledBack => Main(r.node.db) == Main(n.db) && r.node.db.current == n.db.current
    case SwitchStuck => Main(r.node.db) <= Main(n.db)
    case RestoreFailed => Main(r.node.db) <= Main(n.db)
    case RollbackStuck => Main(r.node.db) <= ChainTo(newBlock.Id())
    case _ => false
  }

  // The chain after a push.
  ghost predicate PushLeaves(n: Node, b: Block, r: Pushed) {
    match r.outcome
    case Extended => Main(r.node.db) == Main(n.db) + [b]
    case Ignored => r.node.db == n.db
    case RejectedByForkDb => r.node == n
    case RejectedBlock => r.node.db == n.db
    case SwitchUnresolved => r.node.db == n.db
    case LogBroken => Main(r.node.db) == Main(n.db) && r.node.db.current == n.db.current
    case Misapplied => b.previous != n.db.current.headId
    case _ => SwitchLeaves(n, HeadAfter(n.head, b), r)
  }

  /**
   * The fork database accepts the block and its head is a child of the chain's head, but the block itself is
   * not, and would apply to the current state, with a block at hand for every number that is due for the log.
   */
  ghost predicate Misapplies(checks: Checks, n: Node, b: Block) {
    var head, r := HeadAfter(n.head, b), ExecuteBlock(checks, n.db.current, b);
    && Classify(n.index, n.head, n.maxSize, b).Accepted?
    && head.previous == n.db.current.headId != b.previous
    && r.Applied?
    && forall k :: |n.log| < k <= WithIrreversible(r.state).lastIrreversible ==> OnMainBranch(n.index + {b}, head, k).Some?
  }

  // Exactly then a block is applied that does not extend the head.
  lemma MisappliedIff(checks: Checks, n: Node, b: Block)
    ensures Push(checks, n, b).outcome.Misapplied? <==> Misapplies(checks, n, b)
  {
    hide Switch, Classify, ExecuteBlock, TryApply, BranchFrom, HeadAfter, OnMainBranch, WithIrreversible;
    var n1 := Received(n, b);
    SwitchNotMisapplied(checks, n1);
    TryApplyIs(checks, n1, b);
    GrowLogIff(n1.index, n1.head.value, n1.log, WithIrreversible(ExecuteBlock(checks, n.db.current, b).state).lastIrreversible);
  }

  /**
   * Whatever the node holds and whatever is pushed, the state stays the replay of a linked chain and the
   * undo stack that of its prefixes, if and only if the push does not misapply a block. The log is only ever
   * extended, and so is the list of popped transactions, which is never cleared.
   */
  lemma PushKeepsReplay(checks: Checks, g: State, n: Node, b: Block)
    requires Replayed(checks, g, n.db)
    ensures
      var r := Push(checks, n, b);
      && (Replayed(checks, g, r.node.db) <==> !Misapplies(checks, n, b))
      && PushLeaves(n, b, r)
      && n.log <= r.node.log && EndsWith(r.node.popped, n.popped)
  {
    MisappliedIff(checks, n, b);
    hide OnChain, Switch, Classify, ExecuteBlock, TryApply, BranchFrom, Linked, Base, ChainTo, HeadAfter, Irreversible, Misapplies;
    if Push(checks, n, b).outcome.Misapplied? {
      MisappliedBreaks(checks, g, n, b);
    }
    if Classify(n.index, n.head, n.maxSize, b).Accepted? {
      var n1 := Received(n, b);
      var newBlock := n1.head.value;
      var main := Main(n.db);
      MainIs(checks, g, n.db, main);
      if newBlock.previous == n.db.current.headId {
        if b.previous == n.db.current.headId {
          TryApplyOnChain(checks, g, n1, main, b);
          var a := TryApply(checks, n1, b);
          MainIs(checks, g, a.node.db, if a.ok then main + [b] else main);
        } else {
          NotHigher(n, b, main);
          FailedOnChain(checks, g, n1, main, b);
        }
      } else if newBlock.Num() > n.db.current.headNum {
        var r := BranchFrom(n1.index, newBlock.Id(), n.db.current.headId);
        if r.Branches? {
          BranchesForked(n1, newBlock);
          SwitchKeepsReplay(checks, g, n1, newBlock, r.first, r.second);
        }
      }
    }
  }

  // ---------- What Misapplied breaks ----------

  lemma BlockSummary(checks: Checks, s: State, b: Block)
    requires ApplyBlock(checks, s, b).Applied?
    ensures ApplyBlock(checks, s, b).state.summaries == s.summaries[b.Num() % 0x1_0000 := b.Id()]
  {
    TransactionsKeep(checks, s, b.transactions);
  }

  lemma ChainSummary(checks: Checks, g: State, chain: seq<Block>)
    requires Linked(chain) && chain != [] && Replay(checks, g, chain).Applied?
    ensures |chain| % 0x1_0000 in Replay(checks, g, chain).state.summaries
    ensures Replay(checks, g, chain).state.summaries[|chain| % 0x1_0000] == HeadId(chain)
  {
    hide ApplyBlock;
    var n := |chain| - 1;
    LinkedNumbers(chain, n);
    BlockSummary(checks, Replay(checks, g, chain[..n]).state, chain[n]);
  }

  // The two chains that end in one state have one head below it.
  lemma SameBelow(checks: Checks, g: State, main: seq<Block>, other: seq<Block>, b: Block)
    requires Linked(main) && Replay(checks, g, main).Applied? && Linked(other + [b]) && |other| == |main|
    requires Replay(checks, g, other + [b]).Applied?
    requires ApplyBlock(checks, Replay(checks, g, main).state, b) == Replay(checks, g, other + [b])
    ensures b.previous == HeadId(main)
  {
    hide ApplyBlock, Replay;
    LinkedAt(other + [b], |other|);
    assert (other + [b])[..|other|] == other;
    if main != [] {
      LinkedPrefix(other + [b], |other|);
      ReplayPrefix(checks, g, other + [b], |other|);
      ReplayAppend(checks, g, other, b);
      ChainSummary(checks, g, main);
      ChainSummary(checks, g, other);
      BlockSummary(checks, Replay(checks, g, main).state, b);
      BlockSummary(checks, Replay(checks, g, other).state, b);
      var k, after := |main| % 0x1_0000, Replay(checks, g, other + [b]).state.summaries;
      assert b.Num() % 0x1_0000 != k;
      assert after[k] == Replay(checks, g, main).state.summaries[k] == HeadId(main);
      assert after[k] == Replay(checks, g, other).state.summaries[k] == HeadId(other);
    }
  }

  // After a block that does not extend the head has been applied, the state is the replay of no chain.
  lemma MisappliedBreaks(checks: Checks, g: State, n: Node, b: Block)
    requires Replayed(checks, g, n.db) && Push(checks, n, b).outcome.Misapplied?
    ensures !Replayed(checks, g, Push(checks, n, b).node.db)
  {
    hide Switch, Classify, ExecuteBlock, ApplyBlock, TryApply, BranchFrom, Linked, HeadAfter, Irreversible, Replay;
    var n1, main := Received(n, b), Main(n.db);
    SwitchNotMisapplied(checks, n1);
    var db := Push(checks, n, b).node.db;
    assert TryApply(checks, n1, b).ok && db == TryApply(checks, n1, b).node.db;
    TryApplyIs(checks, n1, b);
    ExecutedApplies(checks, n.db.current, b);
    BlockEffect(checks, n.db.current, b);
    MainIs(checks, g, n.db, main);
    if Replayed(checks, g, db) {
      var other := ChainTo(b.previous);
      assert Main(db) == other + [b];
      SameBelow(checks, g, main, other, b);
      assert false;
    }
  }

  lemma SwitchNotMisapplied(checks: Checks, n: Node)
    requires n.head.Some?
    ensures forall first, second | second != [] :: !Switch(checks, n, first, second).outcome.Misapplied?
  {
    hide Climb, PopUntil;
  }
}
