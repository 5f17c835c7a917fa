/**
 * What it means for the undo history, the block log and the fork index to agree
 * with a main chain, and how the single steps of the controller keep it so.
 */
module MainChain {
  import opened Undo
  import opened Common
  import opened ChainTypes
  import opened ChainState
  import opened ForkTree
  import opened ForkDatabase

  // ---------- The undo history ----------

  function StateOf(checks: Checks, g: State, main: seq<Block>): State {
    Replay(checks, g, main).state
  }

  // The state is the replay of the main chain, and the saved states are replays of its prefixes.
  ghost predicate OnChain(checks: Checks, g: State, db: History<State>, main: seq<Block>) {
    && IsGenesis(g)
    && Linked(main)
    && Replay(checks, g, main).Applied?
    && db.current == StateOf(checks, g, main)
    && db.revision == |main|
    && SavedOn(checks, g, db.saved, main)
  }

  ghost predicate SavedOn(checks: Checks, g: State, saved: seq<State>, main: seq<Block>) {
    && |saved| <= |main|
    && (forall i :: 0 <= i < |saved| ==> saved[i] == StateOf(checks, g, main[..|main| - |saved| + i]))
  }

  lemma SavedFits(checks: Checks, g: State, saved: seq<State>, main: seq<Block>)
    requires SavedOn(checks, g, saved, main)
    ensures |saved| <= |main|
  {
  }

  lemma SavedAppend(checks: Checks, g: State, saved: seq<State>, main: seq<Block>, b: Block)
    requires SavedOn(checks, g, saved, main)
    ensures SavedOn(checks, g, saved + [StateOf(checks, g, main)], main + [b])
  {
    var saved', main' := saved + [StateOf(checks, g, main)], main + [b];
    forall i | 0 <= i < |saved'|
      ensures saved'[i] == StateOf(checks, g, main'[..|main'| - |saved'| + i])
    {
      var m := |main| - |saved| + i;
      assert main'[..m] == main[..m];
      if i == |saved| {
        assert main[..m] == main;
      }
    }
  }

  lemma SavedDrop(checks: Checks, g: State, saved: seq<State>, main: seq<Block>, k: nat)
    requires SavedOn(checks, g, saved, main) && k <= |saved|
    ensures SavedOn(checks, g, saved[k..], main)
  {
    forall i | 0 <= i < |saved| - k
      ensures saved[k..][i] == StateOf(checks, g, main[..|main| - (|saved| - k) + i])
    {
      assert saved[k..][i] == saved[k + i];
    }
  }

  lemma SavedPop(checks: Checks, g: State, saved: seq<State>, main: seq<Block>)
    requires SavedOn(checks, g, saved, main) && saved != []
    ensures SavedOn(checks, g, saved[..|saved| - 1], main[..|main| - 1])
    ensures saved[|saved| - 1] == StateOf(checks, g, main[..|main| - 1])
  {
    hide StateOf;
    var n := |main| - 1;
    var saved' := saved[..|saved| - 1];
    forall i | 0 <= i < |saved'|
      ensures saved'[i] == StateOf(checks, g, main[..n][..n - |saved'| + i])
    {
      assert saved'[i] == saved[i];
      assert main[..n][..n - |saved'| + i] == main[..|main| - |saved| + i];
    }
    assert saved[|saved| - 1] == StateOf(checks, g, main[..|main| - |saved| + (|saved| - 1)]);
  }

  // The height below which nothing can be undone.
  function Base(db: History<State>, main: seq<Block>): int {
    |main| - |db.saved|
  }

  lemma OnChainHead(checks: Checks, g: State, db: History<State>, main: seq<Block>)
    requires OnChain(checks, g, db, main)
    ensures db.current.headNum == |main| && db.current.headId == HeadId(main)
    ensures db.current.lastIrreversible == Irreversible(|main|)
    ensures main != [] ==> HeadId(main).Num() == |main|
  {
    ReplayHead(checks, g, main);
    if main != [] {
      LinkedNumbers(main, |main| - 1);
    }
  }

  // The history after a block has been applied inside a session that was then pushed.
  function AfterApply(checks: Checks, db: History<State>, b: Block): History<State> {
    var s := ApplyBlock(checks, db.current, b).state;
    db.StartSession().Write(s).Commit(s.lastIrreversible)
  }

  lemma AppliedOnChain(checks: Checks, g: State, db: History<State>, main: seq<Block>, b: Block)
    requires OnChain(checks, g, db, main) && b.previous == HeadId(main)
    requires ApplyBlock(checks, db.current, b).Applied?
    ensures OnChain(checks, g, AfterApply(checks, db, b), main + [b])
    ensures Base(AfterApply(checks, db, b), main + [b]) ==
      if Irreversible(|main| + 1) > Base(db, main) then Irreversible(|main| + 1) else Base(db, main)
    ensures AfterApply(checks, db, b).current.lastIrreversible == Irreversible(|main| + 1)
  {
    var s := ApplyBlock(checks, db.current, b).state;
    OnChainHead(checks, g, db, main);
    BlockEffect(checks, db.current, b);
    LinkedAppend(main, b);
    ReplayAppend(checks, g, main, b);
    SavedAppend(checks, g, db.saved, main, b);
    var db1 := db.StartSession().Write(s);
    SavedDrop(checks, g, db1.saved, main + [b], db1.Committed(s.lastIrreversible));
  }

  lemma PoppedOnChain(checks: Checks, g: State, db: History<State>, main: seq<Block>)
    requires OnChain(checks, g, db, main) && db.saved != []
    ensures OnChain(checks, g, db.UndoTop(), main[..|main| - 1])
    ensures Base(db.UndoTop(), main[..|main| - 1]) == Base(db, main)
  {
    hide Linked, IsGenesis, Replay, SavedOn, StateOf;
    assert |db.saved| <= |main| by {
      SavedFits(checks, g, db.saved, main);
    }
    ReplayPrefix(checks, g, main, |main| - 1);
    LinkedPrefix(main, |main| - 1);
    SavedPop(checks, g, db.saved, main);
  }

  // The history is determined by the chain and the base.
  lemma SameHistory(checks: Checks, g: State, db: History<State>, db': History<State>, main: seq<Block>)
    requires OnChain(checks, g, db, main) && OnChain(checks, g, db', main)
    requires |db.saved| == |db'.saved|
    ensures db == db'
  {
    assert db.saved == db'.saved;
  }

  lemma NextApplies(checks: Checks, g: State, db: History<State>, chain: seq<Block>, n: nat)
    requires n < |chain| && OnChain(checks, g, db, chain[..n]) && Replay(checks, g, chain).Applied?
    ensures ApplyBlock(checks, db.current, chain[n]).Applied?
  {
    hide ApplyBlock, Replay, Linked, SavedOn;
    ReplayPrefix(checks, g, chain, n + 1);
    assert chain[..n + 1] == chain[..n] + [chain[n]];
    ReplayAppend(checks, g, chain[..n], chain[n]);
  }

  // ---------- The fork index ----------

  // The index still holds the blocks of the chain from number `low` up.
  ghost predicate Retained(index: Index, chain: seq<Block>, low: int) {
    forall k :: 0 <= k < |chain| && low <= k + 1 ==> chain[k] in index
  }

  lemma PrunedRetains(index: Index, chain: seq<Block>, low: int, bound: nat)
    requires Retained(index, chain, low) && Linked(chain) && bound <= low
    ensures Retained(Pruned(index, bound), chain, low)
  {
    forall k | 0 <= k < |chain| && low <= k + 1 ensures chain[k] in Pruned(index, bound) {
      LinkedNumbers(chain, k);
    }
  }

  // Pruning above the lowest block needed loses it.
  lemma PrunedLoses(index: Index, chain: seq<Block>, low: nat, bound: nat)
    requires Linked(chain) && 1 <= low <= |chain| && low < bound
    ensures !Retained(Pruned(index, bound), chain, low)
  {
    LinkedNumbers(chain, low - 1);
    assert chain[low - 1] !in Pruned(index, bound);
    assert low <= (low - 1) + 1;
  }

  lemma PrunedTwice(index: Index, high: nat, low: nat)
    requires low <= high
    ensures Pruned(Pruned(index, high), low) == Pruned(index, high)
  {
  }

  lemma {:induction false} WalkOnChain(index: Index, chain: seq<Block>, low: int, k: nat, num: nat)
    requires Linked(chain) && Retained(index, chain, low)
    requires 1 <= num && low <= num <= k + 1 <= |chain|
    ensures WalkTo(index, chain[k], num) == Some(chain[num - 1])
    decreases k
  {
    LinkedNumbers(chain, k);
    if k + 1 > num {
      assert LinksAt(chain, k);
      WalkOnChain(index, chain, low, k - 1, num);
    }
  }

  lemma LookupFromChain(index: Index, chain: seq<Block>, low: int, k: nat, num: nat)
    requires Linked(chain) && Retained(index, chain, low)
    requires 1 <= num && low <= num <= k + 1 <= |chain|
    ensures OnMainBranch(index, chain[k], num) == Some(chain[num - 1])
  {
    LinkedNumbers(chain, k);
    LinkedNumbers(chain, num - 1);
    WalkOnChain(index, chain, low, k, num);
    OnMainBranchFinds(index, chain[k], num, chain[num - 1]);
  }
}
