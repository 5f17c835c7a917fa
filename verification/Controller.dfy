/**
 * The chain controller as it is run: the fields changed in place, and the loops of a switch and of its
 * rollback. Each method computes the function of module ChainNode that bears its name.
 */
module Controller {
  import opened Undo
  import opened Common
  import opened ChainTypes
  import opened ChainState
  import opened ForkTree
  import opened ForkDatabase
  import opened Admission
  import opened Evaluators
  import opened ChainNode

  lemma PopLowers(n: Node)
    ensures PopOnce(n).Some? ==>
      var n1 := PopOnce(n).value;
      n.head.Some? && n1.head.Some? && n1.head.value.Num() < n.head.value.Num()
  {
  }

  lemma NoBlocks(xs: seq<Block>)
    requires xs == []
    ensures Blocks(xs) == {}
  {
  }

  lemma BlocksAppend(up: seq<Block>, from: nat, to: nat)
    requires from <= to < |up|
    ensures Blocks(up[from..to + 1]) == Blocks(up[from..to]) + {up[to]}
  {
    assert up[from..to + 1] == up[from..to] + [up[to]];
  }

  class ChainDatabase {
    const checks: Checks
    const store: Store
    const fork: ForkDb
    var blockLog: seq<Block>
    var poppedTx: seq<Transaction>

    ghost function Value(): Node
      reads this, store, fork
    {
      Node(store.db, blockLog, fork.index, fork.head, fork.maxSize, poppedTx)
    }

    /** A fresh node, with the genesis objects created. */
    constructor (checks: Checks, genesis: State)
      ensures this.checks == checks && Value() == Fresh(genesis)
      ensures fresh(store) && fresh(fork)
    {
      this.checks := checks;
      store := new Store(genesis);
      fork := new ForkDb();
      blockLog, poppedTx := [], [];
    }

    /** update_last_irreversible_block; false stands for the exception, which comes after the commit. */
    method UpdateLastIrreversible() returns (ok: bool)
      requires fork.head.Some?
      modifies this`blockLog, store, fork
      ensures Attempt(ok, Value()) == UpdateIrreversible(old(Value()))
      ensures ok <==> forall k :: old(|blockLog|) < k <= WithIrreversible(old(store.db.current)).lastIrreversible ==>
        OnMainBranch(old(fork.index), old(fork.head).value, k).Some?
    {
      hide OnMainBranch, Pruned, History.Commit, Below;
      var s := store.db.current;
      if s.headNum >= IRREVERSIBLE_BLOCK_NUM {
        s := s.(lastIrreversible := s.headNum - IRREVERSIBLE_BLOCK_NUM);
        store.db := store.db.Write(s);
      }
      store.db := store.db.Commit(s.lastIrreversible);
      GrowLogIff(fork.index, fork.head.value, blockLog, s.lastIrreversible);
      var logHead := |blockLog|;
      while logHead < s.lastIrreversible
        invariant logHead == |blockLog| && unchanged(fork)
        invariant GrowLog(fork.index, fork.head.value, blockLog, s.lastIrreversible)
               == GrowLog(fork.index, fork.head.value, old(blockLog), s.lastIrreversible)
        invariant store.db == old(store.db).Write(s).Commit(s.lastIrreversible)
        decreases s.lastIrreversible - logHead
      {
        var item := fork.FetchBlockOnMainBranchByNumber(logHead + 1);
        if item.None? {
          return false;
        }
        blockLog := blockLog + [item.value];
        logHead := logHead + 1;
      }
      fork.SetMaxSize(ForkSize(s));
      ok := true;
    }

    /** _apply_block; false stands for the exception. */
    method DoApplyBlock(b: Block) returns (ok: bool)
      requires fork.head.Some?
      modifies this`blockLog, store, fork
      ensures ok ==>
        && (checks.Merkle() ==> b.merkleRootMatches) && SlotsPassed(old(store.db.current), b.timestamp) > 0
        && ApplyTransactions(checks, old(store.db.current), b.transactions).Applied?
      ensures Attempt(ok, Value()) == ApplyOn(checks, old(Value()), b)
    {
      BlockIff(checks, store.db.current, b);
      ghost var s := store.db.current;
      hide ApplyBlock, SlotsPassed;
      ExecutedApplies(checks, s, b);
      hide UpdateIrreversible, ApplyTransactions, SlotAt, WithGlobals, WithSummary, WithoutExpired;
      if checks.Merkle() && !b.merkleRootMatches {
        return false;
      }
      ok := store.DoApplyTransactions(checks, b.transactions);
      if !ok {
        return;
      }
      if SlotAt(store.db.current, b.timestamp) == 0 {
        return false;
      }
      store.db := store.db.Write(WithGlobals(store.db.current, b));
      ok := UpdateLastIrreversible();
      if !ok {
        return;
      }
      store.db := store.db.Write(WithSummary(store.db.current, b));
      store.ClearExpired();
    }

    // A block in a session of its own, which an exception undoes.
    method ApplyInSession(b: Block) returns (ok: bool)
      requires fork.head.Some?
      modifies this`blockLog, store, fork
      ensures Attempt(ok, Value()) == TryApply(checks, old(Value()), b)
    {
      hide ApplyOn, History.UndoTop;
      store.db := store.db.StartSession();
      ok := DoApplyBlock(b);
      if !ok {
        store.db := store.db.UndoTop();
      }
    }

    /** fetch_block_by_id */
    function FetchBlockById(id: BlockId): Option<Block>
      reads this, fork
      ensures FetchBlockById(id) == Value().Fetch(id)
    {
      if Indexed(fork.index, id) then Some(id.block)
      else if id.IdOf? && 0 < id.Num() <= |blockLog| && blockLog[id.Num() - 1].Id() == id then Some(id.block)
      else None
    }

    /** pop_block; false stands for the exception, before which nothing was undone. */
    method PopBlock() returns (ok: bool)
      modifies this`poppedTx, store, fork`head
      ensures ok ==> old(store.db.current.headId).IdOf? && store.db == old(store.db).UndoTop()
      ensures ok ==> old(fork.head).Some? && fork.head.Some? && fork.head.value.Id() == old(fork.head).value.previous
      ensures ok ==> poppedTx == old(store.db.current.headId).block.transactions + old(poppedTx)
      ensures ok <==> PopOnce(old(Value())).Some?
      ensures Value() == if ok then PopOnce(old(Value())).value else old(Value())
    {
      var block := FetchBlockById(store.db.current.headId);
      if block.None? {
        return false;
      }
      ok := fork.PopBlock();
      if !ok {
        return;
      }
      store.db := store.db.UndoTop();
      poppedTx := block.value.transactions + poppedTx;
    }

    // The two loops of pops; false when one of them throws.
    method PopTo(stop: BlockId) returns (ok: bool)
      modifies this`poppedTx, store, fork`head
      ensures Attempt(ok, Value()) == PopUntil(old(Value()), stop)
    {
      hide PopOnce;
      while store.db.current.headId != stop
        invariant PopUntil(Value(), stop) == PopUntil(old(Value()), stop)
        decreases if fork.head.Some? then fork.head.value.Num() + 1 else 0
      {
        ghost var before := Value();
        ok := PopBlock();
        if !ok {
          return;
        }
        PopLowers(before);
      }
      ok := true;
    }

    // Applies the blocks of a branch from its end on; `left` of them are left when one throws.
    method ApplyBranch(branch: seq<Block>) returns (left: nat)
      requires fork.head.Some?
      modifies this`blockLog, store, fork
      ensures left <= |branch|
      ensures Climbed(Value(), |branch| - left) == Climb(checks, old(Value()), Reversed(branch))
    {
      hide TryApply;
      left := |branch|;
      ghost var up := Reversed(branch);
      assert up[0..] == up;
      while left > 0
        invariant 0 <= left <= |branch| && fork.head.Some?
        invariant
          var rest := Climb(checks, Value(), up[|branch| - left..]);
          Climb(checks, old(Value()), up) == Climbed(rest.node, rest.applied + |branch| - left)
      {
        assert up[|branch| - left..][0] == branch[left - 1];
        assert up[|branch| - left..][1..] == up[|branch| - left + 1..];
        var ok := ApplyInSession(branch[left - 1]);
        if !ok {
          return;
        }
        left := left - 1;
      }
    }

    /**
     * What a failed switch does: forget the failed block and those above it, pop the applied part of the
     * new branch and apply the old branch again.
     */
    method RollBack(first: seq<Block>, second: seq<Block>, failed: nat) returns (r: PushOutcome)
      requires second != [] && failed <= |first|
      modifies this`poppedTx, this`blockLog, store, fork
      ensures Pushed(r, Value()) == Rollback(checks, old(Value()), first, second, |first| - failed)
    {
      hide Climb, PopUntil, Blocks, Reversed;
      ForgetFailed(first, failed);
      fork.SetHead(second[0]);
      var ok := PopTo(Last(second).previous);
      if !ok {
        return RollbackStuck;
      }
      var left := ApplyBranch(second);
      r := if left == 0 then SwitchRolledBack else RestoreFailed;
    }

    // Removes the failed block and those above it.
    method ForgetFailed(first: seq<Block>, failed: nat)
      requires failed <= |first|
      modifies fork`index
      ensures fork.index == old(fork.index) - Blocks(Reversed(first)[|first| - failed..])
    {
      hide Blocks;
      var k := failed;
      ghost var up := Reversed(first);
      NoBlocks(up[|first| - failed..|first| - k]);
      while k > 0
        invariant 0 <= k <= failed
        invariant fork.index == old(fork.index) - Blocks(up[|first| - failed..|first| - k])
      {
        BlocksAppend(up, |first| - failed, |first| - k);
        fork.Remove(first[k - 1]);
        k := k - 1;
      }
      assert up[|first| - failed..|first|] == up[|first| - failed..];
    }

    /** The rest of _push_block once the two branches are known. */
    method SwitchTo(first: seq<Block>, second: seq<Block>) returns (r: PushOutcome)
      requires fork.head.Some? && second != []
      modifies this`poppedTx, this`blockLog, store, fork
      ensures Pushed(r, Value()) == Switch(checks, old(Value()), first, second)
    {
      hide Climb, PopUntil, Rollback;
      var ok := PopTo(Last(second).previous);
      if !ok {
        return SwitchStuck;
      }
      var left := ApplyBranch(first);
      if left == 0 {
        return Switched;
      }
      r := RollBack(first, second, left);
    }

    /** _push_block, with no pending transaction session open. */
    method DoPushBlock(b: Block) returns (r: PushOutcome)
      modifies this`poppedTx, this`blockLog, store, fork
      ensures Pushed(r, Value()) == Push(checks, old(Value()), b)
    {
      hide Switch, Classify, Branch, TryApply, ExecuteBlock;
      var pushed := fork.PushBlock(b);
      if !pushed.Accepted? {
        return RejectedByForkDb;
      }
      var newBlock := fork.head.value;
      if newBlock.previous != store.db.current.headId {
        if newBlock.Num() <= store.db.current.headNum {
          return Ignored;
        }
        var branches := fork.FetchBranchFrom(newBlock.Id(), store.db.current.headId);
        if branches.Unlinked? {
          return SwitchUnresolved;
        }
        r := SwitchTo(branches.first, branches.second);
      } else {
        r := PushOnHead(b);
      }
    }

    // _push_block where the fork database's head is a child of the chain's.
    method PushOnHead(b: Block) returns (r: PushOutcome)
      requires fork.head.Some?
      modifies this`blockLog, store, fork
      ensures Pushed(r, Value()) == ApplyDirectly(checks, old(Value()), b)
    {
      hide TryApply, ExecuteBlock;
      // only to name the outcome
      var child, threw := b.previous == store.db.current.headId, ExecuteBlock(checks, store.db.current, b).Threw?;
      var ok := ApplyInSession(b);
      if ok {
        return if child then Extended else Misapplied;
      }
      fork.Remove(b);
      r := if threw then RejectedBlock else LogBroken;
    }
  }
}
