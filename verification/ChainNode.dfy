/**
 * The chain controller as functions on the node's whole state: applying a block in a session, popping
 * one, switching to a longer fork, rolling a failed switch back, and _push_block over all of these.
 * Every exception is a result, together with the state it leaves behind.
 */
module ChainNode {
  import opened Undo
  import opened Common
  import opened ChainTypes
  import opened ChainState
  import opened ForkTree
  import opened ForkDatabase

  datatype PushOutcome =
    | Extended             // the block was applied on top of the head
    | Switched             // a longer fork was applied instead
    | Ignored              // kept in the fork database only
    | RejectedByForkDb     // too old, or its parent is unknown; exception
    | RejectedBlock        // it did not apply; exception
    | LogBroken            // it applied, but a block for the log was not found; exception
    | SwitchUnresolved     // the two branches could not be traced back; exception
    | SwitchStuck          // the pops down to the common parent threw
    | SwitchRolledBack     // a block of the fork threw, and the old branch was restored; exception
    | RollbackStuck        // the rollback itself could not pop; exception
    | RestoreFailed        // a block of the old branch did not apply again; exception
    | Misapplied           // applied although it does not extend the head

  datatype Node = Node(
    db: History<State>,         // the object database
    log: seq<Block>,            // the block log
    index: Index,               // the fork database
    head: Option<Block>,
    maxSize: nat,
    popped: seq<Transaction>)   // _popped_tx
  {
    // fetch_block_by_id: the fork database first, then the block log.
    function Fetch(id: BlockId): Option<Block> {
      if Indexed(index, id) then Some(id.block)
      else if id.IdOf? && 0 < id.Num() <= |log| && log[id.Num() - 1].Id() == id then Some(id.block)
      else None
    }
  }

  // A block is found when the fork database has it, or when it is the one logged under its number.
  lemma FetchIs(n: Node, id: BlockId, b: Block)
    ensures n.Fetch(id) == Some(b) <==>
      b.Id() == id && (b in n.index || exists i :: 0 <= i < |n.log| && i + 1 == b.Num() && n.log[i] == b)
  {
    if b.Id() == id && n.Fetch(id) == Some(b) && b !in n.index {
      assert n.log[b.Num() - 1] == b;
    }
  }

  datatype Attempt = Attempt(ok: bool, node: Node)

  datatype Pushed = Pushed(outcome: PushOutcome, node: Node)

  // The fork database's max_size after a block: 32-bit unsigned arithmetic.
  function ForkSize(s: State): nat {
    (s.headNum - s.lastIrreversible + 1) % 0x1_0000_0000
  }

  // ---------- update_last_irreversible_block ----------

  datatype Growth = Growth(complete: bool, log: seq<Block>)

  // Appends to the log up to block number upTo, or to the first number of which no block is found.
  ghost function GrowLog(index: Index, head: Block, log: seq<Block>, upTo: nat): Growth
    decreases upTo - |log|
  {
    if upTo <= |log| then Growth(true, log)
    else match OnMainBranch(index, head, |log| + 1)
      case None => Growth(false, log)
      case Some(b) => GrowLog(index, head, log + [b], upTo)
  }

  lemma GrowLogKeeps(index: Index, head: Block, log: seq<Block>, upTo: nat)
    ensures log <= GrowLog(index, head, log, upTo).log
    decreases upTo - |log|
  {
    if upTo > |log| && OnMainBranch(index, head, |log| + 1).Some? {
      GrowLogKeeps(index, head, log + [OnMainBranch(index, head, |log| + 1).value], upTo);
    }
  }

  // The log can be kept up exactly when a block is found for every number it lacks; what is appended before
  // the first that is missing stays.
  lemma {:induction false} GrowLogIff(index: Index, head: Block, log: seq<Block>, upTo: nat)
    ensures
      var grown := GrowLog(index, head, log, upTo);
      && (grown.complete <==> forall k :: |log| < k <= upTo ==> OnMainBranch(index, head, k).Some?)
      && (forall k :: |log| < k <= |grown.log| ==> OnMainBranch(index, head, k) == Some(grown.log[k - 1]))
      && (!grown.complete ==> OnMainBranch(index, head, |grown.log| + 1).None? && |grown.log| < upTo)
      && (grown.complete ==> |grown.log| == if upTo > |log| then upTo else |log|)
    decreases upTo - |log|
  {
    hide OnMainBranch;
    if upTo > |log| && OnMainBranch(index, head, |log| + 1).Some? {
      var log1 := log + [OnMainBranch(index, head, |log| + 1).value];
      GrowLogIff(index, head, log1, upTo);
      GrowLogKeeps(index, head, log1, upTo);
      assert GrowLog(index, head, log, upTo).log[|log|] == log1[|log|];
    }
  }

  // The commit comes before the log: an exception there leaves it done.
  ghost function UpdateIrreversible(n: Node): (r: Attempt)
    requires n.head.Some?
    ensures r.node.head == n.head
  {
    var s := WithIrreversible(n.db.current);
    var grown := GrowLog(n.index, n.head.value, n.log, s.lastIrreversible);
    var n1 := n.(db := n.db.Write(s).Commit(s.lastIrreversible), log := grown.log);
    if !grown.complete then Attempt(false, n1)
    else Attempt(true, n1.(index := Pruned(n.index, Below(n.head.value.Num(), ForkSize(s))), maxSize := ForkSize(s)))
  }

  // ---------- apply_block, alone and in a session ----------

  ghost function ApplyOn(checks: Checks, n: Node, b: Block): (r: Attempt)
    requires n.head.Some?
    ensures r.node.head == n.head
  {
    var r := ExecuteBlock(checks, n.db.current, b);
    var a := UpdateIrreversible(n.(db := n.db.Write(r.state)));
    if r.Threw? then Attempt(false, n.(db := n.db.Write(r.state)))
    else if !a.ok then a
    else Attempt(true, a.node.(db := a.node.db.Write(WithoutExpired(WithSummary(a.node.db.current, b)))))
  }

  // On an exception the session is undone.
  ghost function TryApply(checks: Checks, n: Node, b: Block): (r: Attempt)
    requires n.head.Some?
    ensures r.node.head == n.head
  {
    var a := ApplyOn(checks, n.(db := n.db.StartSession()), b);
    if a.ok then a else Attempt(false, a.node.(db := a.node.db.UndoTop()))
  }

  datatype Climbed = Climbed(node: Node, applied: nat)

  // The blocks one after the other, each in a session of its own, up to the first that throws.
  ghost function Climb(checks: Checks, n: Node, blocks: seq<Block>): (r: Climbed)
    requires n.head.Some?
    ensures r.node.head == n.head && r.applied <= |blocks|
    decreases |blocks|
  {
    if blocks == [] then Climbed(n, 0)
    else
      var a := TryApply(checks, n, blocks[0]);
      if !a.ok then Climbed(a.node, 0)
      else
        var c := Climb(checks, a.node, blocks[1..]);
        Climbed(c.node, c.applied + 1)
  }

  // ---------- pop_block ----------

  // The exceptions come before anything is undone. Undoing with nothing left to undo changes nothing.
  function PopOnce(n: Node): Option<Node> {
    var block := n.Fetch(n.db.current.headId);
    if block.None? || n.head.None? || Prev(n.index, n.head.value).None? then None
    else Some(n.(db := n.db.UndoTop(), head := Prev(n.index, n.head.value), popped := block.value.transactions + n.popped))
  }

  function PopUntil(n: Node, stop: BlockId): (r: Attempt)
    ensures n.head.Some? ==> r.node.head.Some?
    ensures r.ok ==> r.node.db.current.headId == stop
    ensures r.node.log == n.log && r.node.index == n.index
    decreases if n.head.Some? then n.head.value.Num() + 1 else 0
  {
    if n.db.current.headId == stop then Attempt(true, n)
    else match PopOnce(n)
      case None => Attempt(false, n)
      case Some(n1) => PopUntil(n1, stop)
  }

  // ---------- _push_block ----------

  function Blocks(xs: seq<Block>): Index {
    set b | b in xs
  }

  // `applied` blocks of the new branch stand on the common parent, the next one threw.
  ghost function Rollback(checks: Checks, n: Node, first: seq<Block>, second: seq<Block>, applied: nat): Pushed
    requires second != [] && applied <= |first|
  {
    var n1 := n.(index := n.index - Blocks(Reversed(first)[applied..]), head := Some(second[0]));
    var p := PopUntil(n1, Last(second).previous);
    if !p.ok then Pushed(RollbackStuck, p.node)
    else
      var c := Climb(checks, p.node, Reversed(second));
      Pushed(if c.applied == |second| then SwitchRolledBack else RestoreFailed, c.node)
  }

  ghost function Switch(checks: Checks, n: Node, first: seq<Block>, second: seq<Block>): Pushed
    requires n.head.Some? && second != []
  {
    var p := PopUntil(n, Last(second).previous);
    if !p.ok then Pushed(SwitchStuck, p.node)
    else
      var c := Climb(checks, p.node, Reversed(first));
      if c.applied == |first| then Pushed(Switched, c.node)
      else Rollback(checks, c.node, first, second, c.applied)
  }

  ghost function ApplyDirectly(checks: Checks, n: Node, b: Block): Pushed
    requires n.head.Some?
  {
    var a := TryApply(checks, n, b);
    if a.ok then Pushed(if b.previous == n.db.current.headId then Extended else Misapplied, a.node)
    else
      var threw := ExecuteBlock(checks, n.db.current, b).Threw?;
      Pushed(if threw then RejectedBlock else LogBroken, a.node.(index := a.node.index - {b}))
  }

  // The node once its fork database has taken the block.
  function Received(n: Node, b: Block): Node {
    n.(index := n.index + {b}, head := Some(HeadAfter(n.head, b)))
  }

  // push_block of the fork database answers with its head, and _push_block goes on from that.
  ghost function Push(checks: Checks, n: Node, b: Block): Pushed {
    if !Classify(n.index, n.head, n.maxSize, b).Accepted? then Pushed(RejectedByForkDb, n)
    else
      var n1 := Received(n, b);
      var newBlock := n1.head.value;
      if newBlock.previous == n.db.current.headId then ApplyDirectly(checks, n1, b)
      else if newBlock.Num() <= n.db.current.headNum then Pushed(Ignored, n1)
      else
        var r := BranchFrom(n1.index, newBlock.Id(), n.db.current.headId);
        if r.Unlinked? then Pushed(SwitchUnresolved, n1)
        else Switch(checks, n1, r.first, r.second)
  }

  // A fresh node, with the genesis objects created.
  function Fresh(g: State): Node {
    Node(History(g, [], 0), [], {}, None, 1024, [])
  }
}
