/**
 * The chain state and what applying a transaction or a block does to it
 * (database.cpp and the three evaluators), as functions. An application that
 * throws leaves a partly changed state behind, which `Threw` carries.
 */
module ChainState {
  import opened Common
  import opened Words
  import opened ChainTypes

  datatype Authority = Authority(posting: Key, owner: Key)

  datatype State = State(
    headNum: nat,
    headId: BlockId,
    time: nat,
    lastIrreversible: nat,
    currentSlot: nat,
    balances: map<Name, int>,
    authorities: map<Name, Authority>,
    recent: map<TransactionId, nat>,   // transaction_object: id to expiration
    summaries: map<nat, BlockId>)      // block_summary_object: a missing row is one not written yet

  const SKIP_TRANSACTION_SIGNATURES := 2
  const SKIP_TRANSACTION_DUPE_CHECK := 4
  const SKIP_TAPOS_CHECK := 32
  const SKIP_AUTHORITY_CHECK := 64
  const SKIP_MERKLE_CHECK := 128
  const SKIP_VALIDATE := 1024

  // The word of skip flags, and which checks it leaves on.
  datatype Checks = Checks(skip: u64) {
    predicate Validate() {
      And(skip, SKIP_VALIDATE) == 0
    }

    predicate Tapos() {
      And(skip, SKIP_TAPOS_CHECK) == 0
    }

    predicate Authority() {
      And(skip, Or(SKIP_TRANSACTION_SIGNATURES, SKIP_AUTHORITY_CHECK)) == 0
    }

    // Whether a transaction_object is created.
    predicate Dupes() {
      And(skip, SKIP_TRANSACTION_DUPE_CHECK) == 0
    }

    predicate Merkle() {
      And(skip, SKIP_MERKLE_CHECK) == 0
    }

    // The duplicate assertion, whose flags are combined with | where the other checks have &.
    predicate DupeAssertion(known: bool) {
      Or(skip, SKIP_TRANSACTION_DUPE_CHECK) != 0 || !known
    }
  }

  // Whatever the flags, and whether or not the transaction is known, that assertion holds.
  lemma DupeAssertionHolds(checks: Checks, known: bool)
    ensures checks.DupeAssertion(known)
  {
    OrAtLeast(checks.skip, SKIP_TRANSACTION_DUPE_CHECK);
  }

  lemma {:induction false} OrAtLeast(a: nat, b: nat)
    ensures Or(a, b) >= b
    decreases b
  {
    if a > 0 && b > 0 {
      OrAtLeast(a / 2, b / 2);
    }
  }

  datatype Outcome = Applied(state: State) | Threw(state: State)

  // ---------- Evaluators ----------

  function Sum(credits: seq<Credit>): int {
    if credits == [] then 0 else credits[0].amount + Sum(credits[1..])
  }

  function CreditAll(balances: map<Name, int>, credits: seq<Credit>): (r: map<Name, int>)
    requires forall i :: 0 <= i < |credits| ==> credits[i].name in balances
    ensures r.Keys == balances.Keys
  {
    if credits == [] then balances
    else
      var c := credits[0];
      CreditAll(balances[c.name := balances[c.name] + c.amount], credits[1..])
  }

  function ApplyOperation(s: State, op: Operation): Outcome {
    match op
    case CreateAccount(name, creator, posting, owner) =>
      if creator !in s.balances || name in s.balances then Threw(s)
      else
        var s1 := s.(balances := s.balances[name := 0]);
        if name in s1.authorities then Threw(s1)
        else Applied(s1.(authorities := s1.authorities[name := Authority(posting, owner)]))
    case Transfer(from, to, amount) =>
      if from !in s.balances || to !in s.balances || s.balances[from] < amount then Threw(s)
      else
        var b1 := s.balances[from := s.balances[from] - amount];
        Applied(s.(balances := b1[to := b1[to] + amount]))
    case Transfers(from, toNames) =>
      if from !in s.balances || (exists i :: 0 <= i < |toNames| && toNames[i].name !in s.balances) then Threw(s)
      else if s.balances[from] < Sum(toNames) then Threw(s)
      else Applied(s.(balances := CreditAll(s.balances[from := s.balances[from] - Sum(toNames)], toNames)))
  }

  function ApplyOperations(s: State, ops: seq<Operation>): Outcome
    decreases |ops|
  {
    if ops == [] then Applied(s)
    else
      var r := ApplyOperation(s, ops[0]);
      if r.Threw? then r else ApplyOperations(r.state, ops[1..])
  }

  // ---------- Transactions ----------

  predicate Validates(id: TransactionId) {
    id.operations != [] && forall i :: 0 <= i < |id.operations| ==> id.operations[i].Validates()
  }

  function Summary(s: State, num: nat): BlockId {
    if num in s.summaries then s.summaries[num] else NO_BLOCK
  }

  function Prefix(id: BlockId): nat {
    id.Hash() % 0x1_0000_0000
  }

  predicate TaposMatches(s: State, id: TransactionId) {
    id.refBlockPrefix == Prefix(Summary(s, id.refBlockNum))
  }

  // verify_authority: every signing account's posting key is there, and no key is there needlessly.
  predicate Authorized(s: State, t: Transaction) {
    && (forall i :: 0 <= i < |t.id.operations| ==>
          var n := t.id.operations[i].Signer();
          n in s.authorities && s.authorities[n].posting in t.keys)
    && (forall k :: k in t.keys ==>
          exists i :: 0 <= i < |t.id.operations| &&
            var n := t.id.operations[i].Signer();
            n in s.authorities && s.authorities[n].posting == k)
  }

  predicate Admitted(checks: Checks, s: State, t: Transaction) {
    && (checks.Validate() ==> Validates(t.id))
    && checks.DupeAssertion(t.id in s.recent)
    && (s.headNum > 0 ==> (checks.Tapos() ==> TaposMatches(s, t.id)) && t.id.expiration >= s.time)
    && (checks.Authority() ==> Authorized(s, t))
    && (checks.Dupes() ==> t.id !in s.recent)  // the unique index of transaction_object
  }

  function ApplyTransaction(checks: Checks, s: State, t: Transaction): Outcome {
    if !Admitted(checks, s, t) then Threw(s)
    else
      var s1 := if checks.Dupes() then s.(recent := s.recent[t.id := t.id.expiration]) else s;
      ApplyOperations(s1, t.id.operations)
  }

  function ApplyTransactions(checks: Checks, s: State, ts: seq<Transaction>): Outcome
    decreases |ts|
  {
    if ts == [] then Applied(s)
    else
      var r := ApplyTransaction(checks, s, ts[0]);
      if r.Threw? then r else ApplyTransactions(checks, r.state, ts[1..])
  }

  // ---------- Blocks ----------

  function SlotTime(s: State, slot: nat): nat {
    if slot == 0 then 0
    else if s.headNum == 0 then s.time + slot * NEWS_BLOCK_INTERVAL
    else s.time / NEWS_BLOCK_INTERVAL * NEWS_BLOCK_INTERVAL + slot * NEWS_BLOCK_INTERVAL
  }

  function SlotAt(s: State, when: nat): nat {
    var first := SlotTime(s, 1);
    if when < first then 0 else (when - first) / NEWS_BLOCK_INTERVAL + 1
  }

  function WithGlobals(s: State, b: Block): State {
    s.(time := b.timestamp, headNum := b.Num(), headId := b.Id(), currentSlot := s.currentSlot + SlotAt(s, b.timestamp))
  }

  function WithIrreversible(s: State): State {
    if s.headNum >= IRREVERSIBLE_BLOCK_NUM
    then s.(lastIrreversible := s.headNum - IRREVERSIBLE_BLOCK_NUM)
    else s
  }

  function WithSummary(s: State, b: Block): State {
    s.(summaries := s.summaries[b.Num() % 0x1_0000 := b.Id()])
  }

  function WithoutExpired(s: State): State {
    s.(recent := map id | id in s.recent && s.time <= s.recent[id] :: s.recent[id])
  }

  // Everything that can throw, up to and including the global properties.
  function ExecuteBlock(checks: Checks, s: State, b: Block): Outcome {
    if checks.Merkle() && !b.merkleRootMatches then Threw(s)
    else
      var r := ApplyTransactions(checks, s, b.transactions);
      if r.Threw? then r
      else if SlotAt(r.state, b.timestamp) == 0 then Threw(r.state)  // the assert on missed blocks
      else Applied(WithGlobals(r.state, b))
  }

  function FinishBlock(s: State, b: Block): State {
    WithoutExpired(WithSummary(WithIrreversible(s), b))
  }

  function ApplyBlock(checks: Checks, s: State, b: Block): Outcome {
    var r := ExecuteBlock(checks, s, b);
    if r.Threw? then r else Applied(FinishBlock(r.state, b))
  }

  lemma ExecutedApplies(checks: Checks, s: State, b: Block)
    ensures ApplyBlock(checks, s, b).Applied? <==> ExecuteBlock(checks, s, b).Applied?
  {
  }

  // The state after a chain of blocks, oldest first.
  function Replay(checks: Checks, g: State, blocks: seq<Block>): Outcome {
    if blocks == [] then Applied(g)
    else
      var r := Replay(checks, g, blocks[..|blocks| - 1]);
      if r.Threw? then r else ApplyBlock(checks, r.state, blocks[|blocks| - 1])
  }

  lemma ReplayAppend(checks: Checks, g: State, blocks: seq<Block>, b: Block)
    ensures Replay(checks, g, blocks + [b]) ==
      var r := Replay(checks, g, blocks);
      if r.Threw? then r else ApplyBlock(checks, r.state, b)
  {
    assert (blocks + [b])[..|blocks|] == blocks;
  }

  lemma {:induction false} ReplayPrefix(checks: Checks, g: State, blocks: seq<Block>, n: nat)
    requires n <= |blocks| && Replay(checks, g, blocks).Applied?
    ensures Replay(checks, g, blocks[..n]).Applied?
    decreases |blocks|
  {
    if n < |blocks| {
      ReplayPrefix(checks, g, blocks[..|blocks| - 1], n);
      assert blocks[..|blocks| - 1][..n] == blocks[..n];
    } else {
      assert blocks[..n] == blocks;
    }
  }

  predicate IsGenesis(g: State) {
    g.headNum == 0 && g.headId == NO_BLOCK && g.lastIrreversible == 0 && g.recent == map[]
  }

  function Irreversible(num: nat): nat {
    if num >= IRREVERSIBLE_BLOCK_NUM then num - IRREVERSIBLE_BLOCK_NUM else 0
  }

  // What applying transactions leaves alone.
  lemma {:induction false} OperationsKeep(s: State, ops: seq<Operation>)
    ensures
      var r := ApplyOperations(s, ops).state;
      r == s.(balances := r.balances, authorities := r.authorities)
    decreases |ops|
  {
    if ops != [] {
      var r := ApplyOperation(s, ops[0]);
      if r.Applied? {
        OperationsKeep(r.state, ops[1..]);
      }
    }
  }

  lemma {:induction false} TransactionsKeep(checks: Checks, s: State, ts: seq<Transaction>)
    ensures
      var r := ApplyTransactions(checks, s, ts).state;
      r == s.(balances := r.balances, authorities := r.authorities, recent := r.recent)
    decreases |ts|
  {
    if ts != [] {
      OperationsKeep(if checks.Dupes() then s.(recent := s.recent[ts[0].id := ts[0].id.expiration]) else s, ts[0].id.operations);
      var r := ApplyTransaction(checks, s, ts[0]);
      if r.Applied? {
        TransactionsKeep(checks, r.state, ts[1..]);
      }
    }
  }

  // An accepted block lies in a later slot than the head: block times strictly increase.
  lemma LaterSlot(s: State, when: nat)
    ensures SlotAt(s, when) > 0 ==> when > s.time
    ensures SlotAt(s, when) > 0 ==>
      SlotTime(s, SlotAt(s, when)) <= when < SlotTime(s, SlotAt(s, when) + 1)
  {
    var q := s.time / NEWS_BLOCK_INTERVAL;
    assert s.time < q * NEWS_BLOCK_INTERVAL + NEWS_BLOCK_INTERVAL;
  }

  lemma BlockEffect(checks: Checks, s: State, b: Block)
    requires ApplyBlock(checks, s, b).Applied?
    ensures
      var r := ApplyBlock(checks, s, b).state;
      && r.headNum == b.Num() && r.headId == b.Id() && r.time == b.timestamp > s.time
      && r.lastIrreversible == if b.Num() >= IRREVERSIBLE_BLOCK_NUM then b.Num() - IRREVERSIBLE_BLOCK_NUM else s.lastIrreversible
  {
    TransactionsKeep(checks, s, b.transactions);
    LaterSlot(ApplyTransactions(checks, s, b.transactions).state, b.timestamp);
  }

  // ---------- Linked chains ----------

  // The head properties of the state are those of the chain's last block.
  lemma {:induction false} ReplayHead(checks: Checks, g: State, blocks: seq<Block>)
    requires IsGenesis(g) && Linked(blocks) && Replay(checks, g, blocks).Applied?
    ensures
      var s := Replay(checks, g, blocks).state;
      s.headNum == |blocks| && s.headId == HeadId(blocks) && s.lastIrreversible == Irreversible(|blocks|)
    decreases |blocks|
  {
    if blocks != [] {
      var n := |blocks| - 1;
      LinkedPrefix(blocks, n);
      ReplayHead(checks, g, blocks[..n]);
      LinkedNumbers(blocks, n);
      BlockEffect(checks, Replay(checks, g, blocks[..n]).state, blocks[n]);
    }
  }

  lemma {:induction false} ReplayTimes(checks: Checks, g: State, blocks: seq<Block>, i: nat, j: nat)
    requires i < j < |blocks| && Replay(checks, g, blocks).Applied?
    ensures blocks[i].timestamp < blocks[j].timestamp
    decreases |blocks|
  {
    var n := |blocks| - 1;
    hide ApplyBlock;
    BlockEffect(checks, Replay(checks, g, blocks[..n]).state, blocks[n]);
    if j < n {
      ReplayTimes(checks, g, blocks[..n], i, j);
    } else {
      BlockEffect(checks, Replay(checks, g, blocks[..n][..n - 1]).state, blocks[n - 1]);
      if i < n - 1 {
        ReplayTimes(checks, g, blocks[..n], i, n - 1);
      }
    }
  }
}
