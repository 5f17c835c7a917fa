/**
 * What transactions and blocks have to meet to be applied, said of state, transaction and block alone, and what
 * of it holds of every transaction and every block of a chain.
 */
module Admission {
  import opened Common
  import opened Words
  import opened ChainTypes
  import opened ChainState
  import opened OperationEffects

  // ---------- The word of skip flags ----------

  lemma {:induction false} SingleBit(a: nat, k: nat)
    ensures And(a, Pow2(k)) == 0 <==> a / Pow2(k) % 2 == 0
    decreases k
  {
    if k == 0 {
      AndUnfold(a, 1);
    } else {
      SingleBit(a / 2, k - 1);
      AndDouble(a, Pow2(k - 1));
      DivDiv(a, 2, Pow2(k - 1));
    }
  }

  // Each check is on exactly when its bit is not set; that of the authorities needs two.
  lemma FlagBits(checks: Checks)
    ensures checks.Dupes() <==> checks.skip / 4 % 2 == 0
    ensures checks.Tapos() <==> checks.skip / 32 % 2 == 0
    ensures checks.Merkle() <==> checks.skip / 128 % 2 == 0
    ensures checks.Validate() <==> checks.skip / 1024 % 2 == 0
    ensures checks.Authority() <==> checks.skip / 2 % 2 == 0 && checks.skip / 64 % 2 == 0
  {
    var a := checks.skip;
    BitOf(a, 2, 4);
    BitOf(a, 5, 32);
    BitOf(a, 7, 128);
    BitOf(a, 10, 1024);
    BitOf(a, 1, 2);
    BitOf(a, 6, 64);
    TwoBits(a);
  }

  lemma BitOf(a: nat, k: nat, m: nat)
    requires k <= 10 && m == [1, 2, 4, 8, 16, 32, 64, 128, 256, 512, 1024][k]
    ensures And(a, m) == 0 <==> a / m % 2 == 0
  {
    SingleBit(a, k);
    SmallPowers(k);
  }

  lemma SmallPowers(k: nat)
    requires k <= 10
    ensures Pow2(k) == [1, 2, 4, 8, 16, 32, 64, 128, 256, 512, 1024][k]
  {
    if k > 0 {
      SmallPowers(k - 1);
    }
  }

  lemma TwoBits(a: nat)
    ensures And(a, Or(2, 64)) == 0 <==> And(a, 2) == 0 && And(a, 64) == 0
  {
    assert Or(1, 32) == 33 by {
      assert Or(0, 16) == 16;
    }
    assert Or(2, 64) == 66;
    var b := a / 2;
    AndDouble(a, 33);
    AndDouble(a, 1);
    AndDouble(a, 32);
    AndUnfold(b, 33);
    AndUnfold(b, 1);
    AndUnfold(b, 32);
  }

  // ---------- Slots ----------

  // How many slots lie between the head block and a time: from genesis on, or from the slot the head block is in.
  function SlotsPassed(s: State, when: nat): int {
    if s.headNum == 0 then (if when < s.time then 0 else (when - s.time) / NEWS_BLOCK_INTERVAL)
    else when / NEWS_BLOCK_INTERVAL - s.time / NEWS_BLOCK_INTERVAL
  }

  lemma SlotAtIs(s: State, when: nat)
    ensures SlotAt(s, when) == if SlotsPassed(s, when) > 0 then SlotsPassed(s, when) else 0
  {
  }

  // ---------- Blocks ----------

  /** A block applies exactly when its root matches, its transactions apply in order, and its slot lies ahead. */
  lemma BlockIff(checks: Checks, s: State, b: Block)
    ensures ApplyBlock(checks, s, b).Applied? <==>
      && (checks.Merkle() ==> b.merkleRootMatches)
      && ApplyTransactions(checks, s, b.transactions).Applied?
      && SlotsPassed(s, b.timestamp) > 0
    ensures ApplyBlock(checks, s, b).Applied? ==>
      var r := ApplyBlock(checks, s, b).state;
      && r.currentSlot == s.currentSlot + SlotsPassed(s, b.timestamp)
      && r.summaries == s.summaries[b.Num() % 0x1_0000 := b.Id()]
      && r.balances == ApplyTransactions(checks, s, b.transactions).state.balances
      && r.authorities == ApplyTransactions(checks, s, b.transactions).state.authorities
  {
    TransactionsKeep(checks, s, b.transactions);
    SlotAtIs(ApplyTransactions(checks, s, b.transactions).state, b.timestamp);
    hide ApplyTransactions, SlotAt;
  }

  predicate RootsMatch(blocks: seq<Block>) {
    forall b :: b in blocks ==> b.merkleRootMatches
  }

  function SlotOf(g: State, blocks: seq<Block>): int {
    g.currentSlot +
    if blocks == [] then 0
    else (blocks[0].timestamp - g.time) / NEWS_BLOCK_INTERVAL
         + Last(blocks).timestamp / NEWS_BLOCK_INTERVAL - blocks[0].timestamp / NEWS_BLOCK_INTERVAL
  }

  // Every block of a chain has a matching root, and each moves the slot by the slots it passes: all in all by
  // those to the first block and from its slot to the last one's.
  lemma {:induction false} ChainRootsAndSlots(checks: Checks, g: State, blocks: seq<Block>)
    requires IsGenesis(g) && Replay(checks, g, blocks).Applied?
    ensures checks.Merkle() ==> RootsMatch(blocks)
    ensures Replay(checks, g, blocks).state.currentSlot == SlotOf(g, blocks)
    ensures blocks != [] ==> blocks[0].timestamp >= g.time
    decreases |blocks|
  {
    if blocks != [] {
      var n := |blocks| - 1;
      var s := Replay(checks, g, blocks[..n]).state;
      hide ApplyBlock, RootsMatch, SlotOf, SlotsPassed;
      ChainRootsAndSlots(checks, g, blocks[..n]);
      BlockIff(checks, s, blocks[n]);
      if n > 0 {
        BlockEffect(checks, Replay(checks, g, blocks[..n][..n - 1]).state, blocks[n - 1]);
      }
      RootsSnoc(blocks);
      SlotSnoc(g, s, blocks);
    } else {
      SlotSnoc(g, g, blocks);
    }
  }

  lemma RootsSnoc(blocks: seq<Block>)
    requires blocks != []
    ensures RootsMatch(blocks) <==> RootsMatch(blocks[..|blocks| - 1]) && Last(blocks).merkleRootMatches
  {
    assert blocks == blocks[..|blocks| - 1] + [Last(blocks)];
  }

  lemma SlotSnoc(g: State, s: State, blocks: seq<Block>)
    ensures blocks == [] ==> SlotOf(g, blocks) == g.currentSlot && RootsMatch(blocks)
    ensures blocks != [] && (if |blocks| == 1 then s.headNum == 0 && s.time == g.time
                             else s.headNum > 0 && s.time == blocks[|blocks| - 2].timestamp) ==>
      && (SlotsPassed(s, Last(blocks).timestamp) > 0 ==>
            SlotOf(g, blocks) == SlotOf(g, blocks[..|blocks| - 1]) + SlotsPassed(s, Last(blocks).timestamp))
      && (SlotsPassed(s, Last(blocks).timestamp) > 0 && |blocks| == 1 ==> blocks[0].timestamp >= g.time)
  {
  }

  // ---------- Transactions ----------

  // The account that has to sign: who creates, or who pays.
  function Responsible(op: Operation): Name {
    match op
    case CreateAccount(_, creator, _, _) => creator
    case Transfer(from, _, _) => from
    case Transfers(from, _) => from
  }

  // Signed with the posting keys of its responsible accounts, all of them and no others.
  ghost predicate Signed(s: State, t: Transaction) {
    var ops := t.id.operations;
    && (forall i :: 0 <= i < |ops| ==> Responsible(ops[i]) in s.authorities)
    && t.keys == (set i | 0 <= i < |ops| && Responsible(ops[i]) in s.authorities :: s.authorities[Responsible(ops[i])].posting)
  }

  // It names the block that the state has noted under the number: the low 32 bits of the hash part of its id.
  predicate Refers(summaries: map<nat, BlockId>, id: TransactionId) {
    if id.refBlockNum in summaries then id.refBlockPrefix == summaries[id.refBlockNum].Hash() % 0x1_0000_0000
    else id.refBlockPrefix == 0
  }

  ghost predicate Acceptable(checks: Checks, s: State, t: Transaction) {
    && (checks.Validate() ==> t.id.operations != [] && forall op :: op in t.id.operations ==> Sensible(op))
    && (s.headNum > 0 ==> s.time <= t.id.expiration && (checks.Tapos() ==> Refers(s.summaries, t.id)))
    && (checks.Authority() ==> Signed(s, t))
    && (checks.Dupes() ==> t.id !in s.recent)
  }

  lemma ValidatesIs(id: TransactionId)
    ensures Validates(id) <==> id.operations != [] && forall op :: op in id.operations ==> Sensible(op)
  {
    forall i | 0 <= i < |id.operations| ensures id.operations[i].Validates() <==> Sensible(id.operations[i]) {
      SensibleIs(id.operations[i]);
    }
    hide Sensible;
    if forall op :: op in id.operations ==> Sensible(op) {
      forall i | 0 <= i < |id.operations| ensures id.operations[i].Validates() {
        assert id.operations[i] in id.operations;
      }
    }
  }

  lemma AuthorizedIs(s: State, t: Transaction)
    ensures Authorized(s, t) <==> Signed(s, t)
  {
    var ops := t.id.operations;
    var needed := set i | 0 <= i < |ops| && Responsible(ops[i]) in s.authorities :: s.authorities[Responsible(ops[i])].posting;
    forall i | 0 <= i < |ops| ensures ops[i].Signer() == Responsible(ops[i]) {
    }
    if Authorized(s, t) {
      forall k ensures k in t.keys <==> k in needed {
        if k in t.keys {
          var i :| 0 <= i < |ops| && var n := ops[i].Signer(); n in s.authorities && s.authorities[n].posting == k;
          assert s.authorities[Responsible(ops[i])].posting in needed;
        }
      }
    } else if Signed(s, t) {
      forall i | 0 <= i < |ops|
        ensures ops[i].Signer() in s.authorities && s.authorities[ops[i].Signer()].posting in t.keys
      {
        assert s.authorities[Responsible(ops[i])].posting in needed;
      }
    }
  }

  // The state with the transaction remembered.
  function Remembering(checks: Checks, s: State, t: Transaction): State {
    if checks.Dupes() then s.(recent := s.recent[t.id := t.id.expiration]) else s
  }

  /**
   * A transaction applies exactly when it is acceptable and, once it is remembered, its operations can be performed
   * one after the other; what it leaves is where they lead.
   */
  lemma TransactionIff(checks: Checks, s: State, t: Transaction)
    ensures
      var r := ApplyTransaction(checks, s, t);
      && (forall s' :: r == Applied(s') <==> Acceptable(checks, s, t) && Carried(Remembering(checks, s, t), t.id.operations, s'))
      && (r.Applied? ==> r.state.recent == Remembering(checks, s, t).recent)
      && (!Acceptable(checks, s, t) ==> r == Threw(s))
  {
    OperationsIff(Remembering(checks, s, t), t.id.operations);
    hide Carried;
    ValidatesIs(t.id);
    AuthorizedIs(s, t);
    DupeAssertionHolds(checks, t.id in s.recent);
    OperationsKeep(Remembering(checks, s, t), t.id.operations);
    hide ApplyOperations, Validates, Authorized, Signed, Sensible;
  }

  // The state in which a transaction of a block is tried.
  function Before(checks: Checks, s: State, ts: seq<Transaction>, i: nat): State
    requires i <= |ts|
  {
    ApplyTransactions(checks, s, ts[..i]).state
  }

  lemma {:induction false} EachApplied(checks: Checks, s: State, ts: seq<Transaction>, i: nat)
    requires i < |ts| && ApplyTransactions(checks, s, ts).Applied?
    ensures ApplyTransactions(checks, s, ts[..i]).Applied?
    ensures ApplyTransaction(checks, Before(checks, s, ts, i), ts[i]) == Applied(Before(checks, s, ts, i + 1))
    ensures Stay(Before(checks, s, ts, i), ApplyTransactions(checks, s, ts).state)
    decreases i
  {
    var r := ApplyTransaction(checks, s, ts[0]);
    hide ApplyTransaction, Stay;
    if i == 0 {
      BeforeNext(checks, s, ts, 1);
      assert ts[..0] == [] && ts[1..][..0] == [];
      TransactionsStay(checks, s, ts);
    } else {
      BeforeNext(checks, s, ts, i);
      BeforeNext(checks, s, ts, i + 1);
      EachApplied(checks, r.state, ts[1..], i - 1);
    }
  }

  lemma BeforeNext(checks: Checks, s: State, ts: seq<Transaction>, i: nat)
    requires 0 < i <= |ts| && ApplyTransaction(checks, s, ts[0]).Applied?
    ensures
      var s1 := ApplyTransaction(checks, s, ts[0]).state;
      ApplyTransactions(checks, s, ts[..i]) == ApplyTransactions(checks, s1, ts[1..][..i - 1])
  {
    hide ApplyTransaction;
    assert ts[..i][0] == ts[0] && ts[..i][1..] == ts[1..][..i - 1];
  }

  /** Transactions apply in order exactly when each applies where those before it have led; the last leads to the result. */
  lemma {:induction false} InTurnIff(checks: Checks, s: State, ts: seq<Transaction>)
    ensures ApplyTransactions(checks, s, ts).Applied? <==>
      forall i :: 0 <= i < |ts| ==> ApplyTransaction(checks, Before(checks, s, ts, i), ts[i]).Applied?
    ensures Before(checks, s, ts, 0) == s && Before(checks, s, ts, |ts|) == ApplyTransactions(checks, s, ts).state
    decreases |ts|
  {
    hide ApplyTransaction;
    assert ts[..0] == [] && ts[..|ts|] == ts;
    if ApplyTransactions(checks, s, ts).Applied? {
      forall i | 0 <= i < |ts| ensures ApplyTransaction(checks, Before(checks, s, ts, i), ts[i]).Applied? {
        EachApplied(checks, s, ts, i);
      }
    } else if ApplyTransaction(checks, s, ts[0]).Applied? {
      var s1, rest := ApplyTransaction(checks, s, ts[0]).state, ts[1..];
      InTurnIff(checks, s1, rest);
      var i :| 0 <= i < |rest| && ApplyTransaction(checks, Before(checks, s1, rest, i), rest[i]).Threw?;
      BeforeNext(checks, s, ts, i + 1);
      assert ApplyTransaction(checks, Before(checks, s, ts, i + 1), ts[i + 1]).Threw?;
    } else {
      assert ApplyTransaction(checks, Before(checks, s, ts, 0), ts[0]).Threw?;
    }
  }

  // ---------- The blocks a state has noted ----------

  // The highest number up to n that is r modulo 65536; not above 0 when there is no such block.
  function Newest(n: nat, r: nat): int {
    n - (n - r) % 0x1_0000
  }

  lemma NewestNext(n: nat, r: nat)
    requires r < 0x1_0000
    ensures Newest(n + 1, r) == if (n + 1) % 0x1_0000 == r then n + 1 else Newest(n, r)
    ensures Newest(n, r) <= n
    ensures Newest(0, r) <= 0
  {
  }

  // What is noted under r: the newest block of the chain for it, or what genesis had.
  ghost predicate Noted(g: State, s: State, blocks: seq<Block>, r: nat) {
    var m := Newest(|blocks|, r);
    if 1 <= m <= |blocks| then r in s.summaries && s.summaries[r] == blocks[m - 1].Id()
    else (r in s.summaries <==> r in g.summaries) && (r in g.summaries ==> s.summaries[r] == g.summaries[r])
  }

  lemma NotedNext(g: State, s: State, s': State, blocks: seq<Block>, b: Block, r: nat)
    requires r < 0x1_0000 && Noted(g, s, blocks, r)
    requires b.Num() == |blocks| + 1 && s'.summaries == s.summaries[b.Num() % 0x1_0000 := b.Id()]
    ensures Noted(g, s', blocks + [b], r)
  {
    NewestNext(|blocks|, r);
    hide Newest;
  }

  /** Under every number the state has noted the newest block of the chain with that number modulo 65536. */
  lemma {:induction false} SummariesAre(checks: Checks, g: State, blocks: seq<Block>, r: nat)
    requires IsGenesis(g) && Linked(blocks) && Replay(checks, g, blocks).Applied? && r < 0x1_0000
    ensures Noted(g, Replay(checks, g, blocks).state, blocks, r)
    decreases |blocks|
  {
    hide ApplyBlock, Newest, Noted;
    if blocks == [] {
      NothingNoted(g, r);
    } else {
      var n := |blocks| - 1;
      var s := Replay(checks, g, blocks[..n]).state;
      LinkedPrefix(blocks, n);
      LinkedNumbers(blocks, n);
      SummariesAre(checks, g, blocks[..n], r);
      BlockIff(checks, s, blocks[n]);
      NotedNext(g, s, Replay(checks, g, blocks).state, blocks[..n], blocks[n], r);
      assert blocks[..n] + [blocks[n]] == blocks;
    }
  }

  lemma NothingNoted(g: State, r: nat)
    requires r < 0x1_0000
    ensures Noted(g, g, [], r)
  {
    NewestNext(0, r);
  }

  // ---------- The transactions of a chain ----------

  // It was accepted on top of the block below, and what it was applied to has stayed.
  lemma AcceptedInTurn(checks: Checks, g: State, blocks: seq<Block>, k: nat, i: nat)
    requires IsGenesis(g) && Linked(blocks) && Replay(checks, g, blocks).Applied?
    requires k < |blocks| && i < |blocks[k].transactions|
    ensures
      var s := Replay(checks, g, blocks[..k]).state;
      var at := Before(checks, s, blocks[k].transactions, i);
      && Replay(checks, g, blocks[..k]).Applied?
      && Acceptable(checks, at, blocks[k].transactions[i]) && Stay(at, Replay(checks, g, blocks).state)
      && at.headNum == k && at.summaries == s.summaries && (k > 0 ==> at.time == blocks[k - 1].timestamp)
  {
    var s, ts := Replay(checks, g, blocks[..k]).state, blocks[k].transactions;
    var at := Before(checks, s, ts, i);
    TransactionsKeep(checks, s, ts[..i]);
    hide ApplyTransaction, ApplyTransactions, ApplyOperations, Replay, Acceptable, Stay, Linked, Carried;
    BlockOf(checks, g, blocks, k);
    EachApplied(checks, s, ts, i);
    AppliedIsAcceptable(checks, at, ts[i]);
  }

  lemma AppliedIsAcceptable(checks: Checks, s: State, t: Transaction)
    requires ApplyTransaction(checks, s, t).Applied?
    ensures Acceptable(checks, s, t)
  {
    hide ApplyTransaction, Acceptable, Carried, Remembering;
    TransactionIff(checks, s, t);
  }

  /**
   * Every transaction of a chain met the conditions when its turn came, and its keys are those its responsible
   * accounts had then and have to this day.
   */
  lemma ChainAccepted(checks: Checks, g: State, blocks: seq<Block>, k: nat, i: nat)
    requires IsGenesis(g) && Linked(blocks) && Replay(checks, g, blocks).Applied?
    requires k < |blocks| && i < |blocks[k].transactions|
    ensures
      var t, at := blocks[k].transactions[i], Before(checks, Replay(checks, g, blocks[..k]).state, blocks[k].transactions, i);
      && Acceptable(checks, at, t)
      && (checks.Authority() ==> Signed(at, t) && Signed(Replay(checks, g, blocks).state, t))
      && (k > 0 ==> blocks[k - 1].timestamp <= t.id.expiration)
  {
    var s := Replay(checks, g, blocks[..k]).state;
    var t, at := blocks[k].transactions[i], Before(checks, s, blocks[k].transactions, i);
    hide *;
    AcceptedInTurn(checks, g, blocks, k, i);
    SignedLater(at, Replay(checks, g, blocks).state, t);
    AcceptableMeans(checks, at, t);
  }

  // What a transaction gives as prefix is that of the newest of k blocks with the number it refers to.
  ghost predicate NamesNewest(blocks: seq<Block>, k: nat, id: TransactionId)
    requires k <= |blocks|
  {
    var m := Newest(k, id.refBlockNum);
    id.refBlockNum < 0x1_0000 && 1 <= m <= k ==> id.refBlockPrefix == blocks[m - 1].hash % 0x1_0000_0000
  }

  lemma ChainRefers(checks: Checks, g: State, blocks: seq<Block>, k: nat, i: nat)
    requires IsGenesis(g) && Linked(blocks) && Replay(checks, g, blocks).Applied? && checks.Tapos()
    requires 0 < k < |blocks| && i < |blocks[k].transactions|
    ensures NamesNewest(blocks, k, blocks[k].transactions[i].id)
  {
    var s, id := Replay(checks, g, blocks[..k]).state, blocks[k].transactions[i].id;
    hide *;
    AcceptedInTurn(checks, g, blocks, k, i);
    AcceptableMeans(checks, Before(checks, s, blocks[k].transactions, i), blocks[k].transactions[i]);
    LinkedPrefix(blocks, k);
    if id.refBlockNum < 0x1_0000 {
      SummariesAre(checks, g, blocks[..k], id.refBlockNum);
    }
    RefersTo(g, s, blocks, k, id);
  }

  // All transactions of a chain, by the keys of a state.
  ghost predicate AllSigned(s: State, blocks: seq<Block>) {
    forall k, i :: 0 <= k < |blocks| && 0 <= i < |blocks[k].transactions| ==> Signed(s, blocks[k].transactions[i])
  }

  lemma ChainAllSigned(checks: Checks, g: State, blocks: seq<Block>)
    requires IsGenesis(g) && Linked(blocks) && Replay(checks, g, blocks).Applied? && checks.Authority()
    ensures AllSigned(Replay(checks, g, blocks).state, blocks)
  {
    hide Signed, Replay, Acceptable;
    forall k, i | 0 <= k < |blocks| && 0 <= i < |blocks[k].transactions|
      ensures Signed(Replay(checks, g, blocks).state, blocks[k].transactions[i])
    {
      ChainAccepted(checks, g, blocks, k, i);
    }
  }

  // The block of the chain was applied on top of those below it, and what it left has stayed.
  lemma BlockOf(checks: Checks, g: State, blocks: seq<Block>, k: nat)
    requires IsGenesis(g) && Linked(blocks) && Replay(checks, g, blocks).Applied? && k < |blocks|
    ensures
      var s, b := Replay(checks, g, blocks[..k]).state, blocks[k];
      && Replay(checks, g, blocks[..k]).Applied? && ApplyTransactions(checks, s, b.transactions).Applied?
      && s.headNum == k && (k > 0 ==> s.time == blocks[k - 1].timestamp)
      && forall at :: Stay(at, ApplyTransactions(checks, s, b.transactions).state) ==> Stay(at, Replay(checks, g, blocks).state)
  {
    hide ApplyBlock, ApplyTransactions;
    ReplayPrefix(checks, g, blocks, k + 1);
    ReplayPrefix(checks, g, blocks, k);
    assert blocks[..k + 1][..k] == blocks[..k];
    var s, b := Replay(checks, g, blocks[..k]).state, blocks[k];
    assert Replay(checks, g, blocks[..k + 1]) == ApplyBlock(checks, s, b);
    BlockIff(checks, s, b);
    LinkedPrefix(blocks, k);
    ReplayHead(checks, g, blocks[..k]);
    ChainStays(checks, g, blocks, k + 1);
    if k > 0 {
      assert blocks[..k][..k - 1] == blocks[..k - 1];
      BlockEffect(checks, Replay(checks, g, blocks[..k - 1]).state, blocks[k - 1]);
    }
  }

  lemma SignedLater(s: State, s': State, t: Transaction)
    requires Stay(s, s')
    ensures Signed(s, t) ==> Signed(s', t)
  {
    if Signed(s, t) {
      var ops := t.id.operations;
      assert forall i :: 0 <= i < |ops| ==> s.authorities[Responsible(ops[i])] == s'.authorities[Responsible(ops[i])];
    }
  }

  lemma AcceptableMeans(checks: Checks, s: State, t: Transaction)
    requires Acceptable(checks, s, t)
    ensures checks.Authority() ==> Signed(s, t)
    ensures s.headNum > 0 ==> s.time <= t.id.expiration && (checks.Tapos() ==> Refers(s.summaries, t.id))
  {
  }

  lemma RefersTo(g: State, s: State, blocks: seq<Block>, k: nat, id: TransactionId)
    requires k <= |blocks| && Refers(s.summaries, id) && (id.refBlockNum < 0x1_0000 ==> Noted(g, s, blocks[..k], id.refBlockNum))
    ensures NamesNewest(blocks, k, id)
  {
    hide Newest;
    assert |blocks[..k]| == k;
  }
}
