/** Blocks, transactions and operations as the chain library sees them. */
module ChainTypes {
  import opened Common

  const NEWS_BLOCK_INTERVAL := 3
  const IRREVERSIBLE_BLOCK_NUM := 21
  const NEWS_MAX_BLOCK_SIZE := 1024 * 1024

  // A block id carries the block's number in its first word and a hash in the rest. Ids are taken to be
  // collision free: the id of a block stands for the block. `Bare` ids are those of no block.
  datatype BlockId = Bare(num: nat, hash: nat) | IdOf(block: Block) {
    function Num(): nat {
      match this
      case Bare(num, _) => num
      case IdOf(block) => block.Num()
    }

    function Hash(): nat {
      match this
      case Bare(_, hash) => hash
      case IdOf(block) => block.hash
    }
  }

  const NO_BLOCK := Bare(0, 0)

  type Name = nat
  type Key = nat

  datatype Credit = Credit(name: Name, amount: int)

  datatype Operation =
    | CreateAccount(name: Name, creator: Name, posting: Key, owner: Key)
    | Transfer(from: Name, to: Name, amount: int)
    | Transfers(from: Name, toNames: seq<Credit>)
  {
    // The account whose posting key has to sign.
    function Signer(): Name {
      match this
      case CreateAccount(_, creator, _, _) => creator
      case Transfer(from, _, _) => from
      case Transfers(from, _) => from
    }

    predicate Validates() {
      match this
      case CreateAccount(_, _, _, _) => true
      case Transfer(from, to, amount) => from != to && amount > 0
      case Transfers(from, toNames) =>
        |toNames| > 0 && forall i :: 0 <= i < |toNames| ==> toNames[i].name != from && toNames[i].amount > 0
    }
  }

  // What a transaction id is the hash of. The content stands for its id.
  datatype TransactionId = TransactionId(refBlockNum: nat, refBlockPrefix: nat, expiration: nat, operations: seq<Operation>)

  // `keys` are the public keys recovered from the signatures, `size` is the packed size.
  datatype Transaction = Transaction(id: TransactionId, keys: set<Key>, size: nat)

  // `hash` is the hash part of the block's id, `merkleRootMatches` says whether the root in the header is
  // the one computed from the transactions.
  datatype Block = Block(
    previous: BlockId,
    hash: nat,
    timestamp: nat,
    transactions: seq<Transaction>,
    merkleRootMatches: bool)
  {
    function Num(): nat {
      previous.Num() + 1
    }

    function Id(): BlockId {
      IdOf(this)
    }
  }

  // ---------- Chains ----------

  // Block i of the chain has number i + 1 and names its predecessor.
  predicate Linked(blocks: seq<Block>) {
    forall i :: 0 <= i < |blocks| ==> LinksAt(blocks, i)
  }

  predicate LinksAt(blocks: seq<Block>, i: nat)
    requires i < |blocks|
  {
    blocks[i].previous == if i == 0 then NO_BLOCK else blocks[i - 1].Id()
  }

  function HeadId(blocks: seq<Block>): BlockId {
    if blocks == [] then NO_BLOCK else Last(blocks).Id()
  }

  // The blocks an id leads back to, oldest first.
  function ChainTo(id: BlockId): seq<Block> {
    if id.Bare? then [] else ChainTo(id.block.previous) + [id.block]
  }

  lemma {:induction false} LinkedNumbers(blocks: seq<Block>, i: nat)
    requires Linked(blocks) && i < |blocks|
    ensures blocks[i].Num() == i + 1
  {
    assert LinksAt(blocks, i);
    if i > 0 {
      LinkedNumbers(blocks, i - 1);
    }
  }

  lemma LinkedPrefix(blocks: seq<Block>, n: nat)
    requires Linked(blocks) && n <= |blocks|
    ensures Linked(blocks[..n])
  {
    forall i | 0 <= i < n ensures LinksAt(blocks[..n], i) {
      assert LinksAt(blocks, i);
    }
  }

  lemma LinkedAppend(blocks: seq<Block>, b: Block)
    requires Linked(blocks) && b.previous == HeadId(blocks)
    ensures Linked(blocks + [b])
  {
    forall i | 0 <= i < |blocks| + 1 ensures LinksAt(blocks + [b], i) {
      if i < |blocks| {
        assert LinksAt(blocks, i);
      }
    }
  }

  lemma LinkedAt(chain: seq<Block>, n: nat)
    requires Linked(chain) && n < |chain|
    ensures chain[n].previous == HeadId(chain[..n])
    ensures chain[n].Num() == n + 1
  {
    assert LinksAt(chain, n);
    LinkedNumbers(chain, n);
  }

  lemma HeadNumber(blocks: seq<Block>)
    requires Linked(blocks)
    ensures HeadId(blocks).Num() == |blocks|
  {
    if blocks != [] {
      LinkedNumbers(blocks, |blocks| - 1);
    }
  }

  // A linked chain is determined by the id of its head.
  lemma {:induction false} LinkedIsChainTo(blocks: seq<Block>)
    requires Linked(blocks)
    ensures ChainTo(HeadId(blocks)) == blocks
    decreases |blocks|
  {
    if blocks != [] {
      var n := |blocks| - 1;
      LinkedPrefix(blocks, n);
      LinkedAt(blocks, n);
      LinkedIsChainTo(blocks[..n]);
      assert blocks == blocks[..n] + [blocks[n]];
    }
  }

  // x is b or one of the blocks below it.
  predicate Ancestor(x: Block, b: Block) {
    x == b || (b.previous.IdOf? && Ancestor(x, b.previous.block))
  }

  // A block below another on a chain, or the same one, is where its number says.
  lemma {:induction false} AncestorOnChain(chain: seq<Block>, k: nat, x: Block)
    requires Linked(chain) && k < |chain| && Ancestor(x, chain[k])
    ensures 1 <= x.Num() <= k + 1 && x == chain[x.Num() - 1]
    decreases k
  {
    LinkedNumbers(chain, k);
    assert LinksAt(chain, k);
    if x != chain[k] {
      AncestorOnChain(chain, k - 1, x);
    }
  }

  lemma {:induction false} ChainAncestors(chain: seq<Block>, i: nat, k: nat)
    requires Linked(chain) && i <= k < |chain|
    ensures Ancestor(chain[i], chain[k])
    decreases k
  {
    assert LinksAt(chain, k);
    if i < k {
      ChainAncestors(chain, i, k - 1);
    }
  }

  // Two chains that have a block in common are one up to it.
  lemma SharedBelow(a: seq<Block>, k: nat, b: seq<Block>, i: nat)
    requires Linked(a) && Linked(b) && k < |a| && i < |b| && a[k] == b[i]
    ensures k == i && a[..k + 1] == b[..i + 1]
  {
    LinkedNumbers(a, k);
    LinkedNumbers(b, i);
    hide Linked, Ancestor;
    forall m | 0 <= m <= i ensures a[m] == b[m] {
      ChainAncestors(b, m, i);
      LinkedNumbers(b, m);
      AncestorOnChain(a, k, b[m]);
    }
  }

  lemma {:induction false} AncestorTransitive(x: Block, y: Block, z: Block)
    requires Ancestor(x, y) && Ancestor(y, z)
    ensures Ancestor(x, z)
    decreases z
  {
    if y != z {
      AncestorTransitive(x, y, z.previous.block);
    }
  }

  lemma {:induction false} AncestorNumbers(x: Block, b: Block)
    requires Ancestor(x, b)
    ensures x.Num() <= b.Num() && (x.Num() == b.Num() ==> x == b)
    decreases b
  {
    if x != b {
      AncestorNumbers(x, b.previous.block);
    }
  }
}
