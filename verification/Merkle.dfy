/** The Merkle root of a block: the pairwise reduction in place, and the tree it computes. */
module Merkle {
  import Words

  // How many elements a round leaves of n.
  function Half(n: nat): nat {
    (n + 1) / 2
  }

  lemma HalfOfSum(m: nat, n: nat)
    ensures Half(2 * m + n) == m + Half(n) && Half(2 * m) == m
  {
  }

  // One round: neighbours are hashed together, an odd last element is promoted.
  function Round<D>(hash: (D, D) -> D, ids: seq<D>): (s: seq<D>)
    ensures |s| == Half(|ids|)
  {
    if |ids| < 2 then ids else [hash(ids[0], ids[1])] + Round(hash, ids[2..])
  }

  lemma {:induction false} RoundAt<D>(hash: (D, D) -> D, ids: seq<D>, j: nat)
    requires j < (|ids| + 1) / 2
    ensures Round(hash, ids)[j] == if 2 * j + 1 < |ids| then hash(ids[2 * j], ids[2 * j + 1]) else ids[2 * j]
    decreases j
  {
    if j > 0 {
      RoundAt(hash, ids[2..], j - 1);
    }
  }

  // ---------- The tree ----------

  // The largest power of two below n, by SplitIsPower.
  function Split(n: nat): (k: nat)
    requires n >= 2
    ensures k < n <= 2 * k
  {
    if n == 2 then 1 else 2 * Split(Half(n))
  }

  lemma {:induction false} SplitIsPower(n: nat) returns (e: nat)
    requires n >= 2
    ensures Split(n) == Words.Pow2(e)
  {
    e := 0;
    if n > 2 {
      e := SplitIsPower(Half(n));
      e := e + 1;
    }
  }

  // The left subtree is the largest full one that leaves something to the right.
  function Tree<D>(hash: (D, D) -> D, ids: seq<D>): D
    requires ids != []
    decreases |ids|
  {
    if |ids| == 1 then ids[0] else
      var k := Split(|ids|);
      hash(Tree(hash, ids[..k]), Tree(hash, ids[k..]))
  }

  lemma {:induction false} RoundSplits<D>(hash: (D, D) -> D, a: seq<D>, b: seq<D>)
    requires |a| % 2 == 0
    ensures Round(hash, a + b) == Round(hash, a) + Round(hash, b)
  {
    if a == [] {
      assert a + b == b;
    } else {
      assert (a + b)[2..] == a[2..] + b;
      RoundSplits(hash, a[2..], b);
    }
  }

  lemma TreeOf<D>(hash: (D, D) -> D, a: seq<D>, b: seq<D>)
    requires |a + b| >= 2 && |a| == Split(|a + b|)
    ensures a != [] && b != [] && Tree(hash, a + b) == hash(Tree(hash, a), Tree(hash, b))
  {
    assert (a + b)[..|a|] == a && (a + b)[|a|..] == b;
  }

  lemma SplitHalves(n: nat)
    requires n > 2
    ensures Split(n) == 2 * Split(Half(n)) < n
  {
  }

  lemma SmallRound<D>(hash: (D, D) -> D, ids: seq<D>)
    requires 0 < |ids| <= 2
    ensures Tree(hash, Round(hash, ids)) == Tree(hash, ids)
  {
    if |ids| == 2 {
      assert ids[..1] == [ids[0]] && ids[1..] == [ids[1]];
      assert Round(hash, ids) == [hash(ids[0], ids[1])];
    }
  }

  // A round does not change the tree.
  lemma {:induction false} RoundKeepsTree<D>(hash: (D, D) -> D, ids: seq<D>)
    requires ids != []
    ensures Tree(hash, Round(hash, ids)) == Tree(hash, ids)
    decreases |ids|
  {
    if |ids| <= 2 {
      SmallRound(hash, ids);
    } else {
      var k := Split(|ids|);
      assert ids == ids[..k] + ids[k..];
      RoundKeepsTree(hash, ids[..k]);
      RoundKeepsTree(hash, ids[k..]);
      RoundOfBoth(hash, ids[..k], ids[k..]);
    }
  }

  lemma RoundOfBoth<D>(hash: (D, D) -> D, a: seq<D>, b: seq<D>)
    requires |a| + |b| > 2 && |a| == Split(|a + b|) && b != []
    requires Tree(hash, Round(hash, a)) == Tree(hash, a) && Tree(hash, Round(hash, b)) == Tree(hash, b)
    ensures Tree(hash, Round(hash, a + b)) == Tree(hash, a + b)
  {
    hide Half, Round, Tree, Split;
    SplitHalves(|a + b|);
    var m := Split(Half(|a + b|));
    HalfOfSum(m, |b|);
    RoundSplits(hash, a, b);
    TreeOf(hash, a, b);
    TreeOf(hash, Round(hash, a), Round(hash, b));
  }

  // ---------- The root ----------

  function Digests<T, D>(digest: T -> D, transactions: seq<T>): (s: seq<D>)
    ensures |s| == |transactions|
  {
    seq(|transactions|, i requires 0 <= i < |transactions| => digest(transactions[i]))
  }

  function Root<T, D, C>(digest: T -> D, hash: (D, D) -> D, checksum: D -> C, none: C, transactions: seq<T>): C {
    if transactions == [] then none else checksum(Tree(hash, Digests(digest, transactions)))
  }

  // One round in place; k follows i at half its speed.
  method Reduce<D>(hash: (D, D) -> D, ids: array<D>, count: nat) returns (k: nat)
    requires 1 < count <= ids.Length
    modifies ids
    ensures k == (count + 1) / 2 && ids[..k] == Round(hash, old(ids[..count]))
  {
    hide Round;
    ghost var level := ids[..count];
    ghost var next := Round(hash, level);
    var max := count - count % 2;
    k := 0;
    var i := 0;
    while i < max
      invariant i == 2 * k <= max
      invariant forall j :: 0 <= j < k ==> ids[j] == next[j]
      invariant forall j :: i <= j < count ==> ids[j] == level[j]
    {
      RoundAt(hash, level, k);
      ids[k] := hash(ids[i], ids[i + 1]);
      k := k + 1;
      i := i + 2;
    }
    if count % 2 == 1 {
      RoundAt(hash, level, k);
      ids[k] := ids[max];
      k := k + 1;
    }
  }

  method CalculateMerkleRoot<T, D(0), C>(digest: T -> D, hash: (D, D) -> D, checksum: D -> C, none: C,
                                         transactions: seq<T>)
    returns (root: C)
    ensures transactions == [] ==> root == none
    ensures transactions != [] ==>
      root == checksum(Tree(hash, seq(|transactions|, i requires 0 <= i < |transactions| => digest(transactions[i]))))
    ensures root == Root(digest, hash, checksum, none, transactions)
  {
    if |transactions| == 0 {
      return none;
    }
    ghost var leaves := seq(|transactions|, i requires 0 <= i < |transactions| => digest(transactions[i]));
    assert leaves == Digests(digest, transactions);
    var ids := new D[|transactions|];
    var i := 0;
    while i < |transactions|
      invariant i <= |transactions|
      invariant forall j :: 0 <= j < i ==> ids[j] == digest(transactions[j])
    {
      ids[i] := digest(transactions[i]);
      i := i + 1;
    }
    var count := ids.Length;
    assert ids[..count] == Digests(digest, transactions);
    while count > 1
      invariant 1 <= count <= ids.Length
      invariant Tree(hash, ids[..count]) == Tree(hash, Digests(digest, transactions))
    {
      RoundKeepsTree(hash, ids[..count]);
      count := Reduce(hash, ids, count);
    }
    return checksum(ids[0]);
  }

  // ---------- What the root tells ----------

  ghost predicate NoCollision<D(!new)>(hash: (D, D) -> D) {
    forall a: D, b: D, c: D, d: D :: hash(a, b) == hash(c, d) ==> a == c && b == d
  }

  lemma {:induction false} TreeIsInjective<D(!new)>(hash: (D, D) -> D, a: seq<D>, b: seq<D>)
    requires NoCollision(hash) && a != [] && |a| == |b|
    ensures Tree(hash, a) == Tree(hash, b) <==> a == b
    decreases |a|
  {
    if |a| > 1 && Tree(hash, a) == Tree(hash, b) {
      var k := Split(|a|);
      TreeIsInjective(hash, a[..k], b[..k]);
      TreeIsInjective(hash, a[k..], b[k..]);
      assert a == a[..k] + a[k..] && b == b[..k] + b[k..];
    }
  }

  // Lists of one length have one root exactly when their leaf digests agree.
  lemma SameRootIff<T, D(!new), C(!new)>(digest: T -> D, hash: (D, D) -> D, checksum: D -> C, none: C,
                                       a: seq<T>, b: seq<T>)
    requires NoCollision(hash) && |a| == |b|
    requires forall x: D, y: D :: checksum(x) == checksum(y) ==> x == y
    ensures Root(digest, hash, checksum, none, a) == Root(digest, hash, checksum, none, b)
       <==> Digests(digest, a) == Digests(digest, b)
  {
    if a != [] {
      TreeIsInjective(hash, Digests(digest, a), Digests(digest, b));
    }
  }

  // ---------- Lists of any lengths ----------

  // Leaves and inner nodes are hashed alike. They are told apart when no tree over two or more
  // transactions is itself the digest of a transaction.
  ghost predicate LeavesApart<T(!new), D(!new)>(digest: T -> D, hash: (D, D) -> D) {
    forall ts: seq<T>, t: T :: |ts| >= 2 ==> Tree(hash, Digests(digest, ts)) != digest(t)
  }

  // The root of a block with transactions tells their digests, and so how many there are.
  ghost predicate RootsTell<T(!new), D(!new), C(!new)>(digest: T -> D, hash: (D, D) -> D, checksum: D -> C, none: C) {
    forall a: seq<T>, b: seq<T> ::
      a != [] && b != [] && Root(digest, hash, checksum, none, a) == Root(digest, hash, checksum, none, b) ==>
        Digests(digest, a) == Digests(digest, b)
  }

  lemma {:induction false} TreesTell<T(!new), D(!new)>(digest: T -> D, hash: (D, D) -> D, a: seq<T>, b: seq<T>)
    requires NoCollision(hash) && LeavesApart(digest, hash) && a != [] && b != []
    requires Tree(hash, Digests(digest, a)) == Tree(hash, Digests(digest, b))
    ensures Digests(digest, a) == Digests(digest, b)
    decreases |a|
  {
    if |a| == 1 || |b| == 1 {
      OneLeaf(digest, hash, a, b);
    } else {
      var k, m := Split(|a|), Split(|b|);
      hide Tree, Digests, Split, LeavesApart;
      DigestsSplit(digest, hash, a, k);
      DigestsSplit(digest, hash, b, m);
      TreesTell(digest, hash, a[..k], b[..m]);
      TreesTell(digest, hash, a[k..], b[m..]);
    }
  }

  lemma OneLeaf<T(!new), D(!new)>(digest: T -> D, hash: (D, D) -> D, a: seq<T>, b: seq<T>)
    requires LeavesApart(digest, hash) && a != [] && b != [] && (|a| == 1 || |b| == 1)
    requires Tree(hash, Digests(digest, a)) == Tree(hash, Digests(digest, b))
    ensures Digests(digest, a) == Digests(digest, b)
  {
    if |a| == 1 {
      assert Tree(hash, Digests(digest, a)) == digest(a[0]);
    }
    if |b| == 1 {
      assert Tree(hash, Digests(digest, b)) == digest(b[0]);
    }
  }

  lemma DigestsSplit<T, D>(digest: T -> D, hash: (D, D) -> D, ts: seq<T>, k: nat)
    requires |ts| >= 2 && k == Split(|ts|)
    ensures 0 < k < |ts|
    ensures Digests(digest, ts) == Digests(digest, ts[..k]) + Digests(digest, ts[k..])
    ensures Tree(hash, Digests(digest, ts)) == hash(Tree(hash, Digests(digest, ts[..k])), Tree(hash, Digests(digest, ts[k..])))
  {
    var left, right := Digests(digest, ts[..k]), Digests(digest, ts[k..]);
    assert Digests(digest, ts) == left + right;
    TreeOf(hash, left, right);
  }

  // A transaction whose digest is a tree over others stands for them: one root, two lengths.
  lemma OneRootTwoLengths<T, D, C>(digest: T -> D, hash: (D, D) -> D, checksum: D -> C, none: C, ts: seq<T>, t: T)
    requires |ts| >= 2 && Tree(hash, Digests(digest, ts)) == digest(t)
    ensures Root(digest, hash, checksum, none, [t]) == Root(digest, hash, checksum, none, ts)
    ensures |Digests(digest, [t])| != |Digests(digest, ts)|
  {
    assert Digests(digest, [t]) == [digest(t)];
  }

  // Without hash collisions, roots tell apart lists of any lengths exactly when leaves are apart from trees.
  lemma RootsTellIff<T(!new), D(!new), C(!new)>(digest: T -> D, hash: (D, D) -> D, checksum: D -> C, none: C)
    requires NoCollision(hash) && forall x: D, y: D :: checksum(x) == checksum(y) ==> x == y
    ensures RootsTell(digest, hash, checksum, none) <==> LeavesApart(digest, hash)
  {
    if LeavesApart(digest, hash) {
      forall a: seq<T>, b: seq<T> |
        a != [] && b != [] && Root(digest, hash, checksum, none, a) == Root(digest, hash, checksum, none, b)
        ensures Digests(digest, a) == Digests(digest, b)
      {
        TreesTell(digest, hash, a, b);
      }
    } else {
      var ts: seq<T>, t: T :| |ts| >= 2 && Tree(hash, Digests(digest, ts)) == digest(t);
      OneRootTwoLengths(digest, hash, checksum, none, ts, t);
      assert Digests(digest, [t]) != Digests(digest, ts);
    }
  }
}
