/**
 * The fork tree as a value: parent links, walks towards the root, and the two
 * branches back to the nearest common ancestor.
 */
module ForkTree {
  import opened Common
  import opened ChainTypes

  // The items of the fork database. An id is looked up as the block it stands for.
  type Index = set<Block>

  // The item `prev` points to: unset for a block that names no predecessor, gone when that was erased.
  function Prev(index: Index, b: Block): (r: Option<Block>)
    ensures r.Some? ==> r.value in index && r.value.Id() == b.previous && r.value.Num() + 1 == b.Num()
  {
    if b.previous.IdOf? && b.previous.block in index then Some(b.previous.block) else None
  }

  // b, its parent, and so on: `xs[i + 1]` is the item that `xs[i].prev` points to.
  ghost predicate Descends(index: Index, xs: seq<Block>) {
    forall i :: 0 <= i < |xs| - 1 ==> Prev(index, xs[i]) == Some(xs[i + 1])
  }

  // ---------- walk_main_branch_to_num and fetch_block_on_main_branch_by_number ----------

  function WalkTo(index: Index, b: Block, num: nat): Option<Block>
    decreases b
  {
    if b.Num() <= num then Some(b)
    else match Prev(index, b)
      case None => None
      case Some(p) => WalkTo(index, p, num)
  }

  function AtNumber(index: Index, num: nat): set<Block> {
    set b | b in index && b.Num() == num
  }

  ghost function OnMainBranch(index: Index, head: Block, num: nat): Option<Block> {
    var found := AtNumber(index, num);
    if |found| == 1 then var b :| b in found; Some(b)
    else if |found| == 0 then None
    else if num > head.Num() then None
    else WalkTo(index, head, num)
  }

  // Where the walk from the head meets a block of the index, the lookup by number finds it too.
  lemma OnMainBranchFinds(index: Index, head: Block, num: nat, b: Block)
    requires b in index && b.Num() == num <= head.Num()
    requires WalkTo(index, head, num) == Some(b)
    ensures OnMainBranch(index, head, num) == Some(b)
  {
    var found := AtNumber(index, num);
    assert b in found;
    if |found| == 1 {
      var x :| x in found && OnMainBranch(index, head, num) == Some(x);
      Singleton(found, x, b);
    }
  }

  lemma Singleton(found: set<Block>, x: Block, y: Block)
    requires |found| == 1 && x in found && y in found
    ensures x == y
  {
    var rest := found - {x};
    assert |rest| == 0;
    assert y !in rest;
  }

  // With no block of that number left, the lookup finds nothing.
  lemma OnMainBranchMisses(index: Index, head: Block, num: nat)
    requires forall b :: b in index ==> b.Num() != num
    ensures OnMainBranch(index, head, num) == None
  {
    assert AtNumber(index, num) == {};
  }

  // What the lookup finds has that number. It is the only item that has, or below the head.
  lemma OnMainBranchFound(index: Index, head: Block, num: nat)
    requires OnMainBranch(index, head, num).Some?
    ensures
      var b := OnMainBranch(index, head, num).value;
      && b.Num() == num
      && (Ancestor(b, head) || (b in index && AtNumber(index, num) == {b}))
  {
    var found := AtNumber(index, num);
    if |found| == 1 {
      var x :| x in found && OnMainBranch(index, head, num) == Some(x);
      forall y | y in found ensures y == x {
        Singleton(found, x, y);
      }
    } else {
      WalkIsDown(index, head, num);
    }
  }

  lemma {:induction false} WalkIsDown(index: Index, b: Block, num: nat)
    requires num <= b.Num() && WalkTo(index, b, num).Some?
    ensures Ancestor(WalkTo(index, b, num).value, b) && WalkTo(index, b, num).value.Num() == num
    decreases b
  {
    if b.Num() > num {
      WalkIsDown(index, Prev(index, b).value, num);
    }
  }

  // ---------- fetch_branch_from ----------

  datatype Branches = Unlinked | Branches(first: seq<Block>, second: seq<Block>)

  function Branch(index: Index, a: Block, b: Block): (r: Branches)
    ensures r.Branches? ==> r.first != [] && r.second != []
    decreases a.Num() + b.Num()
  {
    if a.Num() > b.Num() then
      match Prev(index, a)
      case None => Unlinked
      case Some(p) => WithFirst(a, Branch(index, p, b))
    else if b.Num() > a.Num() then
      match Prev(index, b)
      case None => Unlinked
      case Some(q) => WithSecond(b, Branch(index, a, q))
    else if a.previous == b.previous then Branches([a], [b])
    else
      match Prev(index, a)
      case None => Unlinked
      case Some(p) =>
        match Prev(index, b)
        case None => Unlinked
        case Some(q) => WithFirst(a, WithSecond(b, Branch(index, p, q)))
  }

  function WithFirst(a: Block, r: Branches): Branches {
    if r.Unlinked? then r else Branches([a] + r.first, r.second)
  }

  function WithSecond(b: Block, r: Branches): Branches {
    if r.Unlinked? then r else Branches(r.first, [b] + r.second)
  }

  // fetch_branch_from, whose two ids must be those of items.
  function BranchFrom(index: Index, first: BlockId, second: BlockId): (r: Branches)
    ensures r.Branches? ==> r.first != [] && r.second != []
  {
    if first.IdOf? && first.block in index && second.IdOf? && second.block in index
    then Branch(index, first.block, second.block)
    else Unlinked
  }

  // Both branches start at the given blocks, follow parent links, and end side by side above one common parent.
  lemma {:induction false} BranchShape(index: Index, a: Block, b: Block)
    requires Branch(index, a, b).Branches?
    ensures
      var r := Branch(index, a, b);
      && r.first != [] && r.second != [] && r.first[0] == a && r.second[0] == b
      && Descends(index, r.first) && Descends(index, r.second)
      && Last(r.first).Num() == Last(r.second).Num()
      && Last(r.first).previous == Last(r.second).previous
      && a.Num() == Last(r.first).Num() + |r.first| - 1
      && b.Num() == Last(r.second).Num() + |r.second| - 1
    decreases a.Num() + b.Num()
  {
    hide Descends;
    DescendsSingle(index, a);
    DescendsSingle(index, b);
    if a.Num() > b.Num() {
      var p := Prev(index, a).value;
      BranchShape(index, p, b);
      DescendsCons(index, a, Branch(index, p, b).first);
    } else if b.Num() > a.Num() {
      var q := Prev(index, b).value;
      BranchShape(index, a, q);
      DescendsCons(index, b, Branch(index, a, q).second);
    } else if a.previous != b.previous {
      var p, q := Prev(index, a).value, Prev(index, b).value;
      BranchShape(index, p, q);
      DescendsCons(index, a, Branch(index, p, q).first);
      DescendsCons(index, b, Branch(index, p, q).second);
    }
  }

  // Each block names the next one, which is an item.
  ghost predicate Stacked(index: Index, xs: seq<Block>) {
    forall i :: 0 < i < |xs| ==> xs[i] in index && xs[i - 1].previous == xs[i].Id()
  }

  // Whenever there are two ways down to a common parent, the branches are found, and none is longer than its way.
  lemma {:induction false} BranchFound(index: Index, a: Block, b: Block, xs: seq<Block>, ys: seq<Block>)
    requires Stacked(index, xs) && xs != [] && xs[0] == a && Stacked(index, ys) && ys != [] && ys[0] == b
    requires Last(xs).previous == Last(ys).previous
    ensures Branch(index, a, b).Branches? && Branch(index, a, b).first <= xs && Branch(index, a, b).second <= ys
    decreases |xs| + |ys|
  {
    hide Stacked;
    StackedNumbers(index, xs);
    StackedNumbers(index, ys);
    if a.Num() > b.Num() {
      StackedTail(index, xs);
      BranchFound(index, xs[1], b, xs[1..], ys);
      assert xs == [a] + xs[1..];
    } else if b.Num() > a.Num() {
      StackedTail(index, ys);
      BranchFound(index, a, ys[1], xs, ys[1..]);
      assert ys == [b] + ys[1..];
    } else if a.previous != b.previous {
      StackedTail(index, xs);
      StackedTail(index, ys);
      BranchFound(index, xs[1], ys[1], xs[1..], ys[1..]);
      assert xs == [a] + xs[1..] && ys == [b] + ys[1..];
    }
  }

  lemma {:induction false} StackedNumbers(index: Index, xs: seq<Block>)
    requires Stacked(index, xs) && xs != []
    ensures xs[0].Num() == Last(xs).previous.Num() + |xs|
    decreases |xs|
  {
    if |xs| > 1 {
      StackedTail(index, xs);
      StackedNumbers(index, xs[1..]);
    }
  }

  lemma StackedTail(index: Index, xs: seq<Block>)
    requires Stacked(index, xs) && |xs| > 1
    ensures Stacked(index, xs[1..]) && Last(xs[1..]) == Last(xs) && Prev(index, xs[0]) == Some(xs[1])
  {
    forall i | 0 < i < |xs| - 1 ensures xs[1..][i] in index && xs[1..][i - 1].previous == xs[1..][i].Id() {
      assert xs[i + 1] in index;
    }
  }

  lemma DescendsSingle(index: Index, a: Block)
    ensures Descends(index, [a])
  {
  }

  lemma DescendsCons(index: Index, a: Block, xs: seq<Block>)
    requires xs != [] && Prev(index, a) == Some(xs[0]) && Descends(index, xs)
    ensures Descends(index, [a] + xs) && a.Num() == xs[0].Num() + 1 && Last([a] + xs) == Last(xs)
  {
    var ys := [a] + xs;
    forall i | 0 <= i < |ys| - 1 ensures Prev(index, ys[i]) == Some(ys[i + 1]) {
      if i > 0 {
        assert Prev(index, xs[i - 1]) == Some(xs[i - 1 + 1]);
      }
    }
  }

  lemma {:induction false} DescendsNumbers(index: Index, xs: seq<Block>, i: nat)
    requires Descends(index, xs) && i < |xs|
    ensures xs[i].Num() + i == xs[0].Num()
  {
    if i > 0 {
      DescendsNumbers(index, xs, i - 1);
      assert Prev(index, xs[i - 1]) == Some(xs[i - 1 + 1]);
    }
  }

  // The blocks of a branch are items.
  lemma DescendsInIndex(index: Index, xs: seq<Block>, i: nat)
    requires Descends(index, xs) && i < |xs| && xs[0] in index
    ensures xs[i] in index
  {
    if i > 0 {
      assert Prev(index, xs[i - 1]) == Some(xs[i - 1 + 1]);
    }
  }

  lemma {:induction false} DescendsAncestor(index: Index, xs: seq<Block>, i: nat)
    requires Descends(index, xs) && i < |xs|
    ensures Ancestor(xs[i], xs[0])
  {
    if i > 0 {
      DescendsAncestor(index, xs, i - 1);
      assert Prev(index, xs[i - 1]) == Some(xs[i - 1 + 1]);
      AncestorTransitive(xs[i], xs[i - 1], xs[0]);
    }
  }

  /**
   * When neither block is an ancestor of the other, the branches share no block, and every
   * common ancestor is below their ends: the parent of both ends is the nearest one.
   */
  lemma {:induction false} BranchIsNearest(index: Index, a: Block, b: Block)
    requires Branch(index, a, b).Branches?
    requires !Ancestor(a, b) && !Ancestor(b, a)
    ensures
      var r := Branch(index, a, b);
      && (forall i, j :: 0 <= i < |r.first| && 0 <= j < |r.second| ==> r.first[i] != r.second[j])
      && (forall x :: Ancestor(x, a) && Ancestor(x, b) ==> x.Num() < Last(r.first).Num())
    decreases a.Num() + b.Num()
  {
    var r := Branch(index, a, b);
    BranchShape(index, a, b);
    if a.Num() > b.Num() {
      var p := Prev(index, a).value;
      if Ancestor(p, b) {
        AncestorNumbers(p, b);
        assert false;
      }
      BranchIsNearest(index, p, b);
      BranchBounds(index, p, b);
      forall j | 0 <= j < |r.second| ensures r.second[j] != a {
        DescendsNumbers(index, r.second, j);
      }
      forall x | Ancestor(x, a) && Ancestor(x, b) ensures x.Num() < Last(r.first).Num() {
        AncestorNumbers(x, b);
      }
    } else if b.Num() > a.Num() {
      var q := Prev(index, b).value;
      if Ancestor(q, a) {
        AncestorNumbers(q, a);
        assert false;
      }
      BranchIsNearest(index, a, q);
      forall i | 0 <= i < |r.first| ensures r.first[i] != b {
        DescendsNumbers(index, r.first, i);
      }
      forall x | Ancestor(x, a) && Ancestor(x, b) ensures x.Num() < Last(r.first).Num() {
        AncestorNumbers(x, a);
      }
    } else if a.previous == b.previous {
      forall x | Ancestor(x, a) && Ancestor(x, b) ensures x.Num() < a.Num() {
        AncestorNumbers(x, a);
        AncestorNumbers(x, b);
      }
    } else {
      NearestBothDown(index, a, b);
    }
  }

  // The common parent, when the ends name a block, is an ancestor of both.
  lemma CommonParent(index: Index, a: Block, b: Block)
    requires Branch(index, a, b).Branches? && Last(Branch(index, a, b).first).previous.IdOf?
    ensures
      var c := Last(Branch(index, a, b).first).previous.block;
      Ancestor(c, a) && Ancestor(c, b)
  {
    var r := Branch(index, a, b);
    BranchShape(index, a, b);
    var c := Last(r.first).previous.block;
    DescendsAncestor(index, r.first, |r.first| - 1);
    DescendsAncestor(index, r.second, |r.second| - 1);
    assert Ancestor(c, Last(r.first)) && Ancestor(c, Last(r.second));
    AncestorTransitive(c, Last(r.first), a);
    AncestorTransitive(c, Last(r.second), b);
  }

  lemma BranchBounds(index: Index, a: Block, b: Block)
    requires Branch(index, a, b).Branches?
    ensures Last(Branch(index, a, b).first).Num() <= b.Num()
  {
    BranchShape(index, a, b);
  }

  lemma NearestBothDown(index: Index, a: Block, b: Block)
    requires Branch(index, a, b).Branches?
    requires a != b && a.Num() == b.Num() && a.previous != b.previous
    ensures
      var r := Branch(index, a, b);
      && (forall i, j :: 0 <= i < |r.first| && 0 <= j < |r.second| ==> r.first[i] != r.second[j])
      && (forall x :: Ancestor(x, a) && Ancestor(x, b) ==> x.Num() < Last(r.first).Num())
    decreases a.Num() + b.Num(), 0
  {
    var p, q := Prev(index, a).value, Prev(index, b).value;
    var r, r' := Branch(index, a, b), Branch(index, p, q);
    assert p != q;
    if Ancestor(p, q) {
      AncestorNumbers(p, q);
      assert false;
    }
    if Ancestor(q, p) {
      AncestorNumbers(q, p);
      assert false;
    }
    BranchIsNearest(index, p, q);
    BranchShape(index, p, q);
    forall i | 0 <= i < |r'.first| ensures r'.first[i] != b {
      DescendsNumbers(index, r'.first, i);
    }
    forall j | 0 <= j < |r'.second| ensures r'.second[j] != a {
      DescendsNumbers(index, r'.second, j);
    }
    forall x | Ancestor(x, a) && Ancestor(x, b) ensures x.Num() < Last(r.first).Num() {
      if x == a {
        AncestorNumbers(a, b);
      } else if x == b {
        AncestorNumbers(b, a);
      }
    }
  }

  // ---------- The chain that a switch leads to ----------

  // A new branch from the bottom up, on top of the chain its lowest block names, is a chain.
  lemma ForkedChain(index: Index, chain: seq<Block>, first: seq<Block>)
    requires Linked(chain) && first != [] && Descends(index, first) && Last(first).previous == HeadId(chain)
    ensures Linked(chain + Reversed(first))
  {
    var up := Reversed(first);
    var target := chain + up;
    forall i | 0 <= i < |target| ensures LinksAt(target, i) {
      if i < |chain| {
        assert LinksAt(chain, i);
      } else if i > |chain| {
        var k := |first| - 1 - (i - |chain|);
        assert Prev(index, first[k]) == Some(first[k + 1]);
        assert target[i] == first[k] && target[i - 1] == first[k + 1];
      }
    }
  }

  // Going down from the head of a chain retraces it.
  lemma {:induction false} BranchOnChain(index: Index, chain: seq<Block>, xs: seq<Block>)
    requires Linked(chain) && chain != [] && xs != [] && Descends(index, xs) && xs[0] == Last(chain)
    ensures |xs| <= |chain| && Reversed(xs) == chain[|chain| - |xs|..]
    ensures Last(xs).previous == HeadId(chain[..|chain| - |xs|])
  {
    var n := |chain|;
    BranchFits(index, chain, xs);
    forall i | 0 <= i < |xs| ensures Reversed(xs)[i] == chain[n - |xs|..][i] {
      DescendsAncestor(index, xs, |xs| - 1 - i);
      DescendsNumbers(index, xs, |xs| - 1 - i);
      LinkedNumbers(chain, n - 1);
      AncestorOnChain(chain, n - 1, xs[|xs| - 1 - i]);
    }
    LinkedAt(chain, n - |xs|);
    assert Reversed(xs)[0] == chain[n - |xs|..][0];
  }

  lemma BranchFits(index: Index, chain: seq<Block>, xs: seq<Block>)
    requires Linked(chain) && chain != [] && xs != [] && Descends(index, xs) && xs[0] == Last(chain)
    ensures |xs| <= |chain|
  {
    DescendsAncestor(index, xs, |xs| - 1);
    DescendsNumbers(index, xs, |xs| - 1);
    LinkedNumbers(chain, |chain| - 1);
    AncestorOnChain(chain, |chain| - 1, Last(xs));
  }
}
