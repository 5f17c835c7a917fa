/** The fork database: the recent blocks of every fork, and the head of the longest. */
module ForkDatabase {
  import opened Common
  import opened ChainTypes
  import opened ForkTree

  datatype PushResult = Accepted | TooOld | Unlinkable

  function HeadAfter(head: Option<Block>, b: Block): Block {
    if head.None? || b.Num() > head.value.Num() then b else head.value
  }

  function Classify(index: Index, head: Option<Block>, maxSize: nat, b: Block): PushResult {
    if head.None? then Accepted
    else if b.Num() <= Below(head.value.Num(), maxSize) then TooOld
    else if b.previous != NO_BLOCK && !Indexed(index, b.previous) then Unlinkable
    else Accepted
  }

  predicate Indexed(index: Index, id: BlockId) {
    id.IdOf? && id.block in index
  }

  // max(0, head->num - max_size)
  function Below(num: nat, maxSize: nat): nat {
    if num >= maxSize then num - maxSize else 0
  }

  function Pruned(index: Index, bound: nat): Index {
    set b | b in index && b.Num() >= bound
  }

  class ForkDb {
    var index: Index
    var head: Option<Block>
    var maxSize: nat

    constructor ()
      ensures index == {} && head == None && maxSize == 1024
    {
      index, head, maxSize := {}, None, 1024;
    }

    method StartBlock(b: Block)
      modifies this
      ensures head == Some(b) && index == old(index) + {b} && maxSize == old(maxSize)
    {
      index := index + {b};
      head := Some(b);
    }

    /** push_block: on success the source returns the head, which need not be the block pushed. */
    method PushBlock(b: Block) returns (r: PushResult)
      modifies this
      ensures maxSize == old(maxSize)
      ensures r.TooOld? <==> old(head).Some? && b.Num() + maxSize <= old(head).value.Num()
      ensures r.Unlinkable? <==>
        !r.TooOld? && old(head).Some? && b.previous != NO_BLOCK && forall p :: p in old(index) ==> p.Id() != b.previous
      ensures r.Accepted? ==> index == old(index) + {b}
      ensures r.Accepted? ==> head == if old(head).None? || b.Num() > old(head).value.Num() then Some(b) else old(head)
      ensures r == Classify(old(index), old(head), maxSize, b)
      ensures !r.Accepted? ==> index == old(index) && head == old(head)
    {
      if head.Some? {
        if b.Num() <= Below(head.value.Num(), maxSize) {
          return TooOld;
        }
        if b.previous != NO_BLOCK && !Indexed(index, b.previous) {
          return Unlinkable;
        }
      }
      index := index + {b};
      if head.None? || b.Num() > head.value.Num() {
        head := Some(b);
      }
      r := Accepted;
    }

    /** pop_block: false when there is no head or no item below it. */
    method PopBlock() returns (ok: bool)
      modifies this`head
      ensures ok <==> old(head).Some? && Prev(index, old(head).value).Some?
      ensures head == if ok then Prev(index, old(head).value) else old(head)
    {
      if head.None? {
        return false;
      }
      var prev := Prev(index, head.value);
      if prev.None? {
        return false;
      }
      head := prev;
      ok := true;
    }

    method SetHead(b: Block)
      modifies this`head
      ensures head == Some(b)
    {
      head := Some(b);
    }

    method Remove(b: Block)
      modifies this`index
      ensures index == old(index) - {b}
    {
      index := index - {b};
    }

    /** set_max_size: erases from the lowest number up. */
    method SetMaxSize(s: nat)
      modifies this
      ensures maxSize == s && head == old(head)
      ensures forall b :: b in index <==> b in old(index) && (head.None? || b.Num() + s >= head.value.Num())
      ensures index == if head.None? then old(index) else Pruned(old(index), Below(head.value.Num(), s))
    {
      maxSize := s;
      if head.None? {
        return;
      }
      var bound := Below(head.value.Num(), s);
      while exists b :: b in index && b.Num() < bound
        invariant maxSize == s && head == old(head)
        invariant index <= old(index)
        invariant forall b :: b in old(index) && b.Num() >= bound ==> b in index
        decreases |index|
      {
        var b :| b in index && b.Num() < bound;
        index := index - {b};
      }
      assert index == Pruned(old(index), bound);
    }

    /** fetch_branch_from: the three loops, against the recursive Branch. */
    method FetchBranchFrom(first: BlockId, second: BlockId) returns (r: Branches)
      ensures r == BranchFrom(index, first, second)
    {
      if !Indexed(index, first) || !Indexed(index, second) {
        return Unlinked;
      }
      var a, b := first.block, second.block;
      ghost var whole := Branch(index, a, b);
      var xs: seq<Block>, ys: seq<Block> := [], [];
      while a.Num() > b.Num()
        invariant ys == [] && whole == Prepended(xs, ys, Branch(index, a, b))
        decreases a.Num()
      {
        var p := Prev(index, a);
        if p.None? {
          return Unlinked;
        }
        PrependedStep(xs, ys, a, Branch(index, p.value, b), true);
        xs := xs + [a];
        a := p.value;
      }
      while b.Num() > a.Num()
        invariant a.Num() <= b.Num()
        invariant whole == Prepended(xs, ys, Branch(index, a, b))
        decreases b.Num()
      {
        var q := Prev(index, b);
        if q.None? {
          return Unlinked;
        }
        PrependedStep(xs, ys, b, Branch(index, a, q.value), false);
        ys := ys + [b];
        b := q.value;
      }
      while a.previous != b.previous
        invariant a.Num() == b.Num()
        invariant whole == Prepended(xs, ys, Branch(index, a, b))
        decreases a.Num()
      {
        var p := Prev(index, a);
        if p.None? {
          return Unlinked;
        }
        var q := Prev(index, b);
        if q.None? {
          return Unlinked;
        }
        PrependedStep(xs, ys, a, WithSecond(b, Branch(index, p.value, q.value)), true);
        PrependedStep(xs + [a], ys, b, Branch(index, p.value, q.value), false);
        xs, ys := xs + [a], ys + [b];
        a, b := p.value, q.value;
      }
      r := Branches(xs + [a], ys + [b]);
    }

    /** walk_main_branch_to_num */
    method WalkMainBranchToNum(num: nat) returns (r: Option<Block>)
      requires head.Some?
      ensures r == if num > head.value.Num() then None else WalkTo(index, head.value, num)
    {
      if num > head.value.Num() {
        return None;
      }
      r := head;
      while r.Some? && r.value.Num() > num
        invariant WalkTo(index, head.value, num) == if r.Some? then WalkTo(index, r.value, num) else None
        decreases if r.Some? then r.value.Num() + 1 else 0
      {
        r := Prev(index, r.value);
      }
    }

    /** fetch_block_on_main_branch_by_number */
    method FetchBlockOnMainBranchByNumber(num: nat) returns (r: Option<Block>)
      requires head.Some?
      ensures r == OnMainBranch(index, head.value, num)
    {
      var blocks := AtNumber(index, num);
      if |blocks| == 1 {
        var b :| b in blocks;
        ghost var x :| x in blocks && OnMainBranch(index, head.value, num) == Some(x);
        Singleton(blocks, x, b);
        return Some(b);
      }
      if |blocks| == 0 {
        return None;
      }
      r := WalkMainBranchToNum(num);
    }
  }

  function Prepended(xs: seq<Block>, ys: seq<Block>, r: Branches): Branches {
    if r.Unlinked? then r else Branches(xs + r.first, ys + r.second)
  }

  lemma PrependedStep(xs: seq<Block>, ys: seq<Block>, b: Block, r: Branches, first: bool)
    ensures if first then Prepended(xs, ys, WithFirst(b, r)) == Prepended(xs + [b], ys, r)
            else Prepended(xs, ys, WithSecond(b, r)) == Prepended(xs, ys + [b], r)
  {
    if r.Branches? {
      assert xs + ([b] + r.first) == xs + [b] + r.first;
      assert ys + ([b] + r.second) == ys + [b] + r.second;
    }
  }
}
