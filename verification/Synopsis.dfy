/** The synopsis of a block chain: the numbers it samples, and the two loops that fill it from either side of a reference point. */
module Synopsis {
  import opened Words

  // ---------- The sampled numbers ----------

  function Next(low: nat, high: nat): nat
    requires low <= high
  {
    low + (high - low + 2) / 2
  }

  // Each step covers half of what is left.
  function Rounds(low: nat, high: nat): seq<nat>
    decreases high + 1 - low
  {
    if low > high then [] else [low] + Rounds(Next(low, high), high)
  }

  // The samples up to a limit, and those from a limit on.
  function UpTo(low: nat, high: nat, limit: nat): seq<nat>
    decreases high + 1 - low
  {
    if low > high || low > limit then [] else [low] + UpTo(Next(low, high), high, limit)
  }

  function From(low: nat, high: nat, limit: nat): seq<nat>
    decreases high + 1 - low
  {
    if low > high then [] else (if low >= limit then [low] else []) + From(Next(low, high), high, limit)
  }

  lemma {:induction false} FromAll(low: nat, high: nat, limit: nat)
    requires low >= limit
    ensures From(low, high, limit) == Rounds(low, high)
    decreases high + 1 - low
  {
    if low <= high {
      FromAll(Next(low, high), high, limit);
    }
  }

  lemma {:induction false} SplitAt(low: nat, high: nat, limit: nat)
    ensures UpTo(low, high, limit) + From(low, high, limit + 1) == Rounds(low, high)
    decreases high + 1 - low
  {
    if low > limit {
      FromAll(low, high, limit + 1);
      assert UpTo(low, high, limit) == [];
    } else if low <= high {
      var next := Next(low, high);
      SplitAt(next, high, limit);
      SplitStep(low, high, limit);
      hide UpTo, From, Rounds;
      assert [low] + UpTo(next, high, limit) + From(next, high, limit + 1)
          == [low] + (UpTo(next, high, limit) + From(next, high, limit + 1));
    }
  }

  lemma SplitStep(low: nat, high: nat, limit: nat)
    requires low <= high && low <= limit
    ensures
      var next := Next(low, high);
      && UpTo(low, high, limit) == [low] + UpTo(next, high, limit)
      && From(low, high, limit + 1) == From(next, high, limit + 1)
      && Rounds(low, high) == [low] + Rounds(next, high)
  {
  }

  lemma UpToStep(taken: seq<nat>, low: nat, high: nat, limit: nat)
    ensures low <= high && low <= limit ==>
              taken + UpTo(low, high, limit) == taken + [low] + UpTo(Next(low, high), high, limit)
    ensures low > high || low > limit ==> taken + UpTo(low, high, limit) == taken
  {
  }

  lemma FromStep(taken: seq<nat>, low: nat, high: nat, limit: nat)
    ensures low <= high ==>
              taken + From(low, high, limit) == (if low >= limit then taken + [low] else taken) + From(Next(low, high), high, limit)
    ensures low > high ==> taken + From(low, high, limit) == taken
  {
  }

  // The number of binary digits: floor(log2(m)) + 1.
  function BitLength(m: nat): nat {
    if m == 0 then 0 else 1 + BitLength(m / 2)
  }

  lemma {:induction false} BitLengthBounds(m: nat)
    requires m > 0
    ensures BitLength(m) > 0 && Pow2(BitLength(m) - 1) <= m < Pow2(BitLength(m))
    decreases m
  {
    if m > 1 {
      BitLengthBounds(m / 2);
    }
  }

  predicate Increasing(s: seq<nat>) {
    forall i, j :: 0 <= i < j < |s| ==> s[i] < s[j]
  }

  // The samples rise from low to high, and there are floor(log2(high - low + 1)) + 1 of them.
  lemma {:induction false} RoundsShape(low: nat, high: nat)
    requires low <= high
    ensures |Rounds(low, high)| == BitLength(high - low + 1) > 0
    ensures Rounds(low, high)[0] == low && Rounds(low, high)[|Rounds(low, high)| - 1] == high
    ensures Increasing(Rounds(low, high))
    decreases high - low
  {
    var next := Next(low, high);
    assert high + 1 - next == (high - low + 1) / 2;
    if next <= high {
      RoundsShape(next, high);
    }
  }

  // The i-th sample leaves the 2^i-th part of the list, which is halved by every step, to go.
  lemma {:induction false} SampleIs(low: nat, high: nat, i: nat)
    requires low <= high && i < |Rounds(low, high)|
    ensures Rounds(low, high)[i] == high + 1 - (high + 1 - low) / Pow2(i)
    decreases i
  {
    var next := Next(low, high);
    if i > 0 {
      assert Rounds(low, high)[i] == Rounds(next, high)[i - 1];
      SampleIs(next, high, i - 1);
      assert high + 1 - next == (high + 1 - low) / 2;
      DivDiv(high + 1 - low, 2, Pow2(i - 1));
    }
  }

  ghost predicate Within(nums: seq<nat>, first: nat, end: nat) {
    forall i :: 0 <= i < |nums| ==> first <= nums[i] < end
  }

  lemma {:induction false} UpToWithin(low: nat, high: nat, limit: nat)
    ensures Within(UpTo(low, high, limit), low, limit + 1)
    decreases high + 1 - low
  {
    if low <= high {
      UpToWithin(Next(low, high), high, limit);
    }
  }

  lemma {:induction false} FromWithin(low: nat, high: nat, limit: nat)
    ensures Within(From(low, high, limit), limit, high + 1)
    decreases high + 1 - low
  {
    if low <= high {
      FromWithin(Next(low, high), high, limit);
    }
  }

  // ---------- The blocks at those numbers ----------

  // The blocks with these numbers, of a list that starts with number first.
  ghost function At<Id>(ids: seq<Id>, first: nat, nums: seq<nat>): (s: seq<Id>)
    requires Within(nums, first, first + |ids|)
    ensures |s| == |nums|
  {
    seq(|nums|, i requires 0 <= i < |nums| => assert first <= nums[i] < first + |ids|; ids[nums[i] - first])
  }

  lemma AtAppend<Id>(ids: seq<Id>, first: nat, a: seq<nat>, n: nat)
    requires Within(a, first, first + |ids|) && first <= n < first + |ids|
    ensures Within(a + [n], first, first + |ids|)
    ensures At(ids, first, a + [n]) == At(ids, first, a) + [ids[n - first]]
  {
  }

  lemma AtLast<Id>(ids: seq<Id>, first: nat, nums: seq<nat>)
    requires Within(nums, first, first + |ids|) && nums != []
    ensures At(ids, first, nums)[|nums| - 1] == ids[nums[|nums| - 1] - first]
  {
  }

  // The samples up to the end of the chain, of a list of blocks that will go on for some more.
  ghost predicate Samples<Id>(chain: seq<Id>, low: nat, after: nat, synopsis: seq<Id>) {
    var nums := UpTo(low, |chain| + after, |chain|);
    && Within(nums, 1, 1 + |chain|)
    && synopsis == At(chain, 1, nums)
  }

  // The samples taken so far, below cur.
  ghost predicate Sampling<Id>(chain: seq<Id>, low: nat, after: nat, cur: nat, taken: seq<nat>, synopsis: seq<Id>) {
    && UpTo(low, |chain| + after, |chain|) == taken + UpTo(cur, |chain| + after, |chain|)
    && Within(taken, 1, 1 + |chain|)
    && synopsis == At(chain, 1, taken)
  }

  lemma SamplingStarts<Id>(chain: seq<Id>, low: nat, after: nat)
    ensures Sampling(chain, low, after, low, [], [])
  {
  }

  lemma SamplingStep<Id>(chain: seq<Id>, low: nat, after: nat, cur: nat, taken: seq<nat>, synopsis: seq<Id>)
    returns (next: seq<nat>)
    requires 1 <= cur <= |chain| && Sampling(chain, low, after, cur, taken, synopsis)
    ensures Sampling(chain, low, after, Next(cur, |chain| + after), next, synopsis + [chain[cur - 1]])
  {
    hide At, UpTo;
    UpToStep(taken, cur, |chain| + after, |chain|);
    next := taken + [cur];
    AtAppend(chain, 1, taken, cur);
  }

  lemma SamplingEnds<Id>(chain: seq<Id>, low: nat, after: nat, cur: nat, taken: seq<nat>, synopsis: seq<Id>)
    requires cur > |chain| && Sampling(chain, low, after, cur, taken, synopsis)
    ensures Samples(chain, low, after, synopsis)
  {
    hide At, UpTo;
    UpToStep(taken, cur, |chain| + after, |chain|);
  }

  // The chain database's part: the samples up to the reference point, from the main chain or from the fork it is
  // on. The first is the last block that cannot be undone, or block 1.
  method GetBlockchainSynopsis<Id>(main: seq<Id>, forkHistory: seq<Id>, nonForkHigh: nat, lastNonUndoable: nat, after: nat)
    returns (synopsis: seq<Id>)
    requires lastNonUndoable <= nonForkHigh <= |main|
    ensures var chain := main[..nonForkHigh] + forkHistory;
            if chain == [] then synopsis == []
            else
              var low := if lastNonUndoable == 0 then 1 else lastNonUndoable;
              synopsis != [] && synopsis[0] == chain[low - 1] && Samples(chain, low, after, synopsis)
  {
    hide Sampling, Samples;
    synopsis := [];
    var lowBlockNum := lastNonUndoable;
    var highBlockNum := nonForkHigh + |forkHistory|;
    ghost var chain := main[..nonForkHigh] + forkHistory;
    if highBlockNum == 0 {
      return;
    }
    if lowBlockNum == 0 {
      lowBlockNum := 1;
    }
    var trueHighBlockNum := highBlockNum + after;
    ghost var low, taken: seq<nat> := lowBlockNum, [];
    SamplingStarts(chain, low, after);
    // A do-while loop whose guard already holds the first time.
    while lowBlockNum <= highBlockNum
      invariant if synopsis == [] then lowBlockNum == low else synopsis[0] == chain[low - 1]
      invariant lowBlockNum >= 1 && Sampling(chain, low, after, lowBlockNum, taken, synopsis)
    {
      taken := SamplingStep(chain, low, after, lowBlockNum, taken, synopsis);
      if lowBlockNum <= nonForkHigh {
        synopsis := synopsis + [main[lowBlockNum - 1]];
      } else {
        synopsis := synopsis + [forkHistory[lowBlockNum - nonForkHigh - 1]];
      }
      lowBlockNum := lowBlockNum + (trueHighBlockNum - lowBlockNum + 2) / 2;
    }
    SamplingEnds(chain, low, after, lowBlockNum, taken, synopsis);
  }

  // The samples that are among the ids, added to those of the chain database.
  ghost predicate Extends<Id>(backend: seq<Id>, ids: seq<Id>, first: nat, low: nat, synopsis: seq<Id>) {
    && |ids| > 0
    && var nums := From(low, first + |ids| - 1, first);
    && Within(nums, first, first + |ids|)
    && synopsis == backend + At(ids, first, nums)
  }

  // The backend's lowest number: it has blocks from 1 on when the synopsis is empty.
  function LowOf<Id>(num: Id -> nat, backend: seq<Id>): nat {
    if backend == [] then 1 else num(backend[0])
  }

  // The network's part: it goes over the samples again from the first one and adds those among the ids to get.
  // ok is false where the assertion on the index fails.
  method AppendIdsToGet<Id>(num: Id -> nat, backend: seq<Id>, ids: seq<Id>)
    returns (ok: bool, synopsis: seq<Id>)
    requires ids != []
    ensures ok <==> LowOf(num, backend) < num(ids[0]) + |ids|
    ensures ok ==> Extends(backend, ids, num(ids[0]), LowOf(num, backend), synopsis)
    ensures ok ==> synopsis != [] && synopsis[|synopsis| - 1] == ids[|ids| - 1]
  {
    hide *;
    var first := num(ids[0]);
    var high := first + |ids| - 1;
    var lowBlockNum: nat := LowOf(num, backend);
    ghost var low, taken: seq<nat> := lowBlockNum, [];
    AppendingStarts(backend, ids, first, low);
    // A do-while loop: the first round is not guarded.
    ok, synopsis := AppendSample(ids, first, lowBlockNum, backend);
    if !ok {
      return;
    }
    taken := AppendingStep(backend, ids, first, low, lowBlockNum, taken, backend);
    lowBlockNum := lowBlockNum + (high - lowBlockNum + 2) / 2;
    while lowBlockNum <= high
      invariant ok && Appending(backend, ids, first, low, lowBlockNum, taken, synopsis)
    {
      ghost var before := synopsis;
      ok, synopsis := AppendSample(ids, first, lowBlockNum, synopsis);
      taken := AppendingStep(backend, ids, first, low, lowBlockNum, taken, before);
      lowBlockNum := lowBlockNum + (high - lowBlockNum + 2) / 2;
    }
    AppendingEnds(backend, ids, first, low, lowBlockNum, taken, synopsis);
  }

  method AppendSample<Id>(ids: seq<Id>, first: nat, lowBlockNum: nat, synopsis: seq<Id>) returns (ok: bool, next: seq<Id>)
    ensures ok <==> lowBlockNum < first + |ids|
    ensures ok ==> next == if lowBlockNum >= first then synopsis + [ids[lowBlockNum - first]] else synopsis
  {
    next := synopsis;
    if lowBlockNum >= first {
      var idx := lowBlockNum - first;
      if idx >= |ids| {
        return false, next;
      }
      next := next + [ids[idx]];
    }
    return true, next;
  }

  // The samples below cur are done, and the numbers taken are those of them that are among the ids.
  ghost predicate Appending<Id>(backend: seq<Id>, ids: seq<Id>, first: nat, low: nat, cur: nat,
                                taken: seq<nat>, synopsis: seq<Id>)
  {
    && |ids| > 0
    && var high := first + |ids| - 1;
    && From(low, high, first) == taken + From(cur, high, first)
    && Within(taken, first, high + 1)
    && synopsis == backend + At(ids, first, taken)
  }

  lemma AppendingStarts<Id>(backend: seq<Id>, ids: seq<Id>, first: nat, low: nat)
    requires ids != []
    ensures Appending(backend, ids, first, low, low, [], backend)
  {
  }

  lemma AppendingStep<Id>(backend: seq<Id>, ids: seq<Id>, first: nat, low: nat, cur: nat,
                          taken: seq<nat>, synopsis: seq<Id>) returns (next: seq<nat>)
    requires ids != [] && cur <= first + |ids| - 1 && Appending(backend, ids, first, low, cur, taken, synopsis)
    ensures Appending(backend, ids, first, low, cur + (first + |ids| - 1 - cur + 2) / 2, next,
                      if cur >= first then synopsis + [ids[cur - first]] else synopsis)
  {
    hide At, From;
    FromStep(taken, cur, first + |ids| - 1, first);
    next := if cur >= first then taken + [cur] else taken;
    if cur >= first {
      AtAppend(ids, first, taken, cur);
    }
  }

  lemma AppendingEnds<Id>(backend: seq<Id>, ids: seq<Id>, first: nat, low: nat, cur: nat,
                          taken: seq<nat>, synopsis: seq<Id>)
    requires Appending(backend, ids, first, low, cur, taken, synopsis)
    requires low <= first + |ids| - 1 < cur
    ensures Extends(backend, ids, first, low, synopsis)
    ensures synopsis != [] && synopsis[|synopsis| - 1] == ids[|ids| - 1]
  {
    hide At, From;
    FromStep(taken, cur, first + |ids| - 1, first);
    LastSample(low, first + |ids| - 1, first);
    AtLast(ids, first, taken);
  }

  lemma {:induction false} LastSample(low: nat, high: nat, limit: nat)
    requires low <= high && limit <= high
    ensures From(low, high, limit) != [] && From(low, high, limit)[|From(low, high, limit)| - 1] == high
    decreases high - low
  {
    var next := Next(low, high);
    if next <= high {
      LastSample(next, high, limit);
    }
  }

  // ---------- Both parts together ----------

  ghost predicate NumberedFrom<Id>(num: Id -> nat, ids: seq<Id>, first: nat) {
    forall i :: 0 <= i < |ids| ==> num(ids[i]) == first + i
  }

  lemma BackendStarts<Id>(num: Id -> nat, chain: seq<Id>, low: nat, after: nat, backend: seq<Id>)
    requires NumberedFrom(num, chain, 1) && 1 <= low <= |chain| && Samples(chain, low, after, backend)
    ensures backend != [] && num(backend[0]) == low
  {
    assert UpTo(low, |chain| + after, |chain|)[0] == low;
    assert backend[0] == chain[low - 1];
  }

  // No seam shows: the two loops together sample the chain and the ids to get as one list.
  lemma Seamless<Id>(chain: seq<Id>, ids: seq<Id>, low: nat, backend: seq<Id>, synopsis: seq<Id>)
    requires 1 <= low <= |chain| + 1
    requires if chain == [] then backend == [] else Samples(chain, low, |ids|, backend)
    requires if ids == [] then synopsis == backend else Extends(backend, ids, |chain| + 1, low, synopsis)
    ensures Within(Rounds(low, |chain + ids|), 1, 1 + |chain + ids|)
    ensures synopsis == At(chain + ids, 1, Rounds(low, |chain + ids|))
  {
    hide UpTo, From, Rounds, At, Within;
    var high, first := |chain + ids|, |chain| + 1;
    SplitAt(low, high, |chain|);
    UpToWithin(low, high, |chain|);
    FromWithin(low, high, first);
    if ids == [] {
      FromNothing(low, high, first);
    }
    if chain == [] {
      UpToNothing(low, high);
    }
    AtSplit(chain, ids, UpTo(low, high, |chain|), From(low, high, first), low);
  }

  lemma {:induction false} FromNothing(low: nat, high: nat, limit: nat)
    requires high < limit
    ensures From(low, high, limit) == []
    decreases high + 1 - low
  {
    if low <= high {
      FromNothing(Next(low, high), high, limit);
    }
  }

  lemma UpToNothing(low: nat, high: nat)
    requires low >= 1
    ensures UpTo(low, high, 0) == []
  {
  }

  lemma AtSplit<Id>(chain: seq<Id>, ids: seq<Id>, up: seq<nat>, from: seq<nat>, low: nat)
    requires 1 <= low && Within(up, low, 1 + |chain|) && Within(from, |chain| + 1, 1 + |chain + ids|)
    ensures Within(up, 1, 1 + |chain|) && Within(from, |chain| + 1, |chain| + 1 + |ids|)
    ensures Within(up + from, 1, 1 + |chain + ids|)
    ensures At(chain + ids, 1, up + from) == At(chain, 1, up) + At(ids, |chain| + 1, from)
    ensures up == [] ==> At(chain, 1, up) == []
    ensures from == [] ==> At(ids, |chain| + 1, from) == []
  {
    assert Within(up + from, 1, 1 + |chain + ids|);
  }

  // The chain database's part of a synopsis.
  ghost predicate Sampled<Id>(chain: seq<Id>, low: nat, after: nat, backend: seq<Id>) {
    if chain == [] then backend == [] else low >= 1 && Samples(chain, low, after, backend)
  }

  /**
   * The synopsis sent to a peer: the chain database's samples, and then those of its samples, counted up to
   * the last id to get, that are among these ids. When the ids follow the reference point that is low, the
   * last id, and in between each step half of the rest; while blocks in between are being processed the two
   * parts count up to different numbers.
   */
  method CreateBlockchainSynopsis<Id>(num: Id -> nat, main: seq<Id>, forkHistory: seq<Id>, nonForkHigh: nat,
                                      lastNonUndoable: nat, ids: seq<Id>)
    returns (ok: bool, synopsis: seq<Id>, ghost backend: seq<Id>)
    requires lastNonUndoable <= nonForkHigh <= |main|
    ensures Sampled(main[..nonForkHigh] + forkHistory, if lastNonUndoable == 0 then 1 else lastNonUndoable, |ids|, backend)
    ensures ids == [] ==> ok && synopsis == backend
    ensures ids != [] ==>
      && (ok <==> LowOf(num, backend) < num(ids[0]) + |ids|)
      && (ok ==> Extends(backend, ids, num(ids[0]), LowOf(num, backend), synopsis) && synopsis != [])
      && (ok ==> synopsis[|synopsis| - 1] == ids[|ids| - 1])
    ensures NumberedFrom(num, main[..nonForkHigh] + forkHistory + ids, 1) ==>
      var whole := main[..nonForkHigh] + forkHistory + ids;
      var nums := Rounds(if lastNonUndoable == 0 then 1 else lastNonUndoable, |whole|);
      && ok && Within(nums, 1, 1 + |whole|)
      && synopsis == At(whole, 1, nums)
  {
    ghost var chain := main[..nonForkHigh] + forkHistory;
    ghost var low := if lastNonUndoable == 0 then 1 else lastNonUndoable;
    hide Samples, Extends;
    var samples := GetBlockchainSynopsis(main, forkHistory, nonForkHigh, lastNonUndoable, |ids|);
    backend := samples;
    if ids == [] {
      ok, synopsis := true, samples;
    } else {
      ok, synopsis := AppendIdsToGet(num, samples, ids);
    }
    if NumberedFrom(num, chain + ids, 1) {
      NumberedParts(num, chain, ids);
      if chain != [] {
        BackendStarts(num, chain, low, |ids|, backend);
      }
      Seamless(chain, ids, low, backend, synopsis);
    }
  }

  lemma NumberedParts<Id>(num: Id -> nat, chain: seq<Id>, ids: seq<Id>)
    requires NumberedFrom(num, chain + ids, 1)
    ensures NumberedFrom(num, chain, 1) && NumberedFrom(num, ids, |chain| + 1)
  {
    assert forall i :: 0 <= i < |chain| ==> chain[i] == (chain + ids)[i];
    assert forall i :: 0 <= i < |ids| ==> ids[i] == (chain + ids)[|chain| + i];
  }
}
