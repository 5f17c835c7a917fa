/** Which peer owes which block: the arithmetic of outstanding sync requests, as sets. */
module SyncRequests {
  import opened ChainTypes

  // The requests that are outstanding at each peer, against the list of all active ones.
  ghost predicate Owed<P>(requests: map<P, set<BlockId>>, active: set<BlockId>, cap: nat) {
    && (forall p, q :: p in requests && q in requests && p != q ==> requests[p] !! requests[q])
    && (forall p :: p in requests ==> requests[p] <= active && |requests[p]| <= cap)
  }

  ghost predicate IsOwed<P>(requests: map<P, set<BlockId>>, x: BlockId) {
    exists p :: p in requests && x in requests[p]
  }

  // Active requests that no peer owes.
  ghost function Orphans<P>(requests: map<P, set<BlockId>>, active: set<BlockId>): set<BlockId> {
    set x | x in active && !IsOwed(requests, x)
  }

  lemma AfterArrival<P>(requests: map<P, set<BlockId>>, active: set<BlockId>, cap: nat, p: P, id: BlockId)
    requires Owed(requests, active, cap) && p in requests && id in requests[p]
    ensures Owed(requests[p := requests[p] - {id}], active - {id}, cap)
    ensures Orphans(requests[p := requests[p] - {id}], active - {id}) == Orphans(requests, active)
    ensures !IsOwed(requests[p := requests[p] - {id}], id)
  {
    var after := requests[p := requests[p] - {id}];
    assert forall q :: q in after ==> after[q] <= requests[q];
    assert |after[p]| <= |requests[p]|;
    OrphansFrom(requests, active, after, active - {id});
  }

  // Orphans are compared through what is still owed.
  lemma OrphansFrom<P>(requests: map<P, set<BlockId>>, active: set<BlockId>, after: map<P, set<BlockId>>, later: set<BlockId>)
    requires forall x | x in active + later :: (x in active && !IsOwed(requests, x)) <==> (x in later && !IsOwed(after, x))
    ensures Orphans(after, later) == Orphans(requests, active)
  {
  }

  lemma AfterConnecting<P>(requests: map<P, set<BlockId>>, active: set<BlockId>, cap: nat, p: P)
    requires Owed(requests, active, cap) && p !in requests
    ensures Owed(requests[p := {}], active, cap)
    ensures Orphans(requests[p := {}], active) == Orphans(requests, active)
  {
    var after := requests[p := {}];
    forall x | x in active
      ensures IsOwed(requests, x) <==> IsOwed(after, x)
    {
      if IsOwed(requests, x) {
        var q :| q in requests && x in requests[q];
        assert x in after[q];
      }
    }
  }

  // Refusing an item makes it an orphan.
  lemma AfterRefusal<P>(requests: map<P, set<BlockId>>, active: set<BlockId>, cap: nat, p: P, id: BlockId)
    requires Owed(requests, active, cap) && p in requests && id in requests[p]
    ensures Owed(requests[p := requests[p] - {id}], active, cap)
    ensures Orphans(requests[p := requests[p] - {id}], active) == Orphans(requests, active) + {id}
  {
    var after := requests[p := requests[p] - {id}];
    assert forall q :: q in after ==> after[q] <= requests[q];
    assert |after[p]| <= |requests[p]|;
    forall x | x in Orphans(after, active) && x != id
      ensures x in Orphans(requests, active)
    {
      assert x !in after[p];
    }
  }

  lemma AfterClosing<P>(requests: map<P, set<BlockId>>, active: set<BlockId>, cap: nat, p: P)
    requires Owed(requests, active, cap) && p in requests
    ensures Owed(requests - {p}, active - requests[p], cap)
    ensures Orphans(requests - {p}, active - requests[p]) == Orphans(requests, active)
  {
    var after := requests - {p};
    forall x | x in active
      ensures IsOwed(requests, x) <==> x in requests[p] || IsOwed(after, x)
    {
      if IsOwed(requests, x) && x !in requests[p] {
        var q :| q in requests && x in requests[q];
        assert q in after;
      }
    }
  }

  // ---------- A round of new requests ----------

  function Elements(s: seq<BlockId>): set<BlockId> {
    set x | x in s
  }

  predicate NoRepeats(s: seq<BlockId>) {
    forall i, j :: 0 <= i < j < |s| ==> s[i] != s[j]
  }

  lemma {:induction false} CountElements(s: seq<BlockId>)
    requires NoRepeats(s)
    ensures |Elements(s)| == |s|
  {
    if s == [] {
      assert Elements(s) == {};
    } else {
      CountElements(s[1..]);
      assert Elements(s) == {s[0]} + Elements(s[1..]);
    }
  }

  ghost function Scheduled<P>(plan: map<P, seq<BlockId>>): set<BlockId> {
    set p, x | p in plan && x in plan[p] :: x
  }

  ghost function WithPlan<P>(requests: map<P, set<BlockId>>, plan: map<P, seq<BlockId>>): map<P, set<BlockId>> {
    map p | p in requests :: if p in plan then requests[p] + Elements(plan[p]) else requests[p]
  }

  // Batches of new items, of peers that owe nothing yet.
  ghost predicate Disjoint<P>(plan: map<P, seq<BlockId>>, active: set<BlockId>, cap: nat) {
    && (forall p :: p in plan ==> NoRepeats(plan[p]) && 0 < |plan[p]| <= cap && Elements(plan[p]) !! active)
    && (forall p, q :: p in plan && q in plan && p != q ==> Elements(plan[p]) !! Elements(plan[q]))
  }

  lemma OneMoreBatch<P>(plan: map<P, seq<BlockId>>, active: set<BlockId>, cap: nat, p: P, batch: seq<BlockId>)
    requires Disjoint(plan, active, cap) && p !in plan
    requires NoRepeats(batch) && 0 < |batch| <= cap && Elements(batch) !! active && Elements(batch) !! Scheduled(plan)
    ensures Disjoint(plan[p := batch], active, cap)
  {
    forall q | q in plan
      ensures Elements(plan[q]) !! Elements(batch)
    {
      assert forall x :: x in plan[q] ==> x in Scheduled(plan);
    }
  }

  lemma ScheduledMore<P>(plan: map<P, seq<BlockId>>, p: P, batch: seq<BlockId>)
    requires p !in plan
    ensures Scheduled(plan[p := batch]) == Scheduled(plan) + Elements(batch)
  {
    var more := plan[p := batch];
    forall x
      ensures x in Scheduled(more) <==> x in Scheduled(plan) || x in batch
    {
      if x in Scheduled(plan) {
        var q :| q in plan && x in plan[q];
        assert q in more && x in more[q];
      } else if x in batch {
        assert p in more && x in more[p];
      }
    }
  }

  lemma WithPlanMore<P>(requests: map<P, set<BlockId>>, plan: map<P, seq<BlockId>>, p: P, batch: seq<BlockId>)
    requires p in requests && p !in plan
    ensures p in WithPlan(requests, plan)
    ensures WithPlan(requests, plan[p := batch])
         == WithPlan(requests, plan)[p := WithPlan(requests, plan)[p] + Elements(batch)]
  {
  }

  lemma AfterRequests<P>(requests: map<P, set<BlockId>>, active: set<BlockId>, cap: nat, plan: map<P, seq<BlockId>>)
    requires Owed(requests, active, cap) && plan.Keys <= requests.Keys && Disjoint(plan, active, cap)
    requires forall p :: p in plan ==> requests[p] == {}
    ensures Owed(WithPlan(requests, plan), active + Scheduled(plan), cap)
    ensures Orphans(WithPlan(requests, plan), active + Scheduled(plan)) == Orphans(requests, active)
  {
    OwedAfterRequests(requests, active, cap, plan);
    hide Owed, Disjoint, WithPlan;
    forall x | x in active + Scheduled(plan)
      ensures (x in active && !IsOwed(requests, x)) <==> !IsOwed(WithPlan(requests, plan), x)
    {
      OwedAfter(requests, plan, x);
      if x in Scheduled(plan) {
        NotActive(plan, active, cap, x);
      }
    }
  }

  lemma NotActive<P>(plan: map<P, seq<BlockId>>, active: set<BlockId>, cap: nat, x: BlockId)
    requires Disjoint(plan, active, cap) && x in Scheduled(plan)
    ensures x !in active
  {
    var p :| p in plan && x in plan[p];
    assert x in Elements(plan[p]);
  }

  lemma OwedAfterRequests<P>(requests: map<P, set<BlockId>>, active: set<BlockId>, cap: nat, plan: map<P, seq<BlockId>>)
    requires Owed(requests, active, cap) && plan.Keys <= requests.Keys && Disjoint(plan, active, cap)
    requires forall p :: p in plan ==> requests[p] == {}
    ensures Owed(WithPlan(requests, plan), active + Scheduled(plan), cap)
  {
    var after := WithPlan(requests, plan);
    forall p | p in after
      ensures after[p] <= active + Scheduled(plan) && |after[p]| <= cap
    {
      if p in plan {
        CountElements(plan[p]);
        assert after[p] == Elements(plan[p]);
      }
    }
  }

  lemma OwedAfter<P>(requests: map<P, set<BlockId>>, plan: map<P, seq<BlockId>>, x: BlockId)
    requires plan.Keys <= requests.Keys
    ensures IsOwed(WithPlan(requests, plan), x) <==> IsOwed(requests, x) || x in Scheduled(plan)
  {
    var after := WithPlan(requests, plan);
    if IsOwed(requests, x) {
      var p :| p in requests && x in requests[p];
      assert x in after[p];
    } else if x in Scheduled(plan) {
      var p :| p in plan && x in plan[p];
      assert x in after[p];
    }
  }

  // ---------- What one peer is asked for ----------

  // All items of the front of a list are here or active, and what is requested is among them.
  ghost predicate Covers(requested: set<BlockId>, front: seq<BlockId>, received: set<BlockId>, active: set<BlockId>) {
    requested <= Elements(front) && forall x :: x in front ==> x in received || x in active
  }

  // From the front of its list, the new items that nobody else is asked for: as many as the cap allows, or all.
  ghost predicate Asked(requested: set<BlockId>, ids: seq<BlockId>, received: set<BlockId>,
                        before: set<BlockId>, active: set<BlockId>, cap: nat)
  {
    && requested !! before && requested !! received
    && exists n :: 0 <= n <= |ids| && Covers(requested, ids[..n], received, active) && (|requested| == cap || n == |ids|)
  }

  // The batch planned for a peer asks it for the right items.
  ghost predicate Batched(batch: seq<BlockId>, ids: seq<BlockId>, received: set<BlockId>,
                          before: set<BlockId>, scheduled: set<BlockId>, cap: nat)
  {
    && NoRepeats(batch)
    && (forall x :: x in batch ==> x !in received && x !in before)
    && exists n :: 0 <= n <= |ids| && Covers(Elements(batch), ids[..n], received, before + scheduled) && (|batch| == cap || n == |ids|)
  }

  lemma BatchIsAsked(batch: seq<BlockId>, ids: seq<BlockId>, received: set<BlockId>,
                     before: set<BlockId>, scheduled: set<BlockId>, cap: nat)
    requires Batched(batch, ids, received, before, scheduled, cap)
    ensures Asked(Elements(batch), ids, received, before, before + scheduled, cap)
  {
    CountElements(batch);
  }

  // What is scheduled for other peers afterwards changes nothing about a batch.
  lemma BatchedStays(batch: seq<BlockId>, ids: seq<BlockId>, received: set<BlockId>, before: set<BlockId>,
                     scheduled: set<BlockId>, later: set<BlockId>, cap: nat)
    requires Batched(batch, ids, received, before, scheduled, cap) && scheduled <= later
    ensures Batched(batch, ids, received, before, later, cap)
  {
    var n :| 0 <= n <= |ids| && Covers(Elements(batch), ids[..n], received, before + scheduled) && (|batch| == cap || n == |ids|);
    assert Covers(Elements(batch), ids[..n], received, before + later);
  }

  // ---------- Whole runs ----------

  // What is outstanding at each peer, and the list of all active requests.
  datatype Books<P> = Books(requests: map<P, set<BlockId>>, active: set<BlockId>)

  datatype Move<P> =
    | Connect(peer: P)
    | Arrive(peer: P, id: BlockId)
    | Refuse(peer: P, id: BlockId)
    | Close(peer: P)
    | Ask(plan: map<P, seq<BlockId>>)

  ghost predicate Possible<P>(b: Books<P>, m: Move<P>, cap: nat) {
    match m
    case Connect(p) => p !in b.requests
    case Arrive(p, id) => p in b.requests && id in b.requests[p]
    case Refuse(p, id) => p in b.requests && id in b.requests[p]
    case Close(p) => p in b.requests
    case Ask(plan) => plan.Keys <= b.requests.Keys && Disjoint(plan, b.active, cap) && forall p :: p in plan ==> b.requests[p] == {}
  }

  ghost function Moved<P>(b: Books<P>, m: Move<P>, cap: nat): Books<P>
    requires Possible(b, m, cap)
  {
    match m
    case Connect(p) => b.(requests := b.requests[p := {}])
    case Arrive(p, id) => Books(b.requests[p := b.requests[p] - {id}], b.active - {id})
    case Refuse(p, id) => b.(requests := b.requests[p := b.requests[p] - {id}])
    case Close(p) => Books(b.requests - {p}, b.active - b.requests[p])
    case Ask(plan) => Books(WithPlan(b.requests, plan), b.active + Scheduled(plan))
  }

  ghost predicate AllPossible<P>(b: Books<P>, moves: seq<Move<P>>, cap: nat)
    decreases |moves|
  {
    moves == [] || (Possible(b, moves[0], cap) && AllPossible(Moved(b, moves[0], cap), moves[1..], cap))
  }

  ghost function After<P>(b: Books<P>, moves: seq<Move<P>>, cap: nat): Books<P>
    requires AllPossible(b, moves, cap)
    decreases |moves|
  {
    if moves == [] then b else After(Moved(b, moves[0], cap), moves[1..], cap)
  }

  function Refused<P>(moves: seq<Move<P>>): set<BlockId> {
    set m | m in moves && m.Refuse? :: m.id
  }

  /**
   * Over every run no block is outstanding at two peers, whatever is outstanding is active, no peer owes more
   * than a batch, and the active requests that nobody owes are exactly those that some peer has refused.
   */
  lemma {:induction false} RunKeepsOwed<P>(b: Books<P>, moves: seq<Move<P>>, cap: nat)
    requires Owed(b.requests, b.active, cap) && AllPossible(b, moves, cap)
    ensures
      var r := After(b, moves, cap);
      Owed(r.requests, r.active, cap) && Orphans(r.requests, r.active) == Orphans(b.requests, b.active) + Refused(moves)
    decreases |moves|
  {
    hide Owed, Orphans, Disjoint, WithPlan, Scheduled;
    if moves != [] {
      MoveKeepsOwed(b, moves[0], cap);
      RunKeepsOwed(Moved(b, moves[0], cap), moves[1..], cap);
      RefusedFirst(moves);
      hide Refused;
    } else {
      assert Refused(moves) == {};
    }
  }

  lemma RefusedFirst<P>(moves: seq<Move<P>>)
    requires moves != []
    ensures Refused(moves) == Refused(moves[1..]) + if moves[0].Refuse? then {moves[0].id} else {}
  {
    forall m | m in moves ensures m == moves[0] || m in moves[1..] {
    }
    assert moves[0] in moves;
  }

  lemma MoveKeepsOwed<P>(b: Books<P>, m: Move<P>, cap: nat)
    requires Owed(b.requests, b.active, cap) && Possible(b, m, cap)
    ensures
      var r := Moved(b, m, cap);
      && Owed(r.requests, r.active, cap)
      && Orphans(r.requests, r.active) == Orphans(b.requests, b.active) + if m.Refuse? then {m.id} else {}
  {
    hide Owed, Orphans, Disjoint, WithPlan, Scheduled;
    match m
    case Connect(p) => AfterConnecting(b.requests, b.active, cap, p);
    case Arrive(p, id) => AfterArrival(b.requests, b.active, cap, p, id);
    case Refuse(p, id) => AfterRefusal(b.requests, b.active, cap, p, id);
    case Close(p) => AfterClosing(b.requests, b.active, cap, p);
    case Ask(plan) => AfterRequests(b.requests, b.active, cap, plan);
  }
}
