/** The synchronisation bookkeeping of a node: what it wants from each peer, what it has asked for, and the message handlers. */
module SyncNode {
  import opened Common
  import opened ChainTypes
  import opened SyncRequests

  // Consecutive block numbers; hence no id twice.
  predicate Run(ids: seq<BlockId>) {
    forall i :: 0 <= i < |ids| ==> ids[i].Num() == ids[0].Num() + i
  }

  datatype PeerLists = PeerLists(toGet: seq<BlockId>, processing: set<BlockId>)

  predicate NextOn(lists: PeerLists, blockId: BlockId) {
    lists.toGet != [] && lists.toGet[0] == blockId
  }

  function TakenFrom(lists: PeerLists, blockId: BlockId): PeerLists {
    if NextOn(lists, blockId) then PeerLists(lists.toGet[1..], lists.processing + {blockId}) else lists
  }

  lemma TakenIsRun(lists: PeerLists, blockId: BlockId)
    requires Run(lists.toGet)
    ensures Run(TakenFrom(lists, blockId).toGet)
  {
    if NextOn(lists, blockId) {
      RunTail(lists.toGet);
    }
  }

  // What is left to get from a peer, and whether more ids have been asked for.
  datatype Wants = Wants(lists: PeerLists, unfetched: nat, asked: Option<seq<BlockId>>)

  // A block that is next on the list is being processed from now on.
  function AfterTaking(w: Wants, blockId: BlockId): Wants {
    w.(lists := TakenFrom(w.lists, blockId))
  }

  // A processed block turned out to be accepted already: a peer with nothing left is asked for more ids.
  function AfterAccepting(w: Wants, blockId: BlockId, synopsis: seq<BlockId>): Wants {
    if blockId !in w.lists.processing then w
    else
      var lists := w.lists.(processing := w.lists.processing - {blockId});
      w.(lists := lists, asked := if lists == PeerLists([], {}) && w.unfetched == 0 then Some(synopsis) else w.asked)
  }

  function AfterConsidering(w: Wants, blockId: BlockId, accepted: bool, synopsis: seq<BlockId>): Wants {
    var taken := AfterTaking(w, blockId);
    if accepted then AfterAccepting(taken, blockId, synopsis) else taken
  }

  // What considering a block does to a peer, from its ids to get, those being processed and the open request for
  // more ids: a block that is next is processed from now on, and an accepted one is not any more; a peer for
  // which that was the last thing to do is asked for more ids.
  ghost predicate Considered(blockId: BlockId, accepted: bool, synopsis: seq<BlockId>, unfetched: nat,
                             ids: seq<BlockId>, processing: set<BlockId>, asked: Option<seq<BlockId>>,
                             ids': seq<BlockId>, processing': set<BlockId>, asked': Option<seq<BlockId>>)
  {
    var next := ids != [] && ids[0] == blockId;
    && ids' == (if next then ids[1..] else ids)
    && (forall x :: x in processing' <==> (x in processing || (next && x == blockId)) && !(accepted && x == blockId))
    && (asked' == if accepted && (next || blockId in processing) && ids' == [] && processing' == {} && unfetched == 0
                  then Some(synopsis) else asked)
  }

  lemma ConsideringIs(w: Wants, blockId: BlockId, accepted: bool, synopsis: seq<BlockId>)
    ensures var w' := AfterConsidering(w, blockId, accepted, synopsis);
            Considered(blockId, accepted, synopsis, w.unfetched, w.lists.toGet, w.lists.processing, w.asked,
                       w'.lists.toGet, w'.lists.processing, w'.asked)
  {
  }

  lemma ConsideredIsRun(w: Wants, blockId: BlockId, accepted: bool, synopsis: seq<BlockId>)
    requires Run(w.lists.toGet)
    ensures Run(AfterConsidering(w, blockId, accepted, synopsis).lists.toGet)
  {
    TakenIsRun(w.lists, blockId);
  }

  class Peer {
    var idsOfItemsToGet: seq<BlockId>
    var idsBeingProcessed: set<BlockId>
    var unfetched: nat
    // The synopsis of a request for more ids that has not been answered.
    var itemIdsRequested: Option<seq<BlockId>>
    var itemsRequested: set<nat>
    var syncItemsRequested: set<BlockId>
    var lastSeen: BlockId
    var weNeedSyncItems: bool
    var peerNeedsSyncItems: bool
    var inhibitFetching: bool

    predicate Idle()
      reads this
    {
      itemsRequested == {} && syncItemsRequested == {} && itemIdsRequested.None?
    }

    // What the peer is still to be asked for, and what has arrived from it and is being processed.
    function Lists(): PeerLists
      reads this
    {
      PeerLists(idsOfItemsToGet, idsBeingProcessed)
    }

    function Wanted(): Wants
      reads this
    {
      Wants(Lists(), unfetched, itemIdsRequested)
    }

    method TakeOff(blockId: BlockId) returns (taken: bool)
      modifies this`idsOfItemsToGet, this`idsBeingProcessed
      ensures taken == NextOn(old(Lists()), blockId) && Wanted() == AfterTaking(old(Wanted()), blockId)
    {
      taken := idsOfItemsToGet != [] && idsOfItemsToGet[0] == blockId;
      if taken {
        idsOfItemsToGet := idsOfItemsToGet[1..];
        idsBeingProcessed := idsBeingProcessed + {blockId};
      }
    }

    method Accept(blockId: BlockId, synopsis: seq<BlockId>)
      modifies this`idsBeingProcessed, this`itemIdsRequested
      ensures Wanted() == AfterAccepting(old(Wanted()), blockId, synopsis)
    {
      if blockId in idsBeingProcessed {
        idsBeingProcessed := idsBeingProcessed - {blockId};
        if idsOfItemsToGet == [] && unfetched == 0 && idsBeingProcessed == {} {
          itemIdsRequested := Some(synopsis);  // fetch_next_batch_of_item_ids_from_peer
        }
      }
    }

    constructor ()
      ensures idsOfItemsToGet == [] && syncItemsRequested == {} && itemsRequested == {} && itemIdsRequested.None?
    {
      idsOfItemsToGet, idsBeingProcessed, unfetched := [], {}, 0;
      itemIdsRequested, itemsRequested, syncItemsRequested := None, {}, {};
      lastSeen := NO_BLOCK;
      weNeedSyncItems, peerNeedsSyncItems, inhibitFetching := true, true, false;
    }
  }

  datatype InventoryOutcome = NotAsked | NotSequential | NotFromTheStart | NotFromSynopsis | UpToDate | Merged | Implausible

  const MIN_BLOCK_IDS_TO_PREFETCH: nat := 10000

  // ---------- Merging a list of offered ids ----------

  // Without the blocks in front that the delegate has.
  function Unseen(has: BlockId -> bool, ids: seq<BlockId>): seq<BlockId> {
    if ids != [] && has(ids[0]) then Unseen(has, ids[1..]) else ids
  }

  // An offered list continues the list there is, or replaces its end from the block they share.
  function MergedIds(ids: seq<BlockId>, available: seq<BlockId>): seq<BlockId>
    requires ids != [] && available != [] && Run(ids)
  {
    if available[0] in ids then
      assert exists k :: 0 <= k < |ids| && ids[k] == available[0];
      ids[..available[0].Num() - ids[0].Num()] + available
    else available[1..]
  }

  // A list of blocks that builds off one of the synopsis, or starts with block 1 when that was empty.
  predicate Answers(synopsis: seq<BlockId>, available: seq<BlockId>) {
    && (forall i :: 0 <= i < |available| ==> available[i].Num() == available[0].Num() + i)
    && (available != [] ==> if synopsis == [] then available[0].Num() == 1 else available[0] in synopsis)
  }

  // There is nothing beyond what is known: no ids, or one that the delegate has, and none on the way.
  predicate NothingMore(available: seq<BlockId>, remaining: nat, has: BlockId -> bool, ids: seq<BlockId>, unfetched: nat) {
    remaining == 0 && ids == [] && unfetched == 0 && (available == [] || (|available| == 1 && has(available[0])))
  }

  // What is said of a response: nothing when it was not asked for, why it is no answer, or what it tells.
  ghost predicate Answered(asked: Option<seq<BlockId>>, available: seq<BlockId>, remaining: nat, has: BlockId -> bool,
                           ids: seq<BlockId>, unfetched: nat, plausible: bool, r: InventoryOutcome)
  {
    && (r.NotAsked? <==> asked.None?)
    && (asked.Some? ==>
          && (r.NotSequential? || r.NotFromTheStart? || r.NotFromSynopsis? <==> !Answers(asked.value, available))
          && (r.NotSequential? <==> exists i :: 0 <= i < |available| && available[i].Num() != available[0].Num() + i)
          && (r.NotFromTheStart? ==> asked.value == []) && (r.NotFromSynopsis? ==> asked.value != [])
          && (Answers(asked.value, available) ==>
                r == if NothingMore(available, remaining, has, ids, unfetched) then UpToDate
                     else if plausible then Merged else Implausible))
  }

  // What an accepted response makes of the ids to get, and of the last block that is known of the peer.
  ghost predicate TakenIn(available: seq<BlockId>, has: BlockId -> bool, nextForOther: bool,
                          ids: seq<BlockId>, seen: BlockId, ids': seq<BlockId>, seen': BlockId)
  {
    if available == [] then ids' == ids && seen' == seen
    else if ids == [] && nextForOther then ids' == available && seen' == seen
    else if ids == [] then
      // from the first one on that the delegate lacks
      exists k ::
        && 0 <= k <= |available| && ids' == available[k..] && (k < |available| ==> !has(available[k]))
        && (forall i :: 0 <= i < k ==> has(available[i]))
        && seen' == if k == 0 then seen else available[k - 1]
    else if available[0] in ids then
      // those below the first offered one, and all offered
      seen' == seen && exists k :: 0 <= k < |ids| && ids[k] == available[0] && ids' == ids[..k] + available
    else ids' == available[1..] && seen' == available[0]
  }

  lemma {:induction false} UnseenIs(has: BlockId -> bool, available: seq<BlockId>, seen: BlockId) returns (k: nat)
    ensures k <= |available| && Unseen(has, available) == available[k..] && (k < |available| ==> !has(available[k]))
    ensures forall i :: 0 <= i < k ==> has(available[i])
    ensures LastDropped(seen, has, available) == if k == 0 then seen else available[k - 1]
    decreases |available|
  {
    if available != [] && has(available[0]) {
      k := UnseenIs(has, available[1..], available[0]);
      k := k + 1;
    } else {
      k := 0;
    }
  }

  lemma TakenInIs(available: seq<BlockId>, has: BlockId -> bool, nextForOther: bool, ids: seq<BlockId>, seen: BlockId)
    requires Run(ids)
    ensures TakenIn(available, has, nextForOther, ids, seen,
                    NewIds(ids, available, has, nextForOther), NewLastSeen(seen, ids, available, has, nextForOther))
  {
    if available != [] {
      if ids == [] {
        var k := UnseenIs(has, available, seen);
      } else if available[0] in ids {
        var k :| 0 <= k < |ids| && ids[k] == available[0];
        assert ids[..k] == ids[..available[0].Num() - ids[0].Num()];
      }
    }
  }

  // The list of ids to get after an accepted response.
  function NewIds(ids: seq<BlockId>, available: seq<BlockId>, has: BlockId -> bool, firstForOther: bool): seq<BlockId>
    requires Run(ids)
  {
    if available == [] then ids
    else if ids != [] then MergedIds(ids, available)
    else if firstForOther then available
    else Unseen(has, available)
  }

  // The last block of the peer that the delegate is known to have; lastSeen is the one before the response.
  function NewLastSeen(lastSeen: BlockId, ids: seq<BlockId>, available: seq<BlockId>, has: BlockId -> bool,
                       firstForOther: bool): BlockId
  {
    if available == [] then lastSeen
    else if ids != [] then (if available[0] in ids then lastSeen else available[0])
    else if firstForOther then lastSeen
    else LastDropped(lastSeen, has, available)
  }

  function LastDropped(lastSeen: BlockId, has: BlockId -> bool, ids: seq<BlockId>): BlockId
    decreases |ids|
  {
    if ids != [] && has(ids[0]) then LastDropped(ids[0], has, ids[1..]) else lastSeen
  }

  lemma NewIdsAreRun(ids: seq<BlockId>, available: seq<BlockId>, has: BlockId -> bool, firstForOther: bool)
    requires Run(ids) && Run(available)
    ensures Run(NewIds(ids, available, has, firstForOther))
  {
    if available != [] {
      if ids != [] {
        MergedIsRun(ids, available);
      } else {
        UnseenIsRun(has, available);
      }
    }
  }

  lemma MergedIsRun(ids: seq<BlockId>, available: seq<BlockId>)
    requires ids != [] && available != [] && Run(ids) && Run(available)
    ensures Run(MergedIds(ids, available))
  {
  }

  lemma {:induction false} UnseenIsRun(has: BlockId -> bool, ids: seq<BlockId>)
    requires Run(ids)
    ensures Run(Unseen(has, ids))
  {
    if ids != [] && has(ids[0]) {
      RunTail(ids);
      UnseenIsRun(has, ids[1..]);
    }
  }

  lemma RunTail(ids: seq<BlockId>)
    requires Run(ids) && ids != []
    ensures Run(ids[1..])
  {
    forall i | 0 <= i < |ids| - 1
      ensures ids[1..][i].Num() == ids[1..][0].Num() + i
    {
      assert ids[1..][i] == ids[i + 1];
    }
  }

  lemma RunHasNoRepeats(ids: seq<BlockId>)
    requires Run(ids)
    ensures NoRepeats(ids)
  {
  }

  datatype BlockOutcome = Regular | Requested | Unrequested

  class Node {
    // Every connection that is not closed; the active ones are those not yet on their way out.
    var peers: set<Peer>
    var activeConnections: set<Peer>
    var activeSyncRequests: set<BlockId>
    // Blocks that have arrived and wait to be processed.
    var received: set<BlockId>
    const maximumBlocksPerPeer: nat

    // A batch is cut when it has reached the maximum, which is after the first item at the earliest.
    function Cap(): nat {
      if maximumBlocksPerPeer == 0 then 1 else maximumBlocksPerPeer
    }

    ghost function Requests(): map<Peer, set<BlockId>>
      reads this, peers
    {
      map p | p in peers :: p.syncItemsRequested
    }

    // No block is owed by two peers, what is owed is active, no peer owes more than a batch, the ids to get are runs.
    ghost predicate Valid()
      reads this, peers
    {
      && activeConnections <= peers
      && Owed(Requests(), activeSyncRequests, Cap())
      && forall p :: p in peers ==> Run(p.idsOfItemsToGet)
    }

    // Active requests that no peer owes any more.
    ghost function Forgotten(): set<BlockId>
      reads this, peers
    {
      Orphans(Requests(), activeSyncRequests)
    }

    constructor (maximumBlocksPerPeer: nat)
      ensures Valid() && peers == {} && activeSyncRequests == {} && Forgotten() == {}
      ensures this.maximumBlocksPerPeer == maximumBlocksPerPeer
    {
      peers, activeConnections, activeSyncRequests, received := {}, {}, {}, {};
      this.maximumBlocksPerPeer := maximumBlocksPerPeer;
    }

    method AddConnection() returns (peer: Peer)
      requires Valid()
      modifies this`peers, this`activeConnections
      ensures Valid() && fresh(peer) && peers == old(peers) + {peer} && activeConnections == old(activeConnections) + {peer}
      ensures Forgotten() == old(Forgotten())
    {
      peer := new Peer();
      peers := peers + {peer};
      activeConnections := activeConnections + {peer};
      AfterConnecting(old(Requests()), activeSyncRequests, Cap(), peer);
      assert Requests() == old(Requests())[peer := {}];
    }

    // ---------- A batch of requests ----------

    // From the front of a peer's list, the items that are not here, not scheduled and not asked for, up to the cap.
    method SelectItems(ids: seq<BlockId>, scheduled: set<BlockId>) returns (batch: seq<BlockId>, next: set<BlockId>)
      ensures next == scheduled + Elements(batch) && |batch| <= Cap() && Elements(batch) !! scheduled
      ensures Batched(batch, ids, received, activeSyncRequests, next, Cap())
    {
      batch, next := [], scheduled;
      var i := 0;
      while i < |ids|
        invariant i <= |ids| && next == scheduled + Elements(batch) && NoRepeats(batch)
        invariant |batch| == 0 || |batch| < Cap()
        invariant forall x :: x in batch ==> x !in received && x !in scheduled && x !in activeSyncRequests
        invariant Covers(Elements(batch), ids[..i], received, activeSyncRequests + next)
      {
        var item := ids[i];
        assert ids[..i + 1] == ids[..i] + [item];
        if item !in received && item !in next && item !in activeSyncRequests {
          batch := batch + [item];
          next := next + {item};
          assert Covers(Elements(batch), ids[..i + 1], received, activeSyncRequests + next);
          if |batch| >= maximumBlocksPerPeer {
            break;
          }
        }
        i := i + 1;
      }
      assert ids[..|ids|] == ids;
    }

    // Whether the fetch loop considers the peer.
    predicate Eligible(peer: Peer)
      reads peer
    {
      peer.weNeedSyncItems && peer.Idle() && !peer.inhibitFetching
    }

    method RequestSyncItems(peer: Peer, items: seq<BlockId>)
      modifies this`activeSyncRequests, peer`syncItemsRequested
      ensures activeSyncRequests == old(activeSyncRequests) + Elements(items)
      ensures peer.syncItemsRequested == old(peer.syncItemsRequested) + Elements(items)
    {
      var i := 0;
      while i < |items|
        invariant i <= |items|
        invariant activeSyncRequests == old(activeSyncRequests) + Elements(items[..i])
        invariant peer.syncItemsRequested == old(peer.syncItemsRequested) + Elements(items[..i])
      {
        assert Elements(items[..i + 1]) == Elements(items[..i]) + {items[i]};
        activeSyncRequests := activeSyncRequests + {items[i]};
        peer.syncItemsRequested := peer.syncItemsRequested + {items[i]};
        i := i + 1;
      }
      assert items[..|items|] == items;
    }

    // One round of the fetch loop: first decide what to ask each idle peer for, then send the requests.
    method FetchSyncItems()
      requires Valid()
      modifies this`activeSyncRequests, activeConnections`syncItemsRequested
      ensures Valid() && Forgotten() == old(Forgotten())
      ensures forall p :: p in peers ==>
        if p in activeConnections && p.weNeedSyncItems && !p.inhibitFetching
           && p.itemsRequested == {} && old(p.syncItemsRequested) == {} && p.itemIdsRequested.None?
        then Asked(p.syncItemsRequested, p.idsOfItemsToGet, received, old(activeSyncRequests), activeSyncRequests, Cap())
        else p.syncItemsRequested == old(p.syncItemsRequested)
    {
      hide Owed, Orphans, Run, Asked, Disjoint, WithPlan, Elements, Scheduled, Batched;
      var plan := PlanRequests();
      ghost var scheduled := Scheduled(plan);
      AfterRequests(Requests(), activeSyncRequests, Cap(), plan);
      forall p | p in activeConnections && Eligible(p)
        ensures Asked(Elements(BatchFor(plan, p)), p.idsOfItemsToGet, received, activeSyncRequests,
                      activeSyncRequests + scheduled, Cap())
      {
        BatchIsAsked(BatchFor(plan, p), p.idsOfItemsToGet, received, activeSyncRequests, scheduled, Cap());
      }
      SendRequests(plan);
      forall p | p in peers
        ensures p.syncItemsRequested == old(p.syncItemsRequested) + Elements(BatchFor(plan, p))
      {
        RequestsOf(old(Requests()), plan, p);
        assert p.syncItemsRequested == Requests()[p];
        assert old(p.syncItemsRequested) == old(Requests())[p];
      }
      forall p | p in activeConnections && old(Eligible(p))
        ensures p.syncItemsRequested == Elements(BatchFor(plan, p))
      {
      }
    }

    lemma RequestsOf(requests: map<Peer, set<BlockId>>, plan: map<Peer, seq<BlockId>>, p: Peer)
      requires p in requests
      ensures p in WithPlan(requests, plan)
      ensures WithPlan(requests, plan)[p] == requests[p] + Elements(BatchFor(plan, p))
      ensures p !in plan ==> Elements(BatchFor(plan, p)) == {}
    {
    }

    ghost function BatchFor(plan: map<Peer, seq<BlockId>>, p: Peer): seq<BlockId> {
      if p in plan then plan[p] else []
    }

    // The plan so far, for the peers that have been looked at.
    ghost predicate Planned(plan: map<Peer, seq<BlockId>>, scheduled: set<BlockId>, done: set<Peer>)
      reads this, done
    {
      && Disjoint(plan, activeSyncRequests, Cap()) && scheduled == Scheduled(plan)
      && (forall p :: p in plan ==> p in done && Eligible(p))
      && (forall p :: p in done && Eligible(p) ==> PlannedFor(plan, scheduled, p))
    }

    ghost predicate PlannedFor(plan: map<Peer, seq<BlockId>>, scheduled: set<BlockId>, p: Peer)
      reads this, p
    {
      Batched(BatchFor(plan, p), p.idsOfItemsToGet, received, activeSyncRequests, scheduled, Cap())
    }

    lemma PlanStep(plan: map<Peer, seq<BlockId>>, scheduled: set<BlockId>, done: set<Peer>, p: Peer,
                   batch: seq<BlockId>, next: set<BlockId>)
      requires Planned(plan, scheduled, done) && p !in done && Eligible(p)
      requires next == scheduled + Elements(batch) && |batch| <= Cap() && Elements(batch) !! scheduled
      requires Batched(batch, p.idsOfItemsToGet, received, activeSyncRequests, next, Cap())
      ensures Planned(if batch == [] then plan else plan[p := batch], next, done + {p})
    {
      if batch != [] {
        OneMoreBatch(plan, activeSyncRequests, Cap(), p, batch);
        ScheduledMore(plan, p, batch);
      }
      hide Disjoint, Scheduled;
      var more := if batch == [] then plan else plan[p := batch];
      forall q | q in done && Eligible(q)
        ensures PlannedFor(more, next, q)
      {
        assert PlannedFor(plan, scheduled, q);
        assert BatchFor(more, q) == BatchFor(plan, q);
        BatchedStays(BatchFor(plan, q), q.idsOfItemsToGet, received, activeSyncRequests, scheduled, next, Cap());
      }
      assert BatchFor(more, p) == batch;
    }

    method PlanRequests() returns (plan: map<Peer, seq<BlockId>>)
      ensures Planned(plan, Scheduled(plan), activeConnections)
    {
      plan := map[];
      var scheduled: set<BlockId> := {};
      ghost var done: set<Peer> := {};
      var rest := activeConnections;
      hide Planned, Elements, NoRepeats, Scheduled;
      PlanStarts();
      while rest != {}
        invariant rest !! done && rest + done == activeConnections
        invariant Planned(plan, scheduled, done)
        decreases |rest|
      {
        var peer :| peer in rest;
        rest := rest - {peer};
        if Eligible(peer) {
          var batch, next := SelectItems(peer.idsOfItemsToGet, scheduled);
          PlanStep(plan, scheduled, done, peer, batch, next);
          scheduled := next;
          if batch != [] {
            plan := plan[peer := batch];
          }
        } else {
          PlanSkip(plan, scheduled, done, peer);
        }
        done := done + {peer};
      }
      PlanScheduled(plan, scheduled, done);
    }

    lemma PlanStarts()
      ensures Planned(map[], {}, {})
    {
    }

    lemma PlanSkip(plan: map<Peer, seq<BlockId>>, scheduled: set<BlockId>, done: set<Peer>, p: Peer)
      requires Planned(plan, scheduled, done) && !Eligible(p)
      ensures Planned(plan, scheduled, done + {p})
    {
    }

    lemma PlanScheduled(plan: map<Peer, seq<BlockId>>, scheduled: set<BlockId>, done: set<Peer>)
      requires Planned(plan, scheduled, done)
      ensures scheduled == Scheduled(plan)
    {
    }

    method SendRequests(plan: map<Peer, seq<BlockId>>)
      requires plan.Keys <= peers
      modifies this`activeSyncRequests, plan.Keys`syncItemsRequested
      ensures activeSyncRequests == old(activeSyncRequests) + Scheduled(plan)
      ensures Requests() == WithPlan(old(Requests()), plan)
    {
      hide Scheduled, WithPlan, Elements;
      var rest := plan.Keys;
      ghost var sent: map<Peer, seq<BlockId>> := map[];
      NothingSent(Requests());
      while rest != {}
        invariant rest <= plan.Keys && sent == plan - rest
        invariant activeSyncRequests == old(activeSyncRequests) + Scheduled(sent)
        invariant Requests() == WithPlan(old(Requests()), sent)
        decreases |rest|
      {
        var peer :| peer in rest;
        rest := rest - {peer};
        ScheduledMore(sent, peer, plan[peer]);
        WithPlanMore(old(Requests()), sent, peer, plan[peer]);
        ghost var before := Requests();
        RequestSyncItems(peer, plan[peer]);
        assert Requests() == before[peer := before[peer] + Elements(plan[peer])];
        sent := sent[peer := plan[peer]];
      }
      assert sent == plan;
    }

    // ---------- Message handlers ----------

    // The request is dropped from the peer but stays active.
    method OnItemNotAvailable(peer: Peer, requestedItem: nat, itemHash: BlockId)
      requires Valid() && peer in peers
      modifies this`activeConnections, peer`itemsRequested, peer`syncItemsRequested, peer`inhibitFetching
      ensures Valid()
      ensures var refused := requestedItem !in old(peer.itemsRequested) && itemHash in old(peer.syncItemsRequested);
              && Forgotten() == (if refused then old(Forgotten()) + {itemHash} else old(Forgotten()))
              && peer.syncItemsRequested == (if refused then old(peer.syncItemsRequested) - {itemHash}
                                             else old(peer.syncItemsRequested))
              && peer.inhibitFetching == (old(peer.inhibitFetching) || (refused && peer.peerNeedsSyncItems))
              && activeConnections == (if refused && !peer.peerNeedsSyncItems then old(activeConnections) - {peer}
                                       else old(activeConnections))
      ensures peer.itemsRequested == old(peer.itemsRequested) - {requestedItem}
    {
      hide Owed, Orphans, Run;
      if requestedItem in peer.itemsRequested {
        peer.itemsRequested := peer.itemsRequested - {requestedItem};
        assert Requests() == old(Requests());
        return;
      }
      if itemHash in peer.syncItemsRequested {
        AfterRefusal(Requests(), activeSyncRequests, Cap(), peer, itemHash);
        peer.syncItemsRequested := peer.syncItemsRequested - {itemHash};
        if peer.peerNeedsSyncItems {
          peer.inhibitFetching := true;
        } else {
          Disconnect(peer);
        }
        assert Requests() == old(Requests())[peer := old(Requests())[peer] - {itemHash}];
      }
    }

    // A peer on its way out keeps what it owes until the connection is closed.
    method Disconnect(peer: Peer)
      modifies this`activeConnections
      ensures activeConnections == old(activeConnections) - {peer}
    {
      activeConnections := activeConnections - {peer};
    }

    method OnConnectionClosed(peer: Peer)
      requires Valid() && peer in peers
      modifies this`peers, this`activeConnections, this`activeSyncRequests
      ensures Valid() && peers == old(peers) - {peer} && activeConnections == old(activeConnections) - {peer}
      ensures activeSyncRequests == old(activeSyncRequests) - peer.syncItemsRequested
      ensures Forgotten() == old(Forgotten())
    {
      hide Owed, Orphans, Run;
      AfterClosing(Requests(), activeSyncRequests, Cap(), peer);
      activeConnections := activeConnections - {peer};
      var rest := peer.syncItemsRequested;
      while rest != {}
        invariant rest <= peer.syncItemsRequested
        invariant activeSyncRequests == old(activeSyncRequests) - (peer.syncItemsRequested - rest)
        modifies this`activeSyncRequests
        decreases |rest|
      {
        var item :| item in rest;
        activeSyncRequests := activeSyncRequests - {item};
        rest := rest - {item};
      }
      peers := peers - {peer};
      assert Requests() == old(Requests()) - {peer};
      assert activeSyncRequests == old(activeSyncRequests) - old(Requests())[peer];
    }

    // A block that was asked for during synchronisation is settled; any other leaves the requests alone. When
    // that was the last one of its batch, and there are more ids to come than are left to get, they are asked for.
    method ProcessBlockMessage(peer: Peer, messageHash: nat, blockId: BlockId, nextSynopsis: seq<BlockId>)
      returns (outcome: BlockOutcome)
      requires Valid() && peer in peers
      modifies this`activeSyncRequests, this`received, this`activeConnections, peer`itemsRequested, peer`syncItemsRequested,
               peer`itemIdsRequested
      ensures Valid() && Forgotten() == old(Forgotten())
      ensures outcome == if messageHash in old(peer.itemsRequested) then Regular
                         else if blockId in old(peer.syncItemsRequested) then Requested else Unrequested
      ensures received == if outcome == Requested then old(received) + {blockId} else old(received)
      ensures activeSyncRequests == if outcome == Requested then old(activeSyncRequests) - {blockId} else old(activeSyncRequests)
      ensures peer.itemsRequested == old(peer.itemsRequested) - {messageHash}
      ensures peer.syncItemsRequested ==
                if outcome == Requested then old(peer.syncItemsRequested) - {blockId} else old(peer.syncItemsRequested)
      ensures activeConnections == if outcome == Unrequested then old(activeConnections) - {peer} else old(activeConnections)
      ensures outcome == Requested ==> forall p :: p in peers ==> blockId !in p.syncItemsRequested
      ensures peer.itemIdsRequested ==
                if outcome == Requested && old(peer.itemsRequested) == {} && old(peer.syncItemsRequested) == {blockId}
                   && old(peer.itemIdsRequested).None? && peer.unfetched > 0 && |peer.idsOfItemsToGet| < MIN_BLOCK_IDS_TO_PREFETCH
                then Some(nextSynopsis) else old(peer.itemIdsRequested)
    {
      hide Owed, Orphans, Run;
      if messageHash in peer.itemsRequested {
        peer.itemsRequested := peer.itemsRequested - {messageHash};
        assert Requests() == old(Requests());
        return Regular;
      }
      if blockId in peer.syncItemsRequested {
        AfterArrival(Requests(), activeSyncRequests, Cap(), peer, blockId);
        peer.syncItemsRequested := peer.syncItemsRequested - {blockId};
        activeSyncRequests := activeSyncRequests - {blockId};
        received := received + {blockId};
        if peer.Idle() && peer.unfetched > 0 && |peer.idsOfItemsToGet| < MIN_BLOCK_IDS_TO_PREFETCH {
          peer.itemIdsRequested := Some(nextSynopsis);  // otherwise the fetch loop is triggered, which asks for items
        }
        assert Requests() == old(Requests())[peer := old(Requests())[peer] - {blockId}];
        assert forall p :: p in peers ==> p.syncItemsRequested == Requests()[p];
        return Requested;
      }
      Disconnect(peer);
      assert Requests() == old(Requests());
      return Unrequested;
    }

    predicate NextFor(peer: Peer, blockId: BlockId)
      reads peer
    {
      NextOn(peer.Lists(), blockId)
    }

    method TakeOffLists(blockId: BlockId) returns (first: bool)
      modifies activeConnections`idsOfItemsToGet, activeConnections`idsBeingProcessed
      ensures first <==> exists p :: p in activeConnections && old(NextFor(p, blockId))
      ensures forall p :: p in activeConnections ==> p.Wanted() == AfterTaking(old(p.Wanted()), blockId)
    {
      hide NextOn, AfterTaking;
      first := false;
      var rest := activeConnections;
      while rest != {}
        invariant rest <= activeConnections
        invariant first <==> exists p :: p in activeConnections - rest && old(NextFor(p, blockId))
        invariant forall p :: p in activeConnections ==>
          p.Wanted() == if p in rest then old(p.Wanted()) else AfterTaking(old(p.Wanted()), blockId)
        decreases |rest|
      {
        var peer :| peer in rest;
        assert peer.Wanted().lists == old(peer.Wanted()).lists;
        assert NextFor(peer, blockId) == old(NextFor(peer, blockId));
        ghost var before := rest;
        rest := rest - {peer};
        var taken := peer.TakeOff(blockId);
        first := first || taken;
        assert activeConnections - rest == activeConnections - before + {peer};
      }
    }

    // Treats a block as accepted: it is not being processed any more, and who has nothing left is asked again.
    method AcceptFromAll(blockId: BlockId, synopsisFor: Peer -> seq<BlockId>)
      modifies activeConnections`idsBeingProcessed, activeConnections`itemIdsRequested
      ensures forall p :: p in activeConnections ==> p.Wanted() == AfterAccepting(old(p.Wanted()), blockId, synopsisFor(p))
    {
      hide AfterAccepting;
      var rest := activeConnections;
      while rest != {}
        invariant rest <= activeConnections
        invariant forall p :: p in activeConnections ==>
          p.Wanted() == if p in rest then old(p.Wanted()) else AfterAccepting(old(p.Wanted()), blockId, synopsisFor(p))
        decreases |rest|
      {
        var peer :| peer in rest;
        assert peer.Wanted() == old(peer.Wanted());
        rest := rest - {peer};
        peer.Accept(blockId, synopsisFor(peer));
      }
    }

    /**
     * A received block leaves the lists of all peers it is next for. If there is such a peer it is processed,
     * or, when it has been accepted meanwhile, treated as accepted; in that case it stays among those received.
     */
    method ConsiderReceived(blockId: BlockId, recentlyAccepted: bool, synopsisFor: Peer -> seq<BlockId>) returns (first: bool)
      requires Valid()
      modifies this`received
      modifies activeConnections`idsOfItemsToGet, activeConnections`idsBeingProcessed, activeConnections`itemIdsRequested
      ensures Valid() && Forgotten() == old(Forgotten())
      ensures first <==> exists p :: p in activeConnections && old(p.idsOfItemsToGet != [] && p.idsOfItemsToGet[0] == blockId)
      ensures forall p :: p in activeConnections ==>
        Considered(blockId, first && recentlyAccepted, synopsisFor(p), p.unfetched,
                   old(p.idsOfItemsToGet), old(p.idsBeingProcessed), old(p.itemIdsRequested),
                   p.idsOfItemsToGet, p.idsBeingProcessed, p.itemIdsRequested)
      ensures received == if first && !recentlyAccepted then old(received) - {blockId} else old(received)
    {
      hide Owed, Orphans, Run, TakenFrom, AfterAccepting, Considered;
      first := TakeOffLists(blockId);
      if first && !recentlyAccepted {
        received := received - {blockId};
      }
      if first && recentlyAccepted {
        AcceptFromAll(blockId, synopsisFor);
      }
      assert Requests() == old(Requests());
      forall p | p in peers
        ensures Run(p.idsOfItemsToGet)
      {
        ConsideredIsRun(old(p.Wanted()), blockId, first && recentlyAccepted, synopsisFor(p));
        assert p in activeConnections ==> p.Wanted().lists.toGet == p.idsOfItemsToGet;
      }
      forall p | p in activeConnections
        ensures Considered(blockId, first && recentlyAccepted, synopsisFor(p), p.unfetched,
                           old(p.idsOfItemsToGet), old(p.idsBeingProcessed), old(p.itemIdsRequested),
                           p.idsOfItemsToGet, p.idsBeingProcessed, p.itemIdsRequested)
      {
        ConsideringIs(old(p.Wanted()), blockId, first && recentlyAccepted, synopsisFor(p));
      }
    }

    method StartSynchronizing(peer: Peer, synopsis: seq<BlockId>)
      requires Valid() && peer in peers
      modifies peer`idsOfItemsToGet, peer`unfetched, peer`weNeedSyncItems, peer`lastSeen, peer`inhibitFetching,
               peer`itemIdsRequested
      ensures Valid() && Forgotten() == old(Forgotten())
      ensures peer.idsOfItemsToGet == [] && peer.unfetched == 0 && peer.weNeedSyncItems && !peer.inhibitFetching
      ensures peer.itemIdsRequested == Some(synopsis) && peer.lastSeen == NO_BLOCK
    {
      hide Owed, Orphans;
      peer.idsOfItemsToGet, peer.unfetched := [], 0;
      peer.weNeedSyncItems, peer.lastSeen, peer.inhibitFetching := true, NO_BLOCK, false;
      peer.itemIdsRequested := Some(synopsis);
      assert Requests() == old(Requests());
    }

    // ---------- The inventory of block ids ----------

    method CheckInventory(synopsis: seq<BlockId>, available: seq<BlockId>) returns (outcome: InventoryOutcome)
      ensures outcome == Merged <==> Answers(synopsis, available)
      ensures outcome == NotSequential <==> exists i :: 0 <= i < |available| && available[i].Num() != available[0].Num() + i
      ensures outcome == Merged || outcome == NotSequential || outcome == if synopsis == [] then NotFromTheStart else NotFromSynopsis
    {
      if available != [] {
        var firstNumber := available[0].Num();
        var i := 1;
        while i < |available|
          invariant 1 <= i <= |available|
          invariant forall j :: 0 <= j < i ==> available[j].Num() == firstNumber + j
        {
          if available[i].Num() != firstNumber + i {
            return NotSequential;
          }
          i := i + 1;
        }
        if synopsis == [] {
          if available[0].Num() != 1 {
            return NotFromTheStart;
          }
        } else if available[0] !in synopsis {
          return NotFromSynopsis;
        }
      }
      return Merged;
    }

    // Whether the list of another active peer starts with the block.
    ghost predicate FirstForOther(peer: Peer, blockId: BlockId)
      reads this, activeConnections
    {
      exists p :: p in activeConnections && p != peer && NextFor(p, blockId)
    }

    lemma FirstForOtherIs(peer: Peer, available: seq<BlockId>)
      ensures available != [] ==>
        (FirstForOther(peer, available[0]) <==>
         exists p :: p in activeConnections && p != peer && p.idsOfItemsToGet != [] && p.idsOfItemsToGet[0] == available[0])
    {
      if available != [] {
        forall p | p in activeConnections
          ensures NextFor(p, available[0]) <==> p.idsOfItemsToGet != [] && p.idsOfItemsToGet[0] == available[0]
        {
        }
      }
    }

    // Flushes what the delegate has, unless another peer's list starts with the same block.
    method Flush(peer: Peer, has: BlockId -> bool, available: seq<BlockId>) returns (ids: seq<BlockId>)
      requires available != []
      modifies peer`lastSeen
      ensures ids == if FirstForOther(peer, available[0]) then available else Unseen(has, available)
      ensures peer.lastSeen == if old(FirstForOther(peer, available[0])) then old(peer.lastSeen)
                               else LastDropped(old(peer.lastSeen), has, available)
    {
      var isFirstForOther := false;
      var rest := activeConnections;
      while rest != {}
        invariant rest <= activeConnections
        invariant isFirstForOther <==> exists p :: p in activeConnections - rest && p != peer && NextFor(p, available[0])
        modifies {}
        decreases |rest|
      {
        var other :| other in rest;
        rest := rest - {other};
        if other != peer && NextFor(other, available[0]) {
          isFirstForOther := true;
        }
      }
      ids := available;
      if !isFirstForOther {
        while ids != [] && has(ids[0])
          invariant Unseen(has, ids) == Unseen(has, available)
          invariant LastDropped(peer.lastSeen, has, ids) == LastDropped(old(peer.lastSeen), has, available)
          decreases |ids|
        {
          peer.lastSeen := ids[0];
          ids := ids[1..];
        }
      }
    }

    // Pops the old list back to the first block of the new one, and joins them there.
    method Merge(peer: Peer, available: seq<BlockId>)
      requires peer.idsOfItemsToGet != [] && available != [] && Run(peer.idsOfItemsToGet) && Run(available)
      modifies peer`idsOfItemsToGet, peer`lastSeen
      ensures peer.idsOfItemsToGet == MergedIds(old(peer.idsOfItemsToGet), available)
      ensures peer.lastSeen == if available[0] in old(peer.idsOfItemsToGet) then old(peer.lastSeen) else available[0]
    {
      ghost var ids := peer.idsOfItemsToGet;
      var rest := available;
      while peer.idsOfItemsToGet != []
        invariant |peer.idsOfItemsToGet| <= |ids| && peer.idsOfItemsToGet == ids[..|peer.idsOfItemsToGet|]
        invariant available[0] !in ids[|peer.idsOfItemsToGet|..]
        invariant peer.lastSeen == old(peer.lastSeen)
        decreases |peer.idsOfItemsToGet|
      {
        var n := |peer.idsOfItemsToGet|;
        if available[0] == peer.idsOfItemsToGet[n - 1] {
          break;
        }
        assert ids[n - 1..] == [ids[n - 1]] + ids[n..];
        peer.idsOfItemsToGet := peer.idsOfItemsToGet[..n - 1];
      }
      if peer.idsOfItemsToGet == [] {
        assert ids[0..] == ids;
        peer.lastSeen := rest[0];
        rest := rest[1..];
      } else {
        peer.idsOfItemsToGet := peer.idsOfItemsToGet[..|peer.idsOfItemsToGet| - 1];
      }
      // The assertion of the source that the join has no repeated block.
      if rest != [] && peer.idsOfItemsToGet != [] {
        assert rest[0] != peer.idsOfItemsToGet[|peer.idsOfItemsToGet| - 1];
      }
      peer.idsOfItemsToGet := peer.idsOfItemsToGet + rest;
    }

    method TakeIds(peer: Peer, available: seq<BlockId>, has: BlockId -> bool)
      requires Run(peer.idsOfItemsToGet) && Run(available)
      modifies peer`idsOfItemsToGet, peer`lastSeen
      ensures peer.idsOfItemsToGet == NewIds(old(peer.idsOfItemsToGet), available, has,
                                             available != [] && old(FirstForOther(peer, available[0])))
      ensures peer.lastSeen == NewLastSeen(old(peer.lastSeen), old(peer.idsOfItemsToGet), available, has,
                                           available != [] && old(FirstForOther(peer, available[0])))
    {
      if available != [] {
        if peer.idsOfItemsToGet == [] {
          peer.idsOfItemsToGet := Flush(peer, has, available);
        } else {
          Merge(peer, available);
        }
      }
    }

    // Asks for more ids when few are left to get, or none although the peer has told all it knows.
    function AsksAgain(remaining: nat, ids: seq<BlockId>): bool {
      if remaining != 0 then |ids| <= MIN_BLOCK_IDS_TO_PREFETCH else ids == []
    }

    method AnswerInventory(peer: Peer, available: seq<BlockId>, remaining: nat, has: BlockId -> bool, plausible: bool,
                           nextSynopsis: seq<BlockId>)
      returns (outcome: InventoryOutcome)
      requires Run(peer.idsOfItemsToGet)
      modifies peer`idsOfItemsToGet, peer`unfetched, peer`itemIdsRequested, peer`weNeedSyncItems, peer`lastSeen
      ensures Answered(old(peer.itemIdsRequested), available, remaining, has, old(peer.idsOfItemsToGet), old(peer.unfetched),
                       plausible, outcome)
      ensures Run(peer.idsOfItemsToGet)
      ensures outcome == Merged || outcome == Implausible ==>
                TakenIn(available, has, available != [] && old(FirstForOther(peer, available[0])), old(peer.idsOfItemsToGet),
                        old(peer.lastSeen), peer.idsOfItemsToGet, peer.lastSeen)
      ensures !(outcome == Merged || outcome == Implausible) ==>
                peer.idsOfItemsToGet == old(peer.idsOfItemsToGet) && peer.lastSeen == old(peer.lastSeen)
      ensures peer.unfetched == if outcome == Merged || outcome == Implausible then remaining else old(peer.unfetched)
      ensures peer.itemIdsRequested ==
                if outcome == Merged && AsksAgain(remaining, peer.idsOfItemsToGet) then Some(nextSynopsis)
                else if outcome == Merged || outcome == Implausible || outcome == UpToDate then None
                else old(peer.itemIdsRequested)
      ensures peer.weNeedSyncItems == (old(peer.weNeedSyncItems) && outcome != UpToDate)
    {
      hide NewIds, NewLastSeen, TakenIn;
      if peer.itemIdsRequested.None? {
        return NotAsked;
      }
      outcome := CheckInventory(peer.itemIdsRequested.value, available);
      if outcome != Merged {
        return;
      }
      ghost var nextForOther := available != [] && FirstForOther(peer, available[0]);
      NewIdsAreRun(peer.idsOfItemsToGet, available, has, nextForOther);
      TakenInIs(available, has, nextForOther, peer.idsOfItemsToGet, peer.lastSeen);
      peer.itemIdsRequested := None;
      if remaining == 0 && (available == [] || (|available| == 1 && has(available[0])))
         && peer.idsOfItemsToGet == [] && peer.unfetched == 0 {
        peer.weNeedSyncItems := false;
        return UpToDate;
      }
      TakeIds(peer, available, has);
      peer.unfetched := remaining;
      if !plausible {
        return Implausible;
      }
      if AsksAgain(remaining, peer.idsOfItemsToGet) {
        peer.itemIdsRequested := Some(nextSynopsis);
      }
    }

    // A response with ids that can be got from a peer; has tells what the delegate has, plausible whether the
    // last block would not lie in the future, nextSynopsis is sent when more ids are asked for.
    method OnBlockIdsInventory(peer: Peer, available: seq<BlockId>, remaining: nat, has: BlockId -> bool, plausible: bool,
                               nextSynopsis: seq<BlockId>)
      returns (outcome: InventoryOutcome)
      requires Valid() && peer in peers
      modifies this`activeConnections, peer`idsOfItemsToGet, peer`unfetched, peer`itemIdsRequested,
               peer`weNeedSyncItems, peer`lastSeen
      ensures Valid() && Forgotten() == old(Forgotten())
      ensures Answered(old(peer.itemIdsRequested), available, remaining, has, old(peer.idsOfItemsToGet), old(peer.unfetched),
                       plausible, outcome)
      ensures outcome == Merged || outcome == Implausible ==>
                var nextForOther := available != [] && old(
                  exists p :: p in activeConnections && p != peer && p.idsOfItemsToGet != [] && p.idsOfItemsToGet[0] == available[0]);
                TakenIn(available, has, nextForOther, old(peer.idsOfItemsToGet), old(peer.lastSeen),
                        peer.idsOfItemsToGet, peer.lastSeen)
      ensures !(outcome == Merged || outcome == Implausible) ==>
                peer.idsOfItemsToGet == old(peer.idsOfItemsToGet) && peer.lastSeen == old(peer.lastSeen)
      ensures peer.unfetched == if outcome == Merged || outcome == Implausible then remaining else old(peer.unfetched)
      ensures peer.itemIdsRequested ==
                if outcome == Merged && (if remaining != 0 then |peer.idsOfItemsToGet| <= 10000 else peer.idsOfItemsToGet == [])
                then Some(nextSynopsis)
                else if outcome == Merged || outcome == Implausible || outcome == UpToDate then None
                else old(peer.itemIdsRequested)
      ensures peer.weNeedSyncItems == (old(peer.weNeedSyncItems) && outcome != UpToDate)
      ensures activeConnections == if outcome == NotAsked || outcome == UpToDate || outcome == Merged
                then old(activeConnections) else old(activeConnections) - {peer}
    {
      FirstForOtherIs(peer, available);
      hide Owed, Orphans, Run, FirstForOther, NextFor, Answered, TakenIn;
      outcome := AnswerInventory(peer, available, remaining, has, plausible, nextSynopsis);
      if !(outcome == NotAsked || outcome == UpToDate || outcome == Merged) {
        Disconnect(peer);
      }
      assert Requests() == old(Requests());
    }
  }

  lemma NothingSent(requests: map<Peer, set<BlockId>>)
    ensures Scheduled<Peer>(map[]) == {}
    ensures WithPlan(requests, map[]) == requests
  {
  }
}
