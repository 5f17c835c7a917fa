/** Whole runs of the synchronisation bookkeeping: its message handlers, in any order and number. */
module SyncRuns {
  import opened Common
  import opened ChainTypes
  import opened SyncRequests
  import opened SyncNode

  // Peers go by the order in which they have connected. An event of a peer whose connection is closed does not happen.
  datatype Event =
    | Connected
    | Closed(peer: nat)
    | Arrived(peer: nat, messageHash: nat, blockId: BlockId, synopsis: seq<BlockId>)
    | NotAvailable(peer: nat, requestedItem: nat, itemHash: BlockId)
    | Fetch
    | Considered(blockId: BlockId, recentlyAccepted: bool, synopsisFor: Peer -> seq<BlockId>)
    | Started(peer: nat, synopsis: seq<BlockId>)
    | Offered(peer: nat, available: seq<BlockId>, remaining: nat, has: BlockId -> bool, plausible: bool, synopsis: seq<BlockId>)

  predicate Open(node: Node, made: seq<Peer>, k: nat)
    reads node
  {
    k < |made| && made[k] in node.peers
  }

  // The item that the event makes an active request that nobody owes: a peer refuses it, and not as one of normal operation.
  function RefusedBy(node: Node, made: seq<Peer>, e: Event): set<BlockId>
    reads node, made
  {
    if e.NotAvailable? && Open(node, made, e.peer) && e.requestedItem !in made[e.peer].itemsRequested
       && e.itemHash in made[e.peer].syncItemsRequested
    then {e.itemHash} else {}
  }

  method Handle(node: Node, made: seq<Peer>, e: Event) returns (made': seq<Peer>)
    requires node.Valid() && forall p :: p in node.peers ==> p in made
    modifies node, made
    ensures node.Valid()
    ensures made <= made' && (forall p :: p in made' ==> p in made || fresh(p)) && forall p :: p in node.peers ==> p in made'
    ensures node.Forgotten() == old(node.Forgotten()) + old(RefusedBy(node, made, e))
  {
    hide Node.Valid, Node.Forgotten;
    made' := made;
    ActiveAreMade(node, made);
    match e
    case Connected =>
      var peer := node.AddConnection();
      made' := made + [peer];
    case Closed(k) =>
      if Open(node, made, k) {
        node.OnConnectionClosed(made[k]);
      }
    case Arrived(k, messageHash, blockId, synopsis) =>
      if Open(node, made, k) {
        var outcome := node.ProcessBlockMessage(made[k], messageHash, blockId, synopsis);
      }
    case NotAvailable(k, requestedItem, itemHash) =>
      if Open(node, made, k) {
        node.OnItemNotAvailable(made[k], requestedItem, itemHash);
      }
    case Fetch =>
      node.FetchSyncItems();
    case Considered(blockId, recentlyAccepted, synopsisFor) =>
      var first := node.ConsiderReceived(blockId, recentlyAccepted, synopsisFor);
    case Started(k, synopsis) =>
      if Open(node, made, k) {
        node.StartSynchronizing(made[k], synopsis);
      }
    case Offered(k, available, remaining, has, plausible, synopsis) =>
      if Open(node, made, k) {
        var outcome := node.OnBlockIdsInventory(made[k], available, remaining, has, plausible, synopsis);
      }
  }

  lemma ActiveAreMade(node: Node, made: seq<Peer>)
    requires node.Valid() && forall p :: p in node.peers ==> p in made
    ensures forall p :: p in node.activeConnections ==> p in made
  {
  }

  // What a valid node says of its requests and of the lists of ids to get.
  ghost predicate NothingTwice(node: Node)
    reads node, node.peers
  {
    && (forall p, q :: p in node.peers && q in node.peers && p != q ==> p.syncItemsRequested !! q.syncItemsRequested)
    && (forall p :: p in node.peers ==> p.syncItemsRequested <= node.activeSyncRequests && |p.syncItemsRequested| <= node.Cap())
    && (forall p :: p in node.peers ==> Run(p.idsOfItemsToGet) && NoRepeats(p.idsOfItemsToGet))
    && (forall x :: x in node.activeSyncRequests ==>
          x in node.Forgotten() || exists p :: p in node.peers && x in p.syncItemsRequested)
  }

  lemma ValidMeans(node: Node)
    requires node.Valid()
    ensures NothingTwice(node)
  {
    var requests := node.Requests();
    forall p, q | p in node.peers && q in node.peers && p != q ensures p.syncItemsRequested !! q.syncItemsRequested {
      assert requests[p] !! requests[q];
    }
    forall p | p in node.peers
      ensures p.syncItemsRequested <= node.activeSyncRequests && |p.syncItemsRequested| <= node.Cap() && NoRepeats(p.idsOfItemsToGet)
    {
      assert requests[p] <= node.activeSyncRequests;
      RunHasNoRepeats(p.idsOfItemsToGet);
    }
    forall x | x in node.activeSyncRequests && x !in node.Forgotten()
      ensures exists p :: p in node.peers && x in p.syncItemsRequested
    {
      var p :| p in requests && x in requests[p];
      assert p in node.peers && x in p.syncItemsRequested;
    }
  }

  /**
   * Every run of a new node: no block is ever outstanding at two peers, every outstanding one is active, no peer
   * owes more than a batch, and every active request is owed by a peer or is one that a peer has refused.
   */
  method RunEvents(maximumBlocksPerPeer: nat, events: seq<Event>)
    returns (node: Node, made: seq<Peer>, ghost refused: seq<set<BlockId>>)
    ensures fresh(node) && node.Valid() && NothingTwice(node)
    ensures |refused| == |events|
    ensures forall i :: 0 <= i < |events| ==> refused[i] <= if events[i].NotAvailable? then {events[i].itemHash} else {}
    ensures forall x :: x in node.Forgotten() <==> exists i :: 0 <= i < |events| && x in refused[i]
  {
    node := new Node(maximumBlocksPerPeer);
    made, refused := [], [];
    hide Node.Valid, Node.Forgotten;
    for i := 0 to |events|
      invariant fresh(node) && node.Valid() && fresh(made) && forall p :: p in node.peers ==> p in made
      invariant |refused| == i
      invariant forall j :: 0 <= j < i ==> refused[j] <= if events[j].NotAvailable? then {events[j].itemHash} else {}
      invariant forall x :: x in node.Forgotten() <==> exists j :: 0 <= j < i && x in refused[j]
    {
      ghost var now, before := RefusedBy(node, made, events[i]), node.Forgotten();
      var made1 := Handle(node, made, events[i]);
      forall k | 0 <= k < |made1| ensures fresh(made1[k]) {
        assert made1[k] in made1;
      }
      made := made1;
      ghost var more := refused + [now];
      assert node.Forgotten() == before + now;
      forall x ensures x in node.Forgotten() <==> exists j :: 0 <= j < i + 1 && x in more[j] {
        if x in before {
          var j :| 0 <= j < i && x in refused[j];
          assert more[j] == refused[j];
        } else if x in now {
          assert more[i] == now;
        }
      }
      refused := more;
    }
    ValidMeans(node);
  }
}
