// The session as an object: its locked sections update the block queue, the
// peers and the address lists in place. Each is tied to steps of SessionSpec.
module Session {
  import opened Common
  import opened PieceSpec
  import opened Requests
  import opened PeerSpec
  import opened QueueSpec
  import opened AddressSpec
  import opened SessionSpec
  import opened SessionFetching
  import opened SessionRuns
  import opened DiskSpec
  import BS = BundleSpec
  import Bd = Bundle
  import Pr = Peer

  ghost function PeerStates(peers: seq<Pr.Peer>): (r: seq<PeerState>)
    reads peers
    ensures |r| == |peers| && forall i :: 0 <= i < |peers| ==> r[i] == peers[i].State()
  {
    seq(|peers|, i requires 0 <= i < |peers| reads peers => peers[i].State())
  }

  // ----- loops over the block queue and the address lists -----

  method RemoveRequest(queue: Queue, info: BlockInfo) returns (r: Queue)
    ensures r == Remove(queue, info)
  {
    var i := 0;
    while i < |queue|
      invariant 0 <= i <= |queue|
      invariant forall j :: 0 <= j < i ==> queue[j].info != info
    {
      if queue[i].info == info {
        return queue[..i] + queue[i + 1..];
      }
      i := i + 1;
    }
    return queue;
  }

  method RejectRequest(queue: Queue, info: BlockInfo, id: PeerId) returns (r: Queue)
    ensures r == Reject(queue, info, id)
  {
    var i := 0;
    while i < |queue|
      invariant 0 <= i <= |queue|
      invariant forall j :: 0 <= j < i ==> queue[j].info != info
    {
      if info.piece == queue[i].info.piece && info.begin == queue[i].info.begin && info.length == queue[i].info.length {
        return queue[i := queue[i].(rejected := queue[i].rejected + [id], sent := false, sentTo := [])];
      }
      i := i + 1;
    }
    return queue;
  }

  method UnsendAll(queue: Queue, id: PeerId) returns (r: Queue)
    ensures r == Unsend(queue, id)
  {
    r := queue;
    for i := 0 to |queue|
      invariant |r| == |queue|
      invariant forall j :: 0 <= j < |queue| ==> r[j] == if j < i then Unsend(queue, id)[j] else queue[j]
    {
      if r[i].sent && r[i].sentTo == id {
        r := r[i := r[i].(sent := false, sentTo := [])];
      }
    }
  }

  // The address is taken out where it stands first, if it is there.
  method TakeOut(list: seq<Address>, x: Address) returns (found: bool, rest: seq<Address>)
    ensures found == (FindAddress(list, x) < |list|)
    ensures rest == if found then Without(list, FindAddress(list, x)) else list
  {
    var i := 0;
    while i < |list|
      invariant 0 <= i <= |list|
      invariant forall j :: 0 <= j < i ==> list[j] != x
    {
      if list[i].ip == x.ip && list[i].port == x.port {
        return true, list[..i] + list[i + 1..];
      }
      i := i + 1;
    }
    return false, list;
  }

  method Contains(list: seq<Address>, x: Address) returns (found: bool)
    ensures found == (x in list)
  {
    for i := 0 to |list|
      invariant forall j :: 0 <= j < i ==> list[j] != x
    {
      if list[i].ip == x.ip && list[i].port == x.port {
        return true;
      }
    }
    return false;
  }

  // The body of the loop in assignParts; cap is the rate limit.
  method ServePeer(queue: Queue, curPeer: Pr.Peer, cap: Option<int>) returns (blockQueue: Queue)
    modifies curPeer
    ensures blockQueue == Assign(queue, old(curPeer.State()), cap).queue
    ensures curPeer.State() == Assign(queue, old(curPeer.State()), cap).peer
  {
    hide AssignFrom;
    var numCanAdd := curPeer.NumRequestsCanAdd();
    if curPeer.RemoteChoking || numCanAdd == 0 {
      return queue;
    }
    if cap.Some? && numCanAdd > cap.value {
      numCanAdd := cap.value;
    }
    if |curPeer.requestCancelledQueue| < curPeer.RequestsOutMax / 4 &&
       numCanAdd > curPeer.RequestsOutMax / 2 &&
       curPeer.RequestsOutMax < 256 {
      curPeer.SetMaxRequests(curPeer.RequestsOutMax * 2);
    }
    blockQueue := HandOut(queue, curPeer, numCanAdd);
  }

  // The inner loop of assignParts: requests that the peer can serve are handed to
  // it. What its queue answers is not looked at.
  method HandOut(queue: Queue, peer: Pr.Peer, numCanAdd: int) returns (blockQueue: Queue)
    modifies peer
    ensures blockQueue == AssignFrom(queue, old(peer.State()), numCanAdd, 0).queue
    ensures peer.State() == AssignFrom(queue, old(peer.State()), numCanAdd, 0).peer
  {
    hide AssignFrom, QueueRequest;
    blockQueue := queue;
    ghost var all := AssignFrom(queue, peer.State(), numCanAdd, 0);
    var numAdded, curRequestIndex := 0, 0;
    while numAdded < numCanAdd && curRequestIndex < |blockQueue|
      invariant 0 <= curRequestIndex && |blockQueue| == |queue|
      invariant var rest := AssignFrom(blockQueue, peer.State(), numCanAdd - numAdded, curRequestIndex);
                rest.queue == all.queue && rest.peer == all.peer
      decreases |blockQueue| - curRequestIndex
    {
      var curBlockReq := blockQueue[curRequestIndex];
      AssignStep(blockQueue, peer.State(), numCanAdd - numAdded, curRequestIndex);
      if curBlockReq.sent {
        curRequestIndex := curRequestIndex + 1;
        continue;
      }
      var rejected := IsRejected(curBlockReq, peer.RemotePeerID);
      if !rejected && peer.HasPiece(curBlockReq.info.piece) {
        var _ := peer.QueueRequestOut(curBlockReq.info);
        blockQueue := blockQueue[curRequestIndex := curBlockReq.(sent := true, sentTo := peer.RemotePeerID)];
        numAdded := numAdded + 1;
      }
      curRequestIndex := curRequestIndex + 1;
    }
    AssignStop(blockQueue, peer.State(), numCanAdd - numAdded, curRequestIndex);
  }

  method IsRejected(req: BlockRequest, id: PeerId) returns (rejected: bool)
    ensures rejected == (id in req.rejected)
  {
    for k := 0 to |req.rejected|
      invariant forall j :: 0 <= j < k ==> req.rejected[j] != id
    {
      if req.rejected[k] == id {
        return true;
      }
    }
    return false;
  }

  lemma {:induction false} AssignStep(q: Queue, p: PeerState, left: int, k: nat)
    requires k < |q| && left > 0
    ensures var r := AssignFrom(q, p, left, k);
            if Wants(q[k], p)
            then
              var queued := QueueRequest(p, q[k].info);
              var s := AssignFrom(q[k := q[k].(sent := true, sentTo := p.id)],
                                  if queued.Some? then queued.value else p, left - 1, k + 1);
              r.queue == s.queue && r.peer == s.peer
            else r == AssignFrom(q, p, left, k + 1)
  {
    hide QueueRequest;
  }

  lemma {:induction false} AssignStop(q: Queue, p: PeerState, left: int, k: nat)
    requires k >= |q| || left <= 0
    ensures AssignFrom(q, p, left, k) == Assigned(q, p, true)
  {
  }

  // ----- responses and cancellations of one peer -----

  function RejectAll(q: Queue, cancelled: seq<OutRequest>, id: PeerId): Queue
    decreases |cancelled|
  {
    if cancelled == [] then q else RejectAll(Reject(q, cancelled[0].info, id), cancelled[1..], id)
  }

  function RemoveAll(q: Queue, rs: seq<BlockResponse>): Queue
    decreases |rs|
  {
    if rs == [] then q else RemoveAll(Remove(q, Named(rs[0])), rs[1..])
  }

  ghost function ReceiveAll(H: Hasher, b: BS.BundleState, rs: seq<BlockResponse>, n: nat, failing: map<nat, nat>): BS.BundleState
    decreases |rs|
  {
    if rs == [] then b else ReceiveAll(H, Receive(H, b, rs[0], FateOf(failing, n)), rs[1..], n + 1, failing)
  }

  lemma {:induction false} TakeBackAllIs(st: State, i: nat)
    requires i < |st.peers|
    ensures var p := st.peers[i];
            TakeBackAll(st, i) == st.(queue := RejectAll(st.queue, p.cancelled, p.id),
                                      peers := st.peers[i := p.(cancelled := [])])
    decreases |st.peers[i].cancelled|
  {
    hide Reject;
    if st.peers[i].cancelled == [] {
      assert st.peers[i := st.peers[i]] == st.peers;
    } else {
      TakeBackAllIs(TakeBackOne(st, i), i);
      var p := st.peers[i];
      assert st.peers[i := p.(cancelled := p.cancelled[1..])][i := p.(cancelled := [])] == st.peers[i := p.(cancelled := [])];
    }
  }

  lemma {:induction false} CollectAllIs(H: Hasher, st: State, i: nat, n: nat, failing: map<nat, nat>)
    requires i < |st.peers|
    ensures var p := st.peers[i];
            CollectAll(H, st, i, n, failing)
              == st.(bundle := ReceiveAll(H, st.bundle, p.responses, n, failing),
                     queue := RemoveAll(st.queue, p.responses),
                     peers := st.peers[i := p.(responses := [])])
    decreases |st.peers[i].responses|
  {
    hide Receive, Remove;
    if st.peers[i].responses == [] {
      assert st.peers[i := st.peers[i]] == st.peers;
    } else {
      CollectAllIs(H, CollectOne(H, st, i, FateOf(failing, n)), i, n + 1, failing);
      var p := st.peers[i];
      assert st.peers[i := p.(responses := p.responses[1..])][i := p.(responses := [])] == st.peers[i := p.(responses := [])];
    }
  }

  method TakeBackRequests(queue: Queue, cancelled: seq<OutRequest>, id: PeerId) returns (blockQueue: Queue)
    ensures blockQueue == RejectAll(queue, cancelled, id)
  {
    hide Reject;
    blockQueue := queue;
    for k := 0 to |cancelled|
      invariant RejectAll(blockQueue, cancelled[k..], id) == RejectAll(queue, cancelled, id)
    {
      assert cancelled[k..][1..] == cancelled[k + 1..];
      blockQueue := RejectRequest(blockQueue, cancelled[k].info, id);
    }
  }

  // Receiving keeps the bundle sound, and does not change which pieces there are.
  lemma {:induction false} ReceiveKeepsSound(H: Hasher, b: BS.BundleState, r: BlockResponse, fate: DiskFate, i: nat)
    requires Bd.Sound(H, b) && HasPiece(b, r.piece) && HasPiece(b, i)
    ensures Bd.Sound(H, BS.AfterWrite(H, b, r.piece, r.begin, r.block, fate))
    ensures HasPiece(BS.AfterWrite(H, b, r.piece, r.begin, r.block, fate), r.piece)
    ensures Bd.Sound(H, Receive(H, b, r, fate)) && HasPiece(Receive(H, b, r, fate), i)
  {
    var w := BS.AfterWrite(H, b, r.piece, r.begin, r.block, fate);
    WriteKeepsSound(H, b, r, fate, i);
    WriteKeepsSound(H, b, r, fate, r.piece);
    CancelKeepsSound(H, w, r.piece, r.begin, i);
    hide Bd.Sound, BS.AfterWrite, BS.WriteResult, BS.AfterCancel;
  }

  lemma {:induction false} WriteKeepsSound(H: Hasher, b: BS.BundleState, r: BlockResponse, fate: DiskFate, i: nat)
    requires Bd.Sound(H, b) && HasPiece(b, r.piece) && HasPiece(b, i)
    ensures var w := BS.AfterWrite(H, b, r.piece, r.begin, r.block, fate);
            Bd.Sound(H, w) && HasPiece(w, i)
  {
    var w := BS.AfterWrite(H, b, r.piece, r.begin, r.block, fate);
    assert PieceInv(H, b.pieces[r.piece]);
    WriteKeepsPieceInv(H, b.pieces[r.piece], r.begin, r.block);
    BS.WriteKeepsComplete(H, b.pieces[r.piece], r.begin, r.block);
    BS.WrittenPieces(H, b, r.piece, r.begin, r.block, fate);
    WriteKeepsSize(H, b, r, fate);
    hide WritePiece, BS.AfterWrite;
    OnePieceSound(H, b, w, r.piece);
  }

  lemma {:induction false} WriteKeepsSize(H: Hasher, b: BS.BundleState, r: BlockResponse, fate: DiskFate)
    requires HasPiece(b, r.piece) && forall k :: k in b.bits ==> k < |b.pieces|
    ensures var w := BS.AfterWrite(H, b, r.piece, r.begin, r.block, fate);
            |w.disk| == |b.disk| && forall k :: k in w.bits ==> k < |b.pieces|
  {
    hide WritePiece, Refusal, GetBytes, BlockCount;
  }

  lemma {:induction false} OnePieceSound(H: Hasher, b: BS.BundleState, w: BS.BundleState, i: nat)
    requires Bd.Sound(H, b) && i < |b.pieces| && |w.pieces| == |b.pieces|
    requires w.pieces == b.pieces[i := w.pieces[i]] && PieceInv(H, w.pieces[i])
    requires w.pieces[i].length == b.pieces[i].length && w.pieces[i].offset == b.pieces[i].offset
    requires |w.disk| == |b.disk| && forall k :: k in w.bits ==> k < |b.pieces|
    ensures Bd.Sound(H, w)
    ensures forall k: nat :: HasPiece(b, k) ==> HasPiece(w, k)
  {
  }

  lemma {:induction false} CancelKeepsSound(H: Hasher, b: BS.BundleState, i: nat, begin: nat, k: nat)
    requires Bd.Sound(H, b) && HasPiece(b, i) && HasPiece(b, k)
    ensures Bd.Sound(H, BS.AfterCancel(b, i, begin)) && HasPiece(BS.AfterCancel(b, i, begin), k)
  {
    assert PieceInv(H, b.pieces[i]);
    CancelKeepsPieceInv(H, b.pieces[i], begin);
    var c := BS.AfterCancel(b, i, begin);
    assert c.pieces[i].length == b.pieces[i].length && c.pieces[i].offset == b.pieces[i].offset;
    hide CancelPiece;
    OnePieceSound(H, b, c, i);
  }

  // The inner loop of checkResponses: a response is written, or cancelled when the
  // bundle returns an error, and taken off the block queue.
  method WriteResponses(bundle: Bd.Bundle, queue: Queue, responses: seq<BlockResponse>, failing: map<nat, nat>)
    returns (blockQueue: Queue)
    requires bundle.Valid() && Bd.Sound(bundle.H, bundle.State())
    requires forall k :: 0 <= k < |responses| ==> HasPiece(bundle.State(), responses[k].piece)
    modifies bundle, bundle.Pieces, Bd.AllBlocks(bundle.Pieces), bundle.Files, bundle.Bitfield, bundle.Bitfield.Bytes
    ensures bundle.Valid() && bundle.State() == ReceiveAll(bundle.H, old(bundle.State()), responses, 0, failing)
    ensures Bd.Sound(bundle.H, bundle.State())
    ensures blockQueue == RemoveAll(queue, responses)
  {
    hide Bd.Bundle.Valid, Bd.Bundle.State, Bd.Sound, BS.AfterWrite, BS.WriteResult, BS.AfterCancel, Remove, Bd.AllBlocks;
    blockQueue := queue;
    ghost var before := bundle.State();
    for n := 0 to |responses|
      invariant bundle.Valid() && Bd.Sound(bundle.H, bundle.State())
      invariant forall k :: n <= k < |responses| ==> HasPiece(bundle.State(), responses[k].piece)
      invariant ReceiveAll(bundle.H, bundle.State(), responses[n..], n, failing)
             == ReceiveAll(bundle.H, before, responses, 0, failing)
      invariant RemoveAll(blockQueue, responses[n..]) == RemoveAll(queue, responses)
    {
      assert responses[n..][1..] == responses[n + 1..];
      ghost var b := bundle.State();
      var r := responses[n];
      forall k | n <= k < |responses|
        ensures HasPiece(Receive(bundle.H, b, r, FateOf(failing, n)), responses[k].piece)
        ensures Bd.Sound(bundle.H, Receive(bundle.H, b, r, FateOf(failing, n)))
        ensures HasPiece(BS.AfterWrite(bundle.H, b, r.piece, r.begin, r.block, FateOf(failing, n)), r.piece)
      {
        ReceiveKeepsSound(bundle.H, b, r, FateOf(failing, n), responses[k].piece);
      }
      WriteResponse(bundle, r, FateOf(failing, n));
      blockQueue := RemoveRequest(blockQueue, BlockInfo(r.piece, r.begin, |r.block|));
    }
  }

  method WriteResponse(bundle: Bd.Bundle, r: BlockResponse, fate: DiskFate)
    requires bundle.Valid() && Bd.Sound(bundle.H, bundle.State()) && HasPiece(bundle.State(), r.piece)
    requires HasPiece(BS.AfterWrite(bundle.H, bundle.State(), r.piece, r.begin, r.block, fate), r.piece)
    modifies bundle, bundle.Pieces, Bd.AllBlocks(bundle.Pieces), bundle.Files, bundle.Bitfield, bundle.Bitfield.Bytes
    ensures bundle.Valid() && bundle.State() == Receive(bundle.H, old(bundle.State()), r, fate)
  {
    hide Bd.Bundle.Valid, Bd.Bundle.State, Bd.Sound, BS.AfterWrite, BS.WriteResult, BS.AfterCancel;
    var err := bundle.WriteBlock(r.piece, r.begin, r.block, fate);
    if err.Some? {
      var _ := bundle.CancelBlock(BlockInfo(r.piece, r.begin, |r.block|));
    }
  }

  // ----- runs of one method -----

  lemma {:induction false} RunMore(H: Hasher, st: State, ops: seq<Op>, op: Op)
    ensures Run(H, st, ops + [op]) == Step(H, Run(H, st, ops), op)
  {
    hide Step, Run;
    RunAppend(H, st, ops, [op]);
    RunOne(H, Run(H, st, ops), op);
  }

  function AssignOps(n: nat, cap: Option<int>): seq<Op> {
    seq(n, i requires 0 <= i < n => AssignTo(i, cap))
  }

  // For each peer the responses for which the disk fails.
  function CollectOps(failing: seq<map<nat, nat>>): seq<Op> {
    seq(|failing|, i requires 0 <= i < |failing| => Collect(i, failing[i]))
  }

  function TakeBackOps(n: nat): seq<Op> {
    seq(n, i requires 0 <= i < n => TakeBack(i))
  }

  class Session {
    const Bundle: Bd.Bundle
    const BlockQueueMax: nat := BLOCK_QUEUE_MAX
    var Peers: seq<Pr.Peer>
    var BlockQueue: Queue
    var UnconnectedPeers: seq<Address>
    var ConnectingPeers: seq<Address>
    var ConnectedPeers: seq<Address>

    ghost predicate Valid()
      reads this, Bundle.Files, Bundle.Bitfield, Bundle.Bitfield.Bytes, Bundle.pieceCache
    {
      Bundle.Valid() && Distinct(Peers)
    }

    ghost function State(): (st: State)
      requires Valid()
      reads this, Peers, Bundle, Bundle.Pieces, Bd.AllBlocks(Bundle.Pieces), Bundle.Files
      reads Bundle.Bitfield, Bundle.Bitfield.Bytes, Bundle.pieceCache
      ensures |st.peers| == |Peers|
    {
      SessionSpec.State(Bundle.State(), BlockQueue, PeerStates(Peers),
                        Addresses(UnconnectedPeers, ConnectingPeers, ConnectedPeers))
    }

    constructor (bundle: Bd.Bundle)
      requires bundle.Valid()
      ensures Valid() && Bundle == bundle
      ensures State() == SessionSpec.State(bundle.State(), [], [], Addresses([], [], []))
    {
      Bundle := bundle;
      Peers := [];
      BlockQueue := [];
      UnconnectedPeers := [];
      ConnectingPeers := [];
      ConnectedPeers := [];
      new;
      hide Bd.Bundle.Valid, LearnOne, FindAddress;
      assert PeerStates(Peers) == [];
    }

    // getBlocksFromBundle
    method GetBlocksFromBundle()
      requires Valid()
      modifies this, Bd.AllBlocks(Bundle.Pieces)
      ensures Valid() && State() == Refill(old(State()))
    {
      hide Bd.Bundle.Valid, Bd.Bundle.State, Bd.AllBlocks, NextBlocks, BS.AfterNext;
      ghost var peers := PeerStates(Peers);
      if |BlockQueue| < BlockQueueMax {
        var space := BlockQueueMax - |BlockQueue|;
        var blocksToRequest := Bundle.NextNBlocks(space);
        var requestsToAdd: Queue := [];
        for k := 0 to |blocksToRequest|
          invariant requestsToAdd == Fresh(blocksToRequest[..k])
        {
          requestsToAdd := requestsToAdd + [BlockRequest(blocksToRequest[k], false, [], [])];
          assert requestsToAdd == Fresh(blocksToRequest[..k + 1]);
        }
        assert blocksToRequest[..|blocksToRequest|] == blocksToRequest;
        BlockQueue := BlockQueue + requestsToAdd;
        assert PeerStates(Peers) == peers;
      }
    }

    // UpdatePeerInfo, for the addresses the trackers returned.
    method UpdatePeerInfo(newPeers: seq<Address>)
      requires Valid()
      modifies this
      ensures Valid() && State() == old(State()).(addresses := Learn(old(State()).addresses, newPeers))
    {
      hide Bd.Bundle.Valid, Bd.Bundle.State, Bd.AllBlocks, LearnOne, PeerStates;
      ghost var was := State();
      assert newPeers[..0] == [];
      for k := 0 to |newPeers|
        invariant Valid() && State() == was.(addresses := Learn(was.addresses, newPeers[..k]))
      {
        assert newPeers[..k + 1][..k] == newPeers[..k];
        LearnAddress(newPeers[k]);
      }
      assert newPeers[..|newPeers|] == newPeers;
    }

    method LearnAddress(newPeer: Address)
      requires Valid()
      modifies this
      ensures Valid() && State() == old(State()).(addresses := LearnOne(old(State()).addresses, newPeer))
    {
      hide Bd.Bundle.Valid, Bd.Bundle.State, Bd.AllBlocks, PeerStates;
      var found := IsKnown(newPeer);
      if !found {
        SetAddresses(UnconnectedPeers + [newPeer], ConnectingPeers, ConnectedPeers);
      }
    }

    method IsKnown(newPeer: Address) returns (found: bool)
      requires Valid()
      ensures Valid() && State() == old(State())
      ensures found == (newPeer in ConnectedPeers || newPeer in UnconnectedPeers || newPeer in ConnectingPeers)
    {
      hide Bd.Bundle.Valid;
      found := Contains(ConnectedPeers, newPeer);
      if found {
        return;
      }
      found := Contains(UnconnectedPeers, newPeer);
      if found {
        return;
      }
      found := Contains(ConnectingPeers, newPeer);
    }

    // Where the address stands first in one of the lists.
    method Locate(list: seq<Address>, x: Address) returns (found: bool, rest: seq<Address>)
      requires Valid()
      ensures Valid() && State() == old(State())
      ensures found == (FindAddress(list, x) < |list|)
      ensures rest == if found then Without(list, FindAddress(list, x)) else list
    {
      hide Bd.Bundle.Valid, FindAddress;
      found, rest := TakeOut(list, x);
    }

    method SetAddresses(unconnected: seq<Address>, connecting: seq<Address>, connected: seq<Address>)
      requires Valid()
      modifies this
      ensures Valid() && Peers == old(Peers)
      ensures State() == old(State()).(addresses := Addresses(unconnected, connecting, connected))
    {
      hide Bd.Bundle.Valid;
      UnconnectedPeers := unconnected;
      ConnectingPeers := connecting;
      ConnectedPeers := connected;
      assert PeerStates(Peers) == old(PeerStates(Peers)) && Bundle.State() == old(Bundle.State());
    }

    // The first locked section of findNewPeer.
    method StartConnectingNext()
      requires Valid()
      modifies this
      ensures Valid() && State() == old(State()).(addresses := StartConnecting(old(State()).addresses))
    {
      hide Bd.Bundle.Valid, LearnOne, FindAddress;
      if |UnconnectedPeers| < 1 {
        return;
      }
      var peerInfo := UnconnectedPeers[0];
      ConnectingPeers := ConnectingPeers + [peerInfo];
      UnconnectedPeers := UnconnectedPeers[1..];
      assert PeerStates(Peers) == old(PeerStates(Peers)) && Bundle.State() == old(Bundle.State());
    }

    // The sections of findNewPeer after the attempt.
    method ConnectionFailed(peerInfo: Address)
      requires Valid()
      modifies this
      ensures Valid() && State() == old(State()).(addresses := ConnectFailed(old(State()).addresses, peerInfo))
    {
      hide Bd.Bundle.Valid, Bd.Bundle.State, Bd.AllBlocks, PeerStates, FindAddress;
      var found, rest := Locate(ConnectingPeers, peerInfo);
      if found {
        SetAddresses(UnconnectedPeers + [peerInfo], rest, ConnectedPeers);
      }
    }

    method ConnectionSucceeded(peerInfo: Address)
      requires Valid()
      modifies this
      ensures Valid() && State() == old(State()).(addresses := ConnectSucceeded(old(State()).addresses, peerInfo))
    {
      hide Bd.Bundle.Valid, Bd.Bundle.State, Bd.AllBlocks, PeerStates, FindAddress;
      var found, rest := Locate(ConnectingPeers, peerInfo);
      if found {
        SetAddresses(UnconnectedPeers, rest, ConnectedPeers + [peerInfo]);
      }
    }

    // The last section of connectPeer.
    method AddConnection(peer: Pr.Peer)
      requires Valid() && peer !in Peers && peer.State() == NewPeer(peer.RemotePeerID, peer.RemoteAddress)
      modifies this
      ensures Valid()
      ensures State() == old(State()).(peers := old(State()).peers + [NewPeer(peer.RemotePeerID, peer.RemoteAddress)])
    {
      hide Bd.Bundle.Valid, LearnOne, FindAddress;
      ghost var was := PeerStates(Peers);
      Peers := Peers + [peer];
      assert PeerStates(Peers) == was + [peer.State()] && Bundle.State() == old(Bundle.State());
    }

    // One peer's turn in assignParts.
    method AssignToPeer(peerIndex: nat, cap: Option<int>)
      requires Valid() && peerIndex < |Peers|
      modifies this, Peers[peerIndex]
      ensures Valid() && Peers == old(Peers)
      ensures var r := Assign(old(State()).queue, old(State()).peers[peerIndex], cap);
              State() == old(State()).(queue := r.queue, peers := old(State()).peers[peerIndex := r.peer])
    {
      hide Bd.Bundle.Valid, Assign;
      var curPeer := Peers[peerIndex];
      BlockQueue := ServePeer(BlockQueue, curPeer, cap);
      assert PeerStates(Peers) == old(PeerStates(Peers))[peerIndex := curPeer.State()];
      assert Bundle.State() == old(Bundle.State());
    }

    method AssignParts(cap: Option<int>)
      requires Valid()
      modifies this, Peers
      ensures Valid() && Peers == old(Peers)
      ensures State() == Run(Bundle.H, old(State()), AssignOps(|Peers|, cap))
    {
      hide Bd.Bundle.Valid, Bd.Bundle.State, Bd.AllBlocks, PeerStates, Run, Assign;
      ghost var was := State();
      RunNone(Bundle.H, was, AssignOps(0, cap));
      for peerIndex := 0 to |Peers|
        invariant Valid() && Peers == old(Peers)
        invariant State() == Run(Bundle.H, was, AssignOps(peerIndex, cap))
      {
        RunMore(Bundle.H, was, AssignOps(peerIndex, cap), AssignTo(peerIndex, cap));
        assert AssignOps(peerIndex + 1, cap) == AssignOps(peerIndex, cap) + [AssignTo(peerIndex, cap)];
        AssignToPeer(peerIndex, cap);
      }
    }

    // checkCancelled, for one peer.
    method TakeBackFromPeer(peerIndex: nat)
      requires Valid() && peerIndex < |Peers|
      modifies this, Peers[peerIndex]
      ensures Valid() && Peers == old(Peers) && State() == TakeBackAll(old(State()), peerIndex)
    {
      hide Bd.Bundle.Valid, Bd.Bundle.State, Bd.AllBlocks, RejectAll, TakeBackAll, PeerStates;
      TakeBackAllIs(State(), peerIndex);
      var id, cancelled := TakeCancelled(peerIndex);
      RejectInQueue(cancelled, id);
    }

    method TakeCancelled(peerIndex: nat) returns (id: PeerId, cancelled: seq<OutRequest>)
      requires Valid() && peerIndex < |Peers|
      modifies Peers[peerIndex]
      ensures Valid() && Peers == old(Peers)
      ensures var p := old(State()).peers[peerIndex];
              && id == p.id && cancelled == p.cancelled
              && State() == old(State()).(peers := old(State()).peers[peerIndex := p.(cancelled := [])])
    {
      hide Bd.Bundle.Valid;
      id := Peers[peerIndex].RemotePeerID;
      cancelled := Peers[peerIndex].GetCancelledRequests();
      assert PeerStates(Peers) == old(PeerStates(Peers))[peerIndex := Peers[peerIndex].State()];
      assert Bundle.State() == old(Bundle.State());
    }

    method RejectInQueue(cancelled: seq<OutRequest>, id: PeerId)
      requires Valid()
      modifies this
      ensures Valid() && Peers == old(Peers)
      ensures State() == old(State()).(queue := RejectAll(old(State()).queue, cancelled, id))
    {
      hide Bd.Bundle.Valid, RejectAll;
      BlockQueue := TakeBackRequests(BlockQueue, cancelled, id);
      assert PeerStates(Peers) == old(PeerStates(Peers)) && Bundle.State() == old(Bundle.State());
    }

    method CheckCancelled()
      requires Valid()
      modifies this, Peers
      ensures Valid() && Peers == old(Peers)
      ensures State() == Run(Bundle.H, old(State()), TakeBackOps(|Peers|))
    {
      hide Bd.Bundle.Valid, Bd.Bundle.State, Bd.AllBlocks, PeerStates, Run, TakeBackAll;
      ghost var was := State();
      RunNone(Bundle.H, was, TakeBackOps(0));
      for peerIndex := 0 to |Peers|
        invariant Valid() && Peers == old(Peers)
        invariant State() == Run(Bundle.H, was, TakeBackOps(peerIndex))
      {
        RunMore(Bundle.H, was, TakeBackOps(peerIndex), TakeBack(peerIndex));
        assert TakeBackOps(peerIndex + 1) == TakeBackOps(peerIndex) + [TakeBack(peerIndex)];
        TakeBackFromPeer(peerIndex);
      }
    }

    // checkResponses, for one peer.
    method CollectFromPeer(peerIndex: nat, failing: map<nat, nat>)
      requires Valid() && peerIndex < |Peers| && Bd.Sound(Bundle.H, Bundle.State())
      requires Answerable(State())
      modifies this, Peers[peerIndex]
      modifies Bundle, Bundle.Pieces, Bd.AllBlocks(Bundle.Pieces), Bundle.Files, Bundle.Bitfield, Bundle.Bitfield.Bytes
      ensures Valid() && Peers == old(Peers) && Bd.Sound(Bundle.H, Bundle.State())
      ensures State() == CollectAll(Bundle.H, old(State()), peerIndex, 0, failing)
    {
      hide Bd.Bundle.Valid, Bd.Bundle.State, Bd.AllBlocks, RemoveAll, ReceiveAll, CollectAll, Bd.Sound, PeerStates;
      CollectAllIs(Bundle.H, State(), peerIndex, 0, failing);
      assert State().peers[peerIndex] in State().peers;
      assert PeerAnswerable(State().bundle, State().peers[peerIndex]);
      var responses := TakeResponses(peerIndex);
      StoreResponses(responses, failing);
    }

    method TakeResponses(peerIndex: nat) returns (responses: seq<BlockResponse>)
      requires Valid() && peerIndex < |Peers|
      modifies Peers[peerIndex]
      ensures Valid() && Peers == old(Peers) && responses == old(State()).peers[peerIndex].responses
      ensures var p := old(State()).peers[peerIndex];
              State() == old(State()).(peers := old(State()).peers[peerIndex := p.(responses := [])])
    {
      hide Bd.Bundle.Valid;
      responses := Peers[peerIndex].GetResponsesIn();
      assert PeerStates(Peers) == old(PeerStates(Peers))[peerIndex := Peers[peerIndex].State()];
      assert Bundle.State() == old(Bundle.State());
    }

    method StoreResponses(responses: seq<BlockResponse>, failing: map<nat, nat>)
      requires Valid() && Bd.Sound(Bundle.H, Bundle.State())
      requires forall k :: 0 <= k < |responses| ==> HasPiece(Bundle.State(), responses[k].piece)
      modifies this
      modifies Bundle, Bundle.Pieces, Bd.AllBlocks(Bundle.Pieces), Bundle.Files, Bundle.Bitfield, Bundle.Bitfield.Bytes
      ensures Valid() && Peers == old(Peers) && Bd.Sound(Bundle.H, Bundle.State())
      ensures State() == old(State()).(bundle := ReceiveAll(Bundle.H, old(State()).bundle, responses, 0, failing),
                                       queue := RemoveAll(old(State()).queue, responses))
    {
      hide Bd.Bundle.Valid, RemoveAll, ReceiveAll, Bd.Sound, Bd.Bundle.State, HasPiece;
      var queue := WriteResponses(Bundle, BlockQueue, responses, failing);
      assert PeerStates(Peers) == old(PeerStates(Peers));
      SetQueue(queue);
    }

    method SetQueue(queue: Queue)
      requires Valid()
      modifies this
      ensures Valid() && Peers == old(Peers) && Bundle.State() == old(Bundle.State())
      ensures State() == old(State()).(queue := queue)
    {
      hide Bd.Bundle.Valid;
      BlockQueue := queue;
      assert PeerStates(Peers) == old(PeerStates(Peers)) && Bundle.State() == old(Bundle.State());
    }

    // The responses must name pieces of the bundle, or the program indexes out of
    // range; in every state a session can reach they do (see EveryRunIsAnswerable).
    method CheckResponses(failing: seq<map<nat, nat>>)
      requires Valid() && |failing| == |Peers|
      requires Bd.Sound(Bundle.H, Bundle.State()) && Answerable(State())
      modifies this, Peers
      modifies Bundle, Bundle.Pieces, Bd.AllBlocks(Bundle.Pieces), Bundle.Files, Bundle.Bitfield, Bundle.Bitfield.Bytes
      ensures Valid() && Peers == old(Peers) && Bd.Sound(Bundle.H, Bundle.State())
      ensures State() == Run(Bundle.H, old(State()), CollectOps(failing))
      ensures Inv(Bundle.H, old(State())) ==> Inv(Bundle.H, State())
    {
      hide Bd.Bundle.Valid, Bd.Bundle.State, Bd.AllBlocks, Bd.Sound, PeerStates, Run, CollectAll, Inv, Answerable;
      ghost var was := State();
      RunNone(Bundle.H, was, CollectOps(failing[..0]));
      for peerIndex := 0 to |Peers|
        invariant Valid() && Peers == old(Peers) && Bd.Sound(Bundle.H, Bundle.State())
        invariant State() == Run(Bundle.H, was, CollectOps(failing[..peerIndex])) && Answerable(State())
        invariant Inv(Bundle.H, was) ==> Inv(Bundle.H, State())
      {
        RunMore(Bundle.H, was, CollectOps(failing[..peerIndex]), Collect(peerIndex, failing[peerIndex]));
        assert CollectOps(failing[..peerIndex + 1])
            == CollectOps(failing[..peerIndex]) + [Collect(peerIndex, failing[peerIndex])];
        CollectKeepsAnswerable(Bundle.H, State(), peerIndex, 0, failing[peerIndex]);
        if Inv(Bundle.H, State()) {
          CollectKeeps(Bundle.H, State(), peerIndex, 0, failing[peerIndex]);
        }
        CollectFromPeer(peerIndex, failing[peerIndex]);
      }
      assert failing[..|Peers|] == failing;
    }

    // disconnectPeer: the peer is closed, what was sent to it may be sent again,
    // and its address goes back to the unconnected ones.
    method DisconnectPeer(peerID: PeerId) returns (ok: bool)
      requires Valid()
      modifies this, Peers
      ensures Valid() && State() == Drop(old(State()), peerID)
      ensures ok == (FindPeer(old(State()).peers, peerID) < |old(Peers)|)
      ensures ok ==> !old(Peers)[FindPeer(old(State()).peers, peerID)].Connected
    {
      hide Bd.Bundle.Valid, Bd.Bundle.State, Bd.AllBlocks, PeerStates, Unsend, Disconnected;
      var peerIndex := FindPeerIndex(peerID);
      if peerIndex == |Peers| {
        return false;
      }
      var address := Peers[peerIndex].RemoteAddress;
      ClosePeer(peerIndex);
      UnsendInQueue(peerID);
      RemovePeer(peerIndex);
      ReleaseAddress(address);
      return true;
    }

    method FindPeerIndex(peerID: PeerId) returns (peerIndex: nat)
      requires Valid()
      ensures Valid() && State() == old(State()) && peerIndex == FindPeer(State().peers, peerID)
    {
      peerIndex := |Peers|;
      for i := 0 to |Peers|
        invariant peerIndex < |Peers| ==> peerIndex < i && Peers[peerIndex].RemotePeerID == peerID
        invariant peerIndex < |Peers| ==> forall j :: peerIndex < j < i ==> Peers[j].RemotePeerID != peerID
        invariant peerIndex >= |Peers| ==> peerIndex == |Peers| && forall j :: 0 <= j < i ==> Peers[j].RemotePeerID != peerID
      {
        if Peers[i].RemotePeerID == peerID {
          peerIndex := i;
        }
      }
      assert forall j :: 0 <= j < |Peers| ==> State().peers[j].id == Peers[j].RemotePeerID;
    }

    method UnsendInQueue(peerID: PeerId)
      requires Valid()
      modifies this
      ensures Valid() && Peers == old(Peers)
      ensures State() == old(State()).(queue := Unsend(old(State()).queue, peerID))
    {
      hide Bd.Bundle.Valid, Unsend;
      BlockQueue := UnsendAll(BlockQueue, peerID);
      assert PeerStates(Peers) == old(PeerStates(Peers)) && Bundle.State() == old(Bundle.State());
    }

    method ClosePeer(peerIndex: nat)
      requires Valid() && peerIndex < |Peers|
      modifies Peers[peerIndex]
      ensures Valid() && Peers == old(Peers) && !Peers[peerIndex].Connected
      ensures Peers[peerIndex].RemoteAddress == State().peers[peerIndex].address
      ensures State() == old(State()).(peers := old(State()).peers[peerIndex := Close(old(State()).peers[peerIndex])])
    {
      hide Bd.Bundle.Valid;
      Peers[peerIndex].Close();
      assert PeerStates(Peers) == old(PeerStates(Peers))[peerIndex := Peers[peerIndex].State()];
      assert Bundle.State() == old(Bundle.State());
    }

    method RemovePeer(peerIndex: nat)
      requires Valid() && peerIndex < |Peers|
      modifies this
      ensures Valid() && Peers == Without(old(Peers), peerIndex)
      ensures State() == old(State()).(peers := Without(old(State()).peers, peerIndex))
    {
      hide Bd.Bundle.Valid;
      Peers := Peers[..peerIndex] + Peers[peerIndex + 1..];
      assert PeerStates(Peers) == Without(old(PeerStates(Peers)), peerIndex);
      assert Bundle.State() == old(Bundle.State());
    }

    method ReleaseAddress(x: Address)
      requires Valid()
      modifies this
      ensures Valid() && Peers == old(Peers)
      ensures State() == old(State()).(addresses := Disconnected(old(State()).addresses, x))
    {
      hide Bd.Bundle.Valid, Bd.Bundle.State, Bd.AllBlocks, PeerStates, FindAddress;
      var found, rest := Locate(ConnectedPeers, x);
      if found {
        SetAddresses(UnconnectedPeers + [x], ConnectingPeers, rest);
      }
    }

    // The check for dead peers in run.
    method ReapDeadPeers()
      requires Valid()
      modifies this
      ensures Valid() && State() == ReapAll(old(State()), 0)
    {
      hide Bd.Bundle.Valid, Bd.Bundle.State, Bd.AllBlocks, PeerStates, ReapEntry;
      ghost var was := State();
      var i := 0;
      while i < |ConnectedPeers|
        invariant Valid() && 0 <= i && ReapAll(State(), i) == ReapAll(was, 0)
        decreases |ConnectedPeers| - i
      {
        ReapStep(State(), i);
        var removed := ReapPeerAt(i);
        if !removed {
          i := i + 1;
        }
      }
      ReapEnd(State(), i);
    }

    // The inner loop: the first peer at the address decides.
    method ReapPeerAt(i: nat) returns (removed: bool)
      requires Valid() && i < |ConnectedPeers|
      modifies this
      ensures Valid() && State() == ReapEntry(old(State()), i)
      ensures removed == Reapable(old(State()), i)
      ensures |ConnectedPeers| == old(|ConnectedPeers|) - if removed then 1 else 0
    {
      hide Bd.Bundle.Valid, Bd.Bundle.State, Bd.AllBlocks;
      var pi := ConnectedPeers[i];
      var j := FindPeerAt(pi);
      if j < |Peers| && !Peers[j].Connected {
        ReapBoth(i, j);
        return true;
      }
      return false;
    }

    method FindPeerAt(pi: Address) returns (j: nat)
      requires Valid()
      ensures Valid() && State() == old(State()) && j == FindAt(State().peers, pi)
      ensures j < |Peers| ==> Peers[j].Connected == State().peers[j].connected
    {
      j := 0;
      while j < |Peers|
        invariant j <= |Peers| && forall m :: 0 <= m < j ==> Peers[m].RemoteAddress != pi
      {
        assert State().peers[j].address == Peers[j].RemoteAddress;
        if Peers[j].RemoteAddress == pi {
          assert forall m :: 0 <= m < j ==> State().peers[m].address == Peers[m].RemoteAddress;
          return;
        }
        j := j + 1;
      }
      assert forall m :: 0 <= m < j ==> State().peers[m].address == Peers[m].RemoteAddress;
    }

    method ReapBoth(i: nat, j: nat)
      requires Valid() && i < |ConnectedPeers| && j < |Peers|
      modifies this
      ensures Valid() && |ConnectedPeers| == old(|ConnectedPeers|) - 1
      ensures State() == old(State()).(peers := Without(old(State()).peers, j), addresses := Reaped(old(State()).addresses, i))
    {
      hide Bd.Bundle.Valid;
      ConnectedPeers := ConnectedPeers[..i] + ConnectedPeers[i + 1..];
      Peers := Peers[..j] + Peers[j + 1..];
      assert PeerStates(Peers) == Without(old(PeerStates(Peers)), j);
      assert Bundle.State() == old(Bundle.State());
    }

    // Every peer is closed and forgotten; every queued block is cancelled. The queue
    // must name pieces of the bundle, as it does in every state a session can reach.
    method Stop()
      requires Valid() && QueueExists(State())
      modifies this, Peers, Bd.AllBlocks(Bundle.Pieces)
      ensures Valid() && State() == StopAll(old(State()))
      ensures forall p :: p in old(Peers) ==> !p.Connected
    {
      hide Bd.Bundle.Valid, Bd.Bundle.State, Bd.AllBlocks, PeerStates, CancelQueued;
      CancelAll();
      CloseAll();
    }

    // The loop of Stop over the block queue.
    method CancelAll()
      requires Valid() && forall k :: 0 <= k < |BlockQueue| ==> HasPiece(Bundle.State(), BlockQueue[k].info.piece)
      modifies Bd.AllBlocks(Bundle.Pieces)
      ensures Valid() && State() == old(State()).(bundle := CancelQueued(old(State()).bundle, BlockQueue))
    {
      hide Bd.Bundle.Valid, Bd.Bundle.State, HasPiece, CancelQueued;
      ghost var b := Bundle.State();
      CancelNone(b, BlockQueue[..0]);
      for k := 0 to |BlockQueue|
        invariant Bundle.Valid() && Bundle.State() == CancelQueued(b, BlockQueue[..k])
      {
        CancelQueuedHas(b, BlockQueue[..k], BlockQueue[k].info.piece);
        CancelNext(b, BlockQueue, k);
        CancelOne(Bundle, BlockQueue[k].info);
      }
      assert BlockQueue[..|BlockQueue|] == BlockQueue;
      assert PeerStates(Peers) == old(PeerStates(Peers));
    }

    // What Stop does to the peers and to the lists.
    method CloseAll()
      requires Valid()
      modifies this, Peers
      ensures Valid() && State() == SessionSpec.State(old(State()).bundle, [], [], Addresses([], [], []))
      ensures forall p :: p in old(Peers) ==> !p.Connected
    {
      hide Bd.Bundle.Valid, Bd.Bundle.State, PeerStates;
      ClosePeers();
      ForgetAll();
    }

    method ClosePeers()
      requires Valid()
      modifies Peers
      ensures Valid() && Bundle.State() == old(Bundle.State())
      ensures forall p :: p in Peers ==> !p.Connected
    {
      hide Bd.Bundle.Valid;
      CloseEach(Peers);
    }

    method ForgetAll()
      requires Valid()
      modifies this
      ensures Valid() && State() == SessionSpec.State(old(Bundle.State()), [], [], Addresses([], [], []))
    {
      hide Bd.Bundle.Valid, Bd.Bundle.State;
      SetQueue([]);
      ForgetPeers();
    }

    method ForgetPeers()
      requires Valid()
      modifies this
      ensures Valid()
      ensures State() == old(State()).(peers := [], addresses := Addresses([], [], []))
    {
      hide Bd.Bundle.Valid;
      Peers := [];
      ConnectedPeers := [];
      ConnectingPeers := [];
      UnconnectedPeers := [];
      assert PeerStates(Peers) == [] && Bundle.State() == old(Bundle.State());
    }
  }

  method CloseEach(peers: seq<Pr.Peer>)
    modifies peers
    ensures forall p :: p in peers ==> !p.Connected
  {
    for k := 0 to |peers|
      invariant forall j :: 0 <= j < k ==> !peers[j].Connected
    {
      peers[k].Close();
    }
  }

  method CancelOne(bundle: Bd.Bundle, info: BlockInfo)
    requires bundle.Valid() && HasPiece(bundle.State(), info.piece)
    modifies Bd.AllBlocks(bundle.Pieces)
    ensures bundle.Valid() && bundle.State() == BS.AfterCancel(old(bundle.State()), info.piece, info.begin)
  {
    hide Bd.Bundle.Valid, Bd.Bundle.State;
    var _ := bundle.CancelBlock(info);
  }

  lemma {:induction false} CancelNone(b: BS.BundleState, q: Queue)
    requires q == []
    ensures CancelQueued(b, q) == b
  {
  }

  lemma {:induction false} CancelNext(b: BS.BundleState, q: Queue, k: nat)
    requires k < |q| && HasPiece(CancelQueued(b, q[..k]), q[k].info.piece)
    ensures CancelQueued(b, q[..k + 1]) == BS.AfterCancel(CancelQueued(b, q[..k]), q[k].info.piece, q[k].info.begin)
  {
    hide BS.AfterCancel;
    assert q[..k + 1][..k] == q[..k] && q[..k + 1][k] == q[k];
  }

  lemma {:induction false} CancelQueuedHas(b: BS.BundleState, q: Queue, i: nat)
    requires HasPiece(b, i)
    ensures HasPiece(CancelQueued(b, q), i)
    decreases |q|
  {
    hide BlockCount, FindBlock;
    if q != [] {
      CancelQueuedHas(b, q[..|q| - 1], i);
    }
  }

  // The queue names pieces of the bundle.
  ghost predicate QueueExists(st: State) {
    forall k :: 0 <= k < |st.queue| ==> HasPiece(st.bundle, st.queue[k].info.piece)
  }

  // What CheckResponses and Stop ask for holds after every run.
  lemma {:induction false} EveryRunIsAnswerable(H: Hasher, st: State, ops: seq<Op>)
    requires Initial(H, st) && RunAllowed(H, st, ops)
    ensures Answerable(Run(H, st, ops)) && QueueExists(Run(H, st, ops))
  {
    hide Run, RunAllowed, Initial, Inv, Answerable, QueueExists;
    EveryRun(H, st, ops);
    AllAnswerable(H, Run(H, st, ops));
    AllQueuedExist(H, Run(H, st, ops));
  }

  lemma {:induction false} AllQueuedExist(H: Hasher, st: State)
    requires Inv(H, st)
    ensures QueueExists(st)
  {
    forall k | 0 <= k < |st.queue|
      ensures HasPiece(st.bundle, st.queue[k].info.piece)
    {
      ListedAt(st.queue, k);
      hide Fetching, Listed, StoreInv;
      FetchedPiece(H, st.bundle.pieces, st.queue[k].info);
    }
  }

  function ReapAll(st: State, i: nat): State
    decreases |st.addresses.connected| - i
  {
    if i >= |st.addresses.connected| then st
    else if Reapable(st, i) then ReapAll(ReapEntry(st, i), i)
    else ReapAll(st, i + 1)
  }

  // The peer at this address has closed.
  predicate Reapable(st: State, i: nat)
    requires i < |st.addresses.connected|
  {
    var k := FindAt(st.peers, st.addresses.connected[i]);
    k < |st.peers| && !st.peers[k].connected
  }

  lemma {:induction false} ReapStep(st: State, i: nat)
    requires i < |st.addresses.connected|
    ensures ReapAll(st, i) == ReapAll(ReapEntry(st, i), if Reapable(st, i) then i else i + 1)
  {
  }

  lemma {:induction false} ReapSkip(st: State, i: nat)
    requires i < |st.addresses.connected| && !Reapable(st, i)
    ensures ReapAll(st, i) == ReapAll(st, i + 1)
  {
    hide ReapEntry;
  }

  lemma {:induction false} ReapEnd(st: State, i: nat)
    requires i >= |st.addresses.connected|
    ensures ReapAll(st, i) == st
  {
  }

  // Reaping is a run of single reaping steps.
  lemma {:induction false} ReapAllKeeps(H: Hasher, st: State, i: nat)
    requires Inv(H, st)
    ensures Inv(H, ReapAll(st, i))
    decreases |st.addresses.connected| - i
  {
    hide Inv, ReapEntry;
    if i < |st.addresses.connected| {
      if Reapable(st, i) {
        ReapedOne(st, i);
        ReapKeeps(H, st, i);
        ReapAllKeeps(H, ReapEntry(st, i), i);
      } else {
        ReapAllKeeps(H, st, i + 1);
      }
    }
  }

  // After one pass no connected address belongs to a peer that has closed.
  lemma {:induction false} OnePassReapsAll(st: State, i: nat)
    requires EachOnce(st.addresses) && i <= |st.addresses.connected|
    requires forall n :: 0 <= n < i ==> !Reapable(st, n)
    ensures var r := ReapAll(st, i);
            forall n :: 0 <= n < |r.addresses.connected| ==> !Reapable(r, n)
    decreases |st.addresses.connected| - i
  {
    hide EachOnce, Reapable, ReapEntry;
    if i < |st.addresses.connected| {
      if Reapable(st, i) {
        ReapStep(st, i);
        ReapedOne(st, i);
        forall n | 0 <= n < i
          ensures !Reapable(ReapEntry(st, i), n)
        {
          ReapingLeavesOthers(st, i, n);
        }
        ReapedOnce(st, i);
        OnePassReapsAll(ReapEntry(st, i), i);
      } else {
        ReapSkip(st, i);
        OnePassReapsAll(st, i + 1);
      }
    }
  }

  // It takes away closed peers only.
  lemma {:induction false} ReapingKeepsTheConnected(st: State, i: nat, p: PeerState)
    requires p in st.peers && p.connected
    ensures p in ReapAll(st, i).peers
    decreases |st.addresses.connected| - i
  {
    hide FindAt;
    if i < |st.addresses.connected| {
      if Reapable(st, i) {
        var k := FindAt(st.peers, st.addresses.connected[i]);
        var j :| 0 <= j < |st.peers| && st.peers[j] == p;
        assert Without(st.peers, k)[if j < k then j else j - 1] == p;
        ReapedOne(st, i);
        ReapingKeepsTheConnected(ReapEntry(st, i), i, p);
      } else {
        ReapingKeepsTheConnected(st, i + 1, p);
      }
    }
  }

  lemma {:induction false} ReapedOnce(st: State, i: nat)
    requires EachOnce(st.addresses)
    ensures EachOnce(ReapEntry(st, i).addresses)
  {
    hide TimesInAll, Reaped, FindAt, Without;
    if i < |st.addresses.connected| {
      forall x
        ensures TimesInAll(Reaped(st.addresses, i), x) <= 1
      {
        ReapedKeeps(st.addresses, i, x);
      }
    }
  }

  lemma {:induction false} ReapingLeavesOthers(st: State, i: nat, n: nat)
    requires EachOnce(st.addresses) && n < i < |st.addresses.connected| && Reapable(st, i) && !Reapable(st, n)
    ensures n < |ReapEntry(st, i).addresses.connected| && !Reapable(ReapEntry(st, i), n)
  {
    var c, k := st.addresses.connected, FindAt(st.peers, st.addresses.connected[i]);
    TwoPlaces(st.addresses, n, i);
    FirstElsewhere(st.peers, k, c[n]);
    assert Without(c, i)[n] == c[n];
    hide FindAt, EachOnce;
  }

  lemma {:induction false} TwoPlaces(a: Addresses, n: nat, i: nat)
    requires EachOnce(a) && n < i < |a.connected|
    ensures a.connected[n] != a.connected[i]
  {
    var x := a.connected[i];
    TimesWithout(a.connected, i, x);
    assert TimesInAll(a, x) <= 1;
    if a.connected[n] == x {
      assert Without(a.connected, i)[n] == x;
      ThereCounts(Without(a.connected, i), x);
    }
  }

  // Taking away a peer at another address leaves the first peer at this one.
  lemma {:induction false} FirstElsewhere(peers: seq<PeerState>, k: nat, x: Address)
    requires k < |peers| && peers[k].address != x
    ensures var m := FindAt(Without(peers, k), x);
            if FindAt(peers, x) == |peers| then m == |peers| - 1
            else m < |peers| - 1 && Without(peers, k)[m] == peers[FindAt(peers, x)]
  {
    hide FindAt;
    var rest := Without(peers, k);
    var j := FindAt(peers, x);
    assert forall n :: 0 <= n < |rest| ==> rest[n] == peers[if n < k then n else n + 1];
    if j < |peers| {
      assert rest[if j < k then j else j - 1] == peers[j];
    }
  }

  lemma {:induction false} ReapedOne(st: State, i: nat)
    requires i < |st.addresses.connected| && Reapable(st, i)
    ensures |ReapEntry(st, i).addresses.connected| == |st.addresses.connected| - 1
  {
  }

  // Every response that waits at a peer names a piece of the bundle.
  ghost predicate Answerable(st: State) {
    forall p :: p in st.peers ==> PeerAnswerable(st.bundle, p)
  }

  ghost predicate PeerAnswerable(b: BS.BundleState, p: PeerState) {
    forall k :: 0 <= k < |p.responses| ==> HasPiece(b, p.responses[k].piece)
  }

  lemma {:induction false} AllAnswerable(H: Hasher, st: State)
    requires Inv(H, st)
    ensures Answerable(st)
  {
    hide Inv, Held, HasPiece, Accepted;
    forall i, k | 0 <= i < |st.peers| && 0 <= k < |st.peers[i].responses|
      ensures HasPiece(st.bundle, st.peers[i].responses[k].piece)
    {
      ResponseIsHeld(st.peers[i], k);
      HeldIsFetched(H, st, i, Named(st.peers[i].responses[k]));
      FetchedIsAccepted(H, st, st.peers[i].responses[k]);
      AcceptedExists(st.bundle, st.peers[i].responses[k]);
    }
    forall p | p in st.peers
      ensures PeerAnswerable(st.bundle, p)
    {
      var i :| 0 <= i < |st.peers| && st.peers[i] == p;
    }
  }

  lemma {:induction false} AcceptedExists(b: BS.BundleState, r: BlockResponse)
    requires Accepted(b, r)
    ensures HasPiece(b, r.piece)
  {
  }

  lemma {:induction false} OneStaysAnswerable(H: Hasher, b: BS.BundleState, p: PeerState, r: BlockResponse, fate: DiskFate)
    requires Bd.Sound(H, b) && HasPiece(b, r.piece) && PeerAnswerable(b, p)
    ensures PeerAnswerable(Receive(H, b, r, fate), p)
  {
    hide Bd.Sound, HasPiece, Receive;
    forall k | 0 <= k < |p.responses|
      ensures HasPiece(Receive(H, b, r, fate), p.responses[k].piece)
    {
      ReceiveKeepsSound(H, b, r, fate, p.responses[k].piece);
    }
  }

  lemma {:induction false} CollectKeepsAnswerable(H: Hasher, st: State, i: nat, n: nat, failing: map<nat, nat>)
    requires Bd.Sound(H, st.bundle) && Answerable(st) && i < |st.peers|
    ensures Answerable(CollectAll(H, st, i, n, failing))
    decreases |st.peers[i].responses|
  {
    hide Bd.Sound, Receive, Remove, HasPiece;
    if st.peers[i].responses != [] {
      var p, r, fate := st.peers[i], st.peers[i].responses[0], FateOf(failing, n);
      var next := CollectOne(H, st, i, fate);
      assert p in st.peers && PeerAnswerable(st.bundle, p);
      ReceiveKeepsSound(H, st.bundle, r, fate, r.piece);
      forall q | q in next.peers
        ensures PeerAnswerable(next.bundle, q)
      {
        var j :| 0 <= j < |st.peers| && next.peers[j] == q;
        assert st.peers[j] in st.peers;
        OneStaysAnswerable(H, st.bundle, st.peers[j], r, fate);
      }
      CollectKeepsAnswerable(H, next, i, n + 1, failing);
    }
  }

  lemma {:induction false} RunNone(H: Hasher, st: State, ops: seq<Op>)
    requires ops == []
    ensures Run(H, st, ops) == st
  {
  }
}
