// A download session: its bundle, the queue of blocks being fetched, the peers
// and their addresses, and every step that can happen, in any interleaving.
module SessionSpec {
  import opened Common
  import opened PieceSpec
  import opened Requests
  import opened PeerSpec
  import opened QueueSpec
  import opened AddressSpec
  import opened DiskSpec
  import BS = BundleSpec

  datatype State = State(bundle: BS.BundleState, queue: Queue, peers: seq<PeerState>, addresses: Addresses)

  // What happens inside a peer.
  datatype PeerEvent =
    | PieceArrives(response: BlockResponse)
    | RequestsSent
    | TimesOut(late: set<BlockInfo>)
    | GivesUp
    | Closes
    | Chokes(choking: bool)
    | Announces(has: set<nat>)

  datatype Op =
    | GetBlocks
    | AssignTo(peer: nat, cap: Option<int>)
    | Collect(peer: nat, failing: map<nat, nat>)
    | TakeBack(peer: nat)
    | Disconnect(id: PeerId)
    | Reap(entry: nat)
    | Stop
    | Join(newId: PeerId, address: Address)
    | Swap(first: nat, second: nat)
    | LearnAddresses(found: seq<Address>)
    | TryNext
    | Fail(tried: Address)
    | Succeed(tried: Address)
    | AtPeer(peer: nat, event: PeerEvent)

  function React(p: PeerState, e: PeerEvent): (r: PeerState)
    ensures r.id == p.id && r.address == p.address
  {
    match e
    case PieceArrives(r) => HandlePiece(p, r)
    case RequestsSent => p.(out := AllSent(p.out))
    case TimesOut(late) => Expire(p, late)
    case GivesUp => GiveUp(p)
    case Closes => Close(p)
    case Chokes(c) => p.(choking := c)
    case Announces(has) => p.(has := has)
  }

  // ----- the sections of the session -----

  // getBlocksFromBundle
  function Refill(st: State): State {
    if |st.queue| < BLOCK_QUEUE_MAX then
      var space := BLOCK_QUEUE_MAX - |st.queue|;
      st.(bundle := BS.AfterNext(st.bundle, space), queue := st.queue + Fresh(NextBlocks(st.bundle.pieces, space)))
    else st
  }

  ghost predicate HasPiece(b: BS.BundleState, i: nat) {
    i < |b.pieces| && |b.pieces[i].blocks| == BlockCount(b.pieces[i].length)
  }

  // A response is written; one the bundle refuses is cancelled instead. An index
  // beyond the pieces, where the program would panic, changes nothing here.
  ghost function Receive(H: Hasher, b: BS.BundleState, r: BlockResponse, fate: DiskFate): BS.BundleState {
    if !HasPiece(b, r.piece) then b
    else
      var written := BS.AfterWrite(H, b, r.piece, r.begin, r.block, fate);
      if BS.WriteResult(H, b, r.piece, r.begin, r.block, fate).Some? && HasPiece(written, r.piece)
      then BS.AfterCancel(written, r.piece, r.begin) else written
  }

  ghost function CollectOne(H: Hasher, st: State, i: nat, fate: DiskFate): (r: State)
    requires i < |st.peers| && st.peers[i].responses != []
    ensures |r.peers| == |st.peers| && r.peers[i].responses == st.peers[i].responses[1..]
  {
    var p := st.peers[i];
    st.(bundle := Receive(H, st.bundle, p.responses[0], fate),
        queue := Remove(st.queue, Named(p.responses[0])),
        peers := st.peers[i := p.(responses := p.responses[1..])])
  }

  // What becomes of the write for response n; failing says after how many bytes the
  // disk fails, where it does.
  function FateOf(failing: map<nat, nat>, n: nat): DiskFate {
    if n in failing then Cut(failing[n]) else Kept
  }

  // checkResponses, for one peer: every response that is there, in order; n counts
  // them.
  ghost function CollectAll(H: Hasher, st: State, i: nat, n: nat, failing: map<nat, nat>): State
    requires i < |st.peers|
    decreases |st.peers[i].responses|
  {
    if st.peers[i].responses == [] then st
    else CollectAll(H, CollectOne(H, st, i, FateOf(failing, n)), i, n + 1, failing)
  }

  function TakeBackOne(st: State, i: nat): (r: State)
    requires i < |st.peers| && st.peers[i].cancelled != []
    ensures |r.peers| == |st.peers| && r.peers[i].cancelled == st.peers[i].cancelled[1..]
  {
    var p := st.peers[i];
    st.(queue := Reject(st.queue, p.cancelled[0].info, p.id),
        peers := st.peers[i := p.(cancelled := p.cancelled[1..])])
  }

  // checkCancelled, for one peer.
  function TakeBackAll(st: State, i: nat): State
    requires i < |st.peers|
    decreases |st.peers[i].cancelled|
  {
    if st.peers[i].cancelled == [] then st else TakeBackAll(TakeBackOne(st, i), i)
  }

  // The last peer with this ID, or the number of peers.
  function FindPeer(peers: seq<PeerState>, id: PeerId): (k: nat)
    ensures k <= |peers| && (k < |peers| ==> peers[k].id == id)
    ensures k < |peers| ==> forall j :: k < j < |peers| ==> peers[j].id != id
    ensures k == |peers| ==> forall j :: 0 <= j < |peers| ==> peers[j].id != id
  {
    if peers == [] then 0
    else if peers[|peers| - 1].id == id then |peers| - 1
    else
      var k := FindPeer(peers[..|peers| - 1], id);
      if k == |peers| - 1 then |peers| else k
  }

  // disconnectPeer
  function Drop(st: State, id: PeerId): State {
    var k := FindPeer(st.peers, id);
    if k == |st.peers| then st
    else st.(queue := Unsend(st.queue, id), peers := Without(st.peers, k),
             addresses := Disconnected(st.addresses, st.peers[k].address))
  }

  // The first peer at this address, or the number of peers.
  function FindAt(peers: seq<PeerState>, x: Address): (k: nat)
    ensures k <= |peers| && (k < |peers| ==> peers[k].address == x)
    ensures forall j :: 0 <= j < k ==> peers[j].address != x
  {
    if peers == [] || peers[0].address == x then 0 else 1 + FindAt(peers[1..], x)
  }

  // A connected address whose peer has closed is removed with the peer; blocks
  // that were sent to the peer stay sent.
  function ReapEntry(st: State, n: nat): State {
    if n >= |st.addresses.connected| then st
    else
      var k := FindAt(st.peers, st.addresses.connected[n]);
      if k == |st.peers| || st.peers[k].connected then st
      else st.(peers := Without(st.peers, k), addresses := Reaped(st.addresses, n))
  }

  function CancelQueued(b: BS.BundleState, q: Queue): BS.BundleState
    decreases |q|
  {
    if q == [] then b
    else
      var before, last := CancelQueued(b, q[..|q| - 1]), q[|q| - 1].info;
      if last.piece < |before.pieces| && |before.pieces[last.piece].blocks| == BlockCount(before.pieces[last.piece].length)
      then BS.AfterCancel(before, last.piece, last.begin) else before
  }

  function StopAll(st: State): State {
    State(CancelQueued(st.bundle, st.queue), [], [], Addresses([], [], []))
  }

  // ----- any step -----

  ghost function Step(H: Hasher, st: State, op: Op): State {
    match op
    case GetBlocks => Refill(st)
    case AssignTo(i, cap) =>
      if i >= |st.peers| then st
      else
        var r := Assign(st.queue, st.peers[i], cap);
        st.(queue := r.queue, peers := st.peers[i := r.peer])
    case Collect(i, failing) => if i >= |st.peers| then st else CollectAll(H, st, i, 0, failing)
    case TakeBack(i) => if i >= |st.peers| then st else TakeBackAll(st, i)
    case Disconnect(id) => Drop(st, id)
    case Reap(n) => ReapEntry(st, n)
    case Stop => StopAll(st)
    case Join(id, x) => st.(peers := st.peers + [NewPeer(id, x)])
    case Swap(i, j) =>
      if i >= |st.peers| || j >= |st.peers| then st
      else st.(peers := st.peers[i := st.peers[j]][j := st.peers[i]])
    case LearnAddresses(xs) => st.(addresses := Learn(st.addresses, xs))
    case TryNext => st.(addresses := StartConnecting(st.addresses))
    case Fail(x) => st.(addresses := ConnectFailed(st.addresses, x))
    case Succeed(x) => st.(addresses := ConnectSucceeded(st.addresses, x))
    case AtPeer(i, e) => if i >= |st.peers| then st else st.(peers := st.peers[i := React(st.peers[i], e)])
  }

  // Peers have distinct IDs: one that joins is not connected already.
  ghost predicate Allowed(st: State, op: Op) {
    op.Join? ==> forall i :: 0 <= i < |st.peers| ==> st.peers[i].id != op.newId
  }

  // ----- the invariant -----

  // The pieces and offsets of the torrent fit the 32 bits of the wire.
  ghost predicate Narrow(ps: Pieces) {
    |ps| <= 0x1_0000_0000 && forall i :: 0 <= i < |ps| ==> ps[i].length <= 0x1_0000_0000
  }

  // The queue lists each block that is being fetched once, and nothing else.
  ghost predicate QueueInv(ps: Pieces, q: Queue) {
    ListsOnce(q) && |q| <= BLOCK_QUEUE_MAX && forall info :: Listed(q, info) <==> Fetching(ps, info)
  }

  // Peers have different IDs, and what each holds was sent to it.
  ghost predicate PeersInv(q: Queue, peers: seq<PeerState>) {
    && (forall i :: 0 <= i < |peers| ==> PeerInv(q, peers[i]))
    && forall i, j :: 0 <= i < j < |peers| ==> peers[i].id != peers[j].id
  }

  ghost predicate StoreInv(H: Hasher, ps: Pieces) {
    AllPieceInv(H, ps) && Narrow(ps)
  }

  ghost predicate Inv(H: Hasher, st: State) {
    && StoreInv(H, st.bundle.pieces)
    && QueueInv(st.bundle.pieces, st.queue)
    && PeersInv(st.queue, st.peers)
    && EachOnce(st.addresses)
  }
}
