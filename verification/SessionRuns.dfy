// What holds after every run of a session, in any interleaving of its steps.
module SessionRuns {
  import opened Common
  import opened PieceSpec
  import opened Requests
  import opened PeerSpec
  import opened QueueSpec
  import opened AddressSpec
  import opened SessionSpec
  import opened SessionFetching
  import opened DiskSpec
  import BS = BundleSpec

  // ----- one peer and the queue change together -----

  lemma {:induction false} OthersKept(q: Queue, q': Queue, p: PeerState, id: PeerId)
    requires PeerInv(q, p) && KeepsOthers(q, q', id) && p.id != id
    ensures PeerInv(q', p)
  {
    hide Held, SentTo;
  }

  lemma {:induction false} PeerChanges(q: Queue, q': Queue, peers: seq<PeerState>, i: nat, p: PeerState)
    requires PeersInv(q, peers) && i < |peers| && PeerInv(q', p) && p.id == peers[i].id
    requires KeepsOthers(q, q', p.id)
    ensures PeersInv(q', peers[i := p])
  {
    hide PeerInv, KeepsOthers;
    forall j | 0 <= j < |peers| && j != i
      ensures PeerInv(q', peers[j])
    {
      OthersKept(q, q', peers[j], p.id);
    }
  }

  lemma {:induction false} KeepsAll(q: Queue, q': Queue, peers: seq<PeerState>)
    requires PeersInv(q, peers) && forall x, id :: SentTo(q, x, id) ==> SentTo(q', x, id)
    ensures PeersInv(q', peers)
  {
    hide SentTo, Held;
  }

  lemma {:induction false} AllKeepOthers(q: Queue, q': Queue, id: PeerId)
    requires forall x, other :: SentTo(q, x, other) ==> SentTo(q', x, other)
    ensures KeepsOthers(q, q', id)
  {
    hide SentTo;
  }

  // A queue that loses, or unsends, one block that was sent to a peer.
  lemma {:induction false} OneLess(q: Queue, q': Queue, p: PeerState, p': PeerState, info: BlockInfo)
    requires ListsOnce(q) && PeerInv(q, p) && Held(p, info) > 0
    requires forall x, id :: SentTo(q', x, id) <==> SentTo(q, x, id) && x != info
    requires p'.id == p.id && p'.max == p.max && |p'.out| <= |p.out|
    requires forall x :: Held(p', x) == Held(p, x) - if x == info then 1 else 0
    ensures PeerInv(q', p') && KeepsOthers(q, q', p.id)
  {
    assert SentTo(q, info, p.id);
    hide Held, SentTo, ListsOnce;
    forall x, other | SentTo(q, x, other) && other != p.id
      ensures SentTo(q', x, other)
    {
      if x == info {
        SentToOne(q, info, other, p.id);
      }
    }
  }

  lemma {:induction false} HeldIsFetched(H: Hasher, st: State, i: nat, info: BlockInfo)
    requires Inv(H, st) && i < |st.peers| && Held(st.peers[i], info) > 0
    ensures Held(st.peers[i], info) == 1 && SentTo(st.queue, info, st.peers[i].id)
    ensures Listed(st.queue, info) && Fetching(st.bundle.pieces, info)
    ensures Fits32(info)
  {
    assert PeerInv(st.queue, st.peers[i]);
    SentIsListed(st.queue, info, st.peers[i].id);
    hide Held, SentTo, Listed, Fetching, StoreInv;
    FetchedPiece(H, st.bundle.pieces, info);
  }

  lemma {:induction false} InvLists(H: Hasher, st: State)
    requires Inv(H, st)
    ensures ListsOnce(st.queue)
  {
  }

  lemma {:induction false} SentIsListed(q: Queue, info: BlockInfo, id: PeerId)
    ensures SentTo(q, info, id) ==> Listed(q, info)
  {
  }

  // ----- the steps -----

  lemma {:induction false} RefillKeeps(H: Hasher, st: State)
    requires Inv(H, st)
    ensures Inv(H, Refill(st))
  {
    hide StoreInv, PeersInv, ListsOnce, Listed, Fetching, EachOnce, NextBlocks, Fresh, MarkFetching, SentTo;
    if |st.queue| < BLOCK_QUEUE_MAX {
      var space := BLOCK_QUEUE_MAX - |st.queue|;
      var infos := NextBlocks(st.bundle.pieces, space);
      NextFetches(H, st.bundle, space);
      Extended(st.queue, infos);
      KeepsAll(st.queue, st.queue + Fresh(infos), st.peers);
    }
  }

  lemma {:induction false} AssignKeeps(H: Hasher, st: State, i: nat, cap: Option<int>)
    requires Inv(H, st) && i < |st.peers|
    ensures Inv(H, Step(H, st, AssignTo(i, cap)))
    ensures Assign(st.queue, st.peers[i], cap).accepted
  {
    hide StoreInv, ListsOnce, Listed, Fetching, EachOnce, SentTo, PeerInv, Assign, KeepsOthers;
    var r := Assign(st.queue, st.peers[i], cap);
    AssignHandsOut(st.queue, st.peers[i], cap);
    AllKeepOthers(st.queue, r.queue, r.peer.id);
    PeerChanges(st.queue, r.queue, st.peers, i, r.peer);
    hide PeersInv;
  }

  lemma {:induction false} FirstResponse(p: PeerState)
    requires p.responses != []
    ensures Held(p, Named(p.responses[0])) > 0
    ensures forall x :: Held(p.(responses := p.responses[1..]), x) == Held(p, x) - if x == Named(p.responses[0]) then 1 else 0
  {
    hide OutCount;
  }

  lemma {:induction false} FirstCancelled(p: PeerState)
    requires p.cancelled != []
    ensures Held(p, p.cancelled[0].info) > 0
    ensures forall x :: Held(p.(cancelled := p.cancelled[1..]), x) == Held(p, x) - if x == p.cancelled[0].info then 1 else 0
  {
    hide ResponseCount;
  }

  lemma {:induction false} CollectOneKeeps(H: Hasher, st: State, i: nat, fate: DiskFate)
    requires Inv(H, st) && i < |st.peers| && st.peers[i].responses != []
    ensures Inv(H, CollectOne(H, st, i, fate))
  {
    var p := st.peers[i];
    var r, p' := p.responses[0], p.(responses := p.responses[1..]);
    FirstResponse(p);
    HeldIsFetched(H, st, i, Named(r));
    hide StoreInv, ListsOnce, Listed, Fetching, EachOnce, SentTo, PeerInv, Held, KeepsOthers, Receive, Remove;
    ReceiveStops(H, st.bundle, r, fate);
    Removed(st.queue, Named(r));
    OneLess(st.queue, Remove(st.queue, Named(r)), p, p', Named(r));
    PeerChanges(st.queue, Remove(st.queue, Named(r)), st.peers, i, p');
    hide PeersInv;
  }

  lemma {:induction false} CollectKeeps(H: Hasher, st: State, i: nat, n: nat, failing: map<nat, nat>)
    requires Inv(H, st) && i < |st.peers|
    ensures Inv(H, CollectAll(H, st, i, n, failing))
    decreases |st.peers[i].responses|
  {
    hide Inv, CollectOne;
    if st.peers[i].responses != [] {
      CollectOneKeeps(H, st, i, FateOf(failing, n));
      CollectKeeps(H, CollectOne(H, st, i, FateOf(failing, n)), i, n + 1, failing);
    }
  }

  lemma {:induction false} TakeBackOneKeeps(H: Hasher, st: State, i: nat)
    requires Inv(H, st) && i < |st.peers| && st.peers[i].cancelled != []
    ensures Inv(H, TakeBackOne(st, i))
  {
    var p := st.peers[i];
    var info, p' := p.cancelled[0].info, p.(cancelled := p.cancelled[1..]);
    FirstCancelled(p);
    hide StoreInv, ListsOnce, Listed, Fetching, EachOnce, SentTo, PeerInv, Held, KeepsOthers, Reject;
    Rejected(st.queue, info, p.id);
    OneLess(st.queue, Reject(st.queue, info, p.id), p, p', info);
    PeerChanges(st.queue, Reject(st.queue, info, p.id), st.peers, i, p');
    hide PeersInv;
  }

  lemma {:induction false} TakeBackKeeps(H: Hasher, st: State, i: nat)
    requires Inv(H, st) && i < |st.peers|
    ensures Inv(H, TakeBackAll(st, i))
    decreases |st.peers[i].cancelled|
  {
    hide Inv, TakeBackOne;
    if st.peers[i].cancelled != [] {
      TakeBackOneKeeps(H, st, i);
      TakeBackKeeps(H, TakeBackOne(st, i), i);
    }
  }

  lemma {:induction false} WithoutOne(q: Queue, peers: seq<PeerState>, k: nat)
    requires PeersInv(q, peers) && k < |peers|
    ensures PeersInv(q, Without(peers, k))
    ensures forall j :: 0 <= j < |Without(peers, k)| ==> Without(peers, k)[j].id != peers[k].id
  {
    hide PeerInv;
    var rest := Without(peers, k);
    assert forall j :: 0 <= j < |rest| ==> rest[j] == peers[if j < k then j else j + 1];
  }

  lemma {:induction false} DropKeeps(H: Hasher, st: State, id: PeerId)
    requires Inv(H, st)
    ensures Inv(H, Drop(st, id))
  {
    var k := FindPeer(st.peers, id);
    if k < |st.peers| {
      var q', rest := Unsend(st.queue, id), Without(st.peers, k);
      WithoutOne(st.queue, st.peers, k);
      Unsent(st.queue, id);
      hide StoreInv, ListsOnce, Listed, Fetching, SentTo, PeerInv, Unsend, Without;
      forall j | 0 <= j < |rest|
        ensures PeerInv(q', rest[j])
      {
        OthersKept(st.queue, q', rest[j], id);
      }
      hide Disconnected, TimesInAll;
      forall x
        ensures TimesInAll(Disconnected(st.addresses, st.peers[k].address), x) <= 1
      {
        MovesKeep(st.addresses, st.peers[k].address, x);
      }
    }
  }

  lemma {:induction false} ReapKeeps(H: Hasher, st: State, n: nat)
    requires Inv(H, st)
    ensures Inv(H, ReapEntry(st, n))
  {
    hide StoreInv, QueueInv, PeersInv, TimesInAll, Without, Reaped;
    if n < |st.addresses.connected| {
      var k := FindAt(st.peers, st.addresses.connected[n]);
      if k < |st.peers| {
        WithoutOne(st.queue, st.peers, k);
        forall x
          ensures TimesInAll(Reaped(st.addresses, n), x) <= 1
        {
          ReapedKeeps(st.addresses, n, x);
        }
      }
    }
  }

  lemma {:induction false} StopKeeps(H: Hasher, st: State)
    requires Inv(H, st)
    ensures Inv(H, StopAll(st))
    ensures forall x :: !Fetching(StopAll(st).bundle.pieces, x)
  {
    forall k | 0 <= k < |st.queue|
      ensures Fetching(st.bundle.pieces, st.queue[k].info)
    {
      ListedAt(st.queue, k);
    }
    CancelQueuedStops(H, st.bundle, st.queue);
    NothingListed();
    hide StoreInv, Listed, Fetching, CancelQueued;
    NoneIsEachOnce();
  }

  lemma {:induction false} NothingListed()
    ensures forall x :: !Listed([], x)
  {
  }

  lemma {:induction false} NewPeerHoldsNothing(q: Queue, id: PeerId, x: Address)
    ensures PeerInv(q, NewPeer(id, x))
  {
  }

  lemma {:induction false} JoinKeeps(H: Hasher, st: State, id: PeerId, x: Address)
    requires Inv(H, st) && Allowed(st, Join(id, x))
    ensures Inv(H, Step(H, st, Join(id, x)))
  {
    hide StoreInv, QueueInv, PeerInv, EachOnce;
    NewPeerHoldsNothing(st.queue, id, x);
  }

  lemma {:induction false} SwapKeeps(H: Hasher, st: State, i: nat, j: nat)
    requires Inv(H, st)
    ensures Inv(H, Step(H, st, Swap(i, j)))
  {
    hide StoreInv, QueueInv, PeerInv, EachOnce;
  }

  lemma {:induction false} AddressesKeep(H: Hasher, st: State, a: Addresses)
    requires Inv(H, st) && EachOnce(a)
    ensures Inv(H, st.(addresses := a))
  {
    hide StoreInv, QueueInv, PeersInv, EachOnce;
  }

  lemma {:induction false} AddressStepKeeps(H: Hasher, st: State, op: Op)
    requires Inv(H, st) && (op.LearnAddresses? || op.TryNext? || op.Fail? || op.Succeed?)
    ensures Inv(H, Step(H, st, op))
  {
    var a := st.addresses;
    if op.LearnAddresses? {
      LearnKeeps(a, op.found);
    } else {
      var y := if op.TryNext? then Address("", 0) else op.tried;
      forall x
        ensures TimesInAll(StartConnecting(a), x) <= 1 && TimesInAll(ConnectFailed(a, y), x) <= 1
        ensures TimesInAll(ConnectSucceeded(a, y), x) <= 1
      {
        MovesKeep(a, y, x);
      }
    }
    hide Inv, Learn, StartConnecting, ConnectFailed, ConnectSucceeded, TimesInAll;
    AddressesKeep(H, st, Step(H, st, op).addresses);
  }

  // Nothing that happens inside a peer adds to what it holds.
  lemma {:induction false} ReactHolds(p: PeerState, e: PeerEvent, x: BlockInfo)
    requires e.PieceArrives? ==> forall k :: 0 <= k < |p.out| ==> Fits32(p.out[k].info)
    ensures Held(React(p, e), x) == if e.Closes? then 0 else Held(p, x)
    ensures |React(p, e).out| <= |p.out| && React(p, e).max == p.max
  {
    match e {
      case PieceArrives(r) => HandlePieceHolds(p, r, x);
      case RequestsSent => SendingHolds(p.out, x);
      case TimesOut(late) => ExpireHolds(p, late, x);
      case GivesUp => GiveUpHolds(p, x);
      case _ =>
    }
  }

  lemma {:induction false} OutFits(H: Hasher, st: State, i: nat)
    requires Inv(H, st) && i < |st.peers|
    ensures forall k :: 0 <= k < |st.peers[i].out| ==> Fits32(st.peers[i].out[k].info)
  {
    hide Inv, Held;
    forall k | 0 <= k < |st.peers[i].out|
      ensures Fits32(st.peers[i].out[k].info)
    {
      OutIsHeld(st.peers[i], k);
      HeldIsFetched(H, st, i, st.peers[i].out[k].info);
    }
  }

  lemma {:induction false} PeerEventKeeps(H: Hasher, st: State, i: nat, e: PeerEvent)
    requires Inv(H, st) && i < |st.peers|
    ensures Inv(H, Step(H, st, AtPeer(i, e)))
  {
    var p := st.peers[i];
    OutFits(H, st, i);
    hide StoreInv, QueueInv, EachOnce, Held, React, SentTo, Fits32;
    forall x
      ensures Held(React(p, e), x) <= Held(p, x) && |React(p, e).out| <= |p.out| && React(p, e).max == p.max
    {
      ReactHolds(p, e, x);
    }
    var any := BlockInfo(0, 0, 0);
    assert Held(React(p, e), any) <= Held(p, any);
    assert PeerInv(st.queue, React(p, e));
    AllKeepOthers(st.queue, st.queue, p.id);
    hide PeerInv, KeepsOthers;
    PeerChanges(st.queue, st.queue, st.peers, i, React(p, e));
  }

  lemma {:induction false} StepKeeps(H: Hasher, st: State, op: Op)
    requires Inv(H, st) && Allowed(st, op)
    ensures Inv(H, Step(H, st, op))
  {
    hide Inv, Assign, CollectAll, TakeBackAll, Refill, Drop, ReapEntry, StopAll, React;
    if op.AssignTo? && op.peer < |st.peers| {
      AssignKeeps(H, st, op.peer, op.cap);
    } else if op.AtPeer? && op.peer < |st.peers| {
      PeerEventKeeps(H, st, op.peer, op.event);
    } else {
      match op {
        case GetBlocks => RefillKeeps(H, st);
        case AssignTo(_, _) =>
        case Collect(i, failing) =>
          if i < |st.peers| {
            CollectKeeps(H, st, i, 0, failing);
          }
        case TakeBack(i) =>
          if i < |st.peers| {
            TakeBackKeeps(H, st, i);
          }
        case Disconnect(id) => DropKeeps(H, st, id);
        case Reap(n) => ReapKeeps(H, st, n);
        case Stop => StopKeeps(H, st);
        case Join(id, x) => JoinKeeps(H, st, id, x);
        case Swap(i, j) => SwapKeeps(H, st, i, j);
        case AtPeer(_, _) =>
        case _ => AddressStepKeeps(H, st, op);
      }
    }
  }

  // ----- runs -----

  // A session starts with a bundle in which nothing is being fetched, and no peers.
  ghost predicate Initial(H: Hasher, st: State) {
    && StoreInv(H, st.bundle.pieces)
    && (forall x :: !Fetching(st.bundle.pieces, x))
    && st == State(st.bundle, [], [], Addresses([], [], []))
  }

  // A session of a torrent that is being started, for a download from nothing.
  function FreshSession(m: BS.Meta): State {
    State(BS.Create(m), [], [], Addresses([], [], []))
  }

  lemma {:induction false} FreshSessionIsInitial(H: Hasher, m: BS.Meta)
    requires |m.hashes| <= 0x1_0000_0000 && m.pieceLength <= 0x1_0000_0000
    ensures Initial(H, FreshSession(m))
  {
    FreshPieces(H, m);
    NothingIsFetched(BS.Create(m).pieces);
    hide StoreInv, BS.Create, Fetching;
  }

  lemma {:induction false} FreshPieces(H: Hasher, m: BS.Meta)
    requires |m.hashes| <= 0x1_0000_0000 && m.pieceLength <= 0x1_0000_0000
    ensures StoreInv(H, BS.Create(m).pieces)
    ensures forall i, j :: 0 <= i < |m.hashes| && 0 <= j < |BS.Create(m).pieces[i].blocks| ==>
              !BS.Create(m).pieces[i].blocks[j].fetching
  {
    BS.CreateInv(H, m);
    forall i | 0 <= i < |m.hashes|
      ensures m.PieceSize(i) <= 0x1_0000_0000
    {
      assert (i + 1) * m.pieceLength == i * m.pieceLength + m.pieceLength;
    }
    hide PieceInv, BS.Meta.PieceSize, BS.Meta.PieceStart, BS.DiskInv, BS.BitsInv;
  }

  lemma {:induction false} NothingIsFetched(ps: Pieces)
    requires forall i, j :: 0 <= i < |ps| && 0 <= j < |ps[i].blocks| ==> !ps[i].blocks[j].fetching
    ensures forall x :: !Fetching(ps, x)
  {
    hide FindBlock;
  }

  ghost function Run(H: Hasher, st: State, ops: seq<Op>): State
    decreases |ops|
  {
    if ops == [] then st else Run(H, Step(H, st, ops[0]), ops[1..])
  }

  ghost predicate RunAllowed(H: Hasher, st: State, ops: seq<Op>)
    decreases |ops|
  {
    ops == [] || (Allowed(st, ops[0]) && RunAllowed(H, Step(H, st, ops[0]), ops[1..]))
  }

  lemma {:induction false} RunAppend(H: Hasher, st: State, a: seq<Op>, b: seq<Op>)
    ensures Run(H, st, a + b) == Run(H, Run(H, st, a), b)
    decreases |a|
  {
    hide Step;
    if a == [] {
      assert a + b == b;
    } else {
      RunAppend(H, Step(H, st, a[0]), a[1..], b);
      assert (a + b)[1..] == a[1..] + b;
    }
  }

  lemma {:induction false} RunTwo(H: Hasher, st: State, a: Op, b: Op)
    ensures Run(H, st, [a, b]) == Step(H, Step(H, st, a), b)
  {
    hide Step;
    RunOne(H, Step(H, st, a), b);
    assert [a, b][1..] == [b];
  }

  lemma {:induction false} RunOne(H: Hasher, st: State, a: Op)
    ensures Run(H, st, [a]) == Step(H, st, a)
  {
    hide Step;
    assert [a][1..] == [];
  }

  lemma {:induction false} RunKeeps(H: Hasher, st: State, ops: seq<Op>)
    requires Inv(H, st) && RunAllowed(H, st, ops)
    ensures Inv(H, Run(H, st, ops))
    decreases |ops|
  {
    hide Inv, Step, Allowed;
    if ops != [] {
      StepKeeps(H, st, ops[0]);
      RunKeeps(H, Step(H, st, ops[0]), ops[1..]);
    }
  }

  lemma {:induction false} EveryRun(H: Hasher, st: State, ops: seq<Op>)
    requires Initial(H, st) && RunAllowed(H, st, ops)
    ensures Inv(H, Run(H, st, ops))
  {
    NothingListed();
    NoneIsEachOnce();
    assert Inv(H, st);
    hide Inv, RunAllowed, Run;
    RunKeeps(H, st, ops);
  }

  // ----- what it means -----

  // A block stands at most once in the queues of all peers together, and then the
  // block queue says it was sent to just that peer.
  ghost predicate SingleHolder(st: State) {
    && (forall i, x :: 0 <= i < |st.peers| && Held(st.peers[i], x) > 0 ==>
          Held(st.peers[i], x) == 1 && SentTo(st.queue, x, st.peers[i].id))
    && forall i, j, x :: 0 <= i < j < |st.peers| && Held(st.peers[i], x) > 0 ==> Held(st.peers[j], x) == 0
  }

  lemma {:induction false} InvMeansSingleHolder(H: Hasher, st: State)
    requires Inv(H, st)
    ensures SingleHolder(st)
  {
    forall i, x | 0 <= i < |st.peers| && Held(st.peers[i], x) > 0
      ensures Held(st.peers[i], x) == 1 && SentTo(st.queue, x, st.peers[i].id)
    {
      assert PeerInv(st.queue, st.peers[i]);
    }
    forall i, j, x | 0 <= i < j < |st.peers| && Held(st.peers[i], x) > 0
      ensures Held(st.peers[j], x) == 0
    {
      assert PeerInv(st.queue, st.peers[i]) && PeerInv(st.queue, st.peers[j]);
      if Held(st.peers[j], x) > 0 {
        SentToOne(st.queue, x, st.peers[i].id, st.peers[j].id);
      }
    }
  }

  lemma {:induction false} EveryRunHasSingleHolders(H: Hasher, st: State, ops: seq<Op>)
    requires Initial(H, st) && RunAllowed(H, st, ops)
    ensures SingleHolder(Run(H, st, ops))
  {
    hide Inv, RunAllowed, Run, Initial, SingleHolder;
    EveryRun(H, st, ops);
    InvMeansSingleHolder(H, Run(H, st, ops));
  }

  // The queue lists each block that is being fetched exactly once, and nothing
  // else; it never grows beyond its limit.
  lemma {:induction false} QueueIsWhatIsFetched(H: Hasher, st: State, ops: seq<Op>)
    requires Initial(H, st) && RunAllowed(H, st, ops)
    ensures var end := Run(H, st, ops);
            && (forall x :: Listed(end.queue, x) <==> Fetching(end.bundle.pieces, x))
            && ListsOnce(end.queue) && |end.queue| <= BLOCK_QUEUE_MAX
  {
    hide RunAllowed, Run, Initial, StoreInv, PeersInv;
    EveryRun(H, st, ops);
  }

  // Every response that waits at a peer will be accepted by the bundle.
  ghost predicate NoneRefused(st: State) {
    forall i, k :: 0 <= i < |st.peers| && 0 <= k < |st.peers[i].responses| ==>
      Accepted(st.bundle, st.peers[i].responses[k])
  }

  ghost predicate Accepted(b: BS.BundleState, r: BlockResponse) {
    HasPiece(b, r.piece) && Refusal(b.pieces[r.piece], r.begin, r.block).None?
  }

  lemma {:induction false} ResponseIsHeld(p: PeerState, k: nat)
    requires k < |p.responses|
    ensures Held(p, Named(p.responses[k])) > 0
  {
    var rs, x := p.responses, Named(p.responses[k]);
    assert rs == rs[..k] + ([rs[k]] + rs[k + 1..]);
    ResponseCountAppend(rs[..k], [rs[k]] + rs[k + 1..], x);
    ResponseCountAppend([rs[k]], rs[k + 1..], x);
    ResponseCountOne(rs[k], x);
  }

  lemma {:induction false} ResponsesAreAccepted(H: Hasher, st: State, ops: seq<Op>)
    requires Initial(H, st) && RunAllowed(H, st, ops)
    ensures NoneRefused(Run(H, st, ops))
  {
    hide RunAllowed, Run, Initial, Inv, Held, Accepted;
    EveryRun(H, st, ops);
    var end := Run(H, st, ops);
    forall i, k | 0 <= i < |end.peers| && 0 <= k < |end.peers[i].responses|
      ensures Accepted(end.bundle, end.peers[i].responses[k])
    {
      ResponseIsHeld(end.peers[i], k);
      HeldIsFetched(H, end, i, Named(end.peers[i].responses[k]));
      FetchedIsAccepted(H, end, end.peers[i].responses[k]);
    }
  }

  lemma {:induction false} FetchedIsAccepted(H: Hasher, st: State, r: BlockResponse)
    requires Inv(H, st) && Fetching(st.bundle.pieces, Named(r))
    ensures Accepted(st.bundle, r)
  {
    hide StoreInv, QueueInv, PeersInv, Fetching;
    ReceiveStops(H, st.bundle, r, Kept);
  }

  // Whatever a peer is handed next, its queue has room for and does not hold.
  lemma {:induction false} AssignmentsSucceed(H: Hasher, st: State, ops: seq<Op>, i: nat, cap: Option<int>)
    requires Initial(H, st) && RunAllowed(H, st, ops) && i < |Run(H, st, ops).peers|
    ensures var end := Run(H, st, ops);
            && Assign(end.queue, end.peers[i], cap).accepted
            && |end.peers[i].out| <= end.peers[i].max <= 320
  {
    hide RunAllowed, Run, Initial, StoreInv, QueueInv, Assign;
    EveryRun(H, st, ops);
    var end := Run(H, st, ops);
    assert PeerInv(end.queue, end.peers[i]);
    hide Inv, PeerInv, HoldsSent;
    AssignKeeps(H, end, i, cap);
  }

  // A peer's turn empties one of its queues and changes no other peer.
  lemma {:induction false} CollectedPeers(H: Hasher, st: State, i: nat, n: nat, failing: map<nat, nat>)
    requires i < |st.peers|
    ensures CollectAll(H, st, i, n, failing).peers == st.peers[i := st.peers[i].(responses := [])]
    decreases |st.peers[i].responses|
  {
    hide Receive, Remove;
    var p := st.peers[i];
    if p.responses == [] {
      assert st.peers[i := p.(responses := [])] == st.peers;
    } else {
      CollectedPeers(H, CollectOne(H, st, i, FateOf(failing, n)), i, n + 1, failing);
      assert st.peers[i := p.(responses := p.responses[1..])][i := p.(responses := [])] == st.peers[i := p.(responses := [])];
    }
  }

  lemma {:induction false} TakenBackPeers(st: State, i: nat)
    requires i < |st.peers|
    ensures TakeBackAll(st, i).peers == st.peers[i := st.peers[i].(cancelled := [])]
    decreases |st.peers[i].cancelled|
  {
    hide Reject;
    var p := st.peers[i];
    if p.cancelled == [] {
      assert st.peers[i := p.(cancelled := [])] == st.peers;
    } else {
      TakenBackPeers(TakeBackOne(st, i), i);
      assert st.peers[i := p.(cancelled := p.cancelled[1..])][i := p.(cancelled := [])] == st.peers[i := p.(cancelled := [])];
    }
  }

  // What a peer's turn in checkCancelled leaves: everything it gave up is still
  // listed, and sent to nobody.
  lemma {:induction false} TakenBackIsUnsent(H: Hasher, st: State, i: nat)
    requires Inv(H, st) && i < |st.peers|
    ensures var r := TakeBackAll(st, i);
            && |r.peers| == |st.peers| && r.peers[i] == st.peers[i].(cancelled := [])
            && (forall x :: Listed(r.queue, x) <==> Listed(st.queue, x))
            && forall x, id :: SentTo(r.queue, x, id) <==> SentTo(st.queue, x, id) && OutCount(st.peers[i].cancelled, x) == 0
    decreases |st.peers[i].cancelled|
  {
    var p := st.peers[i];
    hide Listed, SentTo;
    if p.cancelled == [] {
      assert p.(cancelled := []) == p;
    } else {
      assert ListsOnce(st.queue);
      TakeBackOneKeeps(H, st, i);
      Rejected(st.queue, p.cancelled[0].info, p.id);
      hide Inv, Reject, ListsOnce;
      TakenBackIsUnsent(H, TakeBackOne(st, i), i);
    }
  }

  // What a peer's turn in checkResponses leaves: nothing it answered is listed.
  lemma {:induction false} CollectedIsUnlisted(H: Hasher, st: State, i: nat, n: nat, failing: map<nat, nat>)
    requires Inv(H, st) && i < |st.peers|
    ensures var r := CollectAll(H, st, i, n, failing);
            && |r.peers| == |st.peers| && r.peers[i] == st.peers[i].(responses := [])
            && (forall x :: Listed(r.queue, x) <==> Listed(st.queue, x) && ResponseCount(st.peers[i].responses, x) == 0)
            && forall x, id :: SentTo(r.queue, x, id) <==> SentTo(st.queue, x, id) && ResponseCount(st.peers[i].responses, x) == 0
    decreases |st.peers[i].responses|
  {
    var p := st.peers[i];
    hide Listed, SentTo;
    if p.responses == [] {
      assert p.(responses := []) == p;
    } else {
      assert ListsOnce(st.queue);
      CollectOneKeeps(H, st, i, FateOf(failing, n));
      Removed(st.queue, Named(p.responses[0]));
      hide Inv, Remove, Receive, ListsOnce;
      CollectedIsUnlisted(H, CollectOne(H, st, i, FateOf(failing, n)), i, n + 1, failing);
    }
  }

  // Disconnecting removes the peer with the ID, and no other.
  lemma {:induction false} DropRemovesOne(H: Hasher, st: State, id: PeerId)
    requires Inv(H, st)
    ensures forall p :: p in Drop(st, id).peers <==> p in st.peers && p.id != id
  {
    var k := FindPeer(st.peers, id);
    if k < |st.peers| {
      WithoutOne(st.queue, st.peers, k);
      hide Inv, FindPeer, Without, Unsend, Disconnected;
      OthersStay(st.peers, k);
    }
  }

  lemma {:induction false} OthersStay(peers: seq<PeerState>, k: nat)
    requires k < |peers| && forall j :: 0 <= j < |Without(peers, k)| ==> Without(peers, k)[j].id != peers[k].id
    ensures forall p :: p in Without(peers, k) <==> p in peers && p.id != peers[k].id
  {
    var rest := Without(peers, k);
    forall p | p in peers && p.id != peers[k].id
      ensures p in rest
    {
      var j :| 0 <= j < |peers| && peers[j] == p;
      assert rest[if j < k then j else j - 1] == p;
    }
    forall p | p in rest
      ensures p in peers && p.id != peers[k].id
    {
      var j :| 0 <= j < |rest| && rest[j] == p;
      assert peers[if j < k then j else j + 1] == p;
    }
  }

  lemma {:induction false} AddressesStayDistinct(H: Hasher, st: State, ops: seq<Op>)
    requires Initial(H, st) && RunAllowed(H, st, ops)
    ensures forall x :: TimesInAll(Run(H, st, ops).addresses, x) <= 1
  {
    hide RunAllowed, Run, Initial, StoreInv, QueueInv, PeersInv, TimesInAll;
    EveryRun(H, st, ops);
  }
}
