// When a block that was sent to a peer is no longer held by it, and what goes
// wrong when two peers have the same ID.
module SessionLosses {
  import opened Common
  import opened PieceSpec
  import opened Requests
  import opened PeerSpec
  import opened QueueSpec
  import opened AddressSpec
  import opened SessionSpec
  import opened SessionFetching
  import opened SessionRuns
  import opened DiskSpec
  import BS = BundleSpec

  ghost predicate HeldBy(peers: seq<PeerState>, x: BlockInfo, id: PeerId) {
    exists i :: 0 <= i < |peers| && peers[i].id == id && Held(peers[i], x) > 0
  }

  // Every block that was sent to a peer is in the queues of that peer.
  ghost predicate NoneStranded(q: Queue, peers: seq<PeerState>) {
    forall x, id :: SentTo(q, x, id) ==> HeldBy(peers, x, id)
  }

  predicate Idle(p: PeerState) {
    p.out == [] && p.responses == [] && p.cancelled == []
  }

  // A peer closes while requests, responses or cancellations are in its queues,
  // or one that has closed is reaped with requests handed to it since.
  predicate Strands(st: State, op: Op) {
    || (op.AtPeer? && op.peer < |st.peers| && op.event.Closes? && !Idle(st.peers[op.peer]))
    || (op.Reap? && op.entry < |st.addresses.connected|
        && var k := FindAt(st.peers, st.addresses.connected[op.entry]);
           k < |st.peers| && !st.peers[k].connected && !Idle(st.peers[k]))
  }

  lemma {:induction false} IdleHoldsNothing(p: PeerState, x: BlockInfo)
    requires Idle(p)
    ensures Held(p, x) == 0
  {
  }

  // A peer that is not idle holds something.
  function SomethingOf(p: PeerState): BlockInfo
    requires !Idle(p)
  {
    if p.out != [] then p.out[0].info else if p.responses != [] then Named(p.responses[0]) else p.cancelled[0].info
  }

  lemma {:induction false} HoldsSomething(p: PeerState)
    requires !Idle(p)
    ensures Held(p, SomethingOf(p)) > 0
  {
    if p.out != [] {
      OutIsHeld(p, 0);
    } else if p.responses != [] {
      FirstResponse(p);
    } else {
      FirstCancelled(p);
    }
  }

  // ----- steps that strand nothing -----

  // Less is sent, and each peer holds at least what is still sent to it.
  ghost predicate HoldsOn(q': Queue, p: PeerState, p': PeerState) {
    p'.id == p.id && forall x :: SentTo(q', x, p.id) && Held(p, x) > 0 ==> Held(p', x) > 0
  }

  lemma {:induction false} StillHeld(q: Queue, q': Queue, peers: seq<PeerState>, peers': seq<PeerState>)
    requires NoneStranded(q, peers) && |peers'| >= |peers|
    requires forall i :: 0 <= i < |peers| ==> HoldsOn(q', peers[i], peers'[i])
    requires forall x, id :: SentTo(q', x, id) ==> SentTo(q, x, id)
    ensures NoneStranded(q', peers')
  {
    hide Held, SentTo;
    forall x, id | SentTo(q', x, id)
      ensures HeldBy(peers', x, id)
    {
      var i :| 0 <= i < |peers| && peers[i].id == id && Held(peers[i], x) > 0;
      assert HoldsOn(q', peers[i], peers'[i]);
    }
  }

  lemma {:induction false} SameHoldsOn(q: Queue, p: PeerState)
    ensures HoldsOn(q, p, p)
  {
  }

  lemma {:induction false} OneHoldsOn(q: Queue, q': Queue, peers: seq<PeerState>, i: nat, p: PeerState)
    requires NoneStranded(q, peers) && i < |peers| && HoldsOn(q', peers[i], p)
    requires forall x, id :: SentTo(q', x, id) ==> SentTo(q, x, id)
    ensures NoneStranded(q', peers[i := p])
  {
    hide HoldsOn, SentTo, NoneStranded;
    forall j | 0 <= j < |peers|
      ensures HoldsOn(q', peers[j], peers[i := p][j])
    {
      SameHoldsOn(q', peers[j]);
    }
    StillHeld(q, q', peers, peers[i := p]);
  }

  lemma {:induction false} RefillStrandsNone(H: Hasher, st: State)
    requires Inv(H, st) && NoneStranded(st.queue, st.peers)
    ensures NoneStranded(Refill(st).queue, Refill(st).peers)
  {
    hide StoreInv, PeersInv, ListsOnce, Listed, Fetching, EachOnce, NextBlocks, Fresh, MarkFetching, SentTo, HeldBy;
    if |st.queue| < BLOCK_QUEUE_MAX {
      NextFetches(H, st.bundle, BLOCK_QUEUE_MAX - |st.queue|);
      Extended(st.queue, NextBlocks(st.bundle.pieces, BLOCK_QUEUE_MAX - |st.queue|));
    }
  }

  lemma {:induction false} AssignStrandsNone(H: Hasher, st: State, i: nat, cap: Option<int>)
    requires Inv(H, st) && NoneStranded(st.queue, st.peers) && i < |st.peers|
    ensures var r := Assign(st.queue, st.peers[i], cap);
            NoneStranded(r.queue, st.peers[i := r.peer])
  {
    hide StoreInv, ListsOnce, Listed, Fetching, EachOnce, SentTo, PeerInv, Assign, Held;
    var r := Assign(st.queue, st.peers[i], cap);
    AssignHandsOut(st.queue, st.peers[i], cap);
    forall x, id | SentTo(r.queue, x, id)
      ensures HeldBy(st.peers[i := r.peer], x, id)
    {
      if !(id == r.peer.id && Held(r.peer, x) > 0) {
        assert SentTo(st.queue, x, id);
        var j :| 0 <= j < |st.peers| && st.peers[j].id == id && Held(st.peers[j], x) > 0;
        assert Held(st.peers[i := r.peer][j], x) > 0;
      } else {
        assert st.peers[i := r.peer][i] == r.peer;
      }
    }
  }

  lemma {:induction false} LosesOne(q': Queue, p: PeerState, p': PeerState, info: BlockInfo)
    requires p'.id == p.id && forall x :: Held(p', x) == Held(p, x) - if x == info then 1 else 0
    requires forall id :: !SentTo(q', info, id)
    ensures HoldsOn(q', p, p')
  {
    hide Held, SentTo;
  }

  lemma {:induction false} CollectOneStrandsNone(H: Hasher, st: State, i: nat, fate: DiskFate)
    requires Inv(H, st) && NoneStranded(st.queue, st.peers) && i < |st.peers| && st.peers[i].responses != []
    ensures var r := CollectOne(H, st, i, fate);
            NoneStranded(r.queue, r.peers)
  {
    var p := st.peers[i];
    var x, p' := Named(p.responses[0]), p.(responses := p.responses[1..]);
    FirstResponse(p);
    Removed(st.queue, x);
    LosesOne(Remove(st.queue, x), p, p', x);
    hide Inv, NoneStranded, HoldsOn, SentTo, Held, Remove, Receive;
    OneHoldsOn(st.queue, Remove(st.queue, x), st.peers, i, p');
  }

  lemma {:induction false} CollectStrandsNone(H: Hasher, st: State, i: nat, n: nat, failing: map<nat, nat>)
    requires Inv(H, st) && NoneStranded(st.queue, st.peers) && i < |st.peers|
    ensures var r := CollectAll(H, st, i, n, failing);
            NoneStranded(r.queue, r.peers)
    decreases |st.peers[i].responses|
  {
    hide Inv, CollectOne, NoneStranded;
    if st.peers[i].responses != [] {
      CollectOneKeeps(H, st, i, FateOf(failing, n));
      CollectOneStrandsNone(H, st, i, FateOf(failing, n));
      CollectStrandsNone(H, CollectOne(H, st, i, FateOf(failing, n)), i, n + 1, failing);
    }
  }

  lemma {:induction false} TakeBackOneStrandsNone(H: Hasher, st: State, i: nat)
    requires Inv(H, st) && NoneStranded(st.queue, st.peers) && i < |st.peers| && st.peers[i].cancelled != []
    ensures NoneStranded(TakeBackOne(st, i).queue, TakeBackOne(st, i).peers)
  {
    var p := st.peers[i];
    var x, p' := p.cancelled[0].info, p.(cancelled := p.cancelled[1..]);
    FirstCancelled(p);
    Rejected(st.queue, x, p.id);
    LosesOne(Reject(st.queue, x, p.id), p, p', x);
    hide Inv, NoneStranded, HoldsOn, SentTo, Held, Reject;
    OneHoldsOn(st.queue, Reject(st.queue, x, p.id), st.peers, i, p');
  }

  lemma {:induction false} TakeBackStrandsNone(H: Hasher, st: State, i: nat)
    requires Inv(H, st) && NoneStranded(st.queue, st.peers) && i < |st.peers|
    ensures NoneStranded(TakeBackAll(st, i).queue, TakeBackAll(st, i).peers)
    decreases |st.peers[i].cancelled|
  {
    hide Inv, TakeBackOne, NoneStranded;
    if st.peers[i].cancelled != [] {
      TakeBackOneKeeps(H, st, i);
      TakeBackOneStrandsNone(H, st, i);
      TakeBackStrandsNone(H, TakeBackOne(st, i), i);
    }
  }

  lemma {:induction false} HeldByAnother(peers: seq<PeerState>, k: nat, x: BlockInfo, id: PeerId)
    requires k < |peers| && HeldBy(peers, x, id) && (peers[k].id != id || Held(peers[k], x) == 0)
    ensures HeldBy(Without(peers, k), x, id)
  {
    hide Held;
    var j :| 0 <= j < |peers| && peers[j].id == id && Held(peers[j], x) > 0;
    assert Without(peers, k)[if j < k then j else j - 1] == peers[j];
  }

  lemma {:induction false} DropStrandsNone(H: Hasher, st: State, id: PeerId)
    requires Inv(H, st) && NoneStranded(st.queue, st.peers)
    ensures NoneStranded(Drop(st, id).queue, Drop(st, id).peers)
  {
    var k := FindPeer(st.peers, id);
    if k < |st.peers| {
      Unsent(st.queue, id);
      hide SentTo, HeldBy, Unsend, Without;
      forall x, other | SentTo(Unsend(st.queue, id), x, other)
        ensures HeldBy(Without(st.peers, k), x, other)
      {
        HeldByAnother(st.peers, k, x, other);
      }
    }
  }

  // Taking an idle peer away strands nothing; taking one that is not does.
  lemma {:induction false} TakenAway(H: Hasher, st: State, k: nat)
    requires Inv(H, st) && NoneStranded(st.queue, st.peers) && k < |st.peers|
    ensures NoneStranded(st.queue, Without(st.peers, k)) <==> Idle(st.peers[k])
  {
    var p := st.peers[k];
    WithoutOne(st.queue, st.peers, k);
    hide Inv, SentTo, HeldBy, Held, Without;
    if Idle(p) {
      forall x, id | SentTo(st.queue, x, id)
        ensures HeldBy(Without(st.peers, k), x, id)
      {
        IdleHoldsNothing(p, x);
        HeldByAnother(st.peers, k, x, id);
      }
    } else {
      HoldsSomething(p);
      HeldIsFetched(H, st, k, SomethingOf(p));
      NotHeldWithout(st.peers, k, SomethingOf(p));
    }
  }

  lemma {:induction false} NotHeldWithout(peers: seq<PeerState>, k: nat, x: BlockInfo)
    requires k < |peers| && forall j :: 0 <= j < |Without(peers, k)| ==> Without(peers, k)[j].id != peers[k].id
    ensures !HeldBy(Without(peers, k), x, peers[k].id)
  {
    hide Held;
  }

  lemma {:induction false} ReapStrands(H: Hasher, st: State, n: nat)
    requires Inv(H, st) && NoneStranded(st.queue, st.peers)
    ensures NoneStranded(ReapEntry(st, n).queue, ReapEntry(st, n).peers) <==> !Strands(st, Reap(n))
  {
    hide Inv, NoneStranded, Without, Idle;
    if n < |st.addresses.connected| {
      var k := FindAt(st.peers, st.addresses.connected[n]);
      if k < |st.peers| {
        TakenAway(H, st, k);
      }
    }
  }

  lemma {:induction false} PeerEventStrands(H: Hasher, st: State, i: nat, e: PeerEvent)
    requires Inv(H, st) && NoneStranded(st.queue, st.peers) && i < |st.peers|
    ensures NoneStranded(st.queue, st.peers[i := React(st.peers[i], e)]) <==> !Strands(st, AtPeer(i, e))
  {
    var p := st.peers[i];
    var p' := React(p, e);
    OutFits(H, st, i);
    hide Inv, Held, React, SentTo, NoneStranded, Fits32;
    if e.Closes? && !Idle(p) {
      HoldsSomething(p);
      HeldIsFetched(H, st, i, SomethingOf(p));
      ReactHolds(p, e, SomethingOf(p));
      OtherIds(H, st, i);
      ClosedStrands(st.queue, st.peers, i, p', SomethingOf(p));
    } else {
      forall x
        ensures Held(p', x) == Held(p, x)
      {
        ReactHolds(p, e, x);
        if Idle(p) {
          IdleHoldsNothing(p, x);
        }
      }
      assert HoldsOn(st.queue, p, p');
      hide HoldsOn;
      OneHoldsOn(st.queue, st.queue, st.peers, i, p');
    }
  }

  lemma {:induction false} OtherIds(H: Hasher, st: State, i: nat)
    requires Inv(H, st) && i < |st.peers|
    ensures forall j :: 0 <= j < |st.peers| && j != i ==> st.peers[j].id != st.peers[i].id
  {
    hide PeerInv, StoreInv, QueueInv, EachOnce;
  }

  lemma {:induction false} ClosedStrands(q: Queue, peers: seq<PeerState>, i: nat, p: PeerState, x: BlockInfo)
    requires i < |peers| && p.id == peers[i].id && Held(p, x) == 0 && SentTo(q, x, p.id)
    requires forall j :: 0 <= j < |peers| && j != i ==> peers[j].id != peers[i].id
    ensures !NoneStranded(q, peers[i := p])
  {
    hide Held, SentTo;
    assert !HeldBy(peers[i := p], x, p.id);
  }

  lemma {:induction false} PeersOnly(q: Queue, peers: seq<PeerState>, peers': seq<PeerState>)
    requires NoneStranded(q, peers) && forall p :: p in peers ==> p in peers'
    ensures NoneStranded(q, peers')
  {
    hide Held, SentTo;
    forall x, id | SentTo(q, x, id)
      ensures HeldBy(peers', x, id)
    {
      var j :| 0 <= j < |peers| && peers[j].id == id && Held(peers[j], x) > 0;
      assert peers[j] in peers;
      assert peers[j] in peers';
      var k :| 0 <= k < |peers'| && peers'[k] == peers[j];
    }
  }

  lemma {:induction false} SwapStrandsNone(q: Queue, peers: seq<PeerState>, i: nat, j: nat)
    requires NoneStranded(q, peers) && i < |peers| && j < |peers|
    ensures NoneStranded(q, peers[i := peers[j]][j := peers[i]])
  {
    hide NoneStranded;
    var swapped := peers[i := peers[j]][j := peers[i]];
    forall p | p in peers
      ensures p in swapped
    {
      var k :| 0 <= k < |peers| && peers[k] == p;
      assert swapped[if k == i then j else if k == j then i else k] == p;
    }
    PeersOnly(q, peers, swapped);
  }

  lemma {:induction false} JoinStrandsNone(q: Queue, peers: seq<PeerState>, p: PeerState)
    requires NoneStranded(q, peers)
    ensures NoneStranded(q, peers + [p])
  {
    hide NoneStranded;
    PeersOnly(q, peers, peers + [p]);
  }

  lemma {:induction false} NothingSent()
    ensures NoneStranded([], [])
  {
  }

  // In every state that can be reached, if each block is held by the peer it was
  // sent to, the next step keeps it so if and only if no peer with anything in
  // its queues closes by itself or is reaped.
  lemma {:induction false} StrandedExactlyWhen(H: Hasher, st: State, op: Op)
    requires Inv(H, st) && Allowed(st, op) && NoneStranded(st.queue, st.peers)
    ensures NoneStranded(Step(H, st, op).queue, Step(H, st, op).peers) <==> !Strands(st, op)
  {
    hide Inv, Assign, CollectAll, TakeBackAll, Refill, Drop, ReapEntry, StopAll, React, NoneStranded, Idle;
    if op.AtPeer? && op.peer < |st.peers| {
      PeerEventStrands(H, st, op.peer, op.event);
    } else if op.Reap? {
      ReapStrands(H, st, op.entry);
    } else if op.Stop? {
      StopSends(st);
    } else {
      match op {
        case GetBlocks => RefillStrandsNone(H, st);
        case AssignTo(i, cap) =>
          if i < |st.peers| {
            AssignStrandsNone(H, st, i, cap);
          }
        case Collect(i, failing) =>
          if i < |st.peers| {
            CollectStrandsNone(H, st, i, 0, failing);
          }
        case TakeBack(i) =>
          if i < |st.peers| {
            TakeBackStrandsNone(H, st, i);
          }
        case Disconnect(id) => DropStrandsNone(H, st, id);
        case Join(id, x) => JoinStrandsNone(st.queue, st.peers, NewPeer(id, x));
        case Swap(i, j) =>
          if i < |st.peers| && j < |st.peers| {
            SwapStrandsNone(st.queue, st.peers, i, j);
          }
        case _ =>
      }
    }
  }

  lemma {:induction false} StopSends(st: State)
    ensures NoneStranded(StopAll(st).queue, StopAll(st).peers)
  {
    NothingSent();
  }

  ghost predicate NoLoss(H: Hasher, st: State, ops: seq<Op>)
    decreases |ops|
  {
    ops == [] || (!Strands(st, ops[0]) && NoLoss(H, Step(H, st, ops[0]), ops[1..]))
  }

  lemma {:induction false} RunStrandsNone(H: Hasher, st: State, ops: seq<Op>)
    requires Inv(H, st) && RunAllowed(H, st, ops) && NoneStranded(st.queue, st.peers) && NoLoss(H, st, ops)
    ensures Inv(H, Run(H, st, ops)) && NoneStranded(Run(H, st, ops).queue, Run(H, st, ops).peers)
    decreases |ops|
  {
    hide Inv, Step, Allowed, NoneStranded, Strands;
    if ops != [] {
      StepKeeps(H, st, ops[0]);
      StrandedExactlyWhen(H, st, ops[0]);
      RunStrandsNone(H, Step(H, st, ops[0]), ops[1..]);
    }
  }

  // In a run without such a loss, a block is marked as sent to a peer exactly while
  // it stands in that peer's queues.
  lemma {:induction false} SentExactlyWhileHeld(H: Hasher, st: State, ops: seq<Op>)
    requires Initial(H, st) && RunAllowed(H, st, ops) && NoLoss(H, st, ops)
    ensures var end := Run(H, st, ops);
            forall x, id :: SentTo(end.queue, x, id) <==> HeldBy(end.peers, x, id)
  {
    EveryRun(H, st, []);
    NothingSent();
    hide RunAllowed, Run, Initial, Inv, NoLoss, SentTo, Held;
    RunStrandsNone(H, st, ops);
    var end := Run(H, st, ops);
    InvMeansSingleHolder(H, end);
  }

  // ----- a stranded block stays stranded -----

  // The block is sent to a peer of this ID, and in the queues of nobody.
  ghost predicate Stranded(q: Queue, peers: seq<PeerState>, x: BlockInfo, id: PeerId) {
    SentTo(q, x, id) && forall p :: p in peers ==> Held(p, x) == 0
  }

  // Everything is cancelled, or everything sent to the ID is unsent.
  predicate Frees(st: State, op: Op, id: PeerId) {
    op.Stop? || (op.Disconnect? && op.id == id && FindPeer(st.peers, id) < |st.peers|)
  }

  ghost predicate NeverFreed(H: Hasher, st: State, ops: seq<Op>, id: PeerId)
    decreases |ops|
  {
    ops == [] || (!Frees(st, ops[0], id) && NeverFreed(H, Step(H, st, ops[0]), ops[1..], id))
  }

  // If the peer it was sent to does not hold it, nobody does.
  lemma {:induction false} NotHeldIsStranded(H: Hasher, st: State, x: BlockInfo, id: PeerId)
    requires Inv(H, st) && SentTo(st.queue, x, id) && !HeldBy(st.peers, x, id)
    ensures Stranded(st.queue, st.peers, x, id)
  {
    InvMeansSingleHolder(H, st);
    assert ListsOnce(st.queue);
    hide Inv, SentTo, Held, ListsOnce;
    forall p | p in st.peers
      ensures Held(p, x) == 0
    {
      var i :| 0 <= i < |st.peers| && st.peers[i] == p;
      if Held(st.peers[i], x) > 0 {
        SentToOne(st.queue, x, id, p.id);
      }
    }
  }

  lemma {:induction false} SentIsNotHanded(q: Queue, p: PeerState, left: int, k: nat, x: BlockInfo, id: PeerId)
    requires ListsOnce(q) && SentTo(q, x, id)
    ensures Held(AssignFrom(q, p, left, k).peer, x) == Held(p, x)
    decreases |q| - k
  {
    hide Held, QueueRequest;
    if k < |q| && left > 0 {
      if !Wants(q[k], p) {
        SentIsNotHanded(q, p, left, k + 1, x, id);
      } else {
        var queued := QueueRequest(p, q[k].info);
        assert q[k].info != x;
        MarkedSent(q, k, p.id);
        if queued.Some? {
          QueueRequestHolds(p, q[k].info, x);
        }
        hide SentTo, ListsOnce, Listed;
        var q' := q[k := q[k].(sent := true, sentTo := p.id)];
        SentIsNotHanded(q', if queued.Some? then queued.value else p, left - 1, k + 1, x, id);
      }
    }
  }

  lemma {:induction false} AssignLeavesSent(q: Queue, p: PeerState, cap: Option<int>, x: BlockInfo, id: PeerId)
    requires ListsOnce(q) && SentTo(q, x, id)
    ensures Held(Assign(q, p, cap).peer, x) == Held(p, x)
  {
    var room := p.max - |p.out|;
    var left := if cap.Some? && room > cap.value then cap.value else room;
    var max := if |p.cancelled| < p.max / 4 && left > p.max / 2 && p.max < 256 then p.max * 2 else p.max;
    assert Held(p.(max := max), x) == Held(p, x);
    hide Held, AssignFrom, SentTo, ListsOnce;
    SentIsNotHanded(q, p.(max := max), left, 0, x, id);
  }

  lemma {:induction false} OneNowHolds(q: Queue, peers: seq<PeerState>, i: nat, p: PeerState, x: BlockInfo, id: PeerId)
    requires Stranded(q, peers, x, id) && i < |peers|
    ensures SentTo(q, x, id) && (forall r :: r in peers[i := p] ==> r in peers || r == p)
    ensures Held(peers[i], x) == 0 && (Held(p, x) == 0 ==> Stranded(q, peers[i := p], x, id))
  {
    hide SentTo, Held;
    forall r | r in peers[i := p]
      ensures r in peers || r == p
    {
      var j :| 0 <= j < |peers| && peers[i := p][j] == r;
      assert peers[j] in peers;
    }
    assert peers[i] in peers;
  }

  lemma {:induction false} WithoutStranded(q: Queue, peers: seq<PeerState>, k: nat, x: BlockInfo, id: PeerId)
    requires Stranded(q, peers, x, id) && k < |peers|
    ensures Stranded(q, Without(peers, k), x, id)
  {
    hide SentTo, Held;
    forall p | p in Without(peers, k)
      ensures p in peers
    {
      var j :| 0 <= j < |Without(peers, k)| && Without(peers, k)[j] == p;
      assert peers[if j < k then j else j + 1] == p;
    }
  }

  lemma {:induction false} QueueStranded(q: Queue, r: Queue, peers: seq<PeerState>, x: BlockInfo, id: PeerId)
    requires Stranded(q, peers, x, id) && SentTo(r, x, id)
    ensures Stranded(r, peers, x, id)
  {
  }

  // The next step keeps it so if and only if it frees the block.
  lemma {:induction false} StrandedUntilFreed(H: Hasher, st: State, op: Op, x: BlockInfo, id: PeerId)
    requires Inv(H, st) && Allowed(st, op) && Stranded(st.queue, st.peers, x, id)
    ensures Stranded(Step(H, st, op).queue, Step(H, st, op).peers, x, id) <==> !Frees(st, op, id)
  {
    assert ListsOnce(st.queue);
    hide Inv, Stranded, SentTo, Held, ListsOnce, Listed, Assign, CollectAll, TakeBackAll, Refill, React, Unsend, Without;
    match op {
      case GetBlocks => RefillStranded(H, st, x, id);
      case AssignTo(i, cap) =>
        if i < |st.peers| {
          AssignStranded(H, st, i, cap, x, id);
        }
      case Collect(i, failing) =>
        if i < |st.peers| {
          CollectStranded(H, st, i, failing, x, id);
        }
      case TakeBack(i) =>
        if i < |st.peers| {
          TakeBackStranded(H, st, i, x, id);
        }
      case Disconnect(other) =>
        if FindPeer(st.peers, other) < |st.peers| {
          DropStranded(st, other, x, id);
        }
      case Stop => NothingSentAfter(x, id);
      case _ => PeersStranded(H, st, op, x, id);
    }
  }

  // Steps that leave the queue alone.
  lemma {:induction false} PeersStranded(H: Hasher, st: State, op: Op, x: BlockInfo, id: PeerId)
    requires Inv(H, st) && Stranded(st.queue, st.peers, x, id)
    requires op.Reap? || op.Join? || op.Swap? || op.AtPeer? || op.LearnAddresses? || op.TryNext? || op.Fail? || op.Succeed?
    ensures Stranded(Step(H, st, op).queue, Step(H, st, op).peers, x, id)
  {
    hide Inv, Stranded, SentTo, Held, React, Without;
    match op {
      case Reap(n) =>
        if n < |st.addresses.connected| && FindAt(st.peers, st.addresses.connected[n]) < |st.peers| {
          WithoutStranded(st.queue, st.peers, FindAt(st.peers, st.addresses.connected[n]), x, id);
        }
      case Join(newId, address) => JoinStranded(st, newId, address, x, id);
      case Swap(i, j) =>
        if i < |st.peers| && j < |st.peers| {
          SwapStranded(st.queue, st.peers, i, j, x, id);
        }
      case AtPeer(i, e) =>
        if i < |st.peers| {
          OneNowHolds(st.queue, st.peers, i, React(st.peers[i], e), x, id);
          OutFits(H, st, i);
          ReactHolds(st.peers[i], e, x);
        }
      case _ =>
    }
  }

  lemma {:induction false} NothingSentAfter(x: BlockInfo, id: PeerId)
    ensures !Stranded([], [], x, id)
  {
  }

  lemma {:induction false} RefillStranded(H: Hasher, st: State, x: BlockInfo, id: PeerId)
    requires Inv(H, st) && Stranded(st.queue, st.peers, x, id)
    ensures Stranded(Refill(st).queue, Refill(st).peers, x, id)
  {
    hide StoreInv, PeersInv, ListsOnce, Listed, Fetching, EachOnce, NextBlocks, Fresh, MarkFetching, SentTo, Held;
    if |st.queue| < BLOCK_QUEUE_MAX {
      NextFetches(H, st.bundle, BLOCK_QUEUE_MAX - |st.queue|);
      Extended(st.queue, NextBlocks(st.bundle.pieces, BLOCK_QUEUE_MAX - |st.queue|));
    }
  }

  lemma {:induction false} AssignStranded(H: Hasher, st: State, i: nat, cap: Option<int>, x: BlockInfo, id: PeerId)
    requires Inv(H, st) && Stranded(st.queue, st.peers, x, id) && i < |st.peers|
    ensures var r := Assign(st.queue, st.peers[i], cap);
            Stranded(r.queue, st.peers[i := r.peer], x, id)
  {
    var r := Assign(st.queue, st.peers[i], cap);
    assert PeerInv(st.queue, st.peers[i]) && ListsOnce(st.queue);
    hide Inv, Assign, Held, SentTo, ListsOnce, PeerInv, Listed;
    AssignHandsOut(st.queue, st.peers[i], cap);
    AssignLeavesSent(st.queue, st.peers[i], cap, x, id);
    OneNowHolds(st.queue, st.peers, i, r.peer, x, id);
    QueueStranded(st.queue, r.queue, st.peers[i := r.peer], x, id);
  }

  lemma {:induction false} CollectStranded(H: Hasher, st: State, i: nat, failing: map<nat, nat>, x: BlockInfo, id: PeerId)
    requires Inv(H, st) && Stranded(st.queue, st.peers, x, id) && i < |st.peers|
    ensures var r := CollectAll(H, st, i, 0, failing);
            Stranded(r.queue, r.peers, x, id)
  {
    var q := st.peers[i].(responses := []);
    var r := CollectAll(H, st, i, 0, failing);
    assert st.peers[i] in st.peers;
    assert Held(q, x) == 0 && ResponseCount(st.peers[i].responses, x) == 0;
    hide Inv, CollectAll, Held, SentTo, Listed;
    CollectedPeers(H, st, i, 0, failing);
    CollectedIsUnlisted(H, st, i, 0, failing);
    OneNowHolds(st.queue, st.peers, i, q, x, id);
    QueueStranded(st.queue, r.queue, st.peers[i := q], x, id);
  }

  lemma {:induction false} TakeBackStranded(H: Hasher, st: State, i: nat, x: BlockInfo, id: PeerId)
    requires Inv(H, st) && Stranded(st.queue, st.peers, x, id) && i < |st.peers|
    ensures var r := TakeBackAll(st, i);
            Stranded(r.queue, r.peers, x, id)
  {
    var q := st.peers[i].(cancelled := []);
    var r := TakeBackAll(st, i);
    assert st.peers[i] in st.peers;
    assert Held(q, x) == 0 && OutCount(st.peers[i].cancelled, x) == 0;
    hide Inv, TakeBackAll, Held, SentTo, Listed;
    TakenBackPeers(st, i);
    TakenBackIsUnsent(H, st, i);
    OneNowHolds(st.queue, st.peers, i, q, x, id);
    QueueStranded(st.queue, r.queue, st.peers[i := q], x, id);
  }

  lemma {:induction false} DropStranded(st: State, other: PeerId, x: BlockInfo, id: PeerId)
    requires ListsOnce(st.queue) && Stranded(st.queue, st.peers, x, id) && FindPeer(st.peers, other) < |st.peers|
    ensures Stranded(Drop(st, other).queue, Drop(st, other).peers, x, id) <==> other != id
  {
    Unsent(st.queue, other);
    WithoutStranded(st.queue, st.peers, FindPeer(st.peers, other), x, id);
    hide ListsOnce, SentTo, Held, Listed, Without, FindPeer, Unsend;
  }

  lemma {:induction false} JoinStranded(st: State, newId: PeerId, address: Address, x: BlockInfo, id: PeerId)
    requires Stranded(st.queue, st.peers, x, id)
    ensures Stranded(st.queue, st.peers + [NewPeer(newId, address)], x, id)
  {
    IdleHoldsNothing(NewPeer(newId, address), x);
    hide SentTo, Held;
  }

  lemma {:induction false} SwapStranded(q: Queue, peers: seq<PeerState>, i: nat, j: nat, x: BlockInfo, id: PeerId)
    requires Stranded(q, peers, x, id) && i < |peers| && j < |peers|
    ensures Stranded(q, peers[i := peers[j]][j := peers[i]], x, id)
  {
    hide SentTo, Held;
  }

  // A block that was sent to a peer and is not held by it stays so in every run that
  // does not free it. It goes on being fetched, so it is neither written nor taken
  // from the bundle again, and it stays sent, so it is not asked for.
  lemma {:induction false} StrandedForGood(H: Hasher, st: State, ops: seq<Op>, x: BlockInfo, id: PeerId)
    requires Inv(H, st) && RunAllowed(H, st, ops) && NeverFreed(H, st, ops, id)
    requires SentTo(st.queue, x, id) && !HeldBy(st.peers, x, id)
    ensures var end := Run(H, st, ops);
            && Stranded(end.queue, end.peers, x, id) && Fetching(end.bundle.pieces, x)
            && forall k, p :: 0 <= k < |end.queue| && end.queue[k].info == x ==> !Wants(end.queue[k], p)
  {
    hide *;
    NotHeldIsStranded(H, st, x, id);
    StaysStranded(H, st, ops, x, id);
    RunKeeps(H, st, ops);
    StrandedMeans(H, Run(H, st, ops), x, id);
  }

  lemma {:induction false} StrandedMeans(H: Hasher, st: State, x: BlockInfo, id: PeerId)
    requires Inv(H, st) && Stranded(st.queue, st.peers, x, id)
    ensures Fetching(st.bundle.pieces, x)
    ensures forall k, p :: 0 <= k < |st.queue| && st.queue[k].info == x ==> !Wants(st.queue[k], p)
  {
    hide StoreInv, PeersInv, Held;
    SentIsListed(st.queue, x, id);
  }

  lemma {:induction false} StaysStranded(H: Hasher, st: State, ops: seq<Op>, x: BlockInfo, id: PeerId)
    requires Inv(H, st) && RunAllowed(H, st, ops) && NeverFreed(H, st, ops, id)
    requires Stranded(st.queue, st.peers, x, id)
    ensures Stranded(Run(H, st, ops).queue, Run(H, st, ops).peers, x, id)
    decreases |ops|
  {
    hide Inv, Step, Allowed, Stranded, Frees;
    if ops != [] {
      StepKeeps(H, st, ops[0]);
      StrandedUntilFreed(H, st, ops[0], x, id);
      StaysStranded(H, Step(H, st, ops[0]), ops[1..], x, id);
    }
  }

  // ----- two peers with one ID -----

  ghost predicate HolderSent(q: Queue, p: PeerState) {
    forall x :: Held(p, x) > 0 ==> SentTo(q, x, p.id)
  }

  // What a peer holds was sent to a peer of its ID.
  ghost predicate HoldersSent(q: Queue, peers: seq<PeerState>) {
    forall i :: 0 <= i < |peers| ==> HolderSent(q, peers[i])
  }

  // Nobody but the peer that disconnectPeer finds has this ID and anything queued.
  predicate OthersIdle(peers: seq<PeerState>, id: PeerId) {
    forall j :: 0 <= j < |peers| && j != FindPeer(peers, id) && peers[j].id == id ==> Idle(peers[j])
  }

  // disconnectPeer removes the last peer with the ID and unsends everything sent to
  // that ID. What the other peers hold was still sent to them afterwards if and only
  // if no other peer with the ID has anything queued.
  lemma {:induction false} DropKeepsHoldersExactlyWhen(st: State, id: PeerId)
    requires ListsOnce(st.queue) && HoldersSent(st.queue, st.peers) && FindPeer(st.peers, id) < |st.peers|
    ensures HoldersSent(Drop(st, id).queue, Drop(st, id).peers) <==> OthersIdle(st.peers, id)
  {
    var k, q := FindPeer(st.peers, id), Unsend(st.queue, id);
    Unsent(st.queue, id);
    WithoutEach(q, st.peers, k);
    hide SentTo, Held, ListsOnce, Unsend, FindPeer, Idle, HolderSent, Without;
    forall j | 0 <= j < |st.peers|
      ensures HolderSent(q, st.peers[j]) <==> (st.peers[j].id == id ==> Idle(st.peers[j]))
    {
      StillSent(st.queue, q, st.peers[j], id);
    }
  }

  lemma {:induction false} WithoutEach(q: Queue, peers: seq<PeerState>, k: nat)
    requires k < |peers|
    ensures HoldersSent(q, Without(peers, k)) <==> forall j :: 0 <= j < |peers| && j != k ==> HolderSent(q, peers[j])
  {
    hide HolderSent;
    var rest := Without(peers, k);
    if HoldersSent(q, rest) {
      forall j | 0 <= j < |peers| && j != k
        ensures HolderSent(q, peers[j])
      {
        var i := if j < k then j else j - 1;
        assert rest[i] == peers[j];
      }
    } else {
      var i :| 0 <= i < |rest| && !HolderSent(q, rest[i]);
      var j := if i < k then i else i + 1;
      assert rest[i] == peers[j];
    }
  }

  lemma {:induction false} StillSent(q: Queue, r: Queue, p: PeerState, id: PeerId)
    requires HolderSent(q, p) && forall x, other :: SentTo(r, x, other) <==> SentTo(q, x, other) && other != id
    ensures HolderSent(r, p) <==> (p.id == id ==> Idle(p))
  {
    hide SentTo, Held, Idle;
    if Idle(p) {
      forall x
        ensures Held(p, x) == 0
      {
        IdleHoldsNothing(p, x);
      }
    } else {
      HoldsSomething(p);
    }
  }

  // So what the first of two peers with one ID holds is sent to nobody any more.
  lemma {:induction false} SharedIdLosesTheHolder(st: State, j: nat, x: BlockInfo)
    requires ListsOnce(st.queue) && j < |st.peers| && Held(st.peers[j], x) > 0
    requires j < FindPeer(st.peers, st.peers[j].id) < |st.peers|
    ensures var after := Drop(st, st.peers[j].id);
            j < |after.peers| && Held(after.peers[j], x) > 0 && !SentTo(after.queue, x, st.peers[j].id)
  {
    Unsent(st.queue, st.peers[j].id);
    hide SentTo, Held, ListsOnce;
  }

  // ----- runs in which it happens -----

  // A peer joins, announces a piece, unchokes and is handed requests.
  function ServeOps(i: nat, id: PeerId, address: Address, piece: nat): seq<Op> {
    [Join(id, address), AtPeer(i, Announces({piece})), AtPeer(i, Chokes(false)), AssignTo(i, None)]
  }

  function Ready(id: PeerId, address: Address, piece: nat): PeerState {
    NewPeer(id, address).(has := {piece}, choking := false)
  }

  lemma {:induction false} ServeRun(H: Hasher, st: State, id: PeerId, address: Address, piece: nat)
    ensures var r := Assign(st.queue, Ready(id, address, piece), None);
            Run(H, st, ServeOps(|st.peers|, id, address, piece)) == st.(queue := r.queue, peers := st.peers + [r.peer])
  {
    hide Assign, Run;
    var i, p := |st.peers|, Ready(id, address, piece);
    var ops := ServeOps(i, id, address, piece);
    assert ops == [ops[0], ops[1]] + [ops[2], ops[3]];
    RunAppend(H, st, [ops[0], ops[1]], [ops[2], ops[3]]);
    RunTwo(H, st, ops[0], ops[1]);
    var joined := st.(peers := st.peers + [NewPeer(id, address)]);
    var told := st.(peers := st.peers + [NewPeer(id, address).(has := {piece})]);
    assert Step(H, joined, ops[1]) == told;
    RunTwo(H, told, ops[2], ops[3]);
    var ready := st.(peers := st.peers + [p]);
    assert Step(H, told, ops[2]) == ready;
    var r := Assign(st.queue, p, None);
    assert Step(H, ready, ops[3]) == ready.(queue := r.queue, peers := ready.peers[i := r.peer]);
  }

  // The first block of the queue goes to a new peer that has its piece.
  lemma {:induction false} FirstIsServed(q: Queue, id: PeerId, address: Address)
    requires ListsOnce(q) && q != [] && !q[0].sent && id !in q[0].rejected
    ensures var r := Assign(q, Ready(id, address, q[0].info.piece), None);
            && r.peer.id == id && r.peer.address == address && r.peer.responses == []
            && Held(r.peer, q[0].info) > 0
            && r.queue == [q[0].(sent := true, sentTo := id)] + r.queue[1..] && ListsOnce(r.queue)
  {
    var p := Ready(id, address, q[0].info.piece).(max := 20);
    var r := AssignFrom(q, p, 10, 0);
    assert Assign(q, Ready(id, address, q[0].info.piece), None) == r;
    HoldsNothing(q, p);
    FirstWantedAreHandedOut(q, p, 10);
    AssignFromHandsOut(q, p, 10, 0);
    assert HandedFrom(q, p, 10, 0) == [OutRequest(q[0].info, false)] + HandedFrom(q, p, 9, 1);
    assert WantedBefore(q, p, 0) == 0;
    hide AssignFrom, Held, ListsOnce, Listed, SentTo, HandedFrom, WantedBefore, Assign;
    assert r.peer.out[0].info == q[0].info;
    OutIsHeld(r.peer, 0);
  }

  lemma {:induction false} HoldsNothing(q: Queue, p: PeerState)
    requires Idle(p) && p.max in REQUESTS_OUT_MAXIMA
    ensures PeerInv(q, p)
  {
    forall x
      ensures Held(p, x) == 0
    {
      IdleHoldsNothing(p, x);
    }
    hide Held;
  }

  // The block a session asks for first.
  function FirstBlock(st: State): BlockInfo
    requires NextBlocks(st.bundle.pieces, BLOCK_QUEUE_MAX) != []
  {
    NextBlocks(st.bundle.pieces, BLOCK_QUEUE_MAX)[0]
  }

  ghost predicate HasBlocks(H: Hasher, st: State) {
    Initial(H, st) && NextBlocks(st.bundle.pieces, BLOCK_QUEUE_MAX) != []
  }

  // The first peer is handed it.
  function FirstOps(id: PeerId, address: Address, piece: nat): seq<Op> {
    [GetBlocks] + ServeOps(0, id, address, piece)
  }

  // The queue after the blocks have been taken from the bundle.
  lemma {:induction false} Refilled(H: Hasher, st: State)
    requires Initial(H, st) && NextBlocks(st.bundle.pieces, BLOCK_QUEUE_MAX) != []
    ensures var q := Refill(st).queue;
            && Refill(st).peers == [] && ListsOnce(q) && q != []
            && q[0] == BlockRequest(NextBlocks(st.bundle.pieces, BLOCK_QUEUE_MAX)[0], false, [], [])
  {
    NothingListed();
    NextFetches(H, st.bundle, BLOCK_QUEUE_MAX);
    Extended([], NextBlocks(st.bundle.pieces, BLOCK_QUEUE_MAX));
    hide Listed, SentTo, Fetching, StoreInv, NextBlocks, MarkFetching, ListsOnce;
    assert [] + Fresh(NextBlocks(st.bundle.pieces, BLOCK_QUEUE_MAX)) == Fresh(NextBlocks(st.bundle.pieces, BLOCK_QUEUE_MAX));
  }

  lemma {:induction false} SecondDropped(st: State, p: PeerState, id: PeerId, y: Address)
    requires ListsOnce(st.queue) && st.queue != [] && st.queue[0].sentTo == id && p.id == id
    ensures var after := Drop(st.(peers := [p, NewPeer(id, y)]), id);
            && after.peers == [p] && ListsOnce(after.queue) && after.queue != [] && !after.queue[0].sent
            && after.queue[0].info == st.queue[0].info && after.queue[0].rejected == st.queue[0].rejected
  {
    Unsent(st.queue, id);
    hide ListsOnce, SentTo, Listed, Disconnected;
  }

  // One peer is there and holds the block.
  ghost predicate HandedFirst(s: State, x: BlockInfo, id: PeerId) {
    && |s.peers| == 1 && s.peers[0].id == id && s.peers[0].responses == [] && Held(s.peers[0], x) > 0
    && ListsOnce(s.queue) && s.queue != [] && s.queue[0] == BlockRequest(x, true, [], id)
  }

  lemma {:induction false} FirstRun(H: Hasher, st: State, id: PeerId, address: Address)
    requires HasBlocks(H, st)
    ensures HandedFirst(Run(H, st, FirstOps(id, address, FirstBlock(st).piece)), FirstBlock(st), id)
  {
    var s1, x := Refill(st), FirstBlock(st);
    Refilled(H, st);
    var r := Assign(s1.queue, Ready(id, address, x.piece), None);
    RunOne(H, st, GetBlocks);
    assert Run(H, st, [GetBlocks]) == s1;
    hide Refill, Held, ListsOnce, Assign, Initial, Run, ServeOps, Step;
    FirstIsServed(s1.queue, id, address);
    ServeRun(H, s1, id, address, x.piece);
    assert s1.peers + [r.peer] == [r.peer];
    RunAppend(H, st, [GetBlocks], ServeOps(0, id, address, x.piece));
  }

  // After two peers with one ID have joined and the second was disconnected, the
  // first block can be handed to a third peer while the first still holds it.
  function SharedIdOps(a: PeerId, b: PeerId, x: Address, y: Address, z: Address, piece: nat): seq<Op> {
    FirstOps(a, x, piece) + [Join(a, y), Disconnect(a)] + ServeOps(1, b, z, piece)
  }

  // In any session that has a block to fetch this run ends with the block at two
  // peers.
  lemma {:induction false} BlockAtTwoPeers(H: Hasher, st: State, a: PeerId, b: PeerId, x: Address, y: Address, z: Address)
    requires HasBlocks(H, st)
    ensures var end := Run(H, st, SharedIdOps(a, b, x, y, z, FirstBlock(st).piece));
            |end.peers| == 2 && Held(end.peers[0], FirstBlock(st)) > 0 && Held(end.peers[1], FirstBlock(st)) > 0
  {
    var block := FirstBlock(st);
    FirstRun(H, st, a, x);
    var s := Run(H, st, FirstOps(a, x, block.piece));
    var t := Drop(s.(peers := [s.peers[0], NewPeer(a, y)]), a);
    SecondDropped(s, s.peers[0], a, y);
    RunTwo(H, s, Join(a, y), Disconnect(a));
    assert s.peers + [NewPeer(a, y)] == [s.peers[0], NewPeer(a, y)];
    assert Run(H, s, [Join(a, y), Disconnect(a)]) == t;
    hide Held, ListsOnce, Assign, Initial, Drop, Run, Step, ServeOps, FirstOps;
    FirstIsServed(t.queue, b, z);
    ServeRun(H, t, b, z, block.piece);
    RunAppend(H, st, FirstOps(a, x, block.piece) + [Join(a, y), Disconnect(a)], ServeOps(1, b, z, block.piece));
    RunAppend(H, st, FirstOps(a, x, block.piece), [Join(a, y), Disconnect(a)]);
  }

  // In the same session a peer that is handed requests and closes strands the block.
  function StrandingOps(id: PeerId, x: Address, piece: nat): seq<Op> {
    FirstOps(id, x, piece) + [AtPeer(0, Closes)]
  }

  lemma {:induction false} ClosingStrandsABlock(H: Hasher, st: State, id: PeerId, x: Address)
    requires HasBlocks(H, st)
    ensures var block := FirstBlock(st);
            var end := Run(H, st, StrandingOps(id, x, block.piece));
            SentTo(end.queue, block, id) && !HeldBy(end.peers, block, id) && !NoneStranded(end.queue, end.peers)
  {
    var block := FirstBlock(st);
    FirstRun(H, st, id, x);
    var s := Run(H, st, FirstOps(id, x, block.piece));
    var closed := Close(s.peers[0]);
    RunOne(H, s, AtPeer(0, Closes));
    assert s.peers[0 := closed] == [closed];
    assert Run(H, s, [AtPeer(0, Closes)]) == s.(peers := [closed]);
    hide Held, ListsOnce, Initial, Run, Step, FirstOps;
    RunAppend(H, st, FirstOps(id, x, block.piece), [AtPeer(0, Closes)]);
    IdleHoldsNothing(closed, block);
    assert SentTo(s.queue, block, id);
  }

  // A fresh torrent with a first piece that is not empty is such a session.
  lemma {:induction false} FreshSessionHasBlocks(H: Hasher, m: BS.Meta)
    requires |m.hashes| > 0 && m.PieceSize(0) > 0
    ensures NextBlocks(BS.Create(m).pieces, BLOCK_QUEUE_MAX) != []
    ensures |m.hashes| <= 0x1_0000_0000 && m.pieceLength <= 0x1_0000_0000 ==> HasBlocks(H, FreshSession(m))
  {
    hide Initial, NextBlocks, BS.Create;
    FreshTorrentHasBlocks(H, m);
    if |m.hashes| <= 0x1_0000_0000 && m.pieceLength <= 0x1_0000_0000 {
      FreshSessionIsInitial(H, m);
    }
  }

  lemma {:induction false} FreshTorrentHasBlocks(H: Hasher, m: BS.Meta)
    requires |m.hashes| > 0 && m.PieceSize(0) > 0
    ensures NextBlocks(BS.Create(m).pieces, BLOCK_QUEUE_MAX) != []
  {
    var ps := BS.Create(m).pieces;
    BS.CreateInv(H, m);
    NextBlocksAreTheFirstIdle(H, ps, BLOCK_QUEUE_MAX);
    BlocksTileThePiece(m.PieceSize(0));
    InfoNamesBlock(ps, 0, 0);
    assert IsIdle(ps, InfoOf(ps, 0, 0));
  }
}
