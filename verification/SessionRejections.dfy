// Requests that a peer has rejected. The session would clear the rejections of a
// block under a condition that never holds, so they last as long as it is listed.
module SessionRejections {
  import opened Common
  import opened DiskSpec
  import opened Requests
  import opened PeerSpec
  import opened QueueSpec
  import opened AddressSpec
  import opened SessionSpec
  import opened SessionFetching
  import opened SessionRuns
  import BS = BundleSpec

  ghost function Ids(peers: seq<PeerState>): set<PeerId> {
    set k | 0 <= k < |peers| :: peers[k].id
  }

  // Rejections are kept, and a peer the request is newly sent to has not rejected it.
  ghost predicate Grows(e: BlockRequest, f: BlockRequest, ids: set<PeerId>) {
    && (forall id :: id in e.rejected ==> id in f.rejected)
    && (f.sent ==> (e.sent && f.sentTo == e.sentTo) || (f.sentTo !in e.rejected && f.sentTo in ids))
  }

  ghost predicate Comes(q: Queue, f: BlockRequest, ids: set<PeerId>) {
    exists j :: 0 <= j < |q| && q[j].info == f.info && Grows(q[j], f, ids)
  }

  // What was listed before has grown out of its entry there.
  ghost predicate Evolves(q: Queue, r: Queue, ids: set<PeerId>) {
    forall k :: 0 <= k < |r| && Listed(q, r[k].info) ==> Comes(q, r[k], ids)
  }

  lemma {:induction false} Same(q: Queue, ids: set<PeerId>)
    ensures Evolves(q, q, ids)
  {
  }

  // Entry by entry.
  lemma {:induction false} EachGrows(q: Queue, r: Queue, ids: set<PeerId>)
    requires |r| == |q| && forall k :: 0 <= k < |q| ==> r[k].info == q[k].info && Grows(q[k], r[k], ids)
    ensures Evolves(q, r, ids)
  {
    hide Grows;
  }

  lemma {:induction false} EvolvesOn(q: Queue, r: Queue, t: Queue, ids: set<PeerId>)
    requires Evolves(q, r, ids) && Evolves(r, t, ids) && forall x :: Listed(t, x) ==> Listed(r, x)
    ensures Evolves(q, t, ids)
  {
    hide Listed, Grows;
    forall k | 0 <= k < |t| && Listed(q, t[k].info)
      ensures Comes(q, t[k], ids)
    {
      ListedAt(t, k);
      var j :| 0 <= j < |r| && r[j].info == t[k].info && Grows(r[j], t[k], ids);
      var i :| 0 <= i < |q| && q[i].info == r[j].info && Grows(q[i], r[j], ids);
      GrowsOn(q[i], r[j], t[k], ids);
    }
  }

  lemma {:induction false} GrowsOn(e: BlockRequest, f: BlockRequest, g: BlockRequest, ids: set<PeerId>)
    requires Grows(e, f, ids) && Grows(f, g, ids)
    ensures Grows(e, g, ids)
  {
  }

  // ----- the steps -----

  lemma {:induction false} RemoveEvolves(q: Queue, info: BlockInfo, ids: set<PeerId>)
    ensures Evolves(q, Remove(q, info), ids)
  {
    var k, r := FindRequest(q, info), Remove(q, info);
    if k < |q| {
      assert forall j :: 0 <= j < |r| ==> r[j] == q[if j < k then j else j + 1];
    }
    hide Listed, FindRequest, Remove;
  }

  lemma {:induction false} RejectEvolves(q: Queue, info: BlockInfo, from: PeerId, ids: set<PeerId>)
    ensures Evolves(q, Reject(q, info, from), ids)
  {
    EachGrows(q, Reject(q, info, from), ids);
    hide Evolves;
  }

  lemma {:induction false} UnsendEvolves(q: Queue, id: PeerId, ids: set<PeerId>)
    ensures Evolves(q, Unsend(q, id), ids)
  {
    EachGrows(q, Unsend(q, id), ids);
    hide Evolves;
  }

  lemma {:induction false} AppendEvolves(q: Queue, infos: seq<BlockInfo>, ids: set<PeerId>)
    requires forall info :: info in infos ==> !Listed(q, info)
    ensures Evolves(q, q + Fresh(infos), ids)
  {
    var r := q + Fresh(infos);
    assert forall k :: |q| <= k < |r| ==> r[k].info == infos[k - |q|] && infos[k - |q|] in infos;
    hide Listed, Fresh, Grows;
    Itself(q, ids);
    assert forall k :: 0 <= k < |q| ==> r[k] == q[k];
  }

  lemma {:induction false} AssignEvolves(q: Queue, p: PeerState, left: int, k: nat, ids: set<PeerId>)
    requires p.id in ids
    ensures var r := AssignFrom(q, p, left, k);
            forall j :: 0 <= j < |q| ==> r.queue[j].info == q[j].info && Grows(q[j], r.queue[j], ids)
    decreases |q| - k
  {
    hide QueueRequest, Grows;
    if k >= |q| || left <= 0 {
      Itself(q, ids);
    } else if !Wants(q[k], p) {
      AssignEvolves(q, p, left, k + 1, ids);
    } else {
      var q' := q[k := q[k].(sent := true, sentTo := p.id)];
      var queued := QueueRequest(p, q[k].info);
      var p' := if queued.Some? then queued.value else p;
      QueuedIsThePeer(p, q[k].info);
      AssignEvolves(q', p', left - 1, k + 1, ids);
      Itself(q, ids);
      SentGrows(q[k], p, ids);
      forall j | 0 <= j < |q|
        ensures Grows(q[j], AssignFrom(q', p', left - 1, k + 1).queue[j], ids)
      {
        GrowsOn(q[j], q'[j], AssignFrom(q', p', left - 1, k + 1).queue[j], ids);
      }
    }
  }

  lemma {:induction false} Itself(q: Queue, ids: set<PeerId>)
    ensures forall j :: 0 <= j < |q| ==> Grows(q[j], q[j], ids)
  {
  }

  lemma {:induction false} QueuedIsThePeer(p: PeerState, info: BlockInfo)
    ensures QueueRequest(p, info).Some? ==> QueueRequest(p, info).value.id == p.id
  {
  }

  lemma {:induction false} SentGrows(e: BlockRequest, p: PeerState, ids: set<PeerId>)
    requires Wants(e, p) && p.id in ids
    ensures Grows(e, e.(sent := true, sentTo := p.id), ids)
  {
  }

  lemma {:induction false} CollectEvolves(H: Hasher, st: State, i: nat, n: nat, failing: map<nat, nat>, ids: set<PeerId>)
    requires ListsOnce(st.queue) && i < |st.peers|
    ensures var r := CollectAll(H, st, i, n, failing);
            Evolves(st.queue, r.queue, ids) && forall x :: Listed(r.queue, x) ==> Listed(st.queue, x)
    decreases |st.peers[i].responses|
  {
    hide Listed, SentTo, ListsOnce, Remove, Receive, Evolves;
    if st.peers[i].responses == [] {
      Same(st.queue, ids);
    } else {
      var info, next := Named(st.peers[i].responses[0]), CollectOne(H, st, i, FateOf(failing, n));
      Removed(st.queue, info);
      RemoveEvolves(st.queue, info, ids);
      CollectEvolves(H, next, i, n + 1, failing, ids);
      EvolvesOn(st.queue, next.queue, CollectAll(H, next, i, n + 1, failing).queue, ids);
    }
  }

  lemma {:induction false} TakeBackEvolves(st: State, i: nat, ids: set<PeerId>)
    requires ListsOnce(st.queue) && i < |st.peers|
    ensures var r := TakeBackAll(st, i);
            Evolves(st.queue, r.queue, ids) && forall x :: Listed(r.queue, x) <==> Listed(st.queue, x)
    decreases |st.peers[i].cancelled|
  {
    hide Listed, SentTo, ListsOnce, Reject, Evolves;
    if st.peers[i].cancelled == [] {
      Same(st.queue, ids);
    } else {
      var info, id, next := st.peers[i].cancelled[0].info, st.peers[i].id, TakeBackOne(st, i);
      Rejected(st.queue, info, id);
      RejectEvolves(st.queue, info, id, ids);
      TakeBackEvolves(next, i, ids);
      EvolvesOn(st.queue, next.queue, TakeBackAll(next, i).queue, ids);
    }
  }

  lemma {:induction false} RefillEvolves(H: Hasher, st: State, ids: set<PeerId>)
    requires Inv(H, st)
    ensures Evolves(st.queue, Refill(st).queue, ids)
  {
    hide StoreInv, PeersInv, ListsOnce, Listed, Fetching, EachOnce, NextBlocks, Fresh, MarkFetching, Evolves;
    if |st.queue| < BLOCK_QUEUE_MAX {
      var infos := NextBlocks(st.bundle.pieces, BLOCK_QUEUE_MAX - |st.queue|);
      NextFetches(H, st.bundle, BLOCK_QUEUE_MAX - |st.queue|);
      AppendEvolves(st.queue, infos, ids);
    } else {
      Same(st.queue, ids);
    }
  }

  lemma {:induction false} StopEvolves(st: State, ids: set<PeerId>)
    ensures Evolves(st.queue, StopAll(st).queue, ids)
  {
  }

  lemma {:induction false} AssignGrows(q: Queue, p: PeerState, cap: Option<int>, ids: set<PeerId>)
    requires p.id in ids
    ensures var r := Assign(q, p, cap);
            forall j :: 0 <= j < |q| ==> r.queue[j].info == q[j].info && Grows(q[j], r.queue[j], ids)
  {
    hide AssignFrom, Grows;
    var room := p.max - |p.out|;
    var left := if cap.Some? && room > cap.value then cap.value else room;
    var max := if |p.cancelled| < p.max / 4 && left > p.max / 2 && p.max < 256 then p.max * 2 else p.max;
    Itself(q, ids);
    AssignEvolves(q, p.(max := max), left, 0, ids);
  }

  lemma {:induction false} OneAssignEvolves(st: State, i: nat, cap: Option<int>)
    requires i < |st.peers|
    ensures Evolves(st.queue, Assign(st.queue, st.peers[i], cap).queue, Ids(st.peers))
  {
    assert st.peers[i].id in Ids(st.peers);
    hide Evolves, Assign, Ids, Grows;
    AssignGrows(st.queue, st.peers[i], cap, Ids(st.peers));
    EachGrows(st.queue, Assign(st.queue, st.peers[i], cap).queue, Ids(st.peers));
  }

  // The steps that change the queue.
  predicate ChangesQueue(op: Op) {
    op.GetBlocks? || op.AssignTo? || op.Collect? || op.TakeBack? || op.Disconnect? || op.Stop?
  }

  lemma {:induction false} QueueStays(H: Hasher, st: State, op: Op)
    requires !ChangesQueue(op)
    ensures Step(H, st, op).queue == st.queue
  {
    hide Without, FindAt, React, Reaped, Learn, StartConnecting, ConnectFailed, ConnectSucceeded;
  }

  lemma {:induction false} StepEvolves(H: Hasher, st: State, op: Op)
    requires Inv(H, st)
    ensures Evolves(st.queue, Step(H, st, op).queue, Ids(st.peers))
  {
    hide *;
    if !ChangesQueue(op) {
      QueueStays(H, st, op);
      Same(st.queue, Ids(st.peers));
    } else {
      QueueEvolves(H, st, op);
    }
  }

  lemma {:induction false} QueueEvolves(H: Hasher, st: State, op: Op)
    requires Inv(H, st) && ChangesQueue(op)
    ensures Evolves(st.queue, Step(H, st, op).queue, Ids(st.peers))
  {
    var ids := Ids(st.peers);
    hide Inv, Assign, CollectAll, TakeBackAll, Refill, StopAll, Evolves, Ids, ListsOnce, Unsend, Without, FindPeer;
    InvLists(H, st);
    Same(st.queue, ids);
    match op
    case GetBlocks => RefillEvolves(H, st, ids);
    case AssignTo(i, cap) =>
      if i < |st.peers| {
        OneAssignEvolves(st, i, cap);
      }
    case Collect(i, failing) =>
      if i < |st.peers| {
        CollectEvolves(H, st, i, 0, failing, ids);
      }
    case TakeBack(i) =>
      if i < |st.peers| {
        TakeBackEvolves(st, i, ids);
      }
    case Disconnect(id) => UnsendEvolves(st.queue, id, ids);
    case Stop => StopEvolves(st, ids);
  }

  // ----- one peer -----

  // The block was rejected by the peer, and is not sent to it.
  ghost predicate RefusedBy(q: Queue, x: BlockInfo, id: PeerId) {
    exists k :: 0 <= k < |q| && q[k].info == x && id in q[k].rejected && !(q[k].sent && q[k].sentTo == id)
  }

  ghost predicate ListedThroughout(H: Hasher, st: State, ops: seq<Op>, x: BlockInfo)
    decreases |ops|
  {
    Listed(st.queue, x) && (ops == [] || ListedThroughout(H, Step(H, st, ops[0]), ops[1..], x))
  }

  lemma {:induction false} StaysRefused(q: Queue, r: Queue, x: BlockInfo, id: PeerId, ids: set<PeerId>)
    requires ListsOnce(q) && Evolves(q, r, ids) && RefusedBy(q, x, id) && Listed(r, x)
    ensures RefusedBy(r, x, id)
  {
    var k :| 0 <= k < |q| && q[k].info == x && id in q[k].rejected && !(q[k].sent && q[k].sentTo == id);
    var j :| 0 <= j < |r| && r[j].info == x;
    ListedAt(q, k);
    var i :| 0 <= i < |q| && q[i].info == x && Grows(q[i], r[j], ids);
    assert i == k;
  }

  lemma {:induction false} RefusedIsNotSent(q: Queue, x: BlockInfo, id: PeerId)
    requires ListsOnce(q) && RefusedBy(q, x, id)
    ensures Listed(q, x) && !SentTo(q, x, id)
  {
  }

  // While it is listed, a block that a peer has rejected is never sent to that peer
  // again.
  lemma {:induction false} RejectedIsNeverHandedAgain(H: Hasher, st: State, ops: seq<Op>, x: BlockInfo, id: PeerId)
    requires Inv(H, st) && RunAllowed(H, st, ops) && RefusedBy(st.queue, x, id) && ListedThroughout(H, st, ops, x)
    ensures RefusedBy(Run(H, st, ops).queue, x, id) && !SentTo(Run(H, st, ops).queue, x, id)
    decreases |ops|
  {
    assert ListsOnce(st.queue);
    hide Inv, Step, Allowed, RefusedBy, SentTo, Evolves, ListsOnce, Listed;
    if ops == [] {
      RefusedIsNotSent(st.queue, x, id);
    } else {
      var next := Step(H, st, ops[0]);
      StepKeeps(H, st, ops[0]);
      StepEvolves(H, st, ops[0]);
      assert Listed(next.queue, x);
      StaysRefused(st.queue, next.queue, x, id, Ids(st.peers));
      RejectedIsNeverHandedAgain(H, next, ops[1..], x, id);
    }
  }

  // A peer's turn in checkCancelled leaves everything it gave up rejected by it.
  lemma {:induction false} TakenBackIsRefused(H: Hasher, st: State, i: nat, x: BlockInfo)
    requires Inv(H, st) && i < |st.peers| && OutCount(st.peers[i].cancelled, x) > 0
    ensures RefusedBy(TakeBackAll(st, i).queue, x, st.peers[i].id)
    decreases |st.peers[i].cancelled|
  {
    var p, next := st.peers[i], TakeBackOne(st, i);
    var info := p.cancelled[0].info;
    assert ListsOnce(st.queue);
    TakeBackOneKeeps(H, st, i);
    assert ListsOnce(next.queue);
    if info == x {
      FirstCancelled(p);
      HeldIsFetched(H, st, i, x);
      hide Inv, Held, SentTo, Fetching;
      RejectedNow(st.queue, x, p.id);
      TakeBackEvolves(next, i, Ids(st.peers));
      RefusedIsNotSent(next.queue, x, p.id);
      hide Evolves, RefusedBy, Listed, ListsOnce, Reject;
      StaysRefused(next.queue, TakeBackAll(next, i).queue, x, p.id, Ids(st.peers));
    } else {
      hide Inv, RefusedBy, Reject;
      TakenBackIsRefused(H, next, i, x);
    }
  }

  lemma {:induction false} RejectedNow(q: Queue, x: BlockInfo, id: PeerId)
    requires Listed(q, x)
    ensures RefusedBy(Reject(q, x, id), x, id)
  {
    var k := FindRequest(q, x);
    assert k < |q|;
    assert Reject(q, x, id)[k].info == x;
  }

  // ----- every peer -----

  ghost predicate RefusedByAll(st: State, x: BlockInfo) {
    exists k :: 0 <= k < |st.queue| && st.queue[k].info == x && !st.queue[k].sent
             && forall id :: id in Ids(st.peers) ==> id in st.queue[k].rejected
  }

  ghost predicate NobodyJoins(ops: seq<Op>) {
    forall k :: 0 <= k < |ops| ==> !ops[k].Join?
  }

  lemma {:induction false} IdsWithout(peers: seq<PeerState>, k: nat)
    requires k < |peers|
    ensures Ids(Without(peers, k)) <= Ids(peers)
  {
    assert forall j :: 0 <= j < |Without(peers, k)| ==> Without(peers, k)[j] == peers[if j < k then j else j + 1];
  }

  lemma {:induction false} AssignedId(q: Queue, p: PeerState, left: int, k: nat)
    ensures AssignFrom(q, p, left, k).peer.id == p.id
    decreases |q| - k
  {
    hide QueueRequest;
    if k < |q| && left > 0 {
      if !Wants(q[k], p) {
        AssignedId(q, p, left, k + 1);
      } else {
        var queued := QueueRequest(p, q[k].info);
        QueuedIsThePeer(p, q[k].info);
        AssignedId(q[k := q[k].(sent := true, sentTo := p.id)], if queued.Some? then queued.value else p, left - 1, k + 1);
      }
    }
  }

  lemma {:induction false} AssignId(q: Queue, p: PeerState, cap: Option<int>)
    ensures Assign(q, p, cap).peer.id == p.id
  {
    hide AssignFrom;
    var room := p.max - |p.out|;
    var left := if cap.Some? && room > cap.value then cap.value else room;
    var max := if |p.cancelled| < p.max / 4 && left > p.max / 2 && p.max < 256 then p.max * 2 else p.max;
    AssignedId(q, p.(max := max), left, 0);
  }

  lemma {:induction false} SameIds(peers: seq<PeerState>, others: seq<PeerState>)
    requires |others| == |peers| && forall j :: 0 <= j < |peers| ==> others[j].id == peers[j].id
    ensures Ids(others) <= Ids(peers)
  {
  }

  lemma {:induction false} NobodyNew(H: Hasher, st: State, op: Op)
    requires !op.Join?
    ensures Ids(Step(H, st, op).peers) <= Ids(st.peers)
  {
    hide Assign, CollectAll, TakeBackAll, React, Without, FindPeer, FindAt;
    match op {
      case AssignTo(i, cap) =>
        if i < |st.peers| {
          AssignId(st.queue, st.peers[i], cap);
          SameIds(st.peers, st.peers[i := Assign(st.queue, st.peers[i], cap).peer]);
        }
      case Collect(i, failing) =>
        if i < |st.peers| {
          CollectedPeers(H, st, i, 0, failing);
          SameIds(st.peers, CollectAll(H, st, i, 0, failing).peers);
        }
      case TakeBack(i) =>
        if i < |st.peers| {
          TakenBackPeers(st, i);
          SameIds(st.peers, TakeBackAll(st, i).peers);
        }
      case Disconnect(id) =>
        if FindPeer(st.peers, id) < |st.peers| {
          IdsWithout(st.peers, FindPeer(st.peers, id));
        }
      case Reap(n) =>
        if n < |st.addresses.connected| && FindAt(st.peers, st.addresses.connected[n]) < |st.peers| {
          IdsWithout(st.peers, FindAt(st.peers, st.addresses.connected[n]));
        }
      case AtPeer(i, e) =>
        if i < |st.peers| {
          SameIds(st.peers, st.peers[i := React(st.peers[i], e)]);
        }
      case _ =>
    }
  }

  lemma {:induction false} StaysRefusedByAll(st: State, next: State, x: BlockInfo)
    requires ListsOnce(st.queue) && Evolves(st.queue, next.queue, Ids(st.peers)) && Ids(next.peers) <= Ids(st.peers)
    requires RefusedByAll(st, x) && Listed(next.queue, x)
    ensures RefusedByAll(next, x)
  {
    hide Ids;
    var q, r := st.queue, next.queue;
    var k :| 0 <= k < |q| && q[k].info == x && !q[k].sent && forall id :: id in Ids(st.peers) ==> id in q[k].rejected;
    var j :| 0 <= j < |r| && r[j].info == x;
    ListedAt(q, k);
    var i :| 0 <= i < |q| && q[i].info == x && Grows(q[i], r[j], Ids(st.peers));
    assert i == k;
  }

  lemma {:induction false} RefusedByAllIsUnsent(st: State, x: BlockInfo)
    requires ListsOnce(st.queue) && RefusedByAll(st, x)
    ensures Listed(st.queue, x) && forall id :: !SentTo(st.queue, x, id)
  {
    hide Ids;
  }

  // What is sent to nobody is held by nobody.
  lemma {:induction false} UnsentIsNowhere(H: Hasher, st: State, i: nat, x: BlockInfo)
    requires Inv(H, st) && i < |st.peers| && forall id :: !SentTo(st.queue, x, id)
    ensures Held(st.peers[i], x) == 0 && ResponseCount(st.peers[i].responses, x) == 0
    ensures OutCount(st.peers[i].cancelled, x) == 0
  {
    if Held(st.peers[i], x) > 0 {
      HeldIsFetched(H, st, i, x);
    }
  }

  // Only Stop takes a block off the list that is sent to nobody.
  lemma {:induction false} StaysListed(H: Hasher, st: State, op: Op, x: BlockInfo)
    requires Inv(H, st) && Listed(st.queue, x) && (forall id :: !SentTo(st.queue, x, id)) && !op.Stop?
    ensures Listed(Step(H, st, op).queue, x)
  {
    assert ListsOnce(st.queue);
    hide Inv, Listed, SentTo, ListsOnce, Assign, CollectAll, TakeBackAll, Refill, React, Unsend;
    match op {
      case GetBlocks => RefillLists(H, st, x);
      case AssignTo(i, cap) =>
        if i < |st.peers| {
          AssignLists(H, st, i, cap, x);
        }
      case Collect(i, failing) =>
        if i < |st.peers| {
          UnsentIsNowhere(H, st, i, x);
          CollectedIsUnlisted(H, st, i, 0, failing);
        }
      case TakeBack(i) =>
        if i < |st.peers| {
          TakenBackIsUnsent(H, st, i);
        }
      case Disconnect(id) => Unsent(st.queue, id);
      case _ =>
    }
  }

  lemma {:induction false} RefillLists(H: Hasher, st: State, x: BlockInfo)
    requires Inv(H, st) && Listed(st.queue, x)
    ensures Listed(Refill(st).queue, x)
  {
    hide StoreInv, PeersInv, ListsOnce, Listed, SentTo, Fetching, EachOnce, NextBlocks, Fresh, MarkFetching;
    if |st.queue| < BLOCK_QUEUE_MAX {
      NextFetches(H, st.bundle, BLOCK_QUEUE_MAX - |st.queue|);
      Extended(st.queue, NextBlocks(st.bundle.pieces, BLOCK_QUEUE_MAX - |st.queue|));
    }
  }

  lemma {:induction false} AssignLists(H: Hasher, st: State, i: nat, cap: Option<int>, x: BlockInfo)
    requires Inv(H, st) && i < |st.peers|
    ensures Listed(Assign(st.queue, st.peers[i], cap).queue, x) <==> Listed(st.queue, x)
  {
    assert PeerInv(st.queue, st.peers[i]) && ListsOnce(st.queue);
    hide Inv, PeerInv, ListsOnce, Listed, SentTo, Assign, Held;
    AssignHandsOut(st.queue, st.peers[i], cap);
  }

  ghost predicate Stops(ops: seq<Op>) {
    exists k :: 0 <= k < |ops| && ops[k].Stop?
  }

  // A block that every peer has rejected is sent to nobody until another peer joins.
  lemma {:induction false} RejectedByAllStaysUnsent(H: Hasher, st: State, ops: seq<Op>, x: BlockInfo)
    requires Inv(H, st) && NobodyJoins(ops) && RefusedByAll(st, x)
    ensures var end := Run(H, st, ops);
            && (forall id :: !SentTo(end.queue, x, id))
            && (if Stops(ops) then end.peers == [] else RefusedByAll(end, x))
    decreases |ops|
  {
    assert ListsOnce(st.queue);
    RefusedByAllIsUnsent(st, x);
    if ops != [] {
      var next := Step(H, st, ops[0]);
      StepKeeps(H, st, ops[0]);
      assert NobodyJoins(ops[1..]) && (Stops(ops) <==> ops[0].Stop? || Stops(ops[1..])) by {
        FirstOrLater(ops);
      }
      if ops[0].Stop? {
        hide Inv, Step, SentTo, RefusedByAll;
        AloneSendsNothing(H, next, ops[1..], x);
      } else {
        hide Inv, Step, SentTo, RefusedByAll, Evolves, ListsOnce, Listed, Ids, Stops, NobodyJoins;
        StepEvolves(H, st, ops[0]);
        NobodyNew(H, st, ops[0]);
        StaysListed(H, st, ops[0], x);
        StaysRefusedByAll(st, next, x);
        RejectedByAllStaysUnsent(H, next, ops[1..], x);
      }
    }
  }

  lemma {:induction false} FirstOrLater(ops: seq<Op>)
    requires ops != []
    ensures NobodyJoins(ops) <==> !ops[0].Join? && NobodyJoins(ops[1..])
    ensures Stops(ops) <==> ops[0].Stop? || Stops(ops[1..])
  {
    assert ops == [ops[0]] + ops[1..];
  }

  lemma {:induction false} AloneSendsNothing(H: Hasher, st: State, ops: seq<Op>, x: BlockInfo)
    requires Inv(H, st) && NobodyJoins(ops) && st.peers == [] && forall id :: !SentTo(st.queue, x, id)
    ensures Run(H, st, ops).peers == [] && forall id :: !SentTo(Run(H, st, ops).queue, x, id)
    decreases |ops|
  {
    if ops != [] {
      FirstOrLater(ops);
      StepKeeps(H, st, ops[0]);
      AloneStep(H, st, ops[0], x);
      hide Inv, Step, SentTo, NobodyJoins;
      AloneSendsNothing(H, Step(H, st, ops[0]), ops[1..], x);
    }
  }

  lemma {:induction false} AloneStep(H: Hasher, st: State, op: Op, x: BlockInfo)
    requires Inv(H, st) && !op.Join? && st.peers == [] && forall id :: !SentTo(st.queue, x, id)
    ensures Step(H, st, op).peers == [] && forall id :: !SentTo(Step(H, st, op).queue, x, id)
  {
    hide StoreInv, PeersInv, ListsOnce, Listed, Fetching, EachOnce, NextBlocks, Fresh, MarkFetching, SentTo;
    if op.GetBlocks? && |st.queue| < BLOCK_QUEUE_MAX {
      NextFetches(H, st.bundle, BLOCK_QUEUE_MAX - |st.queue|);
      Extended(st.queue, NextBlocks(st.bundle.pieces, BLOCK_QUEUE_MAX - |st.queue|));
    } else if op.Stop? {
      NothingIsSent(x);
    }
  }

  lemma {:induction false} NothingIsSent(x: BlockInfo)
    ensures forall id :: !SentTo([], x, id)
  {
  }
}
