// The queue of blocks a session has taken from the bundle and not got yet, and
// how it is handed out to peers.
module QueueSpec {
  import opened Common
  import opened Requests
  import opened PeerSpec

  const BLOCK_QUEUE_MAX: nat := 256

  datatype BlockRequest = BlockRequest(info: BlockInfo, sent: bool, rejected: seq<PeerId>, sentTo: PeerId)

  type Queue = seq<BlockRequest>

  // ----- the operations -----

  function FindRequest(q: Queue, info: BlockInfo): (k: nat)
    ensures k <= |q| && (k < |q| ==> q[k].info == info)
    ensures forall j :: 0 <= j < k ==> q[j].info != info
  {
    if q == [] || q[0].info == info then 0 else 1 + FindRequest(q[1..], info)
  }

  function Remove(q: Queue, info: BlockInfo): Queue {
    var k := FindRequest(q, info);
    if k < |q| then Without(q, k) else q
  }

  // The peer gave the block up: it is not asked again.
  function Reject(q: Queue, info: BlockInfo, id: PeerId): Queue {
    var k := FindRequest(q, info);
    if k < |q| then q[k := q[k].(sent := false, sentTo := [], rejected := q[k].rejected + [id])] else q
  }

  function Unsend(q: Queue, id: PeerId): (r: Queue)
    ensures |r| == |q|
  {
    seq(|q|, k requires 0 <= k < |q| =>
      if q[k].sent && q[k].sentTo == id then q[k].(sent := false, sentTo := []) else q[k])
  }

  function Fresh(infos: seq<BlockInfo>): (r: Queue)
    ensures |r| == |infos|
  {
    seq(|infos|, k requires 0 <= k < |infos| => BlockRequest(infos[k], false, [], []))
  }

  datatype Assigned = Assigned(queue: Queue, peer: PeerState, accepted: bool)

  predicate Wants(r: BlockRequest, p: PeerState) {
    !r.sent && p.id !in r.rejected && r.info.piece in p.has
  }

  // Requests from position k on are handed to the peer, as many as are left. The
  // answer of the peer's queue is not looked at; accepted says whether it was
  // positive throughout.
  function AssignFrom(q: Queue, p: PeerState, left: int, k: nat): (r: Assigned)
    ensures |r.queue| == |q|
    decreases |q| - k
  {
    if k >= |q| || left <= 0 then Assigned(q, p, true)
    else if !Wants(q[k], p) then AssignFrom(q, p, left, k + 1)
    else
      var queued := QueueRequest(p, q[k].info);
      var r := AssignFrom(q[k := q[k].(sent := true, sentTo := p.id)], if queued.Some? then queued.value else p, left - 1, k + 1);
      r.(accepted := r.accepted && queued.Some?)
  }

  // One peer's turn: how many it can take, capped by the rate limit if there is
  // one; a peer with few blocks given up and much room is allowed twice as many.
  function Assign(q: Queue, p: PeerState, cap: Option<int>): Assigned {
    var room := p.max - |p.out|;
    if p.choking || room == 0 then Assigned(q, p, true)
    else
      var left := if cap.Some? && room > cap.value then cap.value else room;
      var max := if |p.cancelled| < p.max / 4 && left > p.max / 2 && p.max < 256 then p.max * 2 else p.max;
      AssignFrom(q, p.(max := max), left, 0)
  }

  // ----- what the queue says -----

  ghost predicate Listed(q: Queue, info: BlockInfo) {
    exists k :: 0 <= k < |q| && q[k].info == info
  }

  ghost predicate SentTo(q: Queue, info: BlockInfo, id: PeerId) {
    exists k :: 0 <= k < |q| && q[k].info == info && q[k].sent && q[k].sentTo == id
  }

  ghost predicate ListsOnce(q: Queue) {
    forall j, k :: 0 <= j < k < |q| ==> q[j].info != q[k].info
  }

  lemma {:induction false} ListedAt(q: Queue, k: nat)
    requires k < |q|
    ensures Listed(q, q[k].info)
  {
  }

  lemma {:induction false} SentToOne(q: Queue, info: BlockInfo, a: PeerId, b: PeerId)
    requires ListsOnce(q) && SentTo(q, info, a) && SentTo(q, info, b)
    ensures a == b
  {
    var j :| 0 <= j < |q| && q[j].info == info && q[j].sent && q[j].sentTo == a;
    var k :| 0 <= k < |q| && q[k].info == info && q[k].sent && q[k].sentTo == b;
    assert j == k;
  }

  lemma {:induction false} Removed(q: Queue, info: BlockInfo)
    requires ListsOnce(q)
    ensures ListsOnce(Remove(q, info)) && |Remove(q, info)| <= |q|
    ensures forall x :: Listed(Remove(q, info), x) <==> Listed(q, x) && x != info
    ensures forall x, id :: SentTo(Remove(q, info), x, id) <==> SentTo(q, x, id) && x != info
  {
    var k := FindRequest(q, info);
    if k < |q| {
      RemovedLists(q, k);
      RemovedSent(q, k);
    }
  }

  lemma {:induction false} RemovedLists(q: Queue, k: nat)
    requires ListsOnce(q) && k < |q|
    ensures ListsOnce(Without(q, k))
    ensures forall x :: Listed(Without(q, k), x) <==> Listed(q, x) && x != q[k].info
  {
    var r := Without(q, k);
    assert forall j :: 0 <= j < |r| ==> r[j] == if j < k then q[j] else q[j + 1];
    forall x | Listed(q, x) && x != q[k].info
      ensures Listed(r, x)
    {
      var j :| 0 <= j < |q| && q[j].info == x;
      assert r[if j < k then j else j - 1].info == x;
    }
  }

  lemma {:induction false} RemovedSent(q: Queue, k: nat)
    requires ListsOnce(q) && k < |q|
    ensures forall x, id :: SentTo(Without(q, k), x, id) <==> SentTo(q, x, id) && x != q[k].info
  {
    var r := Without(q, k);
    assert forall j :: 0 <= j < |r| ==> r[j] == if j < k then q[j] else q[j + 1];
    forall x, id | SentTo(q, x, id) && x != q[k].info
      ensures SentTo(r, x, id)
    {
      var j :| 0 <= j < |q| && q[j].info == x && q[j].sent && q[j].sentTo == id;
      assert r[if j < k then j else j - 1] == q[j];
    }
  }

  lemma {:induction false} Rejected(q: Queue, info: BlockInfo, from: PeerId)
    requires ListsOnce(q)
    ensures ListsOnce(Reject(q, info, from)) && |Reject(q, info, from)| == |q|
    ensures forall x :: Listed(Reject(q, info, from), x) <==> Listed(q, x)
    ensures forall x, id :: SentTo(Reject(q, info, from), x, id) <==> SentTo(q, x, id) && x != info
    ensures forall k :: 0 <= k < |q| ==>
              Reject(q, info, from)[k].rejected == if q[k].info == info then q[k].rejected + [from] else q[k].rejected
  {
    var k, r := FindRequest(q, info), Reject(q, info, from);
    assert forall j :: 0 <= j < |q| ==> r[j].info == q[j].info;
    forall x, id | SentTo(q, x, id) && x != info
      ensures SentTo(r, x, id)
    {
      var j :| 0 <= j < |q| && q[j].info == x && q[j].sent && q[j].sentTo == id;
      assert r[j] == q[j];
    }
    forall x | Listed(q, x)
      ensures Listed(r, x)
    {
      var j :| 0 <= j < |q| && q[j].info == x;
      assert r[j].info == x;
    }
  }

  lemma {:induction false} Unsent(q: Queue, id: PeerId)
    requires ListsOnce(q)
    ensures ListsOnce(Unsend(q, id))
    ensures forall x :: Listed(Unsend(q, id), x) <==> Listed(q, x)
    ensures forall x, other :: SentTo(Unsend(q, id), x, other) <==> SentTo(q, x, other) && other != id
  {
    var r := Unsend(q, id);
    assert forall j :: 0 <= j < |q| ==> r[j].info == q[j].info;
    forall x, other | SentTo(q, x, other) && other != id
      ensures SentTo(r, x, other)
    {
      var j :| 0 <= j < |q| && q[j].info == x && q[j].sent && q[j].sentTo == other;
      assert r[j] == q[j];
    }
    forall x | Listed(q, x)
      ensures Listed(r, x)
    {
      var j :| 0 <= j < |q| && q[j].info == x;
      assert r[j].info == x;
    }
  }

  lemma {:induction false} Extended(q: Queue, infos: seq<BlockInfo>)
    requires ListsOnce(q) && Distinct(infos) && forall info :: info in infos ==> !Listed(q, info)
    ensures ListsOnce(q + Fresh(infos))
    ensures forall x :: Listed(q + Fresh(infos), x) <==> Listed(q, x) || x in infos
    ensures forall x, id :: SentTo(q + Fresh(infos), x, id) <==> SentTo(q, x, id)
  {
    var r := q + Fresh(infos);
    assert forall k :: 0 <= k < |infos| ==> r[|q| + k].info == infos[k] && infos[k] in infos;
    assert forall k :: 0 <= k < |q| ==> r[k] == q[k];
    assert forall k :: |q| <= k < |r| ==> r[k].info == infos[k - |q|] && !r[k].sent;
    forall j, k | 0 <= j < k < |r|
      ensures r[j].info != r[k].info
    {
      if j < |q| <= k {
        ListedAt(q, j);
      }
    }
    forall x | Listed(q, x)
      ensures Listed(r, x)
    {
      var k :| 0 <= k < |q| && q[k].info == x;
      assert r[k].info == x;
    }
    forall x | x in infos
      ensures Listed(r, x)
    {
      var k :| 0 <= k < |infos| && infos[k] == x;
      assert r[|q| + k].info == x;
    }
    forall x, id | SentTo(q, x, id)
      ensures SentTo(r, x, id)
    {
      var k :| 0 <= k < |q| && q[k].info == x && q[k].sent && q[k].sentTo == id;
      assert r[k] == q[k];
    }
  }

  // ----- what a peer holds was sent to it -----

  ghost predicate HoldsSent(q: Queue, p: PeerState) {
    forall info :: Held(p, info) > 0 ==> Held(p, info) == 1 && SentTo(q, info, p.id)
  }

  ghost predicate PeerInv(q: Queue, p: PeerState) {
    HoldsSent(q, p) && |p.out| <= p.max && p.max in REQUESTS_OUT_MAXIMA
  }

  // What was sent to another peer stays sent to it.
  ghost predicate KeepsOthers(q: Queue, r: Queue, id: PeerId) {
    forall x, other :: SentTo(q, x, other) && other != id ==> SentTo(r, x, other)
  }

  lemma {:induction false} MarkedSent(q: Queue, k: nat, id: PeerId)
    requires ListsOnce(q) && k < |q| && !q[k].sent
    ensures var r := q[k := q[k].(sent := true, sentTo := id)];
            && ListsOnce(r)
            && (forall x :: Listed(r, x) <==> Listed(q, x))
            && (forall x, other :: SentTo(r, x, other) <==> SentTo(q, x, other) || (x == q[k].info && other == id))
  {
    var r := q[k := q[k].(sent := true, sentTo := id)];
    assert forall j :: 0 <= j < |q| ==> r[j].info == q[j].info;
    forall x | Listed(q, x)
      ensures Listed(r, x)
    {
      var j :| 0 <= j < |q| && q[j].info == x;
      assert r[j].info == x;
    }
    forall x, other | SentTo(q, x, other)
      ensures SentTo(r, x, other)
    {
      var j :| 0 <= j < |q| && q[j].info == x && q[j].sent && q[j].sentTo == other;
      assert r[j] == q[j];
    }
    assert SentTo(r, q[k].info, id);
  }

  lemma {:induction false} UnsentIsNotHeld(q: Queue, p: PeerState, k: nat)
    requires ListsOnce(q) && HoldsSent(q, p) && k < |q| && !q[k].sent
    ensures Held(p, q[k].info) == 0
  {
    hide Held;
  }

  // What handing out changes: more is sent to this peer, nothing else.
  ghost predicate HandsOut(q: Queue, p: PeerState, r: Assigned) {
    && r.accepted
    && ListsOnce(r.queue) && |r.queue| == |q|
    && (forall x :: Listed(r.queue, x) <==> Listed(q, x))
    && PeerInv(r.queue, r.peer) && r.peer.id == p.id
    && (forall x, id :: SentTo(q, x, id) ==> SentTo(r.queue, x, id))
    && (forall x, id :: SentTo(r.queue, x, id) ==> SentTo(q, x, id) || (id == p.id && Held(r.peer, x) > 0))
    && (forall x :: Held(p, x) <= Held(r.peer, x))
    && r.peer == p.(out := r.peer.out, max := r.peer.max)
  }

  lemma {:induction false} HandsOutNothing(q: Queue, p: PeerState)
    requires ListsOnce(q) && PeerInv(q, p)
    ensures HandsOut(q, p, Assigned(q, p, true))
  {
  }

  lemma {:induction false} HandsOutOne(q: Queue, p: PeerState, k: nat, r: Assigned)
    requires ListsOnce(q) && PeerInv(q, p) && k < |q| && !q[k].sent && |p.out| < p.max
    ensures QueueRequest(p, q[k].info).Some?
    ensures HandsOut(q, p, Assigned(q[k := q[k].(sent := true, sentTo := p.id)], QueueRequest(p, q[k].info).value, true))
  {
    var q' := q[k := q[k].(sent := true, sentTo := p.id)];
    UnsentIsNotHeld(q, p, k);
    QueueRequestSucceeds(p, q[k].info);
    forall x
      ensures Held(QueueRequest(p, q[k].info).value, x) == Held(p, x) + if x == q[k].info then 1 else 0
    {
      QueueRequestHolds(p, q[k].info, x);
    }
    MarkedSent(q, k, p.id);
    var p' := QueueRequest(p, q[k].info).value;
    hide Held, SentTo, Listed, ListsOnce;
    assert HoldsSent(q', p');
  }

  lemma {:induction false} HandsOutMore(q: Queue, p: PeerState, r: Assigned, s: Assigned)
    requires HandsOut(q, p, r) && HandsOut(r.queue, r.peer, s)
    ensures HandsOut(q, p, s)
  {
    hide ListsOnce, Listed, SentTo, PeerInv, Held;
  }

  // Every request handed out finds room in the peer's queue and is new there.
  lemma {:induction false} AssignFromHandsOut(q: Queue, p: PeerState, left: int, k: nat)
    requires ListsOnce(q) && PeerInv(q, p) && left <= p.max - |p.out|
    ensures HandsOut(q, p, AssignFrom(q, p, left, k))
    decreases |q| - k
  {
    hide PeerInv, HandsOut, ListsOnce;
    if k >= |q| || left <= 0 {
      HandsOutNothing(q, p);
    } else if !Wants(q[k], p) {
      AssignFromHandsOut(q, p, left, k + 1);
    } else {
      var q' := q[k := q[k].(sent := true, sentTo := p.id)];
      HandsOutOne(q, p, k, Assigned(q, p, true));
      var p' := QueueRequest(p, q[k].info).value;
      HandedOut(q, p, Assigned(q', p', true));
      AssignFromHandsOut(q', p', left - 1, k + 1);
      HandedOut(q', p', AssignFrom(q', p', left - 1, k + 1));
      HandsOutMore(q, p, Assigned(q', p', true), AssignFrom(q', p', left - 1, k + 1));
    }
  }

  lemma {:induction false} HandedOut(q: Queue, p: PeerState, r: Assigned)
    requires HandsOut(q, p, r)
    ensures r.accepted && ListsOnce(r.queue) && PeerInv(r.queue, r.peer)
  {
    hide PeerInv, ListsOnce, SentTo, Listed;
  }

  lemma {:induction false} DoubledMaximum(q: Queue, p: PeerState)
    requires PeerInv(q, p)
    ensures 0 < p.max && p.max in REQUESTS_OUT_MAXIMA
    ensures p.max < 256 ==> p.max * 2 in REQUESTS_OUT_MAXIMA
  {
    hide Held, SentTo;
  }

  lemma {:induction false} MoreRoom(q: Queue, p: PeerState, max: int)
    requires PeerInv(q, p) && p.max <= max && max in REQUESTS_OUT_MAXIMA
    ensures PeerInv(q, p.(max := max))
  {
    assert forall x :: Held(p.(max := max), x) == Held(p, x);
    hide SentTo, Held;
  }

  lemma {:induction false} AssignHandsOut(q: Queue, p: PeerState, cap: Option<int>)
    requires ListsOnce(q) && PeerInv(q, p)
    ensures HandsOut(q, p, Assign(q, p, cap))
  {
    var room := p.max - |p.out|;
    if p.choking || room == 0 {
      HandsOutNothing(q, p);
    } else {
      var left := if cap.Some? && room > cap.value then cap.value else room;
      var max := if |p.cancelled| < p.max / 4 && left > p.max / 2 && p.max < 256 then p.max * 2 else p.max;
      var p' := p.(max := max);
      DoubledMaximum(q, p);
      MoreRoom(q, p, max);
      AssignFromHandsOut(q, p', left, 0);
      hide AssignFrom, PeerInv, ListsOnce, SentTo, Listed;
    }
  }

  // How many of the first k requests the peer wants.
  function WantedBefore(q: Queue, p: PeerState, k: nat): nat
    requires k <= |q|
  {
    if k == 0 then 0 else WantedBefore(q, p, k - 1) + if Wants(q[k - 1], p) then 1 else 0
  }

  // The blocks of the requests from position k on that are handed out.
  function HandedFrom(q: Queue, p: PeerState, left: int, k: nat): seq<OutRequest>
    decreases |q| - k
  {
    if k >= |q| || left <= 0 then []
    else if !Wants(q[k], p) then HandedFrom(q, p, left, k + 1)
    else [OutRequest(q[k].info, false)] + HandedFrom(q, p, left - 1, k + 1)
  }

  // The first requests the peer wants are handed out, as many as are left, each in
  // turn; every other request stays as it is.
  lemma {:induction false} FirstWantedAreHandedOut(q: Queue, p: PeerState, left: nat)
    requires ListsOnce(q) && PeerInv(q, p) && left <= p.max - |p.out|
    ensures var r := AssignFrom(q, p, left, 0);
            && r.peer == p.(out := p.out + HandedFrom(q, p, left, 0))
            && forall k :: 0 <= k < |q| ==>
                 r.queue[k] == if Wants(q[k], p) && WantedBefore(q, p, k) < left
                               then q[k].(sent := true, sentTo := p.id) else q[k]
  {
    hide PeerInv, ListsOnce, Wants;
    HandedFromHere(q, q, p, p, left, 0, left);
  }

  // From position k on, as many of the first requests wanted as make up all.
  ghost predicate HandsOutFirst(q0: Queue, q: Queue, p0: PeerState, p: PeerState, left: nat, k: nat, all: nat, r: Assigned)
    requires k <= |q| == |q0|
  {
    && |r.queue| == |q|
    && r.peer == p.(out := p.out + HandedFrom(q0, p0, left, k))
    && (forall j :: 0 <= j < k ==> r.queue[j] == q[j])
    && forall j :: k <= j < |q| ==>
        r.queue[j] == if Wants(q0[j], p0) && WantedBefore(q0, p0, j) < all
                      then q0[j].(sent := true, sentTo := p.id) else q0[j]
  }

  // The same from position k on, when the requests before it have had their turn.
  lemma {:induction false} HandedFromHere(q0: Queue, q: Queue, p0: PeerState, p: PeerState, left: nat, k: nat, all: nat)
    requires ListsOnce(q) && PeerInv(q, p) && left <= p.max - |p.out| && k <= |q| == |q0|
    requires p.id == p0.id && p.has == p0.has && forall j :: k <= j < |q| ==> q[j] == q0[j]
    requires left > 0 ==> WantedBefore(q0, p0, k) == all - left
    requires left == 0 ==> WantedBefore(q0, p0, k) >= all
    ensures HandsOutFirst(q0, q, p0, p, left, k, all, AssignFrom(q, p, left, k))
    decreases |q| - k
  {
    hide PeerInv, ListsOnce, HandsOutFirst;
    if k == |q| || left == 0 {
      NoneLeft(q0, q, p0, p, left, k, all);
    } else if !Wants(q[k], p) {
      HandedFromHere(q0, q, p0, p, left, k + 1, all);
      NotThisOne(q0, q, p0, p, left, k, all, AssignFrom(q, p, left, k + 1));
    } else {
      var q' := q[k := q[k].(sent := true, sentTo := p.id)];
      HandsOutOne(q, p, k, Assigned(q, p, true));
      var p' := QueueRequest(p, q[k].info).value;
      HandedOut(q, p, Assigned(q', p', true));
      HandedFromHere(q0, q', p0, p', left - 1, k + 1, all);
      ThisOne(q0, q, p0, p, left, k, all, AssignFrom(q', p', left - 1, k + 1));
    }
  }

  lemma {:induction false} NoneLeft(q0: Queue, q: Queue, p0: PeerState, p: PeerState, left: nat, k: nat, all: nat)
    requires k <= |q| == |q0| && (k == |q| || (left == 0 && WantedBefore(q0, p0, k) >= all))
    requires forall j :: k <= j < |q| ==> q[j] == q0[j]
    ensures HandsOutFirst(q0, q, p0, p, left, k, all, Assigned(q, p, true))
  {
    assert p.out + [] == p.out;
    forall j | k <= j < |q|
      ensures WantedBefore(q0, p0, j) >= all
    {
      WantedGrows(q0, p0, k, j);
    }
  }

  lemma {:induction false} NotThisOne(q0: Queue, q: Queue, p0: PeerState, p: PeerState, left: nat, k: nat, all: nat, r: Assigned)
    requires k < |q| == |q0| && q[k] == q0[k] && left > 0 && !Wants(q0[k], p0)
    requires HandsOutFirst(q0, q, p0, p, left, k + 1, all, r)
    ensures HandsOutFirst(q0, q, p0, p, left, k, all, r)
  {
    hide Wants, WantedBefore;
  }

  lemma {:induction false} ThisOne(q0: Queue, q: Queue, p0: PeerState, p: PeerState, left: nat, k: nat, all: nat, r: Assigned)
    requires k < |q| == |q0| && q[k] == q0[k] && left > 0 && Wants(q0[k], p0) && WantedBefore(q0, p0, k) < all
    requires HandsOutFirst(q0, q[k := q[k].(sent := true, sentTo := p.id)], p0, p.(out := p.out + [OutRequest(q[k].info, false)]),
                           left - 1, k + 1, all, r)
    ensures HandsOutFirst(q0, q, p0, p, left, k, all, r)
  {
    hide Wants, WantedBefore;
    var more := HandedFrom(q0, p0, left - 1, k + 1);
    assert p.out + [OutRequest(q[k].info, false)] + more == p.out + ([OutRequest(q[k].info, false)] + more);
  }

  lemma {:induction false} WantedGrows(q: Queue, p: PeerState, j: nat, k: nat)
    requires j <= k <= |q|
    ensures WantedBefore(q, p, j) <= WantedBefore(q, p, k)
  {
    if j < k {
      WantedGrows(q, p, j, k - 1);
    }
  }
}
