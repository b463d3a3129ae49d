// What single steps of a session do, part by part.
module SessionSteps {
  import opened Common
  import opened PieceSpec
  import opened Requests
  import opened PeerSpec
  import opened QueueSpec
  import opened AddressSpec
  import opened SessionSpec
  import opened SessionFetching
  import opened SessionRuns
  import BS = BundleSpec

  // ----- addresses -----

  // The addresses but for one that moved from the first list to the end of the second.
  ghost predicate Moves(a: seq<Address>, b: seq<Address>, a': seq<Address>, b': seq<Address>, x: Address) {
    && b <= b'
    && (a' == a || exists k :: 0 <= k < |a| && a' == Without(a, k))
    && forall y ::
      var one := if y == x && x in a then 1 else 0;
      Times(a', y) == Times(a, y) - one && Times(b', y) == Times(b, y) + one
  }

  // Disconnecting a peer lets its address be tried again; without such a peer nothing
  // happens to the addresses.
  lemma {:induction false} DisconnectMovesTheAddress(H: Hasher, st: State, id: PeerId, i: nat)
    requires Inv(H, st) && i < |st.peers| && st.peers[i].id == id
    ensures var a, b := st.addresses, Step(H, st, Disconnect(id)).addresses;
            && Moves(a.connected, a.unconnected, b.connected, b.unconnected, st.peers[i].address)
            && b.connecting == a.connecting
  {
    assert FindPeer(st.peers, id) == i by {
      hide StoreInv, QueueInv, PeerInv, EachOnce;
    }
    ReleaseMoves(st.addresses, st.peers[i].address);
    hide *;
    assert Step(H, st, Disconnect(id)).addresses == Disconnected(st.addresses, st.peers[i].address) by {
      DroppedAddresses(H, st, id, i);
    }
  }

  lemma {:induction false} DroppedAddresses(H: Hasher, st: State, id: PeerId, i: nat)
    requires i < |st.peers| && FindPeer(st.peers, id) == i
    ensures Step(H, st, Disconnect(id)).addresses == Disconnected(st.addresses, st.peers[i].address)
  {
    hide Disconnected, Unsend, Without, FindPeer;
  }

  lemma {:induction false} ReleaseMoves(a: Addresses, x: Address)
    ensures var b := Disconnected(a, x);
            Moves(a.connected, a.unconnected, b.connected, b.unconnected, x) && b.connecting == a.connecting
  {
    hide Times, FindAddress;
    forall y
      ensures var b, one := Disconnected(a, x), if y == x && x in a.connected then 1 else 0;
              && Times(b.connected, y) == Times(a.connected, y) - one
              && Times(b.unconnected, y) == Times(a.unconnected, y) + one
    {
      MovesWhere(a, x, y);
    }
    MovesWhere(a, x, x);
  }

  lemma {:induction false} DisconnectOfNobody(H: Hasher, st: State, id: PeerId)
    requires forall i :: 0 <= i < |st.peers| ==> st.peers[i].id != id
    ensures Step(H, st, Disconnect(id)) == st
  {
  }

  // An attempt takes the first unconnected address; it fails or succeeds only while
  // the address is being connected to.
  lemma {:induction false} AttemptsMoveAddresses(H: Hasher, st: State, x: Address)
    ensures var a, b := st.addresses, Step(H, st, TryNext).addresses;
            if a.unconnected == [] then b == a
            else Moves(a.unconnected, a.connecting, b.unconnected, b.connecting, a.unconnected[0])
                 && b.unconnected == a.unconnected[1..] && b.connected == a.connected
    ensures var a, b := st.addresses, Step(H, st, Fail(x)).addresses;
            Moves(a.connecting, a.unconnected, b.connecting, b.unconnected, x) && b.connected == a.connected
    ensures var a, b := st.addresses, Step(H, st, Succeed(x)).addresses;
            Moves(a.connecting, a.connected, b.connecting, b.connected, x) && b.unconnected == a.unconnected
  {
    hide Moves, ConnectFailed, ConnectSucceeded, StartConnecting;
    AttemptEnds(st.addresses, x);
    AttemptStarts(st.addresses);
  }

  lemma {:induction false} AttemptStarts(a: Addresses)
    ensures var b := StartConnecting(a);
            if a.unconnected == [] then b == a
            else Moves(a.unconnected, a.connecting, b.unconnected, b.connecting, a.unconnected[0])
                 && b.unconnected == a.unconnected[1..] && b.connected == a.connected
  {
    if a.unconnected != [] {
      FirstMoves(a);
    }
    hide Moves;
  }

  lemma {:induction false} AttemptEnds(a: Addresses, x: Address)
    ensures var b := ConnectFailed(a, x);
            Moves(a.connecting, a.unconnected, b.connecting, b.unconnected, x) && b.connected == a.connected
    ensures var b := ConnectSucceeded(a, x);
            Moves(a.connecting, a.connected, b.connecting, b.connected, x) && b.unconnected == a.unconnected
  {
    hide Times, FindAddress;
    forall y
      ensures var b, one := ConnectFailed(a, x), if y == x && x in a.connecting then 1 else 0;
              && Times(b.connecting, y) == Times(a.connecting, y) - one
              && Times(b.unconnected, y) == Times(a.unconnected, y) + one
      ensures var b, one := ConnectSucceeded(a, x), if y == x && x in a.connecting then 1 else 0;
              && Times(b.connecting, y) == Times(a.connecting, y) - one
              && Times(b.connected, y) == Times(a.connected, y) + one
    {
      MovesWhere(a, x, y);
    }
    MovesWhere(a, x, x);
  }

  lemma {:induction false} FirstOut(s: seq<Address>)
    requires s != []
    ensures s[1..] == Without(s, 0)
  {
  }

  lemma {:induction false} FirstMoves(a: Addresses)
    requires a.unconnected != []
    ensures var b := StartConnecting(a);
            Moves(a.unconnected, a.connecting, b.unconnected, b.connecting, a.unconnected[0])
  {
    FirstOut(a.unconnected);
    forall y
      ensures var one := if y == a.unconnected[0] then 1 else 0;
              && Times(a.unconnected[1..], y) == Times(a.unconnected, y) - one
              && Times(a.connecting + [a.unconnected[0]], y) == Times(a.connecting, y) + one
    {
      FirstTimes(a.unconnected, a.connecting, y);
    }
    hide Times, Without;
  }

  lemma {:induction false} FirstTimes(a: seq<Address>, b: seq<Address>, y: Address)
    requires a != []
    ensures var one := if y == a[0] then 1 else 0;
            Times(a[1..], y) == Times(a, y) - one && Times(b + [a[0]], y) == Times(b, y) + one
  {
    TimesOne(a[0], y);
    TimesAppend(b, [a[0]], y);
  }

  // These addresses stand in the order in which they first occur in the others.
  ghost predicate InOrderOf(s: seq<Address>, xs: seq<Address>) {
    forall i, j :: 0 <= i < j < |s| ==> FindAddress(xs, s[i]) < FindAddress(xs, s[j])
  }

  // New addresses join the end of the unconnected ones, in the order they come in.
  lemma {:induction false} LearnedAreUnconnected(H: Hasher, st: State, xs: seq<Address>)
    ensures var a, b := st.addresses, Step(H, st, LearnAddresses(xs)).addresses;
            && b.connecting == a.connecting && b.connected == a.connected && a.unconnected <= b.unconnected
            && InOrderOf(b.unconnected[|a.unconnected|..], xs)
            && forall x :: TimesInAll(b, x) == if TimesInAll(a, x) == 0 && x in xs then 1 else TimesInAll(a, x)
  {
    LearnAppends(st.addresses, xs);
    forall x
      ensures TimesInAll(Learn(st.addresses, xs), x)
           == if TimesInAll(st.addresses, x) == 0 && x in xs then 1 else TimesInAll(st.addresses, x)
    {
      LearnAdds(st.addresses, xs, x);
    }
    hide Learn, TimesInAll, InOrderOf;
  }

  lemma {:induction false} LearnAppends(a: Addresses, xs: seq<Address>)
    ensures var b := Learn(a, xs);
            && b.connecting == a.connecting && b.connected == a.connected && a.unconnected <= b.unconnected
            && (forall x :: x in b.unconnected[|a.unconnected|..] ==> x in xs)
            && InOrderOf(b.unconnected[|a.unconnected|..], xs)
    decreases |xs|
  {
    hide FindAddress, InOrderOf;
    if xs == [] {
      NoneInOrder(xs);
      assert a.unconnected[|a.unconnected|..] == [];
    } else {
      var before, last := xs[..|xs| - 1], xs[|xs| - 1];
      assert xs == before + [last];
      var c, n := Learn(a, before), |a.unconnected|;
      LearnAppends(a, before);
      LearnAdds(a, before, last);
      InNoList(c, last);
      StillInOrder(c.unconnected[n..], before, last);
      hide TimesInAll;
      assert (c.unconnected + [last])[n..] == c.unconnected[n..] + [last];
    }
  }

  lemma {:induction false} NoneInOrder(xs: seq<Address>)
    ensures InOrderOf([], xs)
  {
  }

  lemma {:induction false} StillInOrder(s: seq<Address>, before: seq<Address>, last: Address)
    requires InOrderOf(s, before) && forall x :: x in s ==> x in before
    ensures InOrderOf(s, before + [last])
    ensures last !in before ==> InOrderOf(s + [last], before + [last])
  {
    forall x | x in before
      ensures FindAddress(before + [last], x) == FindAddress(before, x) < |before|
    {
      FirstPlace(before, last, x);
    }
    FirstPlace(before, last, last);
    hide FindAddress;
    assert forall i :: 0 <= i < |s| ==> s[i] in before;
  }

  lemma {:induction false} FirstPlace(before: seq<Address>, last: Address, x: Address)
    ensures x in before ==> FindAddress(before + [last], x) == FindAddress(before, x) < |before|
    ensures x == last && x !in before ==> FindAddress(before + [last], x) == |before|
  {
    var s := before + [last];
    var k, n := FindAddress(before, x), FindAddress(s, x);
    hide FindAddress;
    if x in before {
      assert s[k] == x;
      assert n < |before| ==> before[n] == s[n];
    } else if x == last {
      assert s[|before|] == x;
    }
  }

  // A connected address goes, with its peer, exactly when the first peer there has
  // closed; nothing else is reaped.
  lemma {:induction false} ReapTakesTheClosed(H: Hasher, st: State, n: nat, k: nat)
    requires n < |st.addresses.connected| && k < |st.peers| && st.peers[k].address == st.addresses.connected[n]
    requires forall j :: 0 <= j < k ==> st.peers[j].address != st.addresses.connected[n]
    ensures var r := Step(H, st, Reap(n));
            if st.peers[k].connected then r == st
            else r == st.(peers := st.peers[..k] + st.peers[k + 1..],
                          addresses := st.addresses.(
                            connected := st.addresses.connected[..n] + st.addresses.connected[n + 1..]))
  {
    var j := FindAt(st.peers, st.addresses.connected[n]);
    assert j == k;
  }

  lemma {:induction false} ReapOfNobody(H: Hasher, st: State, n: nat)
    requires n < |st.addresses.connected| ==>
               forall j :: 0 <= j < |st.peers| ==> st.peers[j].address != st.addresses.connected[n]
    ensures Step(H, st, Reap(n)) == st
  {
  }

  // Stop leaves nobody and nothing behind, and nothing that is being fetched.
  lemma {:induction false} StopEmptiesEverything(H: Hasher, st: State)
    requires Inv(H, st)
    ensures var r := Step(H, st, Stop);
            && r.queue == [] && r.peers == []
            && r.addresses.unconnected == [] && r.addresses.connecting == [] && r.addresses.connected == []
            && forall x :: !Fetching(r.bundle.pieces, x)
  {
    StopKeeps(H, st);
    hide Inv, CancelQueued, Fetching;
  }

  // ----- how much -----

  lemma {:induction false} DistinctSize<T>(s: seq<T>, all: set<T>)
    requires Distinct(s) && forall x :: x in all <==> x in s
    ensures |all| == |s|
    decreases |s|
  {
    if s == [] {
      assert all == {};
    } else {
      var last, before := s[|s| - 1], s[..|s| - 1];
      assert s == before + [last];
      forall x
        ensures x in all - {last} <==> x in before
      {
        if x in before {
          var i :| 0 <= i < |before| && before[i] == x;
          assert s[i] != s[|s| - 1];
        }
      }
      DistinctSize(before, all - {last});
    }
  }

  // The queue is filled up to 256 blocks, with every idle block if there are fewer.
  lemma {:induction false} RefillTakesAsManyAsFit(H: Hasher, st: State, idle: set<BlockInfo>)
    requires Inv(H, st) && forall x :: x in idle <==> IsIdle(st.bundle.pieces, x)
    ensures |Step(H, st, GetBlocks).queue| == Min(256, |st.queue| + |idle|)
  {
    var ps := st.bundle.pieces;
    IdleBeforeLists(H, ps, |ps|);
    forall x
      ensures x in idle <==> x in AllIdle(ps)
    {
      if IsIdle(ps, x) {
        IdleBlocksExist(ps, x);
      }
    }
    hide IsIdle, IdleBefore, StoreInv, PeersInv, EachOnce;
    DistinctSize(AllIdle(ps), idle);
    if |st.queue| < BLOCK_QUEUE_MAX {
      NextBlocksAreTheFirstIdle(H, ps, BLOCK_QUEUE_MAX - |st.queue|);
    }
  }

  // How many requests a peer may be given in one turn: none while it chokes, else as
  // many as its queue has room for, or as the rate allows if that is less.
  function Allowance(p: PeerState, cap: Option<int>): int {
    if p.choking then 0
    else if cap.Some? && cap.value < p.max - |p.out| then cap.value
    else p.max - |p.out|
  }

  lemma {:induction false} HandedLength(q: Queue, p: PeerState, left: int, k: nat)
    requires k <= |q|
    ensures |HandedFrom(q, p, left, k)| == if left <= 0 then 0 else Min(left, WantedBefore(q, p, |q|) - WantedBefore(q, p, k))
    decreases |q| - k
  {
    WantedGrows(q, p, k, |q|);
    if k < |q| && left > 0 {
      hide Wants;
      if !Wants(q[k], p) {
        HandedLength(q, p, left, k + 1);
      } else {
        WantedGrows(q, p, k + 1, |q|);
        HandedLength(q, p, left - 1, k + 1);
      }
    }
  }

  // The first requests the peer wants, n of them or all, are handed to it behind those
  // it has: those sent to nobody that it has not rejected, of pieces it has. Its maximum
  // is doubled if it gave up less than a quarter of it, may be given more than half of
  // it, and it is below 256.
  ghost predicate IsTurn(q: Queue, p: PeerState, n: int, r: Queue, p': PeerState) {
    && |r| == |q| && p.out <= p'.out
    && |p'.out| == |p.out| + (if n <= 0 then 0 else Min(n, WantedBefore(q, p, |q|)))
    && p'.max == (if n != 0 && |p.cancelled| < p.max / 4 && n > p.max / 2 && p.max < 256 then 2 * p.max else p.max)
    && p' == p.(out := p'.out, max := p'.max)
    && (forall k :: 0 <= k < |q| ==>
          (Wants(q[k], p) <==> !q[k].sent && p.id !in q[k].rejected && q[k].info.piece in p.has))
    && forall k :: 0 <= k < |q| ==>
        r[k] == if Wants(q[k], p) && WantedBefore(q, p, k) < n then q[k].(sent := true, sentTo := p.id) else q[k]
  }

  // A turn changes the queue and this peer, and nothing else.
  lemma {:induction false} TurnHandsOut(H: Hasher, st: State, i: nat, cap: Option<int>)
    requires Inv(H, st) && i < |st.peers|
    ensures var p, r := st.peers[i], Step(H, st, AssignTo(i, cap));
            && |r.peers| == |st.peers| && r == st.(queue := r.queue, peers := st.peers[i := r.peers[i]])
            && IsTurn(st.queue, p, Allowance(p, cap), r.queue, r.peers[i])
  {
    assert ListsOnce(st.queue) && PeerInv(st.queue, st.peers[i]);
    hide Inv, PeerInv, ListsOnce, Assign, IsTurn, Allowance;
    AssignIsTurn(st.queue, st.peers[i], cap);
  }

  lemma {:induction false} AssignIsTurn(q: Queue, p: PeerState, cap: Option<int>)
    requires ListsOnce(q) && PeerInv(q, p)
    ensures var r := Assign(q, p, cap);
            IsTurn(q, p, Allowance(p, cap), r.queue, r.peer)
  {
    WantsMeans(q, p);
    hide PeerInv, ListsOnce, AssignFrom, Wants;
    var room := p.max - |p.out|;
    if !p.choking && room != 0 {
      var left := if cap.Some? && room > cap.value then cap.value else room;
      var max := if |p.cancelled| < p.max / 4 && left > p.max / 2 && p.max < 256 then p.max * 2 else p.max;
      var p' := p.(max := max);
      DoubledMaximum(q, p);
      MoreRoom(q, p, max);
      SameWants(q, p, p', |q|);
      if left > 0 {
        RoomIsThere(q, p);
        FirstWantedAreHandedOut(q, p', left);
        HandedLength(q, p', left, 0);
      } else {
        NothingHanded(q, p', left);
      }
    }
  }

  lemma {:induction false} WantsMeans(q: Queue, p: PeerState)
    ensures forall k :: 0 <= k < |q| ==>
              (Wants(q[k], p) <==> !q[k].sent && p.id !in q[k].rejected && q[k].info.piece in p.has)
  {
  }

  lemma {:induction false} RoomIsThere(q: Queue, p: PeerState)
    requires PeerInv(q, p)
    ensures |p.out| <= p.max
  {
    hide Held, SentTo;
  }

  lemma {:induction false} NothingHanded(q: Queue, p: PeerState, left: int)
    requires left <= 0
    ensures AssignFrom(q, p, left, 0) == Assigned(q, p, true)
  {
  }

  lemma {:induction false} SameWants(q: Queue, p: PeerState, p': PeerState, n: nat)
    requires p' == p.(max := p'.max) && n <= |q|
    ensures forall k :: 0 <= k < |q| ==> Wants(q[k], p') == Wants(q[k], p)
    ensures forall k :: 0 <= k <= n ==> WantedBefore(q, p', k) == WantedBefore(q, p, k)
  {
    if n > 0 {
      SameWants(q, p, p', n - 1);
    }
  }

  // ----- peers -----

  // The first request that the response answers in 32 bits.
  ghost predicate AnswersFirst(out: seq<OutRequest>, r: BlockResponse, k: nat) {
    && k < |out| && SameIn32(r, out[k].info)
    && forall j :: 0 <= j < k ==> !SameIn32(r, out[j].info)
  }

  predicate SameIn32(r: BlockResponse, info: BlockInfo) {
    r.piece == info.piece % 0x1_0000_0000 && r.begin == info.begin % 0x1_0000_0000 && |r.block| == info.length
  }

  ghost predicate WaitsTooLong(o: OutRequest, late: set<BlockInfo>) {
    o.sent && o.info in late
  }

  // What a peer's queues and flags become.
  ghost predicate IsReaction(p: PeerState, e: PeerEvent, r: PeerState) {
    match e
    case PieceArrives(response) =>
      && ((forall k: nat :: !AnswersFirst(p.out, response, k)) ==> r == p)
      && forall k: nat :: AnswersFirst(p.out, response, k) ==>
           r == p.(out := p.out[..k] + p.out[k + 1..], responses := p.responses + [response])
    case RequestsSent =>
      && |r.out| == |p.out| && r == p.(out := r.out)
      && forall k :: 0 <= k < |p.out| ==> r.out[k] == OutRequest(p.out[k].info, true)
    case TimesOut(late) =>
      && p.cancelled <= r.cancelled && r == p.(out := r.out, cancelled := r.cancelled)
      && |r.out| + |r.cancelled| == |p.out| + |p.cancelled|
      && (forall o :: o in r.out <==> o in p.out && !WaitsTooLong(o, late))
      && forall o :: o in r.cancelled[|p.cancelled|..] <==> o in p.out && WaitsTooLong(o, late)
    case GivesUp => r == p.(out := [], cancelled := p.cancelled + p.out)
    case Closes => r == p.(connected := false, out := [], responses := [], cancelled := [])
    case Chokes(choking) => r == p.(choking := choking)
    case Announces(has) => r == p.(has := has)
  }

  lemma {:induction false} ReactionIs(p: PeerState, e: PeerEvent)
    ensures IsReaction(p, e, React(p, e))
  {
    match e {
      case PieceArrives(r) => PieceReaction(p, r);
      case TimesOut(late) => TimeoutReaction(p, late);
      case _ =>
    }
  }

  lemma {:induction false} PieceReaction(p: PeerState, r: BlockResponse)
    ensures IsReaction(p, PieceArrives(r), HandlePiece(p, r))
  {
    var k := FindAnswered(p.out, r);
    assert forall j :: 0 <= j < |p.out| ==> (SameIn32(r, p.out[j].info) <==> Answers(r, p.out[j].info));
    hide FindAnswered, SameIn32, Answers;
    if k < |p.out| {
      assert AnswersFirst(p.out, r, k);
    }
    assert forall j: nat :: AnswersFirst(p.out, r, j) ==> j == k;
  }

  lemma {:induction false} TimeoutReaction(p: PeerState, late: set<BlockInfo>)
    ensures IsReaction(p, TimesOut(late), Expire(p, late))
  {
    OnlyTheLateExpire(p.out, late);
    AllAccountedFor(p.out, late);
    hide InTime, Late;
    assert Expire(p, late).cancelled[|p.cancelled|..] == Late(p.out, late);
  }

  lemma {:induction false} AllAccountedFor(out: seq<OutRequest>, late: set<BlockInfo>)
    ensures |InTime(out, late)| + |Late(out, late)| == |out|
  {
    if out != [] {
      AllAccountedFor(out[..|out| - 1], late);
      hide TimedOut;
    }
  }

  // What happens inside a peer changes that peer only.
  lemma {:induction false} PeerEventIs(H: Hasher, st: State, i: nat, e: PeerEvent)
    requires i < |st.peers|
    ensures var r := Step(H, st, AtPeer(i, e));
            && |r.peers| == |st.peers| && r == st.(peers := st.peers[i := r.peers[i]])
            && IsReaction(st.peers[i], e, r.peers[i])
  {
    hide React, IsReaction;
    ReactionIs(st.peers[i], e);
  }

  // A peer that joins is the last, connected and choking, has no pieces and nothing in
  // its queues, and may have ten requests.
  lemma {:induction false} JoinAppends(H: Hasher, st: State, id: PeerId, x: Address)
    ensures Step(H, st, Join(id, x)) == st.(peers := st.peers + [PeerState(id, x, true, true, 10, [], [], [], {})])
  {
  }

  // A request is refused exactly when the queue is full or has it already.
  lemma {:induction false} QueueingRefused(p: PeerState, info: BlockInfo)
    ensures QueueRequest(p, info).None? <==> |p.out| == p.max || exists k :: 0 <= k < |p.out| && p.out[k].info == info
    ensures QueueRequest(p, info).Some? ==> QueueRequest(p, info).value == p.(out := p.out + [OutRequest(info, false)])
  {
  }

  // ----- the queue -----

  // Disconnecting unsends what was sent to the peer and leaves every other entry, and
  // all rejections, alone.
  lemma {:induction false} DisconnectUnsends(H: Hasher, st: State, id: PeerId, i: nat)
    requires i < |st.peers| && st.peers[i].id == id
    ensures var r := Step(H, st, Disconnect(id));
            && r.bundle == st.bundle && |r.queue| == |st.queue|
            && forall k :: 0 <= k < |st.queue| ==>
                 r.queue[k] == if st.queue[k].sent && st.queue[k].sentTo == id
                               then BlockRequest(st.queue[k].info, false, st.queue[k].rejected, []) else st.queue[k]
  {
    hide Disconnected, Without;
  }

  // ----- frames -----

  // A peer's turn with its responses, or with what it gave up, changes no other peer
  // and no address; giving back changes no piece.
  lemma {:induction false} OthersAreLeftAlone(H: Hasher, st: State, i: nat, failing: map<nat, nat>)
    requires i < |st.peers|
    ensures var r := Step(H, st, Collect(i, failing));
            r.peers == st.peers[i := st.peers[i].(responses := [])] && r.addresses == st.addresses
    ensures var r := Step(H, st, TakeBack(i));
            && r.peers == st.peers[i := st.peers[i].(cancelled := [])] && r.addresses == st.addresses
            && r.bundle == st.bundle
  {
    CollectedPeers(H, st, i, 0, failing);
    TakenBackPeers(st, i);
    CollectLeavesAddresses(H, st, i, 0, failing);
    TakeBackLeaves(st, i);
    hide CollectAll, TakeBackAll;
  }

  lemma {:induction false} CollectLeavesAddresses(H: Hasher, st: State, i: nat, n: nat, failing: map<nat, nat>)
    requires i < |st.peers|
    ensures CollectAll(H, st, i, n, failing).addresses == st.addresses
    decreases |st.peers[i].responses|
  {
    hide Receive, Remove;
    if st.peers[i].responses != [] {
      CollectLeavesAddresses(H, CollectOne(H, st, i, FateOf(failing, n)), i, n + 1, failing);
    }
  }

  lemma {:induction false} TakeBackLeaves(st: State, i: nat)
    requires i < |st.peers|
    ensures TakeBackAll(st, i).addresses == st.addresses && TakeBackAll(st, i).bundle == st.bundle
    decreases |st.peers[i].cancelled|
  {
    hide Reject;
    if st.peers[i].cancelled != [] {
      TakeBackLeaves(TakeBackOne(st, i), i);
    }
  }
}
