// Which of the listed blocks that are sent to nobody can still be sent.
module SessionSending {
  import opened Common
  import opened Requests
  import opened PeerSpec
  import opened QueueSpec
  import opened AddressSpec
  import opened SessionSpec
  import opened SessionRuns
  import opened SessionLosses
  import opened SessionRejections
  import BS = BundleSpec

  // In some run in which nobody joins the block is sent to a peer.
  ghost predicate CanBeSent(H: Hasher, st: State, x: BlockInfo) {
    exists ops: seq<Op>, id: PeerId :: NobodyJoins(ops) && SentTo(Run(H, st, ops).queue, x, id)
  }

  // The block is sent to nobody, and the peer has not rejected it.
  ghost predicate WaitsFor(q: Queue, x: BlockInfo, id: PeerId) {
    exists k :: 0 <= k < |q| && q[k].info == x && !q[k].sent && id !in q[k].rejected
  }

  // The blocks a peer has not rejected.
  ghost function Open(q: Queue, id: PeerId): set<BlockInfo> {
    set k | 0 <= k < |q| && id !in q[k].rejected :: q[k].info
  }

  // Nothing but requests the peer wants more can keep it from being handed the block.
  ghost predicate Servable(st: State, i: nat, x: BlockInfo) {
    && i < |st.peers|
    && st.peers[i].out == [] && st.peers[i].cancelled == []
    && !st.peers[i].choking && x.piece in st.peers[i].has
    && WaitsFor(st.queue, x, st.peers[i].id)
  }

  // ----- what a peer has rejected -----

  lemma {:induction false} OpenShrinks(q: Queue, r: Queue, ids: set<PeerId>, id: PeerId)
    requires Evolves(q, r, ids) && forall y :: Listed(r, y) ==> Listed(q, y)
    ensures Open(r, id) <= Open(q, id)
  {
    hide Listed;
    forall y | y in Open(r, id)
      ensures y in Open(q, id)
    {
      var k :| 0 <= k < |r| && id !in r[k].rejected && r[k].info == y;
      ListedAt(r, k);
      assert Comes(q, r[k], ids);
    }
  }

  lemma {:induction false} RefusedIsNotOpen(q: Queue, y: BlockInfo, id: PeerId)
    requires ListsOnce(q) && RefusedBy(q, y, id)
    ensures y !in Open(q, id)
  {
  }

  lemma {:induction false} WaitingIsUnsent(q: Queue, x: BlockInfo, id: PeerId)
    requires ListsOnce(q) && WaitsFor(q, x, id)
    ensures forall other :: !SentTo(q, x, other)
  {
  }

  lemma {:induction false} RejectLeaves(q: Queue, info: BlockInfo, from: PeerId, x: BlockInfo, id: PeerId)
    requires WaitsFor(q, x, id) && info != x
    ensures WaitsFor(Reject(q, info, from), x, id)
  {
    var k :| 0 <= k < |q| && q[k].info == x && !q[k].sent && id !in q[k].rejected;
    assert Reject(q, info, from)[k] == q[k];
  }

  lemma {:induction false} TakeBackLeaves(st: State, i: nat, x: BlockInfo)
    requires i < |st.peers| && OutCount(st.peers[i].cancelled, x) == 0 && WaitsFor(st.queue, x, st.peers[i].id)
    ensures WaitsFor(TakeBackAll(st, i).queue, x, st.peers[i].id)
    decreases |st.peers[i].cancelled|
  {
    hide WaitsFor, Reject;
    if st.peers[i].cancelled != [] {
      RejectLeaves(st.queue, st.peers[i].cancelled[0].info, st.peers[i].id, x, st.peers[i].id);
      TakeBackLeaves(TakeBackOne(st, i), i, x);
    }
  }

  // ----- one round -----

  lemma {:induction false} FirstWanted(q: Queue, p: PeerState, k: nat) returns (j: nat)
    requires k < |q| && Wants(q[k], p)
    ensures j <= k && Wants(q[j], p) && WantedBefore(q, p, j) == 0
  {
    j := 0;
    while !Wants(q[j], p)
      invariant j <= k && WantedBefore(q, p, j) == 0
      decreases k - j
    {
      j := j + 1;
    }
  }

  // A peer that wants something and has room is handed the first request it wants;
  // any other one that it is not handed waits on.
  lemma {:induction false} SomethingIsHanded(q: Queue, p: PeerState, x: BlockInfo) returns (y: BlockInfo)
    requires ListsOnce(q) && PeerInv(q, p) && p.out == [] && !p.choking
    requires x.piece in p.has && WaitsFor(q, x, p.id)
    ensures var r := Assign(q, p, None);
            && WaitsFor(q, y, p.id) && SentTo(r.queue, y, p.id)
            && (WaitsFor(r.queue, x, p.id) || SentTo(r.queue, x, p.id))
  {
    var k :| 0 <= k < |q| && q[k].info == x && !q[k].sent && p.id !in q[k].rejected;
    var max := if |p.cancelled| < p.max / 4 && p.max > p.max / 2 && p.max < 256 then p.max * 2 else p.max;
    var p' := p.(max := max);
    DoubledMaximum(q, p);
    MoreRoom(q, p, max);
    var j := FirstWanted(q, p', k);
    y := q[j].info;
    hide PeerInv, ListsOnce, AssignFrom;
    FirstWantedAreHandedOut(q, p', p.max);
    var r := Assign(q, p, None);
    assert r == AssignFrom(q, p', p.max, 0);
    assert r.queue[j].sent && r.queue[j].sentTo == p.id && r.queue[j].info == y;
    assert r.queue[k] == q[k] || (r.queue[k].sent && r.queue[k].sentTo == p.id && r.queue[k].info == x);
  }

  function RoundOps(i: nat): seq<Op> {
    [AssignTo(i, None), AtPeer(i, GivesUp), TakeBack(i)]
  }

  function HandedTo(st: State, i: nat): (r: State)
    requires i < |st.peers|
    ensures |r.peers| == |st.peers|
  {
    var r := Assign(st.queue, st.peers[i], None);
    st.(queue := r.queue, peers := st.peers[i := r.peer])
  }

  function GivenUp(st: State, i: nat): (r: State)
    requires i < |st.peers|
    ensures |r.peers| == |st.peers|
  {
    st.(peers := st.peers[i := GiveUp(st.peers[i])])
  }

  // After the round the peer holds no requests, neither asked for nor given up.
  function RoundEnd(st: State, i: nat): State
    requires i < |st.peers|
  {
    TakeBackAll(GivenUp(HandedTo(st, i), i), i)
  }

  lemma {:induction false} RoundRun(H: Hasher, st: State, i: nat)
    requires i < |st.peers|
    ensures Run(H, st, [AssignTo(i, None)]) == HandedTo(st, i)
    ensures Run(H, st, RoundOps(i)) == RoundEnd(st, i)
  {
    hide Run, Assign, TakeBackAll, GiveUp;
    RunOne(H, st, AssignTo(i, None));
    RunTwo(H, HandedTo(st, i), AtPeer(i, GivesUp), TakeBack(i));
    RunAppend(H, st, [AssignTo(i, None)], [AtPeer(i, GivesUp), TakeBack(i)]);
    assert RoundOps(i) == [AssignTo(i, None)] + [AtPeer(i, GivesUp), TakeBack(i)];
  }

  lemma {:induction false} RoundKeeps(H: Hasher, st: State, i: nat)
    requires Inv(H, st) && i < |st.peers|
    ensures Inv(H, HandedTo(st, i)) && Inv(H, GivenUp(HandedTo(st, i), i))
    ensures Inv(H, RoundEnd(st, i))
  {
    hide Inv, Assign, TakeBackAll, GiveUp;
    AssignKeeps(H, st, i, None);
    PeerEventKeeps(H, HandedTo(st, i), i, GivesUp);
    TakeBackKeeps(H, GivenUp(HandedTo(st, i), i), i);
  }

  // What was handed out in the round is given up and rejected.
  lemma {:induction false} HandedIsRejected(H: Hasher, st: State, i: nat, y: BlockInfo)
    requires Inv(H, st) && i < |st.peers| && st.peers[i].out == [] && st.peers[i].cancelled == []
    requires WaitsFor(st.queue, y, st.peers[i].id) && SentTo(HandedTo(st, i).queue, y, st.peers[i].id)
    ensures RefusedBy(RoundEnd(st, i).queue, y, st.peers[i].id)
  {
    var p, r := st.peers[i], Assign(st.queue, st.peers[i], None);
    assert PeerInv(st.queue, p) && ListsOnce(st.queue);
    WaitingIsUnsent(st.queue, y, p.id);
    UnsentIsNowhere(H, st, i, y);
    RoundKeeps(H, st, i);
    hide Inv, PeerInv, ListsOnce, Listed, SentTo, Assign, TakeBackAll, WaitsFor, RefusedBy, OutCount, ResponseCount;
    AssignHandsOut(st.queue, p, None);
    assert Held(r.peer, y) > 0;
    assert r.peer.cancelled == [] && r.peer.responses == p.responses;
    assert [] + r.peer.out == r.peer.out;
    assert GiveUp(r.peer).cancelled == r.peer.out;
    NoneOut(y);
    TakenBackIsRefused(H, GivenUp(HandedTo(st, i), i), i, y);
  }

  lemma {:induction false} NoneOut(y: BlockInfo)
    ensures OutCount([], y) == 0
  {
  }

  lemma {:induction false} StillServable(H: Hasher, st: State, i: nat, x: BlockInfo)
    requires Inv(H, st) && Servable(st, i, x) && WaitsFor(HandedTo(st, i).queue, x, st.peers[i].id)
    ensures var next := RoundEnd(st, i);
            Servable(next, i, x) && next.peers[i].id == st.peers[i].id
  {
    var p, a, g := st.peers[i], HandedTo(st, i), GivenUp(HandedTo(st, i), i);
    RoundKeeps(H, st, i);
    assert PeerInv(st.queue, p) && ListsOnce(st.queue) && ListsOnce(g.queue);
    hide Inv, PeerInv, ListsOnce, Listed, SentTo, Assign, TakeBackAll, WaitsFor, Held, OutCount, ResponseCount;
    AssignHandsOut(st.queue, p, None);
    WaitingIsUnsent(g.queue, x, p.id);
    UnsentIsNowhere(H, g, i, x);
    TakeBackLeaves(g, i, x);
    TakenBackPeers(g, i);
  }

  lemma {:induction false} OpenLoses(H: Hasher, st: State, i: nat, y: BlockInfo)
    requires Inv(H, st) && i < |st.peers| && WaitsFor(st.queue, y, st.peers[i].id)
    requires RefusedBy(RoundEnd(st, i).queue, y, st.peers[i].id)
    ensures Open(RoundEnd(st, i).queue, st.peers[i].id) < Open(st.queue, st.peers[i].id)
  {
    var p, a, g := st.peers[i], HandedTo(st, i), GivenUp(HandedTo(st, i), i);
    var next := RoundEnd(st, i);
    RoundKeeps(H, st, i);
    assert PeerInv(st.queue, p) && ListsOnce(st.queue) && ListsOnce(g.queue) && ListsOnce(next.queue);
    WaitingIsOpen(st.queue, y, p.id);
    hide Inv, PeerInv, ListsOnce, Listed, SentTo, Assign, TakeBackAll, WaitsFor, Held, Open, Evolves, RefusedBy, Ids;
    AssignHandsOut(st.queue, p, None);
    OneAssignEvolves(st, i, None);
    OpenShrinks(st.queue, a.queue, Ids(st.peers), p.id);
    TakeBackEvolves(g, i, Ids(st.peers));
    OpenShrinks(g.queue, next.queue, Ids(st.peers), p.id);
    RefusedIsNotOpen(next.queue, y, p.id);
  }

  lemma {:induction false} WaitingIsOpen(q: Queue, y: BlockInfo, id: PeerId)
    requires WaitsFor(q, y, id)
    ensures y in Open(q, id)
  {
  }

  // After a round in which the block was not handed to the peer it could still be, and
  // the peer has rejected more.
  lemma {:induction false} OneRound(H: Hasher, st: State, i: nat, x: BlockInfo)
    requires Inv(H, st) && Servable(st, i, x)
    ensures !SentTo(HandedTo(st, i).queue, x, st.peers[i].id) ==>
              var next := RoundEnd(st, i);
              && Inv(H, next) && Servable(next, i, x) && next.peers[i].id == st.peers[i].id
              && Open(next.queue, st.peers[i].id) < Open(st.queue, st.peers[i].id)
  {
    var p, a, g := st.peers[i], HandedTo(st, i), GivenUp(HandedTo(st, i), i);
    if !SentTo(a.queue, x, p.id) {
      assert PeerInv(st.queue, p) && ListsOnce(st.queue);
      RoundKeeps(H, st, i);
      var y := SomethingIsHanded(st.queue, p, x);
      hide Inv, PeerInv, ListsOnce, SentTo, Assign, TakeBackAll, WaitsFor, Open, RefusedBy;
      HandedIsRejected(H, st, i, y);
      StillServable(H, st, i, x);
      OpenLoses(H, st, i, y);
    }
  }

  // ----- rounds until it is its turn -----

  lemma {:induction false} SentInTheEnd(H: Hasher, st: State, i: nat, x: BlockInfo) returns (ops: seq<Op>)
    requires Inv(H, st) && Servable(st, i, x)
    ensures NobodyJoins(ops) && SentTo(Run(H, st, ops).queue, x, st.peers[i].id)
    decreases Open(st.queue, st.peers[i].id)
  {
    hide Inv, HandedTo, RoundEnd, SentTo, Open, Run;
    RoundRun(H, st, i);
    if SentTo(HandedTo(st, i).queue, x, st.peers[i].id) {
      ops := [AssignTo(i, None)];
    } else {
      OneRound(H, st, i, x);
      var next := RoundEnd(st, i);
      var later := SentInTheEnd(H, next, i, x);
      RunAppend(H, st, RoundOps(i), later);
      ops := RoundOps(i) + later;
    }
  }

  // A peer announces a piece, unchokes and gives up what it holds.
  function PrepareOps(i: nat, piece: nat): seq<Op> {
    [AtPeer(i, Announces({piece})), AtPeer(i, Chokes(false))] + [AtPeer(i, GivesUp), TakeBack(i)]
  }

  function Prepared(st: State, i: nat, piece: nat): State
    requires i < |st.peers|
  {
    st.(peers := st.peers[i := st.peers[i].(has := {piece}, choking := false)])
  }

  lemma {:induction false} PrepareRun(H: Hasher, st: State, i: nat, piece: nat)
    requires i < |st.peers|
    ensures Run(H, st, PrepareOps(i, piece)) == TakeBackAll(GivenUp(Prepared(st, i, piece), i), i)
    ensures Inv(H, st) ==> Inv(H, GivenUp(Prepared(st, i, piece), i)) && Inv(H, Run(H, st, PrepareOps(i, piece)))
  {
    hide Run, TakeBackAll, GiveUp, Inv;
    var told := st.(peers := st.peers[i := st.peers[i].(has := {piece})]);
    assert Step(H, st, AtPeer(i, Announces({piece}))) == told;
    assert Step(H, told, AtPeer(i, Chokes(false))) == Prepared(st, i, piece);
    RunTwo(H, st, AtPeer(i, Announces({piece})), AtPeer(i, Chokes(false)));
    RunTwo(H, Prepared(st, i, piece), AtPeer(i, GivesUp), TakeBack(i));
    RunAppend(H, st, [AtPeer(i, Announces({piece})), AtPeer(i, Chokes(false))], [AtPeer(i, GivesUp), TakeBack(i)]);
    if Inv(H, st) {
      PeerEventKeeps(H, st, i, Announces({piece}));
      PeerEventKeeps(H, told, i, Chokes(false));
      PeerEventKeeps(H, Prepared(st, i, piece), i, GivesUp);
      TakeBackKeeps(H, GivenUp(Prepared(st, i, piece), i), i);
    }
  }

  lemma {:induction false} BecomesServable(H: Hasher, st: State, i: nat, x: BlockInfo)
    requires Inv(H, st) && i < |st.peers| && WaitsFor(st.queue, x, st.peers[i].id)
    ensures var next := Run(H, st, PrepareOps(i, x.piece));
            Inv(H, next) && Servable(next, i, x) && next.peers[i].id == st.peers[i].id
  {
    var g := GivenUp(Prepared(st, i, x.piece), i);
    PrepareRun(H, st, i, x.piece);
    assert ListsOnce(st.queue);
    hide Inv, ListsOnce, Run, PrepareOps, SentTo, TakeBackAll, WaitsFor, Held, OutCount, ResponseCount;
    WaitingIsUnsent(st.queue, x, st.peers[i].id);
    UnsentIsNowhere(H, g, i, x);
    TakeBackLeaves(g, i, x);
    TakenBackPeers(g, i);
  }

  // A block that waits for some peer can be sent to it.
  lemma {:induction false} WaitingCanBeSent(H: Hasher, st: State, i: nat, x: BlockInfo)
    requires Inv(H, st) && i < |st.peers| && WaitsFor(st.queue, x, st.peers[i].id)
    ensures CanBeSent(H, st, x)
  {
    hide Inv, Run, SentTo, Servable, WaitsFor;
    BecomesServable(H, st, i, x);
    var later := SentInTheEnd(H, Run(H, st, PrepareOps(i, x.piece)), i, x);
    RunAppend(H, st, PrepareOps(i, x.piece), later);
    assert NobodyJoins(PrepareOps(i, x.piece) + later);
  }

  // In every state that can be reached, a listed block that is sent to nobody can be
  // sent without another peer joining if and only if some peer has not rejected it.
  lemma {:induction false} SendableExactlyWhen(H: Hasher, st: State, x: BlockInfo)
    requires Inv(H, st) && Listed(st.queue, x) && forall id :: !SentTo(st.queue, x, id)
    ensures CanBeSent(H, st, x) <==> !RefusedByAll(st, x)
  {
    if RefusedByAll(st, x) {
      forall ops, id | NobodyJoins(ops)
        ensures !SentTo(Run(H, st, ops).queue, x, id)
      {
        RejectedByAllStaysUnsent(H, st, ops, x);
      }
    } else {
      var i := SomePeerWaits(st, x);
      WaitingCanBeSent(H, st, i, x);
    }
  }

  lemma {:induction false} SomePeerWaits(st: State, x: BlockInfo) returns (i: nat)
    requires Listed(st.queue, x) && (forall id :: !SentTo(st.queue, x, id)) && !RefusedByAll(st, x)
    ensures i < |st.peers| && WaitsFor(st.queue, x, st.peers[i].id)
  {
    var k :| 0 <= k < |st.queue| && st.queue[k].info == x;
    assert !SentTo(st.queue, x, st.queue[k].sentTo);
    var id :| id in Ids(st.peers) && id !in st.queue[k].rejected;
    i :| 0 <= i < |st.peers| && st.peers[i].id == id;
  }

  // ----- a run in which it happens -----

  // A peer joins, is handed requests, gives them up, and the session takes them back.
  function RejectingOps(id: PeerId, address: Address, piece: nat): seq<Op> {
    FirstOps(id, address, piece) + [AtPeer(0, GivesUp), TakeBack(0)]
  }

  lemma {:induction false} NobodyJoinsIsAllowed(H: Hasher, st: State, ops: seq<Op>)
    requires NobodyJoins(ops)
    ensures RunAllowed(H, st, ops)
    decreases |ops|
  {
    hide Step;
    if ops != [] {
      FirstOrLater(ops);
      NobodyJoinsIsAllowed(H, Step(H, st, ops[0]), ops[1..]);
    }
  }

  lemma {:induction false} FirstIsAllowed(H: Hasher, st: State, id: PeerId, address: Address, piece: nat)
    requires Initial(H, st)
    ensures RunAllowed(H, st, FirstOps(id, address, piece))
  {
    var ops := FirstOps(id, address, piece);
    assert ops == [GetBlocks, Join(id, address)] + ops[2..] && NobodyJoins(ops[2..]);
    var s1 := Step(H, st, ops[0]);
    var s2 := Step(H, s1, ops[1]);
    NobodyJoinsIsAllowed(H, s2, ops[2..]);
    assert s1.peers == [];
    hide FirstOps, Refill, Initial;
    assert ops[1..][1..] == ops[2..];
    assert RunAllowed(H, s1, ops[1..]);
  }

  lemma {:induction false} OnlyOneRefuses(st: State, x: BlockInfo, id: PeerId)
    requires |st.peers| == 1 && st.peers[0].id == id && RefusedBy(st.queue, x, id)
    requires forall other :: !SentTo(st.queue, x, other)
    ensures Listed(st.queue, x) && RefusedByAll(st, x)
  {
    var k :| 0 <= k < |st.queue| && st.queue[k].info == x && id in st.queue[k].rejected
             && !(st.queue[k].sent && st.queue[k].sentTo == id);
    assert !SentTo(st.queue, x, st.queue[k].sentTo);
    assert forall other :: other in Ids(st.peers) ==> other == id;
  }

  // Of the blocks a peer was handed, those it gives up are rejected and sent to nobody.
  lemma {:induction false} GivenUpByTheOnly(H: Hasher, st: State, x: BlockInfo)
    requires Inv(H, st) && |st.peers| == 1 && st.peers[0].responses == [] && Held(st.peers[0], x) > 0
    ensures var end := TakeBackAll(GivenUp(st, 0), 0);
            && |end.peers| == 1 && Inv(H, end) && Listed(end.queue, x) && RefusedByAll(end, x)
  {
    var p, g := st.peers[0], GivenUp(st, 0);
    var end := TakeBackAll(g, 0);
    assert g == Step(H, st, AtPeer(0, GivesUp));
    PeerEventKeeps(H, st, 0, GivesUp);
    TakeBackKeeps(H, g, 0);
    GiveUpHolds(p, x);
    assert OutCount(g.peers[0].cancelled, x) > 0;
    TakenBackIsRefused(H, g, 0, x);
    TakenBackPeers(g, 0);
    TakenBackIsUnsent(H, g, 0);
    hide Inv, RefusedBy, SentTo, TakeBackAll, OutCount, Listed;
    OnlyOneRefuses(end, x, p.id);
  }

  // In any session that has a block to fetch this run ends with the block rejected by
  // the only peer.
  lemma {:induction false} OnePeerRejects(H: Hasher, st: State, id: PeerId, address: Address)
    requires HasBlocks(H, st)
    ensures var block := FirstBlock(st);
            var end := Run(H, st, RejectingOps(id, address, block.piece));
            && |end.peers| == 1 && Inv(H, end) && Listed(end.queue, block) && RefusedByAll(end, block)
            && !CanBeSent(H, end, block)
  {
    var block := FirstBlock(st);
    FirstRun(H, st, id, address);
    FirstIsAllowed(H, st, id, address, block.piece);
    EveryRun(H, st, FirstOps(id, address, block.piece));
    var s := Run(H, st, FirstOps(id, address, block.piece));
    RunTwo(H, s, AtPeer(0, GivesUp), TakeBack(0));
    assert Run(H, s, [AtPeer(0, GivesUp), TakeBack(0)]) == TakeBackAll(GivenUp(s, 0), 0);
    hide Run, Inv, Held, ListsOnce, FirstOps, Initial, RefusedByAll, Listed, CanBeSent, Step;
    RunAppend(H, st, FirstOps(id, address, block.piece), [AtPeer(0, GivesUp), TakeBack(0)]);
    GivenUpByTheOnly(H, s, block);
    var end := TakeBackAll(GivenUp(s, 0), 0);
    InvLists(H, end);
    RefusedByAllIsUnsent(end, block);
    SendableExactlyWhen(H, end, block);
  }
}
