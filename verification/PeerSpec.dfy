// What a session knows of one remote peer, and the queues its requests go
// through: asked for, then answered or given up.
module PeerSpec {
  import opened Common
  import opened Requests
  import M = MessageSpec

  // The requests a peer may have to begin with, and those after each doubling.
  const REQUESTS_OUT: int := 10
  const REQUESTS_OUT_MAXIMA: set<int> := {10, 20, 40, 80, 160, 320}

  type PeerId = bytes

  datatype Address = Address(ip: string, port: int)

  datatype OutRequest = OutRequest(info: BlockInfo, sent: bool)

  datatype BlockResponse = BlockResponse(piece: M.uint32, begin: M.uint32, block: bytes)

  datatype PeerState = PeerState(
    id: PeerId,
    address: Address,
    connected: bool,
    choking: bool,
    max: int,
    out: seq<OutRequest>,
    responses: seq<BlockResponse>,
    cancelled: seq<OutRequest>,
    has: set<nat>)

  function NewPeer(id: PeerId, address: Address): PeerState {
    PeerState(id, address, true, true, REQUESTS_OUT, [], [], [], {})
  }

  // ----- the operations -----

  // The first request for these blocks, or the end.
  function FindOut(out: seq<OutRequest>, info: BlockInfo): (k: nat)
    ensures k <= |out| && (k < |out| ==> out[k].info == info)
    ensures forall j :: 0 <= j < k ==> out[j].info != info
  {
    if out == [] || out[0].info == info then 0 else 1 + FindOut(out[1..], info)
  }

  // None when the queue is full or has the request already.
  function QueueRequest(p: PeerState, info: BlockInfo): Option<PeerState> {
    if |p.out| == p.max || FindOut(p.out, info) < |p.out| then None
    else Some(p.(out := p.out + [OutRequest(info, false)]))
  }

  // Offsets are compared in 32 bits.
  predicate Answers(r: BlockResponse, info: BlockInfo) {
    r.begin == M.Wrap32(info.begin) && r.piece == M.Wrap32(info.piece) && |r.block| == info.length
  }

  function FindAnswered(out: seq<OutRequest>, r: BlockResponse): (k: nat)
    ensures k <= |out| && (k < |out| ==> Answers(r, out[k].info))
    ensures forall j :: 0 <= j < k ==> !Answers(r, out[j].info)
  {
    if out == [] || Answers(r, out[0].info) then 0 else 1 + FindAnswered(out[1..], r)
  }

  // A piece message that answers no request is ignored.
  function HandlePiece(p: PeerState, r: BlockResponse): PeerState {
    var k := FindAnswered(p.out, r);
    if k == |p.out| then p
    else p.(out := Without(p.out, k), responses := p.responses + [r])
  }

  predicate TimedOut(o: OutRequest, late: set<BlockInfo>) {
    o.sent && o.info in late
  }

  function InTime(out: seq<OutRequest>, late: set<BlockInfo>): (r: seq<OutRequest>)
    ensures |r| <= |out|
  {
    if out == [] then []
    else
      var last := out[|out| - 1];
      InTime(out[..|out| - 1], late) + if TimedOut(last, late) then [] else [last]
  }

  function Late(out: seq<OutRequest>, late: set<BlockInfo>): seq<OutRequest> {
    if out == [] then []
    else
      var last := out[|out| - 1];
      Late(out[..|out| - 1], late) + if TimedOut(last, late) then [last] else []
  }

  // Requests that have been waiting too long are given up.
  function Expire(p: PeerState, late: set<BlockInfo>): PeerState {
    p.(out := InTime(p.out, late), cancelled := p.cancelled + Late(p.out, late))
  }

  function AllSent(out: seq<OutRequest>): (r: seq<OutRequest>)
    ensures |r| == |out| && forall k :: 0 <= k < |out| ==> r[k] == out[k].(sent := true)
  {
    if out == [] then [] else [out[0].(sent := true)] + AllSent(out[1..])
  }

  function GiveUp(p: PeerState): PeerState {
    p.(out := [], cancelled := p.cancelled + p.out)
  }

  function Close(p: PeerState): PeerState {
    p.(connected := false, out := [], responses := [], cancelled := [])
  }

  // ----- the blocks a peer holds -----

  function Named(r: BlockResponse): BlockInfo {
    BlockInfo(r.piece, r.begin, |r.block|)
  }

  function OutCount(out: seq<OutRequest>, x: BlockInfo): nat {
    if out == [] then 0 else (if out[0].info == x then 1 else 0) + OutCount(out[1..], x)
  }

  function ResponseCount(rs: seq<BlockResponse>, x: BlockInfo): nat {
    if rs == [] then 0 else (if Named(rs[0]) == x then 1 else 0) + ResponseCount(rs[1..], x)
  }

  // How often a block occurs in the queues of the peer.
  function Held(p: PeerState, x: BlockInfo): nat {
    OutCount(p.out, x) + ResponseCount(p.responses, x) + OutCount(p.cancelled, x)
  }

  lemma {:induction false} OutCountAppend(a: seq<OutRequest>, b: seq<OutRequest>, x: BlockInfo)
    ensures OutCount(a + b, x) == OutCount(a, x) + OutCount(b, x)
  {
    if a == [] {
      assert a + b == b;
    } else {
      OutCountAppend(a[1..], b, x);
      assert (a + b)[1..] == a[1..] + b;
    }
  }

  lemma {:induction false} ResponseCountAppend(a: seq<BlockResponse>, b: seq<BlockResponse>, x: BlockInfo)
    ensures ResponseCount(a + b, x) == ResponseCount(a, x) + ResponseCount(b, x)
  {
    if a == [] {
      assert a + b == b;
    } else {
      ResponseCountAppend(a[1..], b, x);
      assert (a + b)[1..] == a[1..] + b;
    }
  }

  lemma {:induction false} OutCountOne(o: OutRequest, x: BlockInfo)
    ensures OutCount([o], x) == if o.info == x then 1 else 0
  {
    assert OutCount([o][1..], x) == 0;
  }

  lemma {:induction false} ResponseCountOne(r: BlockResponse, x: BlockInfo)
    ensures ResponseCount([r], x) == if Named(r) == x then 1 else 0
  {
    assert ResponseCount([r][1..], x) == 0;
  }

  lemma {:induction false} OutCountWithout(out: seq<OutRequest>, k: nat, x: BlockInfo)
    requires k < |out|
    ensures OutCount(out, x) == OutCount(Without(out, k), x) + if out[k].info == x then 1 else 0
  {
    assert out == out[..k] + ([out[k]] + out[k + 1..]);
    OutCountAppend(out[..k], [out[k]] + out[k + 1..], x);
    OutCountAppend([out[k]], out[k + 1..], x);
    OutCountAppend(out[..k], out[k + 1..], x);
    OutCountOne(out[k], x);
  }

  lemma {:induction false} SplitByTime(out: seq<OutRequest>, late: set<BlockInfo>, x: BlockInfo)
    ensures OutCount(InTime(out, late), x) + OutCount(Late(out, late), x) == OutCount(out, x)
  {
    if out != [] {
      var before, last := out[..|out| - 1], out[|out| - 1];
      SplitByTime(before, late, x);
      OutCountOne(last, x);
      OutCountAppend(InTime(before, late), [last], x);
      OutCountAppend(Late(before, late), [last], x);
      OutCountAppend(before, [last], x);
      assert out == before + [last];
      assert InTime(before, late) + [] == InTime(before, late) && Late(before, late) + [] == Late(before, late);
      hide OutCount, TimedOut;
    }
  }

  lemma {:induction false} SendingHolds(out: seq<OutRequest>, x: BlockInfo)
    ensures OutCount(AllSent(out), x) == OutCount(out, x)
  {
    if out != [] {
      SendingHolds(out[1..], x);
      assert AllSent(out)[1..] == AllSent(out[1..]);
    }
  }

  // A response that names its block in full: the piece and the offset fit 32 bits.
  predicate Fits32(info: BlockInfo) {
    info.piece < 0x1_0000_0000 && info.begin < 0x1_0000_0000
  }

  // A response names the block it was matched with if and only if that fits.
  lemma {:induction false} AnswerNamesTheBlock(r: BlockResponse, info: BlockInfo)
    requires Answers(r, info)
    ensures Named(r) == info <==> Fits32(info)
  {
  }

  // Handling a piece moves a request; what the peer holds stays the same.
  lemma {:induction false} HandlePieceHolds(p: PeerState, r: BlockResponse, x: BlockInfo)
    requires forall k :: 0 <= k < |p.out| ==> Fits32(p.out[k].info)
    ensures Held(HandlePiece(p, r), x) == Held(p, x)
  {
    var k := FindAnswered(p.out, r);
    if k < |p.out| {
      OutCountWithout(p.out, k, x);
      AnswerNamesTheBlock(r, p.out[k].info);
      ResponseCountAppend(p.responses, [r], x);
      ResponseCountOne(r, x);
    }
  }

  // It moves from the requests to the responses, and only if there is one.
  lemma {:induction false} HandlePieceMoves(p: PeerState, r: BlockResponse, x: BlockInfo)
    requires forall k :: 0 <= k < |p.out| ==> Fits32(p.out[k].info)
    ensures var q := HandlePiece(p, r);
            var one := if x == Named(r) && exists k :: 0 <= k < |p.out| && p.out[k].info == x then 1 else 0;
            && OutCount(q.out, x) == OutCount(p.out, x) - one
            && ResponseCount(q.responses, x) == ResponseCount(p.responses, x) + one
            && q.cancelled == p.cancelled
            && (q != p ==> q.responses == p.responses + [r])
  {
    var k := FindAnswered(p.out, r);
    forall j | 0 <= j < |p.out|
      ensures Answers(r, p.out[j].info) <==> p.out[j].info == Named(r)
    {
      MatchingIsEquality(r, p.out[j].info);
    }
    if k < |p.out| {
      assert p.out[k].info == Named(r);
      OutCountWithout(p.out, k, x);
      ResponseCountAppend(p.responses, [r], x);
      ResponseCountOne(r, x);
    }
  }

  lemma {:induction false} MatchingIsEquality(r: BlockResponse, info: BlockInfo)
    requires Fits32(info)
    ensures Answers(r, info) <==> info == Named(r)
  {
  }

  // Exactly the requests that were sent and are late are given up.
  lemma {:induction false} OnlyTheLateExpire(out: seq<OutRequest>, late: set<BlockInfo>)
    ensures forall o :: o in InTime(out, late) <==> o in out && !TimedOut(o, late)
    ensures forall o :: o in Late(out, late) <==> o in out && TimedOut(o, late)
  {
    if out != [] {
      var before, last := out[..|out| - 1], out[|out| - 1];
      OnlyTheLateExpire(before, late);
      assert forall o :: o in out <==> o in before || o == last by {
        assert out == before + [last];
      }
      hide TimedOut;
    }
  }

  lemma {:induction false} ExpireHolds(p: PeerState, late: set<BlockInfo>, x: BlockInfo)
    ensures Held(Expire(p, late), x) == Held(p, x)
  {
    SplitByTime(p.out, late, x);
    OutCountAppend(p.cancelled, Late(p.out, late), x);
  }

  lemma {:induction false} GiveUpHolds(p: PeerState, x: BlockInfo)
    ensures Held(GiveUp(p), x) == Held(p, x)
  {
    OutCountAppend(p.cancelled, p.out, x);
  }

  lemma {:induction false} QueueRequestHolds(p: PeerState, info: BlockInfo, x: BlockInfo)
    requires QueueRequest(p, info).Some?
    ensures Held(QueueRequest(p, info).value, x) == Held(p, x) + if x == info then 1 else 0
  {
    OutCountAppend(p.out, [OutRequest(info, false)], x);
    OutCountOne(OutRequest(info, false), x);
  }

  // What stands in the queue is held.
  lemma {:induction false} OutIsHeld(p: PeerState, k: nat)
    requires k < |p.out|
    ensures Held(p, p.out[k].info) > 0
  {
    OutCountWithout(p.out, k, p.out[k].info);
  }

  // A request can be queued if there is room and the peer does not hold it.
  lemma {:induction false} QueueRequestSucceeds(p: PeerState, info: BlockInfo)
    requires |p.out| < p.max && Held(p, info) == 0
    ensures QueueRequest(p, info).Some?
  {
    var k := FindOut(p.out, info);
    if k < |p.out| {
      OutIsHeld(p, k);
    }
  }
}
