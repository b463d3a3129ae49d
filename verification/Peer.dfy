// A remote peer as an object: the queues its requests go through, updated in
// place by the session and by the peer's own loops.
module Peer {
  import opened Common
  import opened Requests
  import opened PeerSpec
  import BitfieldSpec
  import B = Bitfields

  class Peer {
    const RemotePeerID: PeerId
    const RemoteAddress: Address
    var Connected: bool
    var RemoteChoking: bool
    var RequestsOutMax: int
    var requestOutQueue: seq<OutRequest>
    var responseInQueue: seq<BlockResponse>
    var requestCancelledQueue: seq<OutRequest>
    var remotePieces: set<nat>

    function State(): PeerState
      reads this
    {
      PeerState(RemotePeerID, RemoteAddress, Connected, RemoteChoking, RequestsOutMax,
                requestOutQueue, responseInQueue, requestCancelledQueue, remotePieces)
    }

    // A connection that has shaken hands.
    constructor (id: PeerId, address: Address)
      ensures State() == NewPeer(id, address)
    {
      RemotePeerID := id;
      RemoteAddress := address;
      Connected := true;
      RemoteChoking := true;
      RequestsOutMax := REQUESTS_OUT;
      requestOutQueue := [];
      responseInQueue := [];
      requestCancelledQueue := [];
      remotePieces := {};
    }

    method SetMaxRequests(newMax: int)
      modifies this
      ensures State() == old(State()).(max := newMax)
    {
      RequestsOutMax := newMax;
    }

    method NumRequestsCanAdd() returns (n: int)
      ensures n == State().max - |State().out|
    {
      return RequestsOutMax - |requestOutQueue|;
    }

    predicate HasPiece(pieceIndex: nat)
      reads this
      ensures HasPiece(pieceIndex) <==> pieceIndex in State().has
    {
      pieceIndex in remotePieces
    }

    method QueueRequestOut(bi: BlockInfo) returns (ok: bool)
      modifies this
      ensures ok == QueueRequest(old(State()), bi).Some?
      ensures State() == if ok then QueueRequest(old(State()), bi).value else old(State())
    {
      if |requestOutQueue| == RequestsOutMax {
        return false;
      }
      for k := 0 to |requestOutQueue|
        invariant forall j :: 0 <= j < k ==> requestOutQueue[j].info != bi
        invariant State() == old(State())
      {
        if requestOutQueue[k].info == bi {
          return false;
        }
      }
      requestOutQueue := requestOutQueue + [OutRequest(bi, false)];
      return true;
    }

    method GetResponsesIn() returns (ret: seq<BlockResponse>)
      modifies this
      ensures ret == old(State()).responses && State() == old(State()).(responses := [])
    {
      ret := responseInQueue;
      responseInQueue := [];
    }

    method GetCancelledRequests() returns (ret: seq<OutRequest>)
      modifies this
      ensures ret == old(State()).cancelled && State() == old(State()).(cancelled := [])
    {
      ret := requestCancelledQueue;
      requestCancelledQueue := [];
    }

    // The piece message in handleMessageIn.
    method HandlePieceMessage(newRes: BlockResponse)
      modifies this
      ensures State() == HandlePiece(old(State()), newRes)
    {
      var i, found := 0, false;
      ghost var was := requestOutQueue;
      while i < |requestOutQueue|
        invariant 0 <= i <= |was| && State() == old(State()) && !found
        invariant forall j :: 0 <= j < i ==> !Answers(newRes, was[j].info)
      {
        if Answers(newRes, requestOutQueue[i].info) {
          found := true;
          requestOutQueue := requestOutQueue[..i] + requestOutQueue[i + 1..];
          break;
        }
        i := i + 1;
      }
      if !found {
        return;
      }
      responseInQueue := responseInQueue + [newRes];
    }

    // The loop in runOutgoing that marks requests as sent.
    method SendRequests()
      modifies this
      ensures State() == old(State()).(out := AllSent(old(State()).out))
    {
      ghost var was := requestOutQueue;
      for i := 0 to |requestOutQueue|
        invariant |requestOutQueue| == |was|
        invariant State() == old(State()).(out := requestOutQueue)
        invariant forall j :: 0 <= j < |was| ==> requestOutQueue[j] == if j < i then was[j].(sent := true) else was[j]
      {
        if !requestOutQueue[i].sent {
          requestOutQueue := requestOutQueue[i := requestOutQueue[i].(sent := true)];
        }
      }
      assert requestOutQueue == AllSent(was);
    }

    // The loop in runOutgoing that gives up requests after a timeout; late is
    // what the clock says has waited too long.
    method ExpireRequests(late: set<BlockInfo>)
      modifies this
      ensures State() == Expire(old(State()), late)
    {
      hide InTime, Late, Expiring, TimedOut;
      ghost var was := State();
      var i := 0;
      ghost var done := 0;
      ExpiringStarts(was, late);
      while i < |requestOutQueue|
        invariant 0 <= i && 0 <= done && Expiring(was, State(), late, done, i)
        decreases |requestOutQueue| - i
      {
        ExpiringStep(was, State(), late, done, i);
        if TimedOut(requestOutQueue[i], late) {
          requestCancelledQueue := requestCancelledQueue + [requestOutQueue[i]];
          requestOutQueue := requestOutQueue[..i] + requestOutQueue[i + 1..];
        } else {
          i := i + 1;
        }
        done := done + 1;
      }
      ExpiringEnds(was, State(), late, done, i);
    }

    // The timeout of the whole connection, before it closes.
    method GiveUpRequests()
      modifies this
      ensures State() == GiveUp(old(State()))
    {
      requestCancelledQueue := requestCancelledQueue + requestOutQueue;
      requestOutQueue := [];
    }

    method Close()
      modifies this
      ensures State() == PeerSpec.Close(old(State()))
    {
      Connected := false;
      requestOutQueue := [];
      responseInQueue := [];
      requestCancelledQueue := [];
    }
  }

  lemma {:induction false} ExpireOneMore(out: seq<OutRequest>, late: set<BlockInfo>, k: nat)
    requires k < |out|
    ensures InTime(out[..k + 1], late) == InTime(out[..k], late) + if TimedOut(out[k], late) then [] else [out[k]]
    ensures Late(out[..k + 1], late) == Late(out[..k], late) + if TimedOut(out[k], late) then [out[k]] else []
  {
    hide TimedOut;
    assert out[..k + 1][..k] == out[..k] && out[..k + 1][k] == out[k];
  }

  // The loop has dealt with the first done requests and is at position i.
  ghost predicate Expiring(was: PeerState, now: PeerState, late: set<BlockInfo>, done: nat, i: nat) {
    && done <= |was.out| && i == |InTime(was.out[..done], late)|
    && now == was.(out := InTime(was.out[..done], late) + was.out[done..],
                   cancelled := was.cancelled + Late(was.out[..done], late))
  }

  lemma {:induction false} ExpiringStarts(was: PeerState, late: set<BlockInfo>)
    ensures Expiring(was, was, late, 0, 0)
  {
    assert was.out[..0] == [] && [] + was.out == was.out && was.cancelled + [] == was.cancelled;
  }

  lemma {:induction false} ExpiringStep(was: PeerState, now: PeerState, late: set<BlockInfo>, done: nat, i: nat)
    requires Expiring(was, now, late, done, i) && i < |now.out|
    ensures TimedOut(now.out[i], late) ==>
              Expiring(was, now.(out := now.out[..i] + now.out[i + 1..], cancelled := now.cancelled + [now.out[i]]),
                       late, done + 1, i)
    ensures !TimedOut(now.out[i], late) ==> Expiring(was, now, late, done + 1, i + 1)
  {
    var kept, gone, rest := InTime(was.out[..done], late), Late(was.out[..done], late), was.out[done + 1..];
    ExpireOneMore(was.out, late, done);
    hide InTime, Late, TimedOut;
    FirstOfRest(was.out, done);
    TakeOutOf(kept, was.out[done], rest);
    if TimedOut(was.out[done], late) {
      assert kept + [] == kept;
    } else {
      assert gone + [] == gone && kept + ([was.out[done]] + rest) == kept + [was.out[done]] + rest;
    }
  }

  lemma {:induction false} FirstOfRest(out: seq<OutRequest>, k: nat)
    requires k < |out|
    ensures out[k..] == [out[k]] + out[k + 1..]
  {
    assert out[k..][0] == out[k] && out[k..][1..] == out[k + 1..];
  }

  lemma {:induction false} TakeOutOf(kept: seq<OutRequest>, o: OutRequest, rest: seq<OutRequest>)
    ensures var out := kept + ([o] + rest);
            out[|kept|] == o && out[..|kept|] == kept && out[|kept| + 1..] == rest
  {
    assert kept + ([o] + rest) == (kept + [o]) + rest;
  }

  lemma {:induction false} ExpiringEnds(was: PeerState, now: PeerState, late: set<BlockInfo>, done: nat, i: nat)
    requires Expiring(was, now, late, done, i) && i >= |now.out|
    ensures now == Expire(was, late)
  {
    hide InTime, Late;
    assert was.out[..done] == was.out && was.out[done..] == [];
    assert InTime(was.out, late) + [] == InTime(was.out, late);
  }

  // Relevance as a fraction: of the pieces still wanted, how many the peer has.
  datatype Ratio = Ratio(peerHas: nat, want: int)

  // With spare bits zero and a piece still wanted the fraction is in [0, 1]. A peer's
  // bitfield with more bytes than ours is indexed out of range.
  method GetRelevance(remoteBitfield: B.Bitfield, bf: B.Bitfield) returns (r: Checked<Ratio>)
    requires bf.Valid()
    ensures r == if remoteBitfield.Bytes.Length > bf.Bytes.Length then IndexPanic
                 else Returns(Ratio(|remoteBitfield.Members() - bf.Members()|, bf.len - |bf.Members()|))
    ensures r.Returns? && BitfieldSpec.SpareBitsZero(remoteBitfield.Bytes[..], bf.len) &&
            BitfieldSpec.SpareBitsZero(bf.Bytes[..], bf.len) ==>
              && 0 <= r.value.peerHas <= r.value.want
              && (r.value.want > 0 ==> (r.value.peerHas == 0 <==> remoteBitfield.Members() <= bf.Members()))
  {
    hide BitfieldSpec.On;
    var want := bf.len - bf.NumSet;
    var peerHas := remoteBitfield.NumDiff(bf);
    if BitfieldSpec.SpareBitsZero(remoteBitfield.Bytes[..], bf.len) && BitfieldSpec.SpareBitsZero(bf.Bytes[..], bf.len) {
      BitfieldSpec.RelevantAtMostWanted(remoteBitfield.Members(), bf.Members(), bf.len);
    }
    return if peerHas.IndexPanic? then IndexPanic else Returns(Ratio(peerHas.value, want));
  }
}
