// What writing, cancelling and handing out do to the set of blocks that are
// being fetched.
module SessionFetching {
  import opened Common
  import opened PieceSpec
  import opened Requests
  import opened PeerSpec
  import opened QueueSpec
  import opened SessionSpec
  import opened DiskSpec
  import BS = BundleSpec

  // The block of a piece at this offset, of this length, is being fetched.
  predicate FetchingIn(p: PieceState, begin: nat, length: nat)
    requires |p.blocks| == BlockCount(p.length)
  {
    match FindBlock(p.length, begin)
    case None => false
    case Some(j) => p.blocks[j].length == length && p.blocks[j].fetching
  }

  lemma {:induction false} FetchingByPiece(H: Hasher, ps: Pieces, x: BlockInfo)
    requires AllPieceInv(H, ps)
    ensures x.piece < |ps| ==> |ps[x.piece].blocks| == BlockCount(ps[x.piece].length)
    ensures Fetching(ps, x) <==> x.piece < |ps| && FetchingIn(ps[x.piece], x.begin, x.length)
  {
    assert x.piece < |ps| ==> PieceInv(H, ps[x.piece]);
    hide FindBlock, BlockCount, PieceInv;
    if x.piece < |ps| {
      PieceIsTiled(H, ps[x.piece]);
    }
  }

  lemma {:induction false} PieceIsTiled(H: Hasher, p: PieceState)
    requires PieceInv(H, p)
    ensures |p.blocks| == BlockCount(p.length)
  {
  }

  // A block that is being fetched is not refused, and stops being fetched.
  lemma {:induction false} WriteInPiece(H: Hasher, p: PieceState, begin: nat, data: bytes)
    requires PieceInv(H, p) && |p.blocks| == BlockCount(p.length) && FetchingIn(p, begin, |data|)
    ensures Refusal(p, begin, data).None?
    ensures var q := WritePiece(H, p, begin, data);
            && q.length == p.length && |q.blocks| == |p.blocks|
            && forall b, n :: FetchingIn(q, b, n) <==> FetchingIn(p, b, n) && b != begin
  {
    var j := FindBlock(p.length, begin).value;
    var q := WritePiece(H, p, begin, data);
    assert !p.blocks[j].written;
    FindBlockStarts(p.length, begin);
    var stored := Stored(p, j, data);
    if AllWritten(stored) {
      forall k | 0 <= k < |p.blocks|
        ensures !q.blocks[k].fetching && (k != j ==> !p.blocks[k].fetching)
      {
        assert stored[k].written;
      }
    }
    hide PieceInv, BlockCount, AllWritten;
    forall b, n
      ensures FetchingIn(q, b, n) <==> FetchingIn(p, b, n) && b != begin
    {
      FindBlockStarts(p.length, b);
    }
  }

  lemma {:induction false} FindBlockStarts(length: nat, begin: nat)
    ensures FindBlock(length, begin).Some? ==> begin == FindBlock(length, begin).value * MAX_BLOCK_LENGTH
  {
    BlocksTileThePiece(length);
  }

  lemma {:induction false} CancelInPiece(p: PieceState, begin: nat)
    requires |p.blocks| == BlockCount(p.length)
    ensures var q := CancelPiece(p, begin);
            && q.length == p.length && |q.blocks| == |p.blocks|
            && forall b, n :: FetchingIn(q, b, n) <==> FetchingIn(p, b, n) && b != begin
  {
    FindBlockStarts(p.length, begin);
    hide BlockCount;
    forall b, n
      ensures FetchingIn(CancelPiece(p, begin), b, n) <==> FetchingIn(p, b, n) && b != begin
    {
      FindBlockStarts(p.length, b);
    }
  }

  // No block but the one at this offset of this piece changes.
  ghost predicate StopsFetching(ps: Pieces, qs: Pieces, i: nat, begin: nat) {
    forall x :: Fetching(qs, x) <==> Fetching(ps, x) && !(x.piece == i && x.begin == begin)
  }

  lemma {:induction false} OnePieceStops(H: Hasher, ps: Pieces, i: nat, q: PieceState, begin: nat)
    requires StoreInv(H, ps) && i < |ps| && PieceInv(H, q) && q.length == ps[i].length
    requires |ps[i].blocks| == BlockCount(ps[i].length) && |q.blocks| == BlockCount(q.length)
    requires forall b, n :: FetchingIn(q, b, n) <==> FetchingIn(ps[i], b, n) && b != begin
    ensures StoreInv(H, ps[i := q]) && StopsFetching(ps, ps[i := q], i, begin)
  {
    hide PieceInv, FetchingIn, BlockCount, Fetching;
    var qs := ps[i := q];
    assert AllPieceInv(H, qs);
    forall x
      ensures Fetching(qs, x) <==> Fetching(ps, x) && !(x.piece == i && x.begin == begin)
    {
      FetchingByPiece(H, ps, x);
      FetchingByPiece(H, qs, x);
    }
  }

  // Names of blocks with the same piece and offset are equal.
  lemma {:induction false} OneName(ps: Pieces, x: BlockInfo, y: BlockInfo)
    requires Fetching(ps, x) && Fetching(ps, y) && x.piece == y.piece && x.begin == y.begin
    ensures x == y
  {
  }

  lemma {:induction false} FetchedPiece(H: Hasher, ps: Pieces, x: BlockInfo)
    requires StoreInv(H, ps) && Fetching(ps, x)
    ensures x.piece < |ps| && PieceInv(H, ps[x.piece]) && |ps[x.piece].blocks| == BlockCount(ps[x.piece].length)
    ensures FetchingIn(ps[x.piece], x.begin, x.length)
    ensures Fits32(x)
  {
    FetchingByPiece(H, ps, x);
    hide PieceInv, BlockCount;
  }

  lemma {:induction false} CancelStops(H: Hasher, b: BS.BundleState, i: nat, begin: nat)
    requires StoreInv(H, b.pieces) && HasPiece(b, i)
    ensures StoreInv(H, BS.AfterCancel(b, i, begin).pieces)
    ensures StopsFetching(b.pieces, BS.AfterCancel(b, i, begin).pieces, i, begin)
  {
    assert PieceInv(H, b.pieces[i]);
    CancelKeepsPieceInv(H, b.pieces[i], begin);
    CancelInPiece(b.pieces[i], begin);
    hide PieceInv, CancelPiece, FetchingIn, BlockCount;
    OnePieceStops(H, b.pieces, i, CancelPiece(b.pieces[i], begin), begin);
  }

  lemma {:induction false} WriteStops(H: Hasher, b: BS.BundleState, r: BlockResponse, fate: DiskFate)
    requires StoreInv(H, b.pieces) && Fetching(b.pieces, Named(r))
    ensures HasPiece(b, r.piece) && Refusal(b.pieces[r.piece], r.begin, r.block).None?
    ensures var w := BS.AfterWrite(H, b, r.piece, r.begin, r.block, fate);
            && StoreInv(H, w.pieces) && HasPiece(w, r.piece)
            && StopsFetching(b.pieces, w.pieces, r.piece, r.begin)
  {
    FetchedPiece(H, b.pieces, Named(r));
    var p := b.pieces[r.piece];
    var q := WritePiece(H, p, r.begin, r.block);
    WriteInPiece(H, p, r.begin, r.block);
    WriteKeepsPieceInv(H, p, r.begin, r.block);
    PieceIsTiled(H, q);
    BS.WrittenPieces(H, b, r.piece, r.begin, r.block, fate);
    hide PieceInv, WritePiece, FetchingIn, BlockCount, BS.AfterWrite, StoreInv, Refusal, Fetching;
    OnePieceStops(H, b.pieces, r.piece, q, r.begin);
  }

  // A response to a request that is being fetched is never refused; whether or
  // not the disk takes the piece, its block, and only that, stops being fetched.
  lemma {:induction false} ReceiveStops(H: Hasher, b: BS.BundleState, r: BlockResponse, fate: DiskFate)
    requires StoreInv(H, b.pieces) && Fetching(b.pieces, Named(r))
    ensures HasPiece(b, r.piece) && Refusal(b.pieces[r.piece], r.begin, r.block).None?
    ensures StoreInv(H, Receive(H, b, r, fate).pieces)
    ensures forall x :: Fetching(Receive(H, b, r, fate).pieces, x) <==> Fetching(b.pieces, x) && x != Named(r)
  {
    WriteStops(H, b, r, fate);
    var w := BS.AfterWrite(H, b, r.piece, r.begin, r.block, fate);
    CancelStops(H, w, r.piece, r.begin);
    var after := Receive(H, b, r, fate);
    assert after == w || after == BS.AfterCancel(w, r.piece, r.begin) by {
      hide BS.AfterWrite, BS.WriteResult;
    }
    hide BS.AfterWrite, Receive, BS.AfterCancel, StoreInv, Refusal, Fetching;
    forall x
      ensures Fetching(after.pieces, x) <==> Fetching(b.pieces, x) && x != Named(r)
    {
      if Fetching(b.pieces, x) && x.piece == r.piece && x.begin == r.begin {
        OneName(b.pieces, x, Named(r));
      }
    }
  }

  lemma {:induction false} NextFetches(H: Hasher, b: BS.BundleState, n: nat)
    requires StoreInv(H, b.pieces) && n >= 1
    ensures StoreInv(H, BS.AfterNext(b, n).pieces)
    ensures |NextBlocks(b.pieces, n)| <= n && Distinct(NextBlocks(b.pieces, n))
    ensures forall x :: x in NextBlocks(b.pieces, n) ==> !Fetching(b.pieces, x)
    ensures forall x :: Fetching(BS.AfterNext(b, n).pieces, x) <==> Fetching(b.pieces, x) || x in NextBlocks(b.pieces, n)
  {
    var infos := NextBlocks(b.pieces, n);
    BS.NextAreIdle(H, b.pieces, n);
    NextBlocksAreTheFirstIdle(H, b.pieces, n);
    MarkFetchingMarks(H, b.pieces, infos);
    hide NextBlocks, MarkFetching, BlockOf, PieceInv;
    MarkedLengths(b.pieces, infos);
  }

  lemma {:induction false} MarkedLengths(ps: Pieces, infos: seq<BlockInfo>)
    requires Narrow(ps)
    ensures Narrow(MarkFetching(ps, infos))
  {
  }

  // Cancelling every block of the queue stops exactly those.
  lemma {:induction false} CancelQueuedStops(H: Hasher, b: BS.BundleState, q: Queue)
    requires StoreInv(H, b.pieces) && forall k :: 0 <= k < |q| ==> Fetching(b.pieces, q[k].info)
    ensures StoreInv(H, CancelQueued(b, q).pieces)
    ensures forall x :: Fetching(CancelQueued(b, q).pieces, x) <==> Fetching(b.pieces, x) && !Listed(q, x)
    decreases |q|
  {
    if q == [] {
      assert forall x :: !Listed(q, x);
    } else {
      var rest, last := q[..|q| - 1], q[|q| - 1].info;
      CancelQueuedStops(H, b, rest);
      ListedLast(q);
      var before := CancelQueued(b, rest);
      FetchingByPiece(H, b.pieces, last);
      CancelLast(H, b, before, rest, last);
      hide Fetching, Listed, StoreInv;
    }
  }

  lemma {:induction false} CancelLast(H: Hasher, b: BS.BundleState, before: BS.BundleState, rest: Queue, last: BlockInfo)
    requires StoreInv(H, b.pieces) && StoreInv(H, before.pieces) && Fetching(b.pieces, last)
    requires forall x :: Fetching(before.pieces, x) <==> Fetching(b.pieces, x) && !Listed(rest, x)
    ensures var after := if HasPiece(before, last.piece) then BS.AfterCancel(before, last.piece, last.begin) else before;
            && StoreInv(H, after.pieces)
            && forall x :: Fetching(after.pieces, x) <==> Fetching(b.pieces, x) && !Listed(rest, x) && x != last
  {
    forall x: BlockInfo | x.piece == last.piece && x.begin == last.begin && Fetching(b.pieces, x)
      ensures x == last
    {
      OneName(b.pieces, x, last);
    }
    if HasPiece(before, last.piece) {
      CancelStops(H, before, last.piece, last.begin);
    } else {
      FetchingByPiece(H, before.pieces, last);
    }
    hide Listed, StoreInv, BS.AfterCancel, Fetching;
  }

  lemma {:induction false} ListedLast(q: Queue)
    requires q != []
    ensures forall x :: Listed(q, x) <==> Listed(q[..|q| - 1], x) || x == q[|q| - 1].info
  {
    var rest := q[..|q| - 1];
    forall x | Listed(q, x) && x != q[|q| - 1].info
      ensures Listed(rest, x)
    {
      var k :| 0 <= k < |q| && q[k].info == x;
      assert rest[k].info == x;
    }
    forall x | Listed(rest, x)
      ensures Listed(q, x)
    {
      var k :| 0 <= k < |rest| && rest[k].info == x;
      assert q[k].info == x;
    }
  }
}
