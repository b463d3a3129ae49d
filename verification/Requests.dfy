// Which blocks of the bundle are handed out next, and which are being fetched.
module Requests {
  import opened Common
  import opened PieceSpec

  datatype BlockInfo = BlockInfo(piece: nat, begin: nat, length: nat)

  type Pieces = seq<PieceState>

  function InfoOf(ps: Pieces, i: nat, j: nat): BlockInfo
    requires i < |ps| && j < |ps[i].blocks|
  {
    BlockInfo(i, BlockStart(ps[i].length, j), ps[i].blocks[j].length)
  }

  // The idle blocks of piece i before block j.
  function IdleIn(ps: Pieces, i: nat, j: nat): seq<BlockInfo>
    requires i < |ps| && j <= |ps[i].blocks|
  {
    if j == 0 then []
    else IdleIn(ps, i, j - 1) + if ps[i].blocks[j - 1].Idle() then [InfoOf(ps, i, j - 1)] else []
  }

  // The idle blocks of the pieces before piece i; complete pieces are skipped.
  function IdleBefore(ps: Pieces, i: nat): seq<BlockInfo>
    requires i <= |ps|
  {
    if i == 0 then []
    else IdleBefore(ps, i - 1) + if ps[i - 1].complete then [] else IdleIn(ps, i - 1, |ps[i - 1].blocks|)
  }

  function AllIdle(ps: Pieces): seq<BlockInfo> {
    IdleBefore(ps, |ps|)
  }

  // The first piece that is not complete starts with an idle block.
  predicate StartsIdle(ps: Pieces) {
    exists i :: 0 <= i < |ps| && !ps[i].complete
             && (forall k :: 0 <= k < i ==> ps[k].complete)
             && ps[i].blocks != [] && ps[i].blocks[0].Idle()
  }

  // The limit is compared for equality after each append, so a negative limit is
  // none at all, and 0 stops the search only before its first block.
  function NextBlocks(ps: Pieces, limit: int): seq<BlockInfo> {
    if limit > 0 then Take(AllIdle(ps), limit)
    else if limit == 0 && !StartsIdle(ps) then []
    else AllIdle(ps)
  }

  function MarkFetching(ps: Pieces, infos: seq<BlockInfo>): (r: Pieces)
    ensures |r| == |ps|
  {
    seq(|ps|, i requires 0 <= i < |ps| =>
      ps[i].(blocks := seq(|ps[i].blocks|, j requires 0 <= j < |ps[i].blocks| =>
        ps[i].blocks[j].(fetching := ps[i].blocks[j].fetching || InfoOf(ps, i, j) in infos))))
  }

  // The block a request names, if it names one.
  function BlockOf(ps: Pieces, info: BlockInfo): Option<BlockState> {
    if info.piece < |ps| && |ps[info.piece].blocks| == BlockCount(ps[info.piece].length) then
      match FindBlock(ps[info.piece].length, info.begin)
      case None => None
      case Some(j) =>
        if ps[info.piece].blocks[j].length == info.length then Some(ps[info.piece].blocks[j]) else None
    else None
  }

  predicate Fetching(ps: Pieces, info: BlockInfo) {
    BlockOf(ps, info).Some? && BlockOf(ps, info).value.fetching
  }

  predicate IsIdle(ps: Pieces, info: BlockInfo) {
    BlockOf(ps, info).Some? && BlockOf(ps, info).value.Idle()
  }

  ghost predicate AllPieceInv(H: Hasher, ps: Pieces) {
    forall i :: 0 <= i < |ps| ==> PieceInv(H, ps[i])
  }

  ghost predicate Earlier(a: BlockInfo, b: BlockInfo) {
    a.piece < b.piece || (a.piece == b.piece && a.begin < b.begin)
  }

  ghost predicate InOrder(infos: seq<BlockInfo>) {
    forall a, b :: 0 <= a < b < |infos| ==> Earlier(infos[a], infos[b])
  }

  // ----- the idle blocks, listed in order -----

  // Blocks and the requests that name them correspond one to one.
  lemma {:induction false} InfoNamesBlock(ps: Pieces, i: nat, j: nat)
    requires i < |ps| && Tiled(ps[i].blocks, ps[i].length) && j < |ps[i].blocks|
    ensures BlockOf(ps, InfoOf(ps, i, j)) == Some(ps[i].blocks[j])
  {
    FindBlockAtStart(ps[i].length, j);
  }

  lemma {:induction false} NamedBetween(ps: Pieces, i: nat, j: nat, info: BlockInfo)
    requires i < |ps| && Tiled(ps[i].blocks, ps[i].length) && j < |ps[i].blocks|
    requires info.piece == i && BlockOf(ps, info).Some?
    requires BlockStart(ps[i].length, j) <= info.begin < BlockStart(ps[i].length, j + 1)
    ensures info == InfoOf(ps, i, j)
  {
    var m := FindBlock(ps[i].length, info.begin).value;
    assert m == j by {
      BlocksTileThePiece(ps[i].length);
      assert info.begin == m * MAX_BLOCK_LENGTH;
      assert BlockStart(ps[i].length, j) == j * MAX_BLOCK_LENGTH;
      assert BlockStart(ps[i].length, j + 1) <= (j + 1) * MAX_BLOCK_LENGTH;
    }
  }

  lemma {:induction false} InOrderAppend(infos: seq<BlockInfo>, more: seq<BlockInfo>)
    requires InOrder(infos) && InOrder(more)
    requires forall a, b :: a in infos && b in more ==> Earlier(a, b)
    ensures InOrder(infos + more)
  {
  }

  ghost predicate ListsIdleIn(infos: seq<BlockInfo>, ps: Pieces, i: nat, below: nat) {
    && InOrder(infos)
    && forall info :: info in infos <==> info.piece == i && info.begin < below && IsIdle(ps, info)
  }

  lemma {:induction false} IdleInLists(ps: Pieces, i: nat, j: nat)
    requires i < |ps| && Tiled(ps[i].blocks, ps[i].length) && j <= |ps[i].blocks|
    ensures ListsIdleIn(IdleIn(ps, i, j), ps, i, BlockStart(ps[i].length, j))
  {
    if j > 0 {
      IdleInLists(ps, i, j - 1);
      var before, here := IdleIn(ps, i, j - 1), InfoOf(ps, i, j - 1);
      var last := if ps[i].blocks[j - 1].Idle() then [here] else [];
      ListsOneMore(ps, i, j - 1, before, last);
    }
  }

  lemma {:induction false} ListsOneMore(ps: Pieces, i: nat, j: nat, before: seq<BlockInfo>, last: seq<BlockInfo>)
    requires i < |ps| && Tiled(ps[i].blocks, ps[i].length) && j < |ps[i].blocks|
    requires ListsIdleIn(before, ps, i, BlockStart(ps[i].length, j))
    requires last == if ps[i].blocks[j].Idle() then [InfoOf(ps, i, j)] else []
    ensures ListsIdleIn(before + last, ps, i, BlockStart(ps[i].length, j + 1))
  {
    var from, to := BlockStart(ps[i].length, j), BlockStart(ps[i].length, j + 1);
    InfoNamesBlock(ps, i, j);
    assert from < to by {
      BlocksTileThePiece(ps[i].length);
    }
    assert InfoOf(ps, i, j).begin == from;
    forall info: BlockInfo
      ensures info in last <==> info.piece == i && from <= info.begin < to && IsIdle(ps, info)
    {
      if info.piece == i && from <= info.begin < to && IsIdle(ps, info) {
        NamedBetween(ps, i, j, info);
      }
    }
    hide IsIdle;
    InOrderAppend(before, last);
  }

  ghost predicate ListsIdle(infos: seq<BlockInfo>, ps: Pieces, below: nat) {
    && InOrder(infos)
    && forall info :: info in infos <==> info.piece < below && IsIdle(ps, info)
  }

  lemma {:induction false} IdleInPiece(H: Hasher, ps: Pieces, i: nat, infos: seq<BlockInfo>)
    requires i < |ps| && PieceInv(H, ps[i])
    requires infos == if ps[i].complete then [] else IdleIn(ps, i, |ps[i].blocks|)
    ensures InOrder(infos)
    ensures forall info :: info in infos <==> info.piece == i && IsIdle(ps, info)
  {
    IdleInLists(ps, i, |ps[i].blocks|);
    BlocksTileThePiece(ps[i].length);
    forall info: BlockInfo | info.piece == i && IsIdle(ps, info)
      ensures info.begin < ps[i].length && !ps[i].complete
    {
      assert !ps[i].blocks[FindBlock(ps[i].length, info.begin).value].written;
    }
  }

  lemma {:induction false} IdleBeforeLists(H: Hasher, ps: Pieces, i: nat)
    requires AllPieceInv(H, ps) && i <= |ps|
    ensures ListsIdle(IdleBefore(ps, i), ps, i)
  {
    hide PieceInv, IsIdle, IdleIn, InOrder;
    if i == 0 {
      NoneListed(ps);
    } else {
      IdleBeforeLists(H, ps, i - 1);
      var here := if ps[i - 1].complete then [] else IdleIn(ps, i - 1, |ps[i - 1].blocks|);
      IdleInPiece(H, ps, i - 1, here);
      ListsAppend(ps, i - 1, IdleBefore(ps, i - 1), here);
    }
  }

  lemma {:induction false} NoneListed(ps: Pieces)
    ensures ListsIdle([], ps, 0)
  {
  }

  lemma {:induction false} ListsAppend(ps: Pieces, i: nat, before: seq<BlockInfo>, here: seq<BlockInfo>)
    requires ListsIdle(before, ps, i) && InOrder(here)
    requires forall info :: info in here <==> info.piece == i && IsIdle(ps, info)
    ensures ListsIdle(before + here, ps, i + 1)
  {
    hide IsIdle;
    InOrderAppend(before, here);
  }

  lemma {:induction false} IdleBlocksExist(ps: Pieces, info: BlockInfo)
    requires IsIdle(ps, info)
    ensures info.piece < |ps|
  {
  }

  lemma {:induction false} TakeIs<T>(s: seq<T>, n: nat)
    ensures |Take(s, n)| == Min(n, |s|)
    ensures forall m :: 0 <= m < |Take(s, n)| ==> Take(s, n)[m] == s[m]
    ensures forall x :: x in Take(s, n) ==> x in s
  {
  }

  // A positive limit n hands out the first min(n, idle) idle blocks in order of
  // piece and offset, and nothing else.
  lemma {:induction false} NextBlocksAreTheFirstIdle(H: Hasher, ps: Pieces, n: nat)
    requires AllPieceInv(H, ps) && n >= 1
    ensures var next := NextBlocks(ps, n);
            && InOrder(next)
            && |next| == Min(n, |AllIdle(ps)|)
            && (forall info :: info in next ==> IsIdle(ps, info))
            && (forall info :: IsIdle(ps, info) && info !in next ==>
                  |next| == n && forall other :: other in next ==> Earlier(other, info))
  {
    IdleBeforeLists(H, ps, |ps|);
    hide PieceInv, IsIdle, IdleBefore, StartsIdle;
    var all, next := AllIdle(ps), NextBlocks(ps, n);
    TakeIs(all, n);
    forall info | IsIdle(ps, info) && info !in next
      ensures |next| == n && forall other :: other in next ==> Earlier(other, info)
    {
      IdleBlocksExist(ps, info);
      var k :| 0 <= k < |all| && all[k] == info;
      assert k >= |next|;
      hide Earlier, Take;
    }
  }

  // A negative limit is none: every idle block, in order.
  lemma {:induction false} NoLimit(H: Hasher, ps: Pieces, n: int)
    requires AllPieceInv(H, ps) && n < 0
    ensures InOrder(NextBlocks(ps, n)) && forall info :: info in NextBlocks(ps, n) <==> IsIdle(ps, info)
  {
    IdleBeforeLists(H, ps, |ps|);
    hide PieceInv, IsIdle, IdleBefore, StartsIdle;
    forall info | IsIdle(ps, info)
      ensures info.piece < |ps|
    {
      IdleBlocksExist(ps, info);
    }
  }

  // A limit of 0 hands out nothing exactly when nothing is idle or the first
  // incomplete piece does not start with an idle block; otherwise everything.
  lemma {:induction false} ZeroLimit(ps: Pieces)
    ensures NextBlocks(ps, 0) == [] <==> AllIdle(ps) == [] || !StartsIdle(ps)
    ensures NextBlocks(ps, 0) != [] ==> NextBlocks(ps, 0) == AllIdle(ps)
  {
  }

  // Handing out blocks marks exactly those, and changes nothing else.
  ghost predicate Marked(ps: Pieces, r: Pieces, infos: seq<BlockInfo>) {
    && |r| == |ps|
    && (forall i :: 0 <= i < |ps| ==> r[i].(blocks := ps[i].blocks) == ps[i] && |r[i].blocks| == |ps[i].blocks|)
    && (forall i, j :: 0 <= i < |ps| && 0 <= j < |ps[i].blocks| ==>
          r[i].blocks[j] == ps[i].blocks[j].(fetching := ps[i].blocks[j].fetching || InfoOf(ps, i, j) in infos))
  }

  lemma {:induction false} MarkFetchingMarks(H: Hasher, ps: Pieces, infos: seq<BlockInfo>)
    requires AllPieceInv(H, ps) && forall info :: info in infos ==> IsIdle(ps, info)
    ensures var r := MarkFetching(ps, infos);
            && Marked(ps, r, infos)
            && AllPieceInv(H, r)
            && (forall info :: Fetching(r, info) <==> Fetching(ps, info) || info in infos)
  {
    var r := MarkFetching(ps, infos);
    assert Marked(ps, r, infos);
    forall i | 0 <= i < |ps|
      ensures PieceInv(H, r[i])
    {
      forall j | 0 <= j < |ps[i].blocks| && ps[i].blocks[j].written
        ensures r[i].blocks[j] == ps[i].blocks[j]
      {
        InfoNamesBlock(ps, i, j);
      }
      MarkKeepsPieceInv(H, ps[i], r[i]);
    }
    forall info
      ensures Fetching(r, info) <==> Fetching(ps, info) || info in infos
    {
      MarkedFetching(ps, r, infos, info);
    }
  }

  lemma {:induction false} MarkedFetching(ps: Pieces, r: Pieces, infos: seq<BlockInfo>, info: BlockInfo)
    requires Marked(ps, r, infos)
    requires forall info :: info in infos ==> IsIdle(ps, info)
    ensures Fetching(r, info) <==> Fetching(ps, info) || info in infos
  {
    if BlockOf(ps, info).Some? {
      var j := FindBlock(ps[info.piece].length, info.begin).value;
      assert info == InfoOf(ps, info.piece, j);
      assert r[info.piece].blocks[j].length == info.length;
    } else if info.piece < |ps| && FindBlock(ps[info.piece].length, info.begin).Some? {
      var j := FindBlock(ps[info.piece].length, info.begin).value;
      if j < |ps[info.piece].blocks| {
        assert r[info.piece].blocks[j].length == ps[info.piece].blocks[j].length;
      }
    }
  }

  lemma {:induction false} MarkKeepsPieceInv(H: Hasher, p: PieceState, q: PieceState)
    requires PieceInv(H, p)
    requires q.(blocks := p.blocks) == p && |q.blocks| == |p.blocks|
    requires forall j :: 0 <= j < |p.blocks| ==>
               && q.blocks[j].(fetching := p.blocks[j].fetching) == p.blocks[j]
               && (p.blocks[j].written ==> q.blocks[j] == p.blocks[j])
    ensures PieceInv(H, q)
  {
    assert forall j :: 0 <= j < |p.blocks| ==>
        q.blocks[j].written == p.blocks[j].written && q.blocks[j].data == p.blocks[j].data
        && q.blocks[j].length == p.blocks[j].length;
    SameData(p.blocks, q.blocks);
  }

  // ----- the search, block by block -----

  // Every idle block before block j of piece i; the piece is not complete.
  function IdleUpTo(ps: Pieces, i: nat, j: nat): seq<BlockInfo>
    requires i < |ps| && j <= |ps[i].blocks|
  {
    IdleBefore(ps, i) + IdleIn(ps, i, j)
  }

  // The search for limit blocks has not stopped before block j of piece i.
  ghost predicate GoesOn(ps: Pieces, limit: int, found: seq<BlockInfo>, i: nat, j: nat)
    requires i <= |ps|
  {
    && (limit > 0 ==> |found| < limit)
    && (limit == 0 && found != [] ==> StartsIdle(ps))
    && (limit == 0 && found == [] ==> j == 0 && forall k :: 0 <= k < i ==> ps[k].complete)
  }

  lemma {:induction false} IdleInPrefix(ps: Pieces, i: nat, j: nat, m: nat)
    requires i < |ps| && j <= m <= |ps[i].blocks|
    ensures IdleIn(ps, i, j) <= IdleIn(ps, i, m)
    decreases m
  {
    if j < m {
      IdleInPrefix(ps, i, j, m - 1);
    }
  }

  lemma {:induction false} IdleBeforePrefix(ps: Pieces, i: nat, m: nat)
    requires i <= m <= |ps|
    ensures IdleBefore(ps, i) <= IdleBefore(ps, m)
    decreases m
  {
    hide IdleIn;
    if i < m {
      IdleBeforePrefix(ps, i, m - 1);
    }
  }

  lemma {:induction false} IdleUpToPrefix(ps: Pieces, i: nat, j: nat)
    requires i < |ps| && j <= |ps[i].blocks| && !ps[i].complete
    ensures IdleUpTo(ps, i, j) <= AllIdle(ps)
  {
    IdleInPrefix(ps, i, j, |ps[i].blocks|);
    IdleBeforePrefix(ps, i + 1, |ps|);
    assert IdleUpTo(ps, i, j) <= IdleBefore(ps, i + 1);
  }

  lemma {:induction false} StopsThere(ps: Pieces, limit: int, found: seq<BlockInfo>)
    requires found <= AllIdle(ps) && |found| == limit && (limit == 0 ==> !StartsIdle(ps))
    ensures found == NextBlocks(ps, limit)
  {
    hide StartsIdle, IdleBefore;
  }

  lemma {:induction false} OneMoreIdle(ps: Pieces, i: nat, j: nat)
    requires i < |ps| && j < |ps[i].blocks|
    ensures IdleUpTo(ps, i, j + 1)
         == IdleUpTo(ps, i, j) + if ps[i].blocks[j].Idle() then [InfoOf(ps, i, j)] else []
  {
    hide IdleBefore;
  }

  // Looking at one block: the search stops with the result, or goes on.
  lemma {:induction false} LookAtBlock(ps: Pieces, limit: int, i: nat, j: nat)
    requires i < |ps| && j < |ps[i].blocks| && !ps[i].complete
    requires GoesOn(ps, limit, IdleUpTo(ps, i, j), i, j)
    ensures IdleUpTo(ps, i, j + 1)
         == IdleUpTo(ps, i, j) + if ps[i].blocks[j].Idle() then [InfoOf(ps, i, j)] else []
    ensures if |IdleUpTo(ps, i, j + 1)| == limit then IdleUpTo(ps, i, j + 1) == NextBlocks(ps, limit)
            else GoesOn(ps, limit, IdleUpTo(ps, i, j + 1), i, j + 1)
  {
    hide IdleBefore, IdleIn, IdleUpTo, AllIdle, NextBlocks;
    var found := IdleUpTo(ps, i, j + 1);
    IdleUpToPrefix(ps, i, j + 1);
    OneMoreIdle(ps, i, j);
    if |found| == limit {
      StopsThere(ps, limit, found);
    }
  }

  lemma {:induction false} PieceIdle(ps: Pieces, i: nat)
    requires i < |ps| && !ps[i].complete
    ensures IdleUpTo(ps, i, |ps[i].blocks|) == IdleBefore(ps, i + 1)
  {
    hide IdleIn;
  }

  // After the last block of a piece; one without blocks stops a search for none.
  lemma {:induction false} PieceDone(ps: Pieces, limit: int, i: nat)
    requires i < |ps| && !ps[i].complete
    requires GoesOn(ps, limit, IdleUpTo(ps, i, |ps[i].blocks|), i, |ps[i].blocks|)
    ensures IdleUpTo(ps, i, |ps[i].blocks|) == IdleBefore(ps, i + 1)
    ensures if |IdleBefore(ps, i + 1)| == limit then IdleBefore(ps, i + 1) == NextBlocks(ps, limit)
            else GoesOn(ps, limit, IdleBefore(ps, i + 1), i + 1, 0)
  {
    PieceIdle(ps, i);
    IdleBeforePrefix(ps, i + 1, |ps|);
    hide IdleBefore, IdleIn, IdleUpTo, NextBlocks;
    if |IdleBefore(ps, i + 1)| == limit {
      StopsThere(ps, limit, IdleBefore(ps, i + 1));
    }
  }

  lemma {:induction false} PieceSkipped(ps: Pieces, limit: int, i: nat)
    requires i < |ps| && ps[i].complete && GoesOn(ps, limit, IdleBefore(ps, i), i, 0)
    ensures IdleBefore(ps, i + 1) == IdleBefore(ps, i)
    ensures GoesOn(ps, limit, IdleBefore(ps, i + 1), i + 1, 0)
  {
  }

  lemma {:induction false} SearchDone(ps: Pieces, limit: int)
    requires GoesOn(ps, limit, AllIdle(ps), |ps|, 0)
    ensures AllIdle(ps) == NextBlocks(ps, limit)
  {
  }

  lemma {:induction false} MarkNone(ps: Pieces)
    ensures MarkFetching(ps, []) == ps
  {
    var r := MarkFetching(ps, []);
    forall i | 0 <= i < |ps|
      ensures r[i] == ps[i]
    {
      assert r[i].blocks == ps[i].blocks;
    }
  }

  function WithFetching(ps: Pieces, i: nat, j: nat): Pieces
    requires i < |ps| && j < |ps[i].blocks|
  {
    ps[i := ps[i].(blocks := ps[i].blocks[j := ps[i].blocks[j].(fetching := true)])]
  }

  // Marking one more block.
  lemma {:induction false} MarkOneMore(ps: Pieces, infos: seq<BlockInfo>, i: nat, j: nat)
    requires i < |ps| && j < |ps[i].blocks| && Tiled(ps[i].blocks, ps[i].length)
    ensures MarkFetching(ps, infos + [InfoOf(ps, i, j)]) == WithFetching(MarkFetching(ps, infos), i, j)
  {
    var info := InfoOf(ps, i, j);
    var r, q := MarkFetching(ps, infos), MarkFetching(ps, infos + [info]);
    forall k, m | 0 <= k < |ps| && 0 <= m < |ps[k].blocks| && InfoOf(ps, k, m) == info
      ensures k == i && m == j
    {
      FindBlockAtStart(ps[i].length, j);
      FindBlockAtStart(ps[i].length, m);
    }
    assert forall x :: x in infos + [info] <==> x in infos || x == info;
    forall k | 0 <= k < |ps|
      ensures q[k] == WithFetching(r, i, j)[k]
    {
      if k == i {
        assert q[i].blocks == r[i].blocks[j := r[i].blocks[j].(fetching := true)];
      } else {
        assert q[k].blocks == r[k].blocks;
      }
    }
  }

  lemma {:induction false} SearchStarts(ps: Pieces, limit: int)
    ensures IdleBefore(ps, 0) == [] && GoesOn(ps, limit, [], 0, 0)
  {
  }

  lemma {:induction false} NoneYet(ps: Pieces, i: nat)
    requires i < |ps|
    ensures IdleUpTo(ps, i, 0) == IdleBefore(ps, i)
  {
  }

  // Marking leaves everything but the marks alone.
  lemma {:induction false} MarkedPieces(ps: Pieces, infos: seq<BlockInfo>)
    ensures Marked(ps, MarkFetching(ps, infos), infos)
  {
  }

  // A block that is searched later is not marked yet.
  lemma {:induction false} MarkedBlock(ps: Pieces, found: seq<BlockInfo>, i: nat, j: nat)
    requires i < |ps| && j < |ps[i].blocks| && Tiled(ps[i].blocks, ps[i].length)
    requires found == IdleUpTo(ps, i, j)
    ensures |MarkFetching(ps, found)[i].blocks| == |ps[i].blocks|
    ensures MarkFetching(ps, found)[i].blocks[j] == ps[i].blocks[j]
  {
    LaterNotFound(ps, i, j, j);
    EarlierPieces(ps, i);
    assert InfoOf(ps, i, j) !in found;
  }

  lemma {:induction false} LaterNotFound(ps: Pieces, i: nat, j: nat, m: nat)
    requires i < |ps| && m <= j < |ps[i].blocks| && Tiled(ps[i].blocks, ps[i].length)
    ensures InfoOf(ps, i, j) !in IdleIn(ps, i, m)
  {
    if m > 0 {
      LaterNotFound(ps, i, j, m - 1);
      BlocksTileThePiece(ps[i].length);
      assert InfoOf(ps, i, m - 1).begin < InfoOf(ps, i, j).begin;
    }
  }

  lemma {:induction false} IdleInPieceIs(ps: Pieces, i: nat, j: nat)
    requires i < |ps| && j <= |ps[i].blocks|
    ensures forall info :: info in IdleIn(ps, i, j) ==> info.piece == i
  {
    if j > 0 {
      IdleInPieceIs(ps, i, j - 1);
    }
  }

  lemma {:induction false} EarlierPieces(ps: Pieces, i: nat)
    requires i <= |ps|
    ensures forall info :: info in IdleBefore(ps, i) ==> info.piece < i
  {
    if i > 0 {
      EarlierPieces(ps, i - 1);
      IdleInPieceIs(ps, i - 1, |ps[i - 1].blocks|);
    }
  }
}
