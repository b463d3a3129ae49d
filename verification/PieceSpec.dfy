// What one piece of the download is: a run of blocks, each idle, being fetched
// or written, and a flag that says the whole piece has passed its hash check.
module PieceSpec {
  import opened Common

  const MAX_BLOCK_LENGTH: nat := 16384

  datatype BlockState = BlockState(length: nat, written: bool, fetching: bool, data: bytes) {
    predicate Idle() {
      !written && !fetching
    }
  }

  datatype PieceState = PieceState(blocks: seq<BlockState>, complete: bool, hash: bytes, length: nat, offset: nat)

  datatype WriteError = CouldNotFindBlock | AlreadyWritten | LengthIncorrect | DiskFailure

  // ----- tiling of a piece into blocks -----

  function BlockCount(length: nat): nat {
    (length + MAX_BLOCK_LENGTH - 1) / MAX_BLOCK_LENGTH
  }

  function BlockStart(length: nat, j: nat): nat {
    Min(j * MAX_BLOCK_LENGTH, length)
  }

  function BlockLength(length: nat, j: nat): nat {
    BlockStart(length, j + 1) - BlockStart(length, j)
  }

  ghost predicate Tiled(blocks: seq<BlockState>, length: nat) {
    && |blocks| == BlockCount(length)
    && forall j :: 0 <= j < |blocks| ==> blocks[j].length == BlockLength(length, j)
  }

  // Blocks are non-empty, at most 16 KiB, and together cover the piece exactly.
  lemma BlocksTileThePiece(length: nat)
    ensures BlockStart(length, 0) == 0 && BlockStart(length, BlockCount(length)) == length
    ensures forall j: nat :: j < BlockCount(length) ==>
              && 1 <= BlockLength(length, j) <= MAX_BLOCK_LENGTH
              && BlockStart(length, j) == j * MAX_BLOCK_LENGTH < length
    ensures forall j: nat :: j + 1 < BlockCount(length) ==> BlockLength(length, j) == MAX_BLOCK_LENGTH
  {
    var n := BlockCount(length);
    assert (n - 1) * MAX_BLOCK_LENGTH < length <= n * MAX_BLOCK_LENGTH;
  }

  // The block that starts before the end of the piece, cut off at the end.
  lemma {:induction false} NextBlockLength(length: nat, j: nat)
    requires BlockStart(length, j) < length
    ensures j < BlockCount(length)
    ensures BlockLength(length, j) == if BlockStart(length, j) + MAX_BLOCK_LENGTH > length
                                      then length - BlockStart(length, j) else MAX_BLOCK_LENGTH
    ensures BlockStart(length, j + 1) == BlockStart(length, j) + BlockLength(length, j)
  {
  }

  lemma {:induction false} NoNextBlock(length: nat, j: nat)
    requires j <= BlockCount(length) && BlockStart(length, j) >= length
    ensures j == BlockCount(length)
  {
    BlocksTileThePiece(length);
  }

  // The block that starts at a byte offset of the piece, if one does.
  function FindBlock(length: nat, begin: nat): (r: Option<nat>)
    ensures r.Some? ==> r.value < BlockCount(length) && begin == BlockStart(length, r.value)
    ensures r.None? ==> forall j: nat :: j < BlockCount(length) ==> begin != BlockStart(length, j)
  {
    BlocksTileThePiece(length);
    if begin % MAX_BLOCK_LENGTH == 0 && begin < length then Some(begin / MAX_BLOCK_LENGTH) else None
  }

  lemma FindBlockAtStart(length: nat, j: nat)
    requires j < BlockCount(length)
    ensures FindBlock(length, BlockStart(length, j)) == Some(j)
  {
    BlocksTileThePiece(length);
  }

  // ----- the operations -----

  predicate AllWritten(blocks: seq<BlockState>) {
    forall j :: 0 <= j < |blocks| ==> blocks[j].written
  }

  function GetBytes(blocks: seq<BlockState>): bytes {
    if blocks == [] then []
    else GetBytes(blocks[..|blocks| - 1]) + blocks[|blocks| - 1].data
  }

  function NewBlocks(length: nat): seq<BlockState> {
    seq(BlockCount(length), (j: nat) => BlockState(BlockLength(length, j), false, false, []))
  }

  function NewPiece(length: nat, offset: nat, hash: bytes): PieceState {
    PieceState(NewBlocks(length), false, hash, length, offset)
  }

  function ResetBlocks(blocks: seq<BlockState>): seq<BlockState> {
    seq(|blocks|, j requires 0 <= j < |blocks| => blocks[j].(written := false, data := []))
  }

  function Stored(p: PieceState, j: nat, data: bytes): seq<BlockState>
    requires j < |p.blocks|
  {
    p.blocks[j := p.blocks[j].(written := true, fetching := false, data := data)]
  }

  // Why a block is refused; None when it is stored.
  function Refusal(p: PieceState, begin: nat, data: bytes): Option<WriteError>
    requires |p.blocks| == BlockCount(p.length)
  {
    match FindBlock(p.length, begin)
    case None => Some(CouldNotFindBlock)
    case Some(j) =>
      if p.blocks[j].written then Some(AlreadyWritten)
      else if p.blocks[j].length != |data| then Some(LengthIncorrect)
      else None
  }

  // A block starts at every multiple of 16 KiB inside the piece, and nowhere else.
  lemma {:induction false} BlocksStartAt(p: PieceState, begin: nat, data: bytes)
    requires |p.blocks| == BlockCount(p.length)
    ensures Refusal(p, begin, data) == Some(CouldNotFindBlock) <==> begin % 16384 != 0 || begin >= p.length
  {
    hide BlockCount, BlockStart;
  }

  // One that has been written is refused before its length is looked at.
  lemma {:induction false} RefusedBecause(p: PieceState, j: nat, data: bytes)
    requires |p.blocks| == BlockCount(p.length) && j < |p.blocks|
    ensures Refusal(p, 16384 * j, data) == if p.blocks[j].written then Some(AlreadyWritten)
                                           else if |data| != p.blocks[j].length then Some(LengthIncorrect) else None
  {
    hide BlockCount;
    BlocksTileThePiece(p.length);
    FindBlockAtStart(p.length, j);
    hide FindBlock;
    assert BlockStart(p.length, j) == j * MAX_BLOCK_LENGTH;
    hide BlockStart;
  }

  // The last missing block triggers the hash check: a match completes the
  // piece, a mismatch throws every block of it away.
  function WritePiece(H: Hasher, p: PieceState, begin: nat, data: bytes): PieceState
    requires |p.blocks| == BlockCount(p.length)
  {
    if Refusal(p, begin, data).Some? then p
    else
      var blocks := Stored(p, FindBlock(p.length, begin).value, data);
      if !AllWritten(blocks) then p.(blocks := blocks)
      else if H(GetBytes(blocks)) == p.hash then p.(blocks := blocks, complete := true)
      else p.(blocks := ResetBlocks(blocks))
  }

  function CancelPiece(p: PieceState, begin: nat): PieceState
    requires |p.blocks| == BlockCount(p.length)
  {
    match FindBlock(p.length, begin)
    case None => p
    case Some(j) => p.(blocks := p.blocks[j := p.blocks[j].(fetching := false)])
  }

  // ----- the invariant of a piece -----

  ghost predicate BlockInv(b: BlockState) {
    if b.written then !b.fetching && |b.data| == b.length else b.data == []
  }

  ghost predicate PieceInv(H: Hasher, p: PieceState) {
    && Tiled(p.blocks, p.length)
    && (forall j :: 0 <= j < |p.blocks| ==> BlockInv(p.blocks[j]))
    && (p.complete <==> p.blocks != [] && AllWritten(p.blocks))
    && (p.complete ==> H(GetBytes(p.blocks)) == p.hash)
  }

  lemma NewPieceInv(H: Hasher, length: nat, offset: nat, hash: bytes)
    ensures PieceInv(H, NewPiece(length, offset, hash))
  {
    var blocks := NewBlocks(length);
    if blocks != [] {
      assert !blocks[0].written;
    }
  }

  lemma WriteKeepsPieceInv(H: Hasher, p: PieceState, begin: nat, data: bytes)
    requires PieceInv(H, p)
    ensures PieceInv(H, WritePiece(H, p, begin, data))
  {
    if Refusal(p, begin, data).None? {
      var j := FindBlock(p.length, begin).value;
      var blocks := Stored(p, j, data);
      assert !p.complete;
      if !AllWritten(blocks) {
      } else if H(GetBytes(blocks)) == p.hash {
      } else {
        assert !ResetBlocks(blocks)[j].written;
      }
    }
  }

  lemma CancelKeepsPieceInv(H: Hasher, p: PieceState, begin: nat)
    requires PieceInv(H, p)
    ensures PieceInv(H, CancelPiece(p, begin))
    ensures CancelPiece(p, begin).complete == p.complete
    ensures GetBytes(CancelPiece(p, begin).blocks) == GetBytes(p.blocks)
  {
    if FindBlock(p.length, begin).Some? {
      var j := FindBlock(p.length, begin).value;
      var b := p.blocks[j].(fetching := false);
      SameData(p.blocks, p.blocks[j := b]);
      assert AllWritten(p.blocks) ==> AllWritten(p.blocks[j := b]);
      assert forall k :: 0 <= k < |p.blocks| ==> p.blocks[j := b][k].written == p.blocks[k].written;
    }
  }

  // GetBytes looks at the data only.
  lemma {:induction false} SameData(a: seq<BlockState>, b: seq<BlockState>)
    requires |a| == |b|
    requires forall j :: 0 <= j < |a| ==> a[j].data == b[j].data
    ensures GetBytes(a) == GetBytes(b)
  {
    if a == [] {
    } else {
      SameData(a[..|a| - 1], b[..|b| - 1]);
    }
  }

  // A piece that is complete refuses every further block, so it never changes.
  lemma CompletePieceIsFinal(H: Hasher, p: PieceState, begin: nat, data: bytes)
    requires PieceInv(H, p) && p.complete
    ensures WritePiece(H, p, begin, data) == p && Refusal(p, begin, data).Some?
  {
  }

  // After a hash failure every block of the piece can be asked for again.
  lemma HashFailureFreesEveryBlock(H: Hasher, p: PieceState, begin: nat, data: bytes)
    requires PieceInv(H, p)
    requires Refusal(p, begin, data).None?
    requires var blocks := Stored(p, FindBlock(p.length, begin).value, data);
             AllWritten(blocks) && H(GetBytes(blocks)) != p.hash
    ensures forall j :: 0 <= j < |p.blocks| ==> WritePiece(H, p, begin, data).blocks[j].Idle()
  {
    var j := FindBlock(p.length, begin).value;
    assert forall k :: 0 <= k < |p.blocks| ==> !Stored(p, j, data)[k].fetching by {
      forall k | 0 <= k < |p.blocks|
        ensures !Stored(p, j, data)[k].fetching
      {
        assert Stored(p, j, data)[k].written;
      }
    }
  }

  // ----- assembling the bytes of a piece -----

  lemma {:induction false} GetBytesPrefix(p: PieceState, k: nat, content: bytes)
    requires Tiled(p.blocks, p.length) && |content| == p.length && k <= |p.blocks|
    requires forall j :: 0 <= j < k ==>
               p.blocks[j].data == content[BlockStart(p.length, j)..BlockStart(p.length, j + 1)]
    ensures GetBytes(p.blocks[..k]) == content[..BlockStart(p.length, k)]
  {
    if k == 0 {
    } else {
      GetBytesPrefix(p, k - 1, content);
      assert p.blocks[..k][..k - 1] == p.blocks[..k - 1];
      var a, b := BlockStart(p.length, k - 1), BlockStart(p.length, k);
      assert content[..a] + content[a..b] == content[..b];
    }
  }

  // Blocks that hold the content's bytes assemble to the content.
  lemma GetBytesIsContent(p: PieceState, content: bytes)
    requires Tiled(p.blocks, p.length) && |content| == p.length
    requires forall j :: 0 <= j < |p.blocks| ==>
               p.blocks[j].data == content[BlockStart(p.length, j)..BlockStart(p.length, j + 1)]
    ensures GetBytes(p.blocks) == content
  {
    GetBytesPrefix(p, |p.blocks|, content);
    assert p.blocks[..|p.blocks|] == p.blocks;
    BlocksTileThePiece(p.length);
    assert content[..p.length] == content;
  }

  lemma {:induction false} GetBytesLengthPrefix(H: Hasher, p: PieceState, k: nat)
    requires Tiled(p.blocks, p.length) && k <= |p.blocks|
    requires forall j :: 0 <= j < |p.blocks| ==> BlockInv(p.blocks[j])
    requires AllWritten(p.blocks)
    ensures |GetBytes(p.blocks[..k])| == BlockStart(p.length, k)
  {
    if k == 0 {
    } else {
      GetBytesLengthPrefix(H, p, k - 1);
      assert p.blocks[..k][..k - 1] == p.blocks[..k - 1];
      assert p.blocks[k - 1].written;
    }
  }

  lemma CompletePieceHasAllBytes(H: Hasher, p: PieceState)
    requires PieceInv(H, p) && p.complete
    ensures |GetBytes(p.blocks)| == p.length
  {
    GetBytesLengthPrefix(H, p, |p.blocks|);
    assert p.blocks[..|p.blocks|] == p.blocks;
    BlocksTileThePiece(p.length);
  }
}
