// Blocks and pieces as objects that are updated in place.
module Piece {
  import opened Common
  import opened PieceSpec

  class Block {
    const Length: nat
    var Written: bool
    var data: bytes
    var Fetching: bool

    constructor (length: nat)
      ensures Length == length && State() == BlockState(length, false, false, [])
    {
      Length := length;
      Written, Fetching, data := false, false, [];
    }

    function State(): BlockState
      reads this
    {
      BlockState(Length, Written, Fetching, data)
    }

    method Write(data: bytes)
      modifies this
      ensures State() == BlockState(Length, true, false, data)
    {
      this.data := data;
      Written := true;
      Fetching := false;
    }
  }

  function BlockStates(blocks: seq<Block>): (r: seq<BlockState>)
    reads blocks
    ensures |r| == |blocks| && forall j :: 0 <= j < |blocks| ==> r[j] == blocks[j].State()
  {
    seq(|blocks|, j requires 0 <= j < |blocks| reads blocks => blocks[j].State())
  }

  class Piece {
    const Blocks: seq<Block>
    var Complete: bool
    const hash: bytes
    const length: nat
    const ByteOffset: nat

    ghost predicate Valid() {
      && Distinct(Blocks)
      && |Blocks| == BlockCount(length)
      && forall j :: 0 <= j < |Blocks| ==> Blocks[j].Length == BlockLength(length, j)
    }

    function State(): PieceState
      reads this, Blocks
    {
      PieceState(BlockStates(Blocks), Complete, hash, length, ByteOffset)
    }

    constructor (length: nat, pieceByteOffset: nat, hash: bytes)
      ensures Valid() && State() == NewPiece(length, pieceByteOffset, hash)
      ensures forall b :: b in Blocks ==> fresh(b)
    {
      var blocks: seq<Block> := [];
      var curByte: nat := 0;
      hide BlockLength, BlockCount, BlockStart;
      assert BlockStart(length, 0) == 0 by {
        BlocksTileThePiece(length);
      }
      while curByte < length
        invariant |blocks| <= BlockCount(length) && curByte == BlockStart(length, |blocks|)
        invariant Distinct(blocks) && forall b :: b in blocks ==> fresh(b)
        invariant forall j :: 0 <= j < |blocks| ==>
                    blocks[j].State() == BlockState(BlockLength(length, j), false, false, [])
        decreases length - curByte
      {
        NextBlockLength(length, |blocks|);
        var curBlockLength := MAX_BLOCK_LENGTH;
        if curByte + MAX_BLOCK_LENGTH > length {
          curBlockLength := length - curByte;
        }
        var b := new Block(curBlockLength);
        blocks := blocks + [b];
        curByte := curByte + curBlockLength;
      }
      NoNextBlock(length, |blocks|);
      this.length := length;
      this.hash := hash;
      ByteOffset := pieceByteOffset;
      Complete := false;
      Blocks := blocks;
      new;
      assert State().blocks == NewBlocks(length);
    }

    // The loop with a running offset that looks for the block at beginOffset.
    method FindBlockAt(beginOffset: nat) returns (curByte: nat, blockIndex: nat)
      requires Valid()
      ensures var found := FindBlock(length, beginOffset);
              if found.Some? then blockIndex == found.value && curByte < length else curByte == length
    {
      BlocksTileThePiece(length);
      curByte, blockIndex := 0, 0;
      for i := 0 to |Blocks|
        invariant curByte == BlockStart(length, i)
        invariant forall j :: 0 <= j < i ==> BlockStart(length, j) != beginOffset
      {
        if curByte == beginOffset {
          FindBlockAtStart(length, i);
          blockIndex := i;
          return;
        }
        curByte := curByte + Blocks[i].Length;
      }
    }

    method WriteBlock(H: Hasher, beginOffset: nat, data: bytes) returns (err: Option<WriteError>)
      requires Valid()
      modifies this, Blocks
      ensures State() == WritePiece(H, old(State()), beginOffset, data)
      ensures err == Refusal(old(State()), beginOffset, data)
    {
      hide BlockLength, BlockCount, BlockStart, PieceSpec.GetBytes, ResetBlocks;
      ghost var before := State();
      var curByte, blockIndex := FindBlockAt(beginOffset);
      if curByte == length {
        return Some(CouldNotFindBlock);
      }
      if Blocks[blockIndex].Written {
        return Some(AlreadyWritten);
      }
      if Blocks[blockIndex].Length != |data| {
        return Some(LengthIncorrect);
      }
      Blocks[blockIndex].Write(data);
      assert BlockStates(Blocks) == Stored(before, blockIndex, data);
      hide Stored, FindBlock;
      VerifyWhenFull(H);
      return None;
    }

    // The second half of WriteBlock: what happens once the block is stored.
    method VerifyWhenFull(H: Hasher)
      requires Valid()
      modifies this, Blocks
      ensures var blocks := old(State()).blocks;
              State() == if !AllWritten(blocks) then old(State())
                         else if H(PieceSpec.GetBytes(blocks)) == hash then old(State()).(complete := true)
                         else old(State()).(blocks := ResetBlocks(blocks))
    {
      hide PieceSpec.GetBytes, ResetBlocks, AllWritten;
      var full := CheckFull();
      if full {
        var correct := CheckHash(H);
        if !correct {
          Reset();
        } else {
          Complete := true;
        }
      }
    }

    method Reset()
      requires Valid()
      modifies Blocks
      ensures State() == old(State()).(blocks := ResetBlocks(old(State()).blocks))
    {
      ghost var before := BlockStates(Blocks);
      for i := 0 to |Blocks|
        invariant forall j :: 0 <= j < i ==> Blocks[j].State() == before[j].(written := false, data := [])
        invariant forall j :: i <= j < |Blocks| ==> Blocks[j].State() == before[j]
      {
        Blocks[i].Written := false;
        Blocks[i].data := [];
      }
      assert BlockStates(Blocks) == ResetBlocks(before);
    }

    method CheckHash(H: Hasher) returns (correct: bool)
      ensures correct == (H(PieceSpec.GetBytes(State().blocks)) == hash)
    {
      var hashed := GetBytes();
      return H(hashed) == hash;
    }

    method CheckFull() returns (full: bool)
      ensures full == AllWritten(State().blocks)
    {
      for i := 0 to |Blocks|
        invariant forall j :: 0 <= j < i ==> Blocks[j].Written
      {
        if !Blocks[i].Written {
          assert !State().blocks[i].written;
          return false;
        }
      }
      return true;
    }

    method GetBytes() returns (pieceBytes: bytes)
      ensures pieceBytes == PieceSpec.GetBytes(State().blocks)
    {
      pieceBytes := [];
      ghost var states := State().blocks;
      for i := 0 to |Blocks|
        invariant pieceBytes == PieceSpec.GetBytes(states[..i])
      {
        assert states[..i + 1][..i] == states[..i];
        pieceBytes := pieceBytes + Blocks[i].data;
      }
      assert states[..|Blocks|] == states;
    }

    method CancelBlock(beginOffset: nat) returns (ok: bool)
      requires Valid()
      modifies Blocks
      ensures State() == CancelPiece(old(State()), beginOffset)
      ensures ok == FindBlock(length, beginOffset).Some?
    {
      ghost var before := State();
      BlocksTileThePiece(length);
      hide BlockCount, BlockLength;
      var curByte := 0;
      for i := 0 to |Blocks|
        invariant curByte == BlockStart(length, i) && State() == before
        invariant forall j :: 0 <= j < i ==> BlockStart(length, j) != beginOffset
      {
        if curByte == beginOffset {
          FindBlockAtStart(length, i);
          Blocks[i].Fetching := false;
          assert BlockStates(Blocks) == before.blocks[i := before.blocks[i].(fetching := false)];
          return true;
        }
        NextBlockLength(length, i);
        curByte := curByte + Blocks[i].Length;
      }
      return false;
    }
  }
}
