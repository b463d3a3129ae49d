// The download store as an object: pieces, files, bitfield and cache, each
// updated in place. Every method is tied to the state machine of BundleSpec.
module Bundle {
  import opened Common
  import opened PieceSpec
  import opened DiskSpec
  import opened Disk
  import opened Requests
  import opened BundleSpec
  import BitfieldSpec
  import opened BundleRuns
  import opened BundleReads
  import CacheSpec
  import P = Piece
  import B = Bitfields
  import C = PieceCaches

  ghost function AllBlocks(pieces: seq<P.Piece>): (r: set<P.Block>)
    ensures forall i, b :: 0 <= i < |pieces| && b in pieces[i].Blocks ==> b in r
    ensures forall b :: b in r ==> exists i :: 0 <= i < |pieces| && b in pieces[i].Blocks
  {
    set p, b | p in pieces && b in p.Blocks :: b
  }

  // No piece and no block is shared.
  ghost predicate Apart(pieces: seq<P.Piece>) {
    && Distinct(pieces)
    && (forall i :: 0 <= i < |pieces| ==> pieces[i].Valid())
    && forall i, j :: 0 <= i < j < |pieces| ==> DisjointBlocks(pieces[i], pieces[j])
  }

  ghost predicate DisjointBlocks(p: P.Piece, q: P.Piece) {
    forall b :: b in p.Blocks ==> b !in q.Blocks
  }

  lemma {:induction false} OwnBlocks(pieces: seq<P.Piece>, i: nat, j: nat)
    requires Apart(pieces) && i < |pieces| && j < |pieces| && i != j
    ensures pieces[i] != pieces[j]
    ensures forall b :: b in pieces[i].Blocks ==> b !in pieces[j].Blocks
  {
    if i < j {
      assert DisjointBlocks(pieces[i], pieces[j]);
    } else {
      assert DisjointBlocks(pieces[j], pieces[i]);
    }
  }

  ghost function PieceStates(pieces: seq<P.Piece>): (r: Pieces)
    reads pieces, AllBlocks(pieces)
    ensures |r| == |pieces| && forall i :: 0 <= i < |pieces| ==> r[i] == pieces[i].State()
  {
    seq(|pieces|, i requires 0 <= i < |pieces| reads pieces, AllBlocks(pieces) => pieces[i].State())
  }

  function Sum(lengths: seq<nat>): nat {
    if lengths == [] then 0 else Sum(lengths[..|lengths| - 1]) + lengths[|lengths| - 1]
  }

  lemma {:induction false} ApartPieces(pieces: seq<P.Piece>)
    requires Apart(pieces)
    ensures forall i :: 0 <= i < |pieces| ==> pieces[i].Valid()
  {
  }

  // Writing to one piece leaves the others as they are.
  method WriteTo(pieces: seq<P.Piece>, H: Hasher, i: nat, beginOffset: nat, block: bytes) returns (err: Option<WriteError>)
    requires Apart(pieces) && i < |pieces|
    requires |pieces[i].State().blocks| == BlockCount(pieces[i].State().length)
    modifies pieces[i], pieces[i].Blocks
    ensures PieceStates(pieces) == old(PieceStates(pieces))[i := WritePiece(H, old(pieces[i].State()), beginOffset, block)]
    ensures err == Refusal(old(pieces[i].State()), beginOffset, block)
  {
    hide WritePiece, Refusal, AllBlocks;
    err := pieces[i].WriteBlock(H, beginOffset, block);
    forall j | 0 <= j < |pieces| && j != i
      ensures pieces[j].State() == old(pieces[j].State())
    {
      OwnBlocks(pieces, j, i);
      ghost var blocks := pieces[j].Blocks;
      assert forall b :: b in blocks ==> b.State() == old(b.State());
      assert forall k :: 0 <= k < |blocks| ==> blocks[k] in blocks;
      assert P.BlockStates(blocks) == old(P.BlockStates(blocks));
    }
  }

  method CancelIn(pieces: seq<P.Piece>, i: nat, beginOffset: nat) returns (ok: bool)
    requires Apart(pieces) && i < |pieces|
    requires |pieces[i].State().blocks| == BlockCount(pieces[i].State().length)
    modifies pieces[i].Blocks
    ensures PieceStates(pieces) == old(PieceStates(pieces))[i := CancelPiece(old(pieces[i].State()), beginOffset)]
    ensures ok == FindBlock(pieces[i].length, beginOffset).Some?
  {
    hide CancelPiece, AllBlocks, FindBlock;
    ok := pieces[i].CancelBlock(beginOffset);
    forall j | 0 <= j < |pieces| && j != i
      ensures pieces[j].State() == old(pieces[j].State())
    {
      OwnBlocks(pieces, j, i);
      ghost var blocks := pieces[j].Blocks;
      assert forall b :: b in blocks ==> b.State() == old(b.State());
      assert forall k :: 0 <= k < |blocks| ==> blocks[k] in blocks;
      assert P.BlockStates(blocks) == old(P.BlockStates(blocks));
    }
  }

  // Pieces are consistent and lie on the disk; no bit is set beyond them.
  ghost predicate Sound(H: Hasher, st: BundleState) {
    && AllPieceInv(H, st.pieces)
    && Fits(st)
    && forall k :: k in st.bits ==> k < |st.pieces|
  }

  lemma {:induction false} BookIsSound(H: Hasher, m: Meta, st: BundleState)
    requires BookInv(H, m, st)
    ensures Sound(H, st)
  {
    ShapeFits(H, m, st);
  }

  lemma {:induction false} SoundPiece(H: Hasher, st: BundleState, i: nat, begin: nat, data: bytes)
    requires Sound(H, st) && i < |st.pieces|
    ensures |st.pieces[i].blocks| == BlockCount(st.pieces[i].length)
    ensures forall k :: k in st.bits ==> k < |st.pieces|
    ensures var q := WritePiece(H, st.pieces[i], begin, data);
            && q.offset == st.pieces[i].offset
            && (q.complete ==> q.offset + |GetBytes(q.blocks)| <= |st.disk|)
  {
    assert PieceInv(H, st.pieces[i]);
    var q := WritePiece(H, st.pieces[i], begin, data);
    WriteKeepsPieceInv(H, st.pieces[i], begin, data);
    if q.complete {
      CompletePieceHasAllBytes(H, q);
    }
    hide PieceInv;
  }

  lemma {:induction false} WriteRefused(H: Hasher, st: BundleState, i: nat, begin: nat, data: bytes, fate: DiskFate)
    requires i < |st.pieces| && |st.pieces[i].blocks| == BlockCount(st.pieces[i].length)
    requires Refusal(st.pieces[i], begin, data).Some?
    ensures AfterWrite(H, st, i, begin, data, fate) == st
    ensures WriteResult(H, st, i, begin, data, fate) == Refusal(st.pieces[i], begin, data)
    ensures st.pieces[i := WritePiece(H, st.pieces[i], begin, data)] == st.pieces
  {
  }

  lemma {:induction false} WriteStored(H: Hasher, st: BundleState, st': BundleState, i: nat, begin: nat, data: bytes,
                                       fate: DiskFate)
    requires i < |st.pieces| && |st.pieces[i].blocks| == BlockCount(st.pieces[i].length)
    requires Refusal(st.pieces[i], begin, data).None? && !WritePiece(H, st.pieces[i], begin, data).complete
    requires st' == st.(pieces := st.pieces[i := WritePiece(H, st.pieces[i], begin, data)],
                        complete := st.complete || st.bitsComplete)
    ensures st' == AfterWrite(H, st, i, begin, data, fate) && WriteResult(H, st, i, begin, data, fate) == None
  {
  }

  lemma {:induction false} WriteCompleted(H: Hasher, st: BundleState, st': BundleState, i: nat, begin: nat, data: bytes,
                                          fate: DiskFate)
    requires i < |st.pieces| && |st.pieces[i].blocks| == BlockCount(st.pieces[i].length)
    requires Refusal(st.pieces[i], begin, data).None? && WritePiece(H, st.pieces[i], begin, data).complete
    requires var q := WritePiece(H, st.pieces[i], begin, data);
             var full := AllBits(st.bits + {i}, |st.pieces|);
             && q.offset + |GetBytes(q.blocks)| <= |st.disk|
             && st' == st.(pieces := st.pieces[i := q], bits := st.bits + {i}, bitsComplete := full,
                           complete := st.complete || (full && fate.Kept?),
                           disk := Splice(st.disk, q.offset, Reaching(fate, GetBytes(q.blocks))))
    ensures st' == AfterWrite(H, st, i, begin, data, fate)
    ensures WriteResult(H, st, i, begin, data, fate) == if fate.Kept? then None else Some(DiskFailure)
  {
  }

  class Bundle {
    const H: Hasher
    const PieceLength: nat
    const Length: nat
    const Pieces: seq<P.Piece>
    const NumPieces: nat
    const Files: seq<BundleFile>
    const MultiFile: bool
    const Bitfield: B.Bitfield
    const pieceCache: C.PieceCache
    var Complete: bool

    // The objects do not overlap and fit each other.
    ghost predicate Valid()
      reads Files, Bitfield, Bitfield.Bytes, pieceCache
    {
      && Apart(Pieces) && NumPieces == |Pieces|
      && LaidOut(Files) && (MultiFile || |Files| == 1)
      && pieceCache.Valid() && pieceCache.capacity == CACHE_CAPACITY
      && Bitfield.Valid() && Bitfield.len == |Pieces| && Bitfield.Bytes.Length == (|Pieces| + 7) / 8
    }

    ghost function State(): (st: BundleState)
      requires Valid()
      ensures |st.pieces| == |Pieces|
      reads this, Pieces, AllBlocks(Pieces), Files, Bitfield, Bitfield.Bytes, pieceCache
    {
      BundleState(PieceStates(Pieces), Bitfield.Members(), Bitfield.Complete, Complete,
                  Flat(Contents(Files)), pieceCache.State())
    }

    // A torrent that names no length of its own is a list of files.
    constructor (H: Hasher, pieceLength: nat, hashes: seq<bytes>, infoLength: nat, fileLengths: seq<nat>)
      ensures Valid() && this.H == H && MultiFile == (infoLength == 0)
      ensures State() == Create(Meta(pieceLength, if infoLength == 0 then Sum(fileLengths) else infoLength, hashes))
    {
      hide LaidOut, Flat, Sum, Apart, AllBlocks, Zeros, BitfieldSpec.On, C.Linked, State;
      this.H := H;
      PieceLength := pieceLength;
      Complete := false;
      pieceCache := new C.PieceCache(CACHE_CAPACITY);
      Bitfield := new B.Bitfield(|hashes|);
      MultiFile := infoLength == 0;
      var lengths := if infoLength == 0 then fileLengths else [infoLength];
      SumOne(infoLength);
      var m := Meta(pieceLength, Sum(lengths), hashes);
      Length := m.length;
      var files := LayOut(lengths);
      var pieces := Tile(m);
      Files := files;
      Pieces := pieces;
      NumPieces := |pieces|;
      hide Create, PieceStates, Contents;
      new;
      FreshIs(m);
    }

    lemma FreshIs(m: Meta)
      requires Valid() && PieceStates(Pieces) == Create(m).pieces && Flat(Contents(Files)) == Zeros(m.length)
      requires Bitfield.Members() == {} && !Bitfield.Complete && !Complete && pieceCache.State() == []
      ensures State() == Create(m)
    {
      hide Valid, PieceStates, Contents, Flat, B.Bitfield.Members, C.PieceCache.State;
    }

    // A bundle is sound after every run (see EveryRunIsReadable).
    method WriteBlock(pieceIndex: nat, beginOffset: nat, block: bytes, fate: DiskFate) returns (err: Option<WriteError>)
      requires Valid() && Sound(H, State()) && pieceIndex < |Pieces|
      modifies this, Pieces[pieceIndex], Pieces[pieceIndex].Blocks, Files, Bitfield, Bitfield.Bytes
      ensures Valid() && State() == AfterWrite(H, old(State()), pieceIndex, beginOffset, block, fate)
      ensures err == WriteResult(H, old(State()), pieceIndex, beginOffset, block, fate)
    {
      hide Sound, WritePiece, Refusal, AfterWrite, WriteResult, Splice, GetBytes, AllBits, Valid, State;
      ghost var st := State();
      SoundPiece(H, st, pieceIndex, beginOffset, block);
      err := WriteInPiece(pieceIndex, beginOffset, block);
      if err.Some? {
        WriteRefused(H, st, pieceIndex, beginOffset, block, fate);
        return;
      }
      if Pieces[pieceIndex].Complete {
        err := CompletePiece(pieceIndex, fate);
        if err.Some? {
          WriteCompleted(H, st, State(), pieceIndex, beginOffset, block, fate);
          return;
        }
      }
      MarkComplete();
      if WritePiece(H, st.pieces[pieceIndex], beginOffset, block).complete {
        WriteCompleted(H, st, State(), pieceIndex, beginOffset, block, fate);
      } else {
        WriteStored(H, st, State(), pieceIndex, beginOffset, block, fate);
      }
    }

    // The bundle is complete once the bitfield is.
    method MarkComplete()
      requires Valid()
      modifies this
      ensures Valid() && State() == old(State()).(complete := old(State()).complete || old(State()).bitsComplete)
    {
      hide Apart, LaidOut, Flat, AllBlocks;
      if Bitfield.Complete {
        Complete := true;
      }
    }

    // A piece that is complete: its bit, then its bytes.
    method CompletePiece(pieceIndex: nat, fate: DiskFate) returns (err: Option<WriteError>)
      requires Valid() && pieceIndex < |Pieces| && forall k :: k in State().bits ==> k < |Pieces|
      requires State().pieces[pieceIndex].offset + |GetBytes(State().pieces[pieceIndex].blocks)| <= |State().disk|
      modifies Files, Bitfield, Bitfield.Bytes
      ensures Valid()
      ensures Pieces[pieceIndex].Complete == old(Pieces[pieceIndex].Complete)
      ensures var st := old(State());
              var bits := st.bits + {pieceIndex};
              && State() == st.(bits := bits, bitsComplete := AllBits(bits, |Pieces|),
                                disk := Splice(st.disk, st.pieces[pieceIndex].offset,
                                               Reaching(fate, GetBytes(st.pieces[pieceIndex].blocks))))
      ensures err == if fate.Kept? then None else Some(DiskFailure)
    {
      hide LaidOut, Splice, GetBytes, Apart, AllBlocks, Flat, AllBits, PieceStates, Contents;
      MarkPiece(pieceIndex);
      err := StorePiece(pieceIndex, fate);
    }

    method StorePiece(pieceIndex: nat, fate: DiskFate) returns (err: Option<WriteError>)
      requires Valid() && pieceIndex < |Pieces|
      requires State().pieces[pieceIndex].offset + |GetBytes(State().pieces[pieceIndex].blocks)| <= |State().disk|
      modifies Files
      ensures Valid() && Pieces[pieceIndex].Complete == old(Pieces[pieceIndex].Complete)
      ensures var st := old(State());
              State() == st.(disk := Splice(st.disk, st.pieces[pieceIndex].offset,
                                            Reaching(fate, GetBytes(st.pieces[pieceIndex].blocks))))
      ensures err == if fate.Kept? then None else Some(DiskFailure)
    {
      hide LaidOut, Splice, GetBytes, Apart, AllBlocks, Flat;
      ghost var ps := PieceStates(Pieces);
      err := WritePieceToDisk(pieceIndex, fate);
      assert PieceStates(Pieces) == ps;
    }

    method MarkPiece(pieceIndex: nat)
      requires Valid() && pieceIndex < |Pieces| && forall k :: k in State().bits ==> k < |Pieces|
      modifies Bitfield, Bitfield.Bytes
      ensures Valid() && Pieces[pieceIndex].Complete == old(Pieces[pieceIndex].Complete)
      ensures var bits := old(State()).bits + {pieceIndex};
              State() == old(State()).(bits := bits, bitsComplete := AllBits(bits, |Pieces|))
    {
      hide LaidOut, Apart, AllBlocks, Flat, AllBits, Contents;
      ghost var ps := PieceStates(Pieces);
      var marked := Bitfield.SetBit(pieceIndex);
      CountedBits(Bitfield.Members(), |Pieces|);
      assert PieceStates(Pieces) == ps;
    }

    method WriteInPiece(pieceIndex: nat, beginOffset: nat, block: bytes) returns (err: Option<WriteError>)
      requires Valid() && pieceIndex < |Pieces|
      requires |State().pieces[pieceIndex].blocks| == BlockCount(State().pieces[pieceIndex].length)
      modifies Pieces[pieceIndex], Pieces[pieceIndex].Blocks
      ensures Valid()
      ensures var st := old(State());
              && State() == st.(pieces := st.pieces[pieceIndex := WritePiece(H, st.pieces[pieceIndex], beginOffset, block)])
              && err == Refusal(st.pieces[pieceIndex], beginOffset, block)
      ensures Pieces[pieceIndex].Complete == State().pieces[pieceIndex].complete
    {
      hide WritePiece, Refusal, AllBlocks, LaidOut, Flat, Apart;
      ApartPieces(Pieces);
      err := WriteTo(Pieces, H, pieceIndex, beginOffset, block);
    }

    method CancelBlock(bi: BlockInfo) returns (ok: bool)
      requires Valid() && bi.piece < |Pieces|
      requires |State().pieces[bi.piece].blocks| == BlockCount(State().pieces[bi.piece].length)
      modifies Pieces[bi.piece].Blocks
      ensures Valid() && State() == AfterCancel(old(State()), bi.piece, bi.begin)
      ensures ok == FindBlock(old(State()).pieces[bi.piece].length, bi.begin).Some?
    {
      hide CancelPiece, AllBlocks, LaidOut, Flat, Apart;
      ApartPieces(Pieces);
      ok := CancelIn(Pieces, bi.piece, bi.begin);
    }

    // Hands out idle blocks in order and marks them, until there are numBlocks.
    method NextNBlocks(numBlocks: int) returns (retBlocks: seq<BlockInfo>)
      requires Valid()
      modifies AllBlocks(Pieces)
      ensures Valid() && State() == AfterNext(old(State()), numBlocks)
      ensures retBlocks == NextBlocks(old(State()).pieces, numBlocks)
    {
      hide Apart, AllBlocks, LaidOut, Flat, NextBlocks, MarkFetching;
      retBlocks := Search(Pieces, numBlocks);
    }

    // loadPiece and readPiece, for a bundle of several files.
    method LoadPiece(pieceIndex: nat)
      requires Valid() && MultiFile && pieceIndex < |Pieces| && PieceOnDisk(State(), pieceIndex)
      modifies pieceCache
      ensures Valid()
      ensures State() == WithLoaded(old(State()), pieceIndex)
    {
      hide Apart, AllBlocks, LaidOut, Flat, CacheSpec.Put, C.Linked, BitfieldSpec.On;
      var pieceBytes := Gather(Files, Pieces[pieceIndex].length, Pieces[pieceIndex].ByteOffset);
      pieceCache.Put(pieceIndex, pieceBytes);
    }

    // Every cached piece is as long as the piece (see EveryRunIsReadable).
    method GetBlock(bi: BlockInfo) returns (block: Option<bytes>)
      requires Valid() && MultiFile && bi.piece < |Pieces| && Readable(State(), bi.piece)
      modifies pieceCache
      ensures Valid() && ReadsBack(old(State()), State(), bi, block)
    {
      hide *;
      ghost var st := State();
      ReadableLength(st, bi.piece);
      var pieceBytes := ReadCached(bi.piece);
      if bi.length + bi.begin > Pieces[bi.piece].length {
        block := None;
      } else {
        block := Some(pieceBytes[bi.begin..bi.length + bi.begin]);
      }
      ReadsBackIs(st, State(), bi, pieceBytes, block);
    }

    // The bytes of a piece, through the cache.
    method ReadCached(pieceIndex: nat) returns (pieceBytes: bytes)
      requires Valid() && MultiFile && pieceIndex < |Pieces| && PieceOnDisk(State(), pieceIndex)
      requires CacheSpec.Has(Loaded(State(), pieceIndex), pieceIndex)
      modifies pieceCache
      ensures Valid() && State() == AfterGet(old(State()), pieceIndex)
      ensures pieceBytes == CacheSpec.Lookup(Loaded(old(State()), pieceIndex), pieceIndex)
      ensures Pieces[pieceIndex].length == old(State()).pieces[pieceIndex].length
    {
      hide Apart, AllBlocks, LaidOut, Flat, CacheSpec.Put, CacheSpec.Touch, C.Linked, CacheSpec.Has, CacheSpec.Lookup, PieceRange;
      if !pieceCache.Contains(pieceIndex) {
        LoadPiece(pieceIndex);
      }
      var cached := pieceCache.Get(pieceIndex);
      return cached.value;
    }

    function BytesLeft(): int
      requires Valid()
      reads Files, Bitfield, Bitfield.Bytes, pieceCache, this, Pieces, AllBlocks(Pieces)
      ensures BytesLeft() == (|State().pieces| - |State().bits|) * PieceLength
    {
      hide Flat, PieceStates, Apart, AllBlocks, LaidOut, Contents;
      (Bitfield.len - Bitfield.NumSet) * PieceLength
    }

    // writePiece: the single file is written in one go, several are scattered over.
    // After an error the files hold what was written before it.
    method WritePieceToDisk(pieceIndex: nat, fate: DiskFate) returns (err: Option<WriteError>)
      requires pieceIndex < |Pieces| && LaidOut(Files) && (MultiFile || |Files| == 1)
      requires Pieces[pieceIndex].ByteOffset + |GetBytes(Pieces[pieceIndex].State().blocks)| <= |Flat(Contents(Files))|
      modifies Files
      ensures LaidOut(Files)
      ensures err == if fate.Kept? then None else Some(DiskFailure)
      ensures Flat(Contents(Files))
           == Splice(old(Flat(Contents(Files))), Pieces[pieceIndex].ByteOffset,
                     Reaching(fate, old(GetBytes(Pieces[pieceIndex].State().blocks))))
    {
      hide Flat, Splice, LaidOut, GetBytes, Reaching;
      var piece := Pieces[pieceIndex];
      var data := piece.GetBytes();
      if !MultiFile {
        WriteSingle(Files, Reaching(fate, data), piece.ByteOffset);
      } else {
        Scatter(Files, Reaching(fate, data), piece.ByteOffset);
      }
      return if fate.Kept? then None else Some(DiskFailure);
    }
  }

  ghost function WithLoaded(st: BundleState, i: nat): BundleState
    requires PieceOnDisk(st, i)
  {
    st.(cache := CacheSpec.Put(st.cache, CACHE_CAPACITY, i, PieceRange(st, i)))
  }

  ghost predicate Readable(st: BundleState, i: nat) {
    PieceOnDisk(st, i) && CachesWhole(st)
  }

  ghost predicate ReadsBack(st: BundleState, st': BundleState, bi: BlockInfo, block: Option<bytes>)
    requires Readable(st, bi.piece)
  {
    st' == AfterGet(st, bi.piece) && block == GetResult(st, bi.piece, bi.begin, bi.length)
  }

  ghost predicate CachesWhole(st: BundleState) {
    forall e :: e in st.cache ==> e.key < |st.pieces| && |e.val| == st.pieces[e.key].length
  }

  lemma {:induction false} ReadableLength(st: BundleState, i: nat)
    requires Readable(st, i)
    ensures PieceOnDisk(st, i) && i < |st.pieces| && CacheSpec.Has(Loaded(st, i), i)
    ensures |CacheSpec.Lookup(Loaded(st, i), i)| == st.pieces[i].length
  {
    LoadedHas(st, i);
    LookupIsEntry(Loaded(st, i), i);
    LoadedEntries(st, i);
  }

  lemma {:induction false} ReadsBackIs(st: BundleState, st': BundleState, bi: BlockInfo, data: bytes, block: Option<bytes>)
    requires Readable(st, bi.piece) && PieceOnDisk(st, bi.piece) && bi.piece < |st.pieces|
    requires st' == AfterGet(st, bi.piece) && CacheSpec.Has(Loaded(st, bi.piece), bi.piece)
    requires data == CacheSpec.Lookup(Loaded(st, bi.piece), bi.piece) && |data| == st.pieces[bi.piece].length
    requires block == if bi.length + bi.begin > st.pieces[bi.piece].length then None
                      else Some(data[bi.begin..bi.length + bi.begin])
    ensures ReadsBack(st, st', bi, block)
  {
    hide Loaded, CacheSpec.Lookup, CacheSpec.Has, CachesWhole;
  }

  // All operations keep the cached pieces whole.
  lemma {:induction false} StepKeepsWhole(H: Hasher, st: BundleState, op: Op)
    requires Fits(st) && CachesWhole(st) && AllPieceInv(H, st.pieces) && (!op.Next? ==> op.piece < |st.pieces|)
    ensures CachesWhole(Step(H, st, op))
  {
    hide CacheSpec.Has;
    match op
    case Write(i, begin, data, fate) =>
      WrittenPieces(H, st, i, begin, data, fate);
      WrittenDisk(H, st, i, begin, data, fate);
      WriteKeepsComplete(H, st.pieces[i], begin, data);
      hide AfterWrite, WritePiece;
    case Next(limit) => NextMarks(H, st, limit);
    case Cancel(i, begin) => CancelMarks(H, st, i, begin);
    case Get(i, _, _) =>
      LoadedEntries(st, i);
      CacheSpec.TouchEntries(Loaded(st, i), i);
      hide Loaded, CacheSpec.Touch;
  }

  // What GetBlock and WriteBlock ask of the bundle holds after every run.
  lemma {:induction false} EveryRunIsReadable(H: Hasher, m: Meta, ops: seq<Op>)
    requires Legal(m, ops)
    ensures Sound(H, Run(H, m, ops)) && CachesWhole(Run(H, m, ops))
    ensures forall i: nat :: i < |m.hashes| ==> Readable(Run(H, m, ops), i)
  {
    var st := Run(H, m, ops);
    hide Step, Run, AllPieceInv;
    BookIsSound(H, m, st);
    RunKeepsWhole(H, m, ops);
  }

  lemma {:induction false} RunKeepsWhole(H: Hasher, m: Meta, ops: seq<Op>)
    requires Legal(m, ops)
    ensures CachesWhole(Run(H, m, ops))
  {
    if ops != [] {
      var before, op := ops[..|ops| - 1], ops[|ops| - 1];
      RunKeepsWhole(H, m, before);
      ShapeFits(H, m, Run(H, m, before));
      hide Step, AllPieceInv, Fits;
      StepKeepsWhole(H, Run(H, m, before), op);
    }
  }

  method MarkBlock(pieces: seq<P.Piece>, i: nat, j: nat)
    requires Apart(pieces) && i < |pieces| && j < |pieces[i].Blocks|
    modifies pieces[i].Blocks[j]
    ensures PieceStates(pieces) == WithFetching(old(PieceStates(pieces)), i, j)
  {
    hide AllBlocks;
    pieces[i].Blocks[j].Fetching := true;
    assert pieces[i].Valid();
    assert pieces[i].State().blocks
        == old(pieces[i].State().blocks)[j := old(pieces[i].State().blocks)[j].(fetching := true)];
    forall k | 0 <= k < |pieces| && k != i
      ensures pieces[k].State() == old(pieces[k].State())
    {
      OwnBlocks(pieces, k, i);
      ghost var blocks := pieces[k].Blocks;
      assert forall b :: b in blocks ==> b.State() == old(b.State());
      assert forall n :: 0 <= n < |blocks| ==> blocks[n] in blocks;
      assert P.BlockStates(blocks) == old(P.BlockStates(blocks));
    }
  }

  // The search of NextNBlocks.
  method Search(pieces: seq<P.Piece>, numBlocks: int) returns (found: seq<BlockInfo>)
    requires Apart(pieces)
    modifies AllBlocks(pieces)
    ensures found == NextBlocks(old(PieceStates(pieces)), numBlocks)
    ensures PieceStates(pieces) == MarkFetching(old(PieceStates(pieces)), found)
  {
    ghost var ps := PieceStates(pieces);
    hide Apart, AllBlocks, NextBlocks, IdleBefore, MarkFetching, StartsIdle;
    found := [];
    SearchStarts(ps, numBlocks);
    MarkNone(ps);
    ApartTiled(pieces);
    for i := 0 to |pieces|
      invariant found == IdleBefore(ps, i) && GoesOn(ps, numBlocks, found, i, 0)
      invariant PieceStates(pieces) == MarkFetching(ps, found)
    {
      MarkedPieces(ps, found);
      if pieces[i].Complete {
        PieceSkipped(ps, numBlocks, i);
        continue;
      }
      found := SearchPiece(pieces, numBlocks, i, ps, found);
      if |found| == numBlocks {
        return;
      }
    }
    SearchDone(ps, numBlocks);
  }

  lemma {:induction false} TiledLengths(blocks: seq<BlockState>, length: nat)
    requires Tiled(blocks, length)
    ensures forall j :: 0 <= j < |blocks| ==> blocks[j].length == BlockLength(length, j)
  {
  }

  lemma {:induction false} ApartTiled(pieces: seq<P.Piece>)
    requires Apart(pieces)
    ensures forall i :: 0 <= i < |pieces| ==> Tiled(PieceStates(pieces)[i].blocks, PieceStates(pieces)[i].length)
  {
    forall i | 0 <= i < |pieces|
      ensures Tiled(PieceStates(pieces)[i].blocks, PieceStates(pieces)[i].length)
    {
      assert pieces[i].Valid();
    }
  }

  // One piece of the search; it has its result when that many blocks are found.
  method SearchPiece(pieces: seq<P.Piece>, numBlocks: int, i: nat, ghost ps: Pieces, already: seq<BlockInfo>)
    returns (found: seq<BlockInfo>)
    requires Apart(pieces) && i < |pieces| == |ps| && !ps[i].complete && |ps[i].blocks| == |pieces[i].Blocks|
    requires already == IdleBefore(ps, i) && GoesOn(ps, numBlocks, already, i, 0)
    requires PieceStates(pieces) == MarkFetching(ps, already)
    requires Tiled(ps[i].blocks, ps[i].length)
    modifies AllBlocks(pieces)
    ensures PieceStates(pieces) == MarkFetching(ps, found)
    ensures if |found| == numBlocks then found == NextBlocks(ps, numBlocks)
            else found == IdleBefore(ps, i + 1) && GoesOn(ps, numBlocks, found, i + 1, 0)
  {
    hide Apart, AllBlocks, NextBlocks, IdleBefore, MarkFetching, StartsIdle, GoesOn, IdleUpTo, WithFetching, Tiled;
    assert forall j :: 0 <= j < |ps[i].blocks| ==> ps[i].blocks[j].length == BlockLength(ps[i].length, j) by {
      TiledLengths(ps[i].blocks, ps[i].length);
    }
    var blockByteOffset := 0;
    found := already;
    var blocks := pieces[i].Blocks;
    NoneYet(ps, i);
    for j := 0 to |blocks|
      invariant blockByteOffset == BlockStart(ps[i].length, j)
      invariant found == IdleUpTo(ps, i, j) && GoesOn(ps, numBlocks, found, i, j)
      invariant PieceStates(pieces) == MarkFetching(ps, found)
    {
      LookAtBlock(ps, numBlocks, i, j);
      MarkedBlock(ps, found, i, j);
      if !blocks[j].Fetching && !blocks[j].Written {
        MarkOneMore(ps, found, i, j);
        MarkBlock(pieces, i, j);
        found := found + [BlockInfo(i, blockByteOffset, blocks[j].Length)];
      }
      blockByteOffset := blockByteOffset + blocks[j].Length;
      if |found| == numBlocks {
        return;
      }
    }
    PieceDone(ps, numBlocks, i);
  }

  lemma {:induction false} SumOne(n: nat)
    ensures Sum([n]) == n
  {
    assert [n][..0] == [];
  }

  lemma {:induction false} FlatZeros(contents: seq<bytes>, lengths: seq<nat>, k: nat)
    requires |contents| == |lengths| && k <= |lengths|
    requires forall i :: 0 <= i < |lengths| ==> contents[i] == Zeros(lengths[i])
    ensures Flat(contents[..k]) == Zeros(Sum(lengths[..k]))
  {
    if k > 0 {
      FlatZeros(contents, lengths, k - 1);
      assert contents[..k][..k - 1] == contents[..k - 1];
      assert lengths[..k][..k - 1] == lengths[..k - 1];
    }
  }

  // The files, end to end and filled with zeros.
  method LayOut(lengths: seq<nat>) returns (files: seq<BundleFile>)
    ensures LaidOut(files) && |files| == |lengths| && forall f :: f in files ==> fresh(f)
    ensures Flat(Contents(files)) == Zeros(Sum(lengths))
  {
    files := [];
    var curByte := 0;
    assert ZeroFiles(files, lengths) && lengths[..0] == [];
    for k := 0 to |lengths|
      invariant |files| == k && curByte == Sum(lengths[..k])
      invariant Distinct(files) && forall f :: f in files ==> fresh(f)
      invariant ZeroFiles(files, lengths)
    {
      hide ZeroFiles;
      var file := new BundleFile(lengths[k], curByte);
      assert lengths[..k + 1][..k] == lengths[..k];
      curByte := curByte + lengths[k];
      ZeroFilesAppend(files, lengths, file);
      files := files + [file];
    }
    hide Sum;
    ZeroFilesLaidOut(files, lengths);
  }

  // The files so far, for the first of the lengths.
  ghost predicate ZeroFiles(files: seq<BundleFile>, lengths: seq<nat>)
    reads files
  {
    && |files| <= |lengths|
    && forall i :: 0 <= i < |files| ==>
        && files[i].ByteStart == Sum(lengths[..i]) && files[i].Length == lengths[i]
        && files[i].Content == Zeros(lengths[i])
  }

  lemma {:induction false} ZeroFilesAppend(files: seq<BundleFile>, lengths: seq<nat>, file: BundleFile)
    requires ZeroFiles(files, lengths) && |files| < |lengths| && Distinct(files) && file !in files
    requires file.ByteStart == Sum(lengths[..|files|]) && file.Length == lengths[|files|]
    requires file.Content == Zeros(lengths[|files|])
    ensures ZeroFiles(files + [file], lengths) && Distinct(files + [file])
  {
    hide Sum, Zeros;
  }

  lemma {:induction false} ZeroFilesLaidOut(files: seq<BundleFile>, lengths: seq<nat>)
    requires |files| == |lengths| && Distinct(files) && ZeroFiles(files, lengths)
    ensures LaidOut(files) && Flat(Contents(files)) == Zeros(Sum(lengths))
  {
    hide Flat, Sum;
    forall k | 0 <= k <= |files|
      ensures Flat(Contents(files)[..k]) == Zeros(Sum(lengths[..k]))
    {
      FlatZeros(Contents(files), lengths, k);
    }
    assert lengths[..|files|] == lengths && Contents(files)[..|files|] == Contents(files);
  }

  // One round of the loop in Tile.
  method AddPiece(pieces: seq<P.Piece>, m: Meta, curPieceLength: nat, curByte: nat) returns (more: seq<P.Piece>)
    requires Apart(pieces) && TilesUpTo(pieces, m) && |pieces| < |m.hashes|
    requires curPieceLength == m.PieceSize(|pieces|) && curByte == m.PieceStart(|pieces|)
    ensures Apart(more) && TilesUpTo(more, m) && |more| == |pieces| + 1
    ensures forall p :: p in more ==> p in pieces || fresh(p)
    ensures forall b :: b in AllBlocks(more) ==> b in AllBlocks(pieces) || fresh(b)
  {
    hide NewPiece, Meta.PieceStart, Meta.PieceSize, AllBlocks, Apart, TilesUpTo;
    var piece := new P.Piece(curPieceLength, curByte, m.hashes[|pieces|]);
    ApartAppend(pieces, piece);
    TilesAppend(pieces, m, piece);
    more := pieces + [piece];
  }

  // The pieces, end to end over the whole length.
  method Tile(m: Meta) returns (pieces: seq<P.Piece>)
    ensures Apart(pieces) && PieceStates(pieces) == Create(m).pieces
    ensures forall p :: p in pieces ==> fresh(p)
    ensures forall b :: b in AllBlocks(pieces) ==> fresh(b)
  {
    pieces := [];
    var curByte := 0;
    assert m.PieceStart(0) == 0 && Apart(pieces) && TilesUpTo(pieces, m);
    hide NewPiece, Meta.PieceStart, Meta.PieceSize, AllBlocks, Apart, TilesUpTo, PieceStates, Create;
    for i := 0 to |m.hashes|
      invariant |pieces| == i && curByte == m.PieceStart(i)
      invariant Apart(pieces) && TilesUpTo(pieces, m)
      invariant forall p :: p in pieces ==> fresh(p)
      invariant forall b :: b in AllBlocks(pieces) ==> fresh(b)
    {
      var curPieceLength := m.pieceLength;
      if curByte + m.pieceLength > m.length {
        curPieceLength := m.length - curByte;
      }
      NextPieceSize(m, i);
      pieces := AddPiece(pieces, m, curPieceLength, curByte);
      curByte := curByte + curPieceLength;
    }
    TilesAll(pieces, m);
  }

  // The pieces so far, for the first of the hashes.
  ghost predicate TilesUpTo(pieces: seq<P.Piece>, m: Meta)
    reads pieces, AllBlocks(pieces)
  {
    && |pieces| <= |m.hashes|
    && forall k :: 0 <= k < |pieces| ==> pieces[k].State() == NewPiece(m.PieceSize(k), m.PieceStart(k), m.hashes[k])
  }

  lemma {:induction false} TilesAppend(pieces: seq<P.Piece>, m: Meta, piece: P.Piece)
    requires TilesUpTo(pieces, m) && |pieces| < |m.hashes|
    requires piece.State() == NewPiece(m.PieceSize(|pieces|), m.PieceStart(|pieces|), m.hashes[|pieces|])
    ensures TilesUpTo(pieces + [piece], m)
    ensures forall b :: b in AllBlocks(pieces + [piece]) ==> b in AllBlocks(pieces) || b in piece.Blocks
  {
    hide NewPiece, Meta.PieceStart, Meta.PieceSize;
  }

  lemma {:induction false} TilesAll(pieces: seq<P.Piece>, m: Meta)
    requires TilesUpTo(pieces, m) && |pieces| == |m.hashes|
    ensures PieceStates(pieces) == Create(m).pieces
  {
    hide NewPiece, Meta.PieceStart, Meta.PieceSize;
  }

  lemma {:induction false} ApartAppend(pieces: seq<P.Piece>, piece: P.Piece)
    requires Apart(pieces) && piece.Valid() && piece !in pieces
    requires forall b :: b in AllBlocks(pieces) ==> b !in piece.Blocks
    ensures Apart(pieces + [piece])
  {
    forall i | 0 <= i < |pieces|
      ensures DisjointBlocks(pieces[i], piece)
    {
      assert pieces[i] in pieces;
    }
  }

  lemma {:induction false} NextPieceSize(m: Meta, i: nat)
    ensures m.PieceSize(i) == if m.PieceStart(i) + m.pieceLength > m.length then m.length - m.PieceStart(i) else m.pieceLength
    ensures m.PieceStart(i + 1) == m.PieceStart(i) + m.PieceSize(i)
  {
    assert (i + 1) * m.pieceLength == i * m.pieceLength + m.pieceLength;
  }

  method WriteSingle(files: seq<BundleFile>, data: bytes, offset: nat)
    requires LaidOut(files) && |files| == 1 && offset + |data| <= |Flat(Contents(files))|
    modifies files
    ensures LaidOut(files)
    ensures Flat(Contents(files)) == Splice(old(Flat(Contents(files))), offset, data)
  {
    FlatOne(Contents(files));
    files[0].WriteAt(data, offset);
    FlatOne(Contents(files));
  }

  lemma {:induction false} FlatOne(files: seq<bytes>)
    requires |files| == 1
    ensures Flat(files) == files[0] && StartOf(files, 0) == 0
  {
    assert files[..0] == [];
  }
}
