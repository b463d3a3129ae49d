// The state of a download and what may happen to it: blocks handed out,
// written and cancelled, and blocks of complete pieces read back.
module BundleSpec {
  import opened Common
  import opened PieceSpec
  import opened DiskSpec
  import opened Requests
  import CacheSpec

  const CACHE_CAPACITY: nat := 1280

  datatype Meta = Meta(pieceLength: nat, length: nat, hashes: seq<bytes>) {
    function PieceStart(i: nat): nat {
      Min(i * pieceLength, length)
    }

    function PieceSize(i: nat): nat {
      assert (i + 1) * pieceLength == i * pieceLength + pieceLength;
      PieceStart(i + 1) - PieceStart(i)
    }

    // There are as many hashes as it takes to cover the content.
    ghost predicate Covers() {
      PieceStart(|hashes|) == length
    }
  }

  datatype BundleState = BundleState(
    pieces: Pieces,
    bits: set<nat>,
    bitsComplete: bool,
    complete: bool,
    disk: bytes,
    cache: CacheSpec.Cache)

  datatype Op =
    | Write(piece: nat, begin: nat, data: bytes, fate: DiskFate)
    | Next(limit: int)
    | Cancel(piece: nat, begin: nat)
    | Get(piece: nat, begin: nat, length: nat)

  // ----- the operations -----

  function Create(m: Meta): BundleState {
    BundleState(
      seq(|m.hashes|, i requires 0 <= i < |m.hashes| => NewPiece(m.PieceSize(i), m.PieceStart(i), m.hashes[i])),
      {}, false, false, Zeros(m.length), [])
  }

  ghost predicate PieceOnDisk(st: BundleState, i: nat) {
    i < |st.pieces| && st.pieces[i].offset + st.pieces[i].length <= |st.disk|
  }

  // Blocks and disk fit together well enough for every operation to make sense.
  ghost predicate Fits(st: BundleState) {
    forall i :: 0 <= i < |st.pieces| ==>
      && Tiled(st.pieces[i].blocks, st.pieces[i].length)
      && PieceOnDisk(st, i)
  }

  // The piece has no block left to write, so its bytes go to disk next.
  ghost predicate Completes(H: Hasher, st: BundleState, i: nat, begin: nat, data: bytes)
    requires i < |st.pieces| && |st.pieces[i].blocks| == BlockCount(st.pieces[i].length)
  {
    Refusal(st.pieces[i], begin, data).None? && WritePiece(H, st.pieces[i], begin, data).complete
  }

  ghost predicate AllBits(bits: set<nat>, n: nat) {
    forall i: nat :: i < n ==> i in bits
  }

  ghost function AfterWrite(H: Hasher, st: BundleState, i: nat, begin: nat, data: bytes, fate: DiskFate): BundleState
    requires i < |st.pieces| && |st.pieces[i].blocks| == BlockCount(st.pieces[i].length)
  {
    var piece := WritePiece(H, st.pieces[i], begin, data);
    var written := st.(pieces := st.pieces[i := piece]);
    if Refusal(st.pieces[i], begin, data).Some? then st
    else if !piece.complete then written.(complete := st.complete || st.bitsComplete)
    else
      var bits := st.bits + {i};
      var full := AllBits(bits, |st.pieces|);
      var whole := GetBytes(piece.blocks);
      if piece.offset + |whole| > |st.disk| then written.(bits := bits, bitsComplete := full)
      else written.(bits := bits, bitsComplete := full, complete := st.complete || (full && fate.Kept?),
                    disk := Splice(st.disk, piece.offset, Reaching(fate, whole)))
  }

  ghost function WriteResult(H: Hasher, st: BundleState, i: nat, begin: nat, data: bytes, fate: DiskFate): Option<WriteError>
    requires i < |st.pieces| && |st.pieces[i].blocks| == BlockCount(st.pieces[i].length)
  {
    if Refusal(st.pieces[i], begin, data).Some? then Refusal(st.pieces[i], begin, data)
    else if Completes(H, st, i, begin, data) && fate.Cut? then Some(DiskFailure)
    else None
  }

  function AfterCancel(st: BundleState, i: nat, begin: nat): BundleState
    requires i < |st.pieces| && |st.pieces[i].blocks| == BlockCount(st.pieces[i].length)
  {
    st.(pieces := st.pieces[i := CancelPiece(st.pieces[i], begin)])
  }

  function AfterNext(st: BundleState, limit: int): BundleState {
    st.(pieces := MarkFetching(st.pieces, NextBlocks(st.pieces, limit)))
  }

  // A piece that is not cached is read from disk first.
  ghost function Loaded(st: BundleState, i: nat): CacheSpec.Cache
    requires PieceOnDisk(st, i)
  {
    if CacheSpec.Has(st.cache, i) then st.cache
    else CacheSpec.Put(st.cache, CACHE_CAPACITY, i, PieceRange(st, i))
  }

  ghost function PieceRange(st: BundleState, i: nat): bytes
    requires PieceOnDisk(st, i)
  {
    st.disk[st.pieces[i].offset..st.pieces[i].offset + st.pieces[i].length]
  }

  ghost function AfterGet(st: BundleState, i: nat): BundleState
    requires PieceOnDisk(st, i)
  {
    st.(cache := CacheSpec.Touch(Loaded(st, i), i))
  }

  // The bytes a read returns; None when it overflows the piece.
  ghost function GetResult(st: BundleState, i: nat, begin: nat, length: nat): Option<bytes>
    requires PieceOnDisk(st, i)
  {
    LoadedHas(st, i);
    var data := CacheSpec.Lookup(Loaded(st, i), i);
    if begin + length > st.pieces[i].length || begin + length > |data| then None
    else Some(data[begin..begin + length])
  }

  lemma {:induction false} LoadedHas(st: BundleState, i: nat)
    requires PieceOnDisk(st, i)
    ensures CacheSpec.Has(Loaded(st, i), i)
  {
    if !CacheSpec.Has(st.cache, i) {
      CacheSpec.PutThenHas(st.cache, CACHE_CAPACITY, i, PieceRange(st, i));
    }
  }

  ghost function Step(H: Hasher, st: BundleState, op: Op): (r: BundleState)
    requires Fits(st)
    requires !op.Next? ==> op.piece < |st.pieces|
  {
    match op
    case Write(i, begin, data, fate) => AfterWrite(H, st, i, begin, data, fate)
    case Next(limit) => AfterNext(st, limit)
    case Cancel(i, begin) => AfterCancel(st, i, begin)
    case Get(i, _, _) => AfterGet(st, i)
  }

  // ----- tiling of the content into pieces -----

  lemma {:induction false} PieceStartMonotone(m: Meta, i: nat, j: nat)
    requires i <= j
    ensures m.PieceStart(i) <= m.PieceStart(j) <= m.length
  {
    assert j * m.pieceLength == i * m.pieceLength + (j - i) * m.pieceLength;
  }

  // ----- the invariant of every run -----

  ghost predicate Shape(m: Meta, st: BundleState) {
    && |st.pieces| == |m.hashes|
    && |st.disk| == m.length
    && forall i :: 0 <= i < |st.pieces| ==>
        && st.pieces[i].offset == m.PieceStart(i)
        && st.pieces[i].length == m.PieceSize(i)
        && st.pieces[i].hash == m.hashes[i]
  }

  // Bit i is set exactly when piece i is complete; once all are, the flags may be.
  ghost predicate BitsInv(st: BundleState) {
    && (forall i :: i in st.bits ==> i < |st.pieces|)
    && (forall i :: 0 <= i < |st.pieces| ==> (i in st.bits <==> st.pieces[i].complete))
    && (st.bitsComplete <==> st.pieces != [] && AllBits(st.bits, |st.pieces|))
    && (st.complete ==> st.bitsComplete)
  }

  // By the invariant of a piece it is complete when it has blocks, all of them
  // are written, and together they match its hash.
  ghost predicate BookInv(H: Hasher, m: Meta, st: BundleState) {
    && Shape(m, st)
    && AllPieceInv(H, st.pieces)
    && BitsInv(st)
  }

  // Every complete piece is on disk.
  ghost predicate DiskInv(st: BundleState) {
    && Fits(st)
    && forall i :: 0 <= i < |st.pieces| && st.pieces[i].complete ==> PieceRange(st, i) == GetBytes(st.pieces[i].blocks)
  }

  // What holds after every run in which the disk never fails.
  ghost predicate BundleInv(H: Hasher, m: Meta, st: BundleState) {
    BookInv(H, m, st) && DiskInv(st) && (st.complete <==> st.bitsComplete)
  }

  lemma {:induction false} ShapeFits(H: Hasher, m: Meta, st: BundleState)
    requires Shape(m, st) && AllPieceInv(H, st.pieces)
    ensures Fits(st)
  {
    forall i | 0 <= i < |st.pieces|
      ensures m.PieceStart(i) + m.PieceSize(i) <= m.length
    {
    }
  }

  // Pieces do not overlap.
  lemma {:induction false} PiecesAreDisjoint(m: Meta, st: BundleState, i: nat, j: nat)
    requires Shape(m, st) && i < |st.pieces| && j < |st.pieces| && i != j
    ensures || st.pieces[i].offset + st.pieces[i].length <= st.pieces[j].offset
            || st.pieces[j].offset + st.pieces[j].length <= st.pieces[i].offset
  {
    hide Meta.PieceStart;
    if i < j {
      PieceStartMonotone(m, i + 1, j);
    } else {
      PieceStartMonotone(m, j + 1, i);
    }
  }

  // The bitfield counts its bits instead.
  lemma {:induction false} CountedBits(bits: set<nat>, n: nat)
    requires forall i :: i in bits ==> i < n
    ensures |bits| == n <==> AllBits(bits, n)
  {
    var all := Below(n);
    assert bits <= all;
    if |bits| == n {
      assert all == bits + (all - bits);
      assert all - bits == {};
    } else {
      assert bits != all;
      assert exists i :: i in all && i !in bits;
    }
  }

  lemma {:induction false} CreateInv(H: Hasher, m: Meta)
    ensures BundleInv(H, m, Create(m))
  {
    var st := Create(m);
    forall i | 0 <= i < |st.pieces|
      ensures PieceInv(H, st.pieces[i]) && !st.pieces[i].complete
    {
      NewPieceInv(H, m.PieceSize(i), m.PieceStart(i), m.hashes[i]);
    }
    if st.pieces != [] {
      assert (0 as nat) !in st.bits && !AllBits(st.bits, |st.pieces|);
    }
    ShapeFits(H, m, st);
  }

  lemma {:induction false} WriteKeepsBook(H: Hasher, m: Meta, st: BundleState, i: nat, begin: nat, data: bytes, fate: DiskFate)
    requires BookInv(H, m, st) && i < |st.pieces|
    ensures BookInv(H, m, AfterWrite(H, st, i, begin, data, fate))
  {
    var st' := AfterWrite(H, st, i, begin, data, fate);
    var piece := WritePiece(H, st.pieces[i], begin, data);
    WriteKeepsPieceInv(H, st.pieces[i], begin, data);
    WriteKeepsComplete(H, st.pieces[i], begin, data);
    hide PieceInv, WritePiece, Splice, GetBytes, Refusal, Shape, AllPieceInv;
    WrittenShape(H, m, st, i, begin, data, fate);
    BitsFollow(st, st', i);
  }

  lemma {:induction false} BitsFollow(st: BundleState, st': BundleState, i: nat)
    requires BitsInv(st) && i < |st.pieces| && |st'.pieces| == |st.pieces|
    requires forall k :: 0 <= k < |st.pieces| && k != i ==> st'.pieces[k] == st.pieces[k]
    requires st'.pieces[i].complete == st.pieces[i].complete || st'.pieces[i].complete
    requires if st'.pieces[i].complete && !st.pieces[i].complete
             then st'.bits == st.bits + {i} && st'.bitsComplete == AllBits(st'.bits, |st.pieces|)
             else st'.bits == st.bits && st'.bitsComplete == st.bitsComplete
    requires st'.complete ==> st.complete || st'.bitsComplete
    ensures BitsInv(st')
  {
  }

  // A write changes one piece, as the piece itself decides.
  lemma {:induction false} WrittenPieces(H: Hasher, st: BundleState, i: nat, begin: nat, data: bytes, fate: DiskFate)
    requires i < |st.pieces| && |st.pieces[i].blocks| == BlockCount(st.pieces[i].length)
    ensures AfterWrite(H, st, i, begin, data, fate).pieces == st.pieces[i := WritePiece(H, st.pieces[i], begin, data)]
  {
    hide GetBytes, Splice, AllBits, ResetBlocks, Stored;
  }

  // It reaches the disk only when it completes the piece, and never the cache.
  lemma {:induction false} WrittenDisk(H: Hasher, st: BundleState, i: nat, begin: nat, data: bytes, fate: DiskFate)
    requires i < |st.pieces| && |st.pieces[i].blocks| == BlockCount(st.pieces[i].length)
    ensures var st' := AfterWrite(H, st, i, begin, data, fate);
            var piece := WritePiece(H, st.pieces[i], begin, data);
            && st'.cache == st.cache
            && (!Completes(H, st, i, begin, data) ==> st'.disk == st.disk)
            && (Completes(H, st, i, begin, data) && piece.offset + |GetBytes(piece.blocks)| <= |st.disk| ==>
                  st'.disk == Splice(st.disk, piece.offset, Reaching(fate, GetBytes(piece.blocks))))
  {
    hide GetBytes, Splice, AllBits, WritePiece;
  }

  lemma {:induction false} WrittenShape(H: Hasher, m: Meta, st: BundleState, i: nat, begin: nat, data: bytes, fate: DiskFate)
    requires Shape(m, st) && AllPieceInv(H, st.pieces) && i < |st.pieces|
    requires Tiled(st.pieces[i].blocks, st.pieces[i].length)
    ensures var st' := AfterWrite(H, st, i, begin, data, fate);
            Shape(m, st') && AllPieceInv(H, st'.pieces)
  {
    WriteKeepsPieceInv(H, st.pieces[i], begin, data);
    WriteKeepsComplete(H, st.pieces[i], begin, data);
    hide PieceInv, WritePiece, Splice, GetBytes, Refusal;
    OnePieceChanges(H, m, st, AfterWrite(H, st, i, begin, data, fate), i);
  }

  lemma {:induction false} OnePieceChanges(H: Hasher, m: Meta, st: BundleState, st': BundleState, i: nat)
    requires Shape(m, st) && AllPieceInv(H, st.pieces) && i < |st.pieces| && |st'.disk| == |st.disk|
    requires |st'.pieces| == |st.pieces| && PieceInv(H, st'.pieces[i])
    requires forall k :: 0 <= k < |st.pieces| && k != i ==> st'.pieces[k] == st.pieces[k]
    requires var p, q := st.pieces[i], st'.pieces[i];
             q.length == p.length && q.offset == p.offset && q.hash == p.hash
    ensures Shape(m, st') && AllPieceInv(H, st'.pieces)
  {
    hide PieceInv;
  }

  lemma {:induction false} WriteKeepsComplete(H: Hasher, p: PieceState, begin: nat, data: bytes)
    requires PieceInv(H, p)
    ensures Refusal(p, begin, data).None? ==> !p.complete
    ensures var q := WritePiece(H, p, begin, data);
            q.length == p.length && q.offset == p.offset && q.hash == p.hash && (p.complete ==> q == p)
  {
    if p.complete {
      CompletePieceIsFinal(H, p, begin, data);
    }
  }

  // A piece of st that is complete is the same in st', on disk too.
  ghost predicate KeepsComplete(st: BundleState, st': BundleState) {
    && |st'.pieces| == |st.pieces|
    && forall k :: 0 <= k < |st.pieces| && st.pieces[k].complete ==>
        && st'.pieces[k] == st.pieces[k]
        && PieceOnDisk(st, k) && PieceOnDisk(st', k) && PieceRange(st', k) == PieceRange(st, k)
  }

  lemma {:induction false} WriteKeepsDisk(H: Hasher, m: Meta, st: BundleState, i: nat, begin: nat, data: bytes)
    requires BundleInv(H, m, st) && i < |st.pieces|
    ensures BundleInv(H, m, AfterWrite(H, st, i, begin, data, Kept))
    ensures KeepsComplete(st, AfterWrite(H, st, i, begin, data, Kept))
  {
    var st' := AfterWrite(H, st, i, begin, data, Kept);
    WriteKeepsBook(H, m, st, i, begin, data, Kept);
    WriteKeepsRanges(H, m, st, st', i, begin, data);
    WriteKeepsFlag(H, m, st, i, begin, data);
  }

  lemma {:induction false} WriteKeepsRanges(H: Hasher, m: Meta, st: BundleState, st': BundleState, i: nat, begin: nat, data: bytes)
    requires BookInv(H, m, st) && DiskInv(st) && BookInv(H, m, st') && i < |st.pieces|
    requires |st.pieces[i].blocks| == BlockCount(st.pieces[i].length) && st' == AfterWrite(H, st, i, begin, data, Kept)
    ensures DiskInv(st') && KeepsComplete(st, st')
  {
    BookParts(H, m, st, i);
    BookParts(H, m, st', i);
    hide BookInv, Fits, Shape, WritePiece, AfterWrite, PieceInv, Tiled, Splice, GetBytes, PieceRange, Refusal, BlockCount;
    WrittenPieces(H, st, i, begin, data, Kept);
    WriteKeepsComplete(H, st.pieces[i], begin, data);
    WrittenRanges(H, m, st, st', i, begin, data);
    RangesKept(st, st', i);
  }

  lemma {:induction false} WriteKeepsFlag(H: Hasher, m: Meta, st: BundleState, i: nat, begin: nat, data: bytes)
    requires BundleInv(H, m, st) && i < |st.pieces|
    ensures var st' := AfterWrite(H, st, i, begin, data, Kept);
            st'.complete <==> st'.bitsComplete
  {
    var q := WritePiece(H, st.pieces[i], begin, data);
    assert PieceInv(H, st.pieces[i]) && PieceOnDisk(st, i);
    WriteKeepsPieceInv(H, st.pieces[i], begin, data);
    WriteKeepsComplete(H, st.pieces[i], begin, data);
    hide PieceInv, WritePiece, GetBytes, Splice, Refusal, Tiled, Shape;
    if q.complete {
      CompletePieceHasAllBytes(H, q);
    }
  }

  lemma {:induction false} BookParts(H: Hasher, m: Meta, st: BundleState, i: nat)
    requires BookInv(H, m, st)
    ensures |st.pieces| == |m.hashes| && Shape(m, st) && Fits(st)
    ensures i < |st.pieces| ==> PieceInv(H, st.pieces[i]) && Tiled(st.pieces[i].blocks, st.pieces[i].length)
  {
    ShapeFits(H, m, st);
  }

  lemma {:induction false} WrittenRanges(H: Hasher, m: Meta, st: BundleState, st': BundleState, i: nat, begin: nat, data: bytes)
    requires Shape(m, st) && Fits(st) && Shape(m, st') && Fits(st') && i < |st.pieces|
    requires PieceInv(H, st'.pieces[i]) && st' == AfterWrite(H, st, i, begin, data, Kept)
    ensures st'.cache == st.cache
    ensures forall k :: 0 <= k < |st.pieces| && k != i ==> PieceRange(st', k) == PieceRange(st, k)
    ensures PieceRange(st', i) == if Completes(H, st, i, begin, data)
                                  then GetBytes(WritePiece(H, st.pieces[i], begin, data).blocks) else PieceRange(st, i)
  {
    WrittenPieces(H, st, i, begin, data, Kept);
    WrittenDisk(H, st, i, begin, data, Kept);
    hide WritePiece, AfterWrite, PieceInv, Tiled, Splice, GetBytes, Refusal;
    if Completes(H, st, i, begin, data) {
      CompletePieceHasAllBytes(H, st'.pieces[i]);
      WrittenPieceOnDisk(m, st, st', i);
    } else {
      UntouchedDisk(st, st', i);
      assert PieceRange(st', i) == PieceRange(st, i);
    }
  }

  lemma {:induction false} UntouchedDisk(st: BundleState, st': BundleState, i: nat)
    requires Fits(st) && Fits(st') && st'.disk == st.disk && i < |st.pieces| && |st'.pieces| == |st.pieces|
    requires forall k :: 0 <= k < |st.pieces| && k != i ==> st'.pieces[k] == st.pieces[k]
    ensures forall k :: 0 <= k < |st.pieces| && k != i ==> PieceRange(st', k) == PieceRange(st, k)
    ensures st'.pieces[i] == st.pieces[i] ==> PieceRange(st', i) == PieceRange(st, i)
  {
    hide Tiled;
  }

  lemma {:induction false} RangesKept(st: BundleState, st': BundleState, i: nat)
    requires DiskInv(st) && Fits(st') && i < |st.pieces| && |st'.pieces| == |st.pieces|
    requires forall k :: 0 <= k < |st.pieces| && k != i ==>
               st'.pieces[k] == st.pieces[k] && PieceRange(st', k) == PieceRange(st, k)
    requires st.pieces[i].complete ==> st'.pieces[i] == st.pieces[i] && PieceRange(st', i) == PieceRange(st, i)
    requires st'.pieces[i].complete && !st.pieces[i].complete ==> PieceRange(st', i) == GetBytes(st'.pieces[i].blocks)
    ensures DiskInv(st') && KeepsComplete(st, st')
  {
    hide Tiled, PieceRange, GetBytes;
  }

  lemma {:induction false} WrittenPieceOnDisk(m: Meta, st: BundleState, st': BundleState, i: nat)
    requires Shape(m, st) && Shape(m, st') && i < |st.pieces| && Fits(st) && Fits(st')
    requires |GetBytes(st'.pieces[i].blocks)| == st.pieces[i].length
    requires st'.disk == Splice(st.disk, st.pieces[i].offset, GetBytes(st'.pieces[i].blocks))
    ensures PieceRange(st', i) == GetBytes(st'.pieces[i].blocks)
    ensures forall k :: 0 <= k < |st.pieces| && k != i ==> PieceRange(st', k) == PieceRange(st, k)
  {
    hide Tiled, GetBytes;
    var whole := GetBytes(st'.pieces[i].blocks);
    SpliceRead(st.disk, st.pieces[i].offset, whole, 0, 0);
    forall k | 0 <= k < |st.pieces| && k != i
      ensures PieceRange(st', k) == PieceRange(st, k)
    {
      PiecesAreDisjoint(m, st, i, k);
      SpliceRead(st.disk, st.pieces[i].offset, whole, st.pieces[k].offset, st.pieces[k].offset + st.pieces[k].length);
      hide Splice, Shape;
    }
  }

  // Cancelling and handing out touch the fetching marks only.
  ghost predicate SameButFetching(st: BundleState, st': BundleState) {
    && st' == st.(pieces := st'.pieces)
    && |st'.pieces| == |st.pieces|
    && forall i :: 0 <= i < |st.pieces| ==>
        && st'.pieces[i].(blocks := st.pieces[i].blocks) == st.pieces[i]
        && |st'.pieces[i].blocks| == |st.pieces[i].blocks|
        && forall j :: 0 <= j < |st.pieces[i].blocks| ==>
            st'.pieces[i].blocks[j].(fetching := st.pieces[i].blocks[j].fetching) == st.pieces[i].blocks[j]
  }

  lemma {:induction false} MarksKeepInv(H: Hasher, m: Meta, st: BundleState, st': BundleState)
    requires BookInv(H, m, st) && SameButFetching(st, st') && AllPieceInv(H, st'.pieces)
    ensures BookInv(H, m, st')
    ensures DiskInv(st) ==> DiskInv(st')
  {
    ShapeFits(H, m, st');
    ShapeFits(H, m, st);
    hide PieceInv, Tiled;
    forall i | 0 <= i < |st.pieces|
      ensures GetBytes(st'.pieces[i].blocks) == GetBytes(st.pieces[i].blocks)
    {
      SameData(st'.pieces[i].blocks, st.pieces[i].blocks);
    }
    assert forall i :: 0 <= i < |st.pieces| ==> PieceRange(st', i) == PieceRange(st, i);
  }

  lemma {:induction false} CancelMarks(H: Hasher, st: BundleState, i: nat, begin: nat)
    requires AllPieceInv(H, st.pieces) && i < |st.pieces|
    ensures SameButFetching(st, AfterCancel(st, i, begin)) && AllPieceInv(H, AfterCancel(st, i, begin).pieces)
  {
    CancelKeepsPieceInv(H, st.pieces[i], begin);
  }

  lemma {:induction false} NextMarks(H: Hasher, st: BundleState, limit: int)
    requires AllPieceInv(H, st.pieces)
    ensures SameButFetching(st, AfterNext(st, limit)) && AllPieceInv(H, AfterNext(st, limit).pieces)
  {
    NextAreIdle(H, st.pieces, limit);
    MarkFetchingMarks(H, st.pieces, NextBlocks(st.pieces, limit));
  }

  lemma {:induction false} NextAreIdle(H: Hasher, ps: Pieces, limit: int)
    requires AllPieceInv(H, ps)
    ensures forall info :: info in NextBlocks(ps, limit) ==> IsIdle(ps, info)
  {
    IdleBeforeLists(H, ps, |ps|);
  }

  lemma {:induction false} StepKeepsBook(H: Hasher, m: Meta, st: BundleState, op: Op)
    requires BookInv(H, m, st) && (!op.Next? ==> op.piece < |st.pieces|)
    ensures Fits(st) && BookInv(H, m, Step(H, st, op))
  {
    ShapeFits(H, m, st);
    match op
    case Write(i, begin, data, fate) => WriteKeepsBook(H, m, st, i, begin, data, fate);
    case Next(limit) =>
      NextMarks(H, st, limit);
      MarksKeepInv(H, m, st, AfterNext(st, limit));
    case Cancel(i, begin) =>
      CancelMarks(H, st, i, begin);
      MarksKeepInv(H, m, st, AfterCancel(st, i, begin));
    case Get(_, _, _) =>
  }

  lemma {:induction false} StepKeepsInv(H: Hasher, m: Meta, st: BundleState, op: Op)
    requires BundleInv(H, m, st) && (!op.Next? ==> op.piece < |st.pieces|)
    requires op.Write? ==> op.fate.Kept?
    ensures BundleInv(H, m, Step(H, st, op))
  {
    if op.Write? {
      WriteKeepsDisk(H, m, st, op.piece, op.begin, op.data);
    } else {
      QuietStepKeepsInv(H, m, st, op);
    }
  }

  // Every step but a write leaves the disk and the flags alone.
  lemma {:induction false} QuietStepKeepsInv(H: Hasher, m: Meta, st: BundleState, op: Op)
    requires BundleInv(H, m, st) && Fits(st) && (!op.Next? ==> op.piece < |st.pieces|) && !op.Write?
    ensures BundleInv(H, m, Step(H, st, op))
  {
    assert !op.Next? ==> |st.pieces[op.piece].blocks| == BlockCount(st.pieces[op.piece].length);
    hide DiskInv, BitsInv, Tiled, PieceInv, Fits;
    match op
    case Next(limit) =>
      NextMarks(H, st, limit);
      MarksKeepInv(H, m, st, AfterNext(st, limit));
    case Cancel(i, begin) =>
      CancelMarks(H, st, i, begin);
      MarksKeepInv(H, m, st, AfterCancel(st, i, begin));
    case Get(i, _, _) => GetKeepsInv(H, m, st, i);
  }

  lemma {:induction false} GetKeepsInv(H: Hasher, m: Meta, st: BundleState, i: nat)
    requires BundleInv(H, m, st) && i < |st.pieces|
    ensures BundleInv(H, m, AfterGet(st, i))
  {
    var st' := AfterGet(st, i);
    hide PieceInv, Tiled, BitsInv, Loaded, CacheSpec.Touch, GetBytes, Shape, AllPieceInv;
    SameRanges(st, st');
    assert BookInv(H, m, st') by {
      SameBooks(H, m, st, st');
    }
  }

  lemma {:induction false} SameRanges(st: BundleState, st': BundleState)
    requires Fits(st) && st'.pieces == st.pieces && st'.disk == st.disk
    ensures Fits(st')
    ensures forall k :: 0 <= k < |st.pieces| ==> PieceRange(st', k) == PieceRange(st, k)
  {
    hide Tiled;
  }

  lemma {:induction false} SameBooks(H: Hasher, m: Meta, st: BundleState, st': BundleState)
    requires BookInv(H, m, st) && st' == st.(cache := st'.cache)
    ensures BookInv(H, m, st')
  {
    hide PieceInv, AllPieceInv;
  }
}
