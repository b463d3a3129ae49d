// What holds after whole runs of a download that starts from nothing.
module BundleRuns {
  import opened Common
  import opened PieceSpec
  import opened DiskSpec
  import opened Requests
  import opened BundleSpec
  import CacheSpec

  // The operations name pieces of the torrent.
  ghost predicate Legal(m: Meta, ops: seq<Op>) {
    forall k :: 0 <= k < |ops| ==> ops[k].Next? || ops[k].piece < |m.hashes|
  }

  ghost predicate DiskNeverFails(ops: seq<Op>) {
    forall k :: 0 <= k < |ops| && ops[k].Write? ==> ops[k].fate.Kept?
  }

  ghost function Run(H: Hasher, m: Meta, ops: seq<Op>): (st: BundleState)
    requires Legal(m, ops)
    ensures BookInv(H, m, st)
  {
    if ops == [] then
      CreateInv(H, m);
      Create(m)
    else
      var before := Run(H, m, ops[..|ops| - 1]);
      StepKeepsBook(H, m, before, ops[|ops| - 1]);
      Step(H, before, ops[|ops| - 1])
  }

  lemma {:induction false} RunFits(H: Hasher, m: Meta, ops: seq<Op>)
    requires Legal(m, ops)
    ensures Fits(Run(H, m, ops)) && |Run(H, m, ops).pieces| == |m.hashes|
  {
    ShapeFits(H, m, Run(H, m, ops));
    hide Step, Fits, AllPieceInv, BitsInv;
  }

  lemma {:induction false} LegalMore(m: Meta, ops: seq<Op>, op: Op)
    requires Legal(m, ops) && (op.Next? || op.piece < |m.hashes|)
    ensures Legal(m, ops + [op])
  {
  }

  lemma {:induction false} RunOneMore(H: Hasher, m: Meta, ops: seq<Op>, op: Op)
    requires Legal(m, ops) && (op.Next? || op.piece < |m.hashes|)
    ensures Fits(Run(H, m, ops)) && |Run(H, m, ops).pieces| == |m.hashes|
    ensures Legal(m, ops + [op]) && Run(H, m, ops + [op]) == Step(H, Run(H, m, ops), op)
  {
    RunFits(H, m, ops);
    LegalMore(m, ops, op);
    var more := ops + [op];
    assert more[..|more| - 1] == ops && more[|more| - 1] == op;
    hide Step, Fits, BookInv, Legal;
  }

  // After any interleaving of requests, right and wrong blocks, cancellations,
  // reads and disk failures: bit i is set exactly when piece i is complete, that
  // is when it has blocks, all are written and together they hash to its hash.
  lemma {:induction false} EveryRunKeepsTheBooks(H: Hasher, m: Meta, ops: seq<Op>)
    requires Legal(m, ops)
    ensures var st := Run(H, m, ops);
            && |st.pieces| == |m.hashes|
            && (forall i :: i in st.bits ==> i < |st.pieces|)
            && (forall i :: 0 <= i < |st.pieces| ==>
                  && (i in st.bits <==> st.pieces[i].complete)
                  && (st.pieces[i].complete <==> st.pieces[i].blocks != [] && AllWritten(st.pieces[i].blocks))
                  && (st.pieces[i].complete ==> H(GetBytes(st.pieces[i].blocks)) == m.hashes[i]))
            && (st.complete ==> forall i :: 0 <= i < |st.pieces| ==> st.pieces[i].complete)
  {
    var st := Run(H, m, ops);
    assert forall i :: 0 <= i < |st.pieces| ==> PieceInv(H, st.pieces[i]);
  }

  lemma {:induction false} RunKeepsInv(H: Hasher, m: Meta, ops: seq<Op>)
    requires Legal(m, ops) && DiskNeverFails(ops)
    ensures BundleInv(H, m, Run(H, m, ops))
  {
    if ops == [] {
      CreateInv(H, m);
    } else {
      RunKeepsInv(H, m, ops[..|ops| - 1]);
      StepKeepsInv(H, m, Run(H, m, ops[..|ops| - 1]), ops[|ops| - 1]);
    }
  }

  // The bytes of the whole content that belong to piece i.
  function PieceContent(m: Meta, content: bytes, i: nat): (r: bytes)
    requires |content| == m.length
    ensures |r| == m.PieceSize(i)
  {
    PieceStartMonotone(m, i, i + 1);
    content[m.PieceStart(i)..m.PieceStart(i + 1)]
  }

  // While the disk works, the range of every complete piece hashes to its hash,
  // and the bundle is complete exactly when all its pieces are.
  lemma {:induction false} CompletePiecesAreOnDisk(H: Hasher, m: Meta, ops: seq<Op>)
    requires Legal(m, ops) && DiskNeverFails(ops)
    ensures var st := Run(H, m, ops);
            && |st.disk| == m.length
            && (forall i :: 0 <= i < |st.pieces| && st.pieces[i].complete ==>
                  H(PieceContent(m, st.disk, i)) == m.hashes[i])
            && (st.complete <==> st.pieces != [] && forall i :: 0 <= i < |st.pieces| ==> st.pieces[i].complete)
  {
    RunKeepsInv(H, m, ops);
    var st := Run(H, m, ops);
    hide Run;
    forall i | 0 <= i < |st.pieces| && st.pieces[i].complete
      ensures H(PieceContent(m, st.disk, i)) == m.hashes[i]
    {
      CompleteRange(H, m, st, i);
    }
    hide PieceInv, Tiled, DiskInv, Shape;
    assert |st.pieces| == |m.hashes|;
  }

  lemma {:induction false} CompleteRange(H: Hasher, m: Meta, st: BundleState, i: nat)
    requires BundleInv(H, m, st) && i < |st.pieces| && st.pieces[i].complete
    ensures m.PieceStart(i + 1) <= m.length && PieceInv(H, st.pieces[i])
    ensures st.disk[m.PieceStart(i)..m.PieceStart(i + 1)] == GetBytes(st.pieces[i].blocks)
    ensures H(st.disk[m.PieceStart(i)..m.PieceStart(i + 1)]) == m.hashes[i]
  {
    hide Meta.PieceStart, Tiled, BitsInv, GetBytes;
    PieceStartMonotone(m, i, i + 1);
    assert PieceOnDisk(st, i) && PieceInv(H, st.pieces[i]);
    assert PieceRange(st, i) == st.disk[m.PieceStart(i)..m.PieceStart(i + 1)];
  }

  // ----- content that arrives block by block -----

  function BlockContent(m: Meta, content: bytes, i: nat, j: nat): bytes
    requires |content| == m.length
  {
    BlockSlice(PieceContent(m, content, i), j)
  }

  // Block j of a piece with these bytes.
  function BlockSlice(piece: bytes, j: nat): bytes {
    piece[BlockStart(|piece|, j)..BlockStart(|piece|, j + 1)]
  }

  // The hashes of the torrent are those of the content.
  ghost predicate Describes(H: Hasher, m: Meta, content: bytes) {
    && |content| == m.length
    && forall i :: 0 <= i < |m.hashes| ==> H(PieceContent(m, content, i)) == m.hashes[i]
  }

  ghost predicate Delivers(m: Meta, op: Op, i: nat, j: nat) {
    op.Write? && op.piece == i && op.begin == BlockStart(m.PieceSize(i), j)
  }

  ghost predicate Delivered(m: Meta, ops: seq<Op>, i: nat, j: nat) {
    exists k :: 0 <= k < |ops| && Delivers(m, ops[k], i, j)
  }

  // A write brings the content's bytes to any block it is for.
  ghost predicate Truthful(m: Meta, content: bytes, op: Op)
    requires |content| == m.length
  {
    forall j: nat :: op.Write? && j < BlockCount(m.PieceSize(op.piece)) && Delivers(m, op, op.piece, j) ==>
      op.data == BlockContent(m, content, op.piece, j)
  }

  ghost predicate PieceHolds(p: PieceState, content: bytes) {
    && |content| == p.length
    && forall j :: 0 <= j < |p.blocks| && p.blocks[j].written ==>
        p.blocks[j].data == BlockSlice(content, j)
  }

  ghost predicate Holds(m: Meta, content: bytes, st: BundleState)
    requires |content| == m.length
  {
    forall i :: 0 <= i < |st.pieces| ==> PieceHolds(st.pieces[i], PieceContent(m, content, i))
  }

  // A right block is never thrown away again.
  lemma {:induction false} TruthfulPiece(H: Hasher, p: PieceState, begin: nat, data: bytes, content: bytes)
    requires PieceInv(H, p) && PieceHolds(p, content) && H(content) == p.hash
    requires forall j: nat :: j < BlockCount(p.length) && begin == BlockStart(p.length, j) ==>
               data == BlockSlice(content, j)
    ensures var q := WritePiece(H, p, begin, data);
            && |q.blocks| == |p.blocks| && q.length == p.length
            && PieceHolds(q, content)
            && forall j :: 0 <= j < |p.blocks| ==>
                (q.blocks[j].written <==> p.blocks[j].written || begin == BlockStart(p.length, j))
  {
    var found := FindBlock(p.length, begin);
    if found.Some? && !p.blocks[found.value].written {
      var m := found.value;
      var blocks := Stored(p, m, data);
      var full := p.(blocks := blocks);
      TruthfulStored(H, p, m, begin, data, content, full);
      if AllWritten(blocks) {
        GetBytesIsContent(full, content);
      }
      hide PieceInv, PieceHolds, GetBytes, Tiled, Stored;
    } else {
      OnlyThere(p, begin);
    }
  }

  // A block starts at begin only if it is the one FindBlock finds.
  lemma {:induction false} OnlyThere(p: PieceState, begin: nat)
    requires |p.blocks| == BlockCount(p.length)
    ensures forall j :: 0 <= j < |p.blocks| && begin == BlockStart(p.length, j) ==> FindBlock(p.length, begin) == Some(j)
  {
    forall j | 0 <= j < |p.blocks| && begin == BlockStart(p.length, j)
      ensures FindBlock(p.length, begin) == Some(j)
    {
      FindBlockAtStart(p.length, j);
    }
  }

  lemma {:induction false} TruthfulStored(H: Hasher, p: PieceState, m: nat, begin: nat, data: bytes, content: bytes, full: PieceState)
    requires PieceInv(H, p) && PieceHolds(p, content)
    requires FindBlock(p.length, begin) == Some(m)
    requires data == BlockSlice(content, m)
    requires full == p.(blocks := Stored(p, m, data))
    ensures |data| == p.blocks[m].length
    ensures Tiled(full.blocks, full.length) && PieceHolds(full, content)
    ensures forall j :: 0 <= j < |p.blocks| ==>
              (full.blocks[j].written <==> p.blocks[j].written || begin == BlockStart(p.length, j))
  {
    OnlyThere(p, begin);
    hide FindBlock, BlockStart;
  }

  // Compared to st, exactly the block that op delivers is newly written.
  ghost predicate WritesDelivered(m: Meta, st: BundleState, st': BundleState, op: Op) {
    && |st'.pieces| == |st.pieces|
    && forall i :: 0 <= i < |st.pieces| ==> PieceWrites(m, st.pieces[i], st'.pieces[i], op, i)
  }

  ghost predicate PieceWrites(m: Meta, p: PieceState, q: PieceState, op: Op, i: nat) {
    && |q.blocks| == |p.blocks|
    && forall j :: 0 <= j < |p.blocks| ==> (q.blocks[j].written <==> p.blocks[j].written || Delivers(m, op, i, j))
  }

  lemma {:induction false} TruthfulStep(H: Hasher, m: Meta, content: bytes, st: BundleState, op: Op)
    requires Describes(H, m, content) && BookInv(H, m, st) && Holds(m, content, st)
    requires (!op.Next? ==> op.piece < |st.pieces|) && Truthful(m, content, op)
    ensures Fits(st)
    ensures Holds(m, content, Step(H, st, op)) && WritesDelivered(m, st, Step(H, st, op), op)
  {
    ShapeFits(H, m, st);
    var st' := Step(H, st, op);
    match op
    case Write(i, begin, data, fate) =>
      TruthfulWrite(H, m, content, st, op);
    case Next(limit) =>
      NextMarks(H, st, limit);
      SameHolds(m, content, st, st', op);
    case Cancel(i, begin) =>
      CancelMarks(H, st, i, begin);
      SameHolds(m, content, st, st', op);
    case Get(_, _, _) =>
  }

  lemma {:induction false} TruthfulHere(m: Meta, content: bytes, op: Op)
    requires op.Write? && |content| == m.length && Truthful(m, content, op)
    ensures forall j: nat :: j < BlockCount(m.PieceSize(op.piece)) && op.begin == BlockStart(m.PieceSize(op.piece), j) ==>
              op.data == BlockSlice(PieceContent(m, content, op.piece), j)
  {
    hide BlockStart, BlockSlice, PieceContent, Meta.PieceStart, Meta.PieceSize;
    assert forall j: nat :: j < BlockCount(m.PieceSize(op.piece)) && op.begin == BlockStart(m.PieceSize(op.piece), j) ==>
        Delivers(m, op, op.piece, j) && op.data == BlockContent(m, content, op.piece, j);
  }

  lemma {:induction false} TruthfulWrite(H: Hasher, m: Meta, content: bytes, st: BundleState, op: Op)
    requires Describes(H, m, content) && BookInv(H, m, st) && Holds(m, content, st) && Fits(st)
    requires op.Write? && op.piece < |st.pieces| && Truthful(m, content, op)
    ensures Holds(m, content, Step(H, st, op)) && WritesDelivered(m, st, Step(H, st, op), op)
  {
    var st', i := Step(H, st, op), op.piece;
    var p, q := st.pieces[i], WritePiece(H, st.pieces[i], op.begin, op.data);
    TruthfulHere(m, content, op);
    TruthfulPiece(H, p, op.begin, op.data, PieceContent(m, content, i));
    WrittenPieces(H, st, i, op.begin, op.data, op.fate);
    assert PieceWrites(m, p, q, op, i) by {
      hide PieceInv, WritePiece, PieceHolds, PieceContent, BlockStart;
    }
    hide PieceInv, WritePiece, PieceHolds, Tiled, PieceContent, Describes, Truthful, AfterWrite, BookInv, Fits;
    assert st'.pieces == st.pieces[i := q];
    forall k | 0 <= k < |st.pieces| && k != i
      ensures PieceWrites(m, st.pieces[k], st'.pieces[k], op, k)
    {
    }
  }

  lemma {:induction false} SameHolds(m: Meta, content: bytes, st: BundleState, st': BundleState, op: Op)
    requires |content| == m.length && Holds(m, content, st) && SameButFetching(st, st') && !op.Write?
    ensures Holds(m, content, st') && WritesDelivered(m, st, st', op)
  {
    forall i, j | 0 <= i < |st.pieces| && 0 <= j < |st.pieces[i].blocks|
      ensures st'.pieces[i].blocks[j].written == st.pieces[i].blocks[j].written
      ensures st'.pieces[i].blocks[j].data == st.pieces[i].blocks[j].data
    {
      assert st'.pieces[i].blocks[j].(fetching := st.pieces[i].blocks[j].fetching) == st.pieces[i].blocks[j];
    }
  }

  // Written blocks are exactly the delivered ones.
  lemma {:induction false} WrittenIsDelivered(H: Hasher, m: Meta, content: bytes, ops: seq<Op>)
    requires Legal(m, ops) && Describes(H, m, content)
    requires forall k :: 0 <= k < |ops| ==> Truthful(m, content, ops[k])
    ensures Holds(m, content, Run(H, m, ops)) && WrittenAre(m, Run(H, m, ops), ops)
  {
    if ops == [] {
      NothingWritten(m, content);
    } else {
      var before, op := ops[..|ops| - 1], ops[|ops| - 1];
      assert ops == before + [op];
      var st := Run(H, m, before);
      assert op.Next? || op.piece < |st.pieces|;
      hide BookInv, Holds, WrittenAre, WritesDelivered, Truthful, Describes, Fits, Step;
      WrittenIsDelivered(H, m, content, before);
      TruthfulStep(H, m, content, st, op);
      WrittenNext(m, st, Step(H, st, op), before, op);
    }
  }

  lemma {:induction false} NothingWritten(m: Meta, content: bytes)
    requires |content| == m.length
    ensures Holds(m, content, Create(m)) && WrittenAre(m, Create(m), [])
  {
    hide Meta.PieceStart, PieceContent;
  }

  ghost predicate WrittenAre(m: Meta, st: BundleState, ops: seq<Op>) {
    forall i, j :: 0 <= i < |st.pieces| && 0 <= j < |st.pieces[i].blocks| ==>
      (st.pieces[i].blocks[j].written <==> Delivered(m, ops, i, j))
  }

  lemma {:induction false} WrittenNext(m: Meta, st: BundleState, st': BundleState, before: seq<Op>, op: Op)
    requires WrittenAre(m, st, before) && WritesDelivered(m, st, st', op)
    ensures WrittenAre(m, st', before + [op])
  {
    forall i, j | 0 <= i < |st.pieces| && 0 <= j < |st.pieces[i].blocks|
      ensures st'.pieces[i].blocks[j].written <==> Delivered(m, before + [op], i, j)
    {
      assert PieceWrites(m, st.pieces[i], st'.pieces[i], op, i);
      DeliveredNext(m, before, op, i, j);
      hide Delivered, Delivers;
    }
  }

  lemma {:induction false} DeliveredNext(m: Meta, before: seq<Op>, op: Op, i: nat, j: nat)
    ensures Delivered(m, before + [op], i, j) <==> Delivered(m, before, i, j) || Delivers(m, op, i, j)
  {
    var ops := before + [op];
    if Delivered(m, before, i, j) {
      var k :| 0 <= k < |before| && Delivers(m, before[k], i, j);
      assert Delivers(m, ops[k], i, j);
    }
    if Delivers(m, op, i, j) {
      assert Delivers(m, ops[|before|], i, j);
    }
  }

  lemma {:induction false} CompleteIsContent(H: Hasher, m: Meta, content: bytes, st: BundleState, i: nat)
    requires |content| == m.length && BookInv(H, m, st) && Holds(m, content, st)
    requires i < |st.pieces| && st.pieces[i].complete
    ensures GetBytes(st.pieces[i].blocks) == PieceContent(m, content, i)
  {
    hide Meta.PieceStart, PieceContent;
    var p := st.pieces[i];
    assert PieceInv(H, p) && PieceHolds(p, PieceContent(m, content, i));
    assert forall j :: 0 <= j < |p.blocks| ==> p.blocks[j].written;
    GetBytesIsContent(p, PieceContent(m, content, i));
  }

  lemma {:induction false} PrefixGrows(d: bytes, c: bytes, a: nat, b: nat)
    requires a <= b <= |d| == |c| && d[..a] == c[..a] && d[a..b] == c[a..b]
    ensures d[..b] == c[..b]
  {
    assert d[..b] == d[..a] + d[a..b];
    assert c[..b] == c[..a] + c[a..b];
  }

  lemma {:induction false} PiecesMakePrefix(m: Meta, d: bytes, c: bytes, n: nat)
    requires |d| == |c| == m.length && forall i: nat :: i < n ==> PieceContent(m, d, i) == PieceContent(m, c, i)
    ensures m.PieceStart(n) <= m.length && d[..m.PieceStart(n)] == c[..m.PieceStart(n)]
  {
    PieceStartMonotone(m, 0, n);
    if n > 0 {
      PiecesMakePrefix(m, d, c, n - 1);
      PieceStartMonotone(m, n - 1, n);
      assert PieceContent(m, d, n - 1) == PieceContent(m, c, n - 1);
      PrefixGrows(d, c, m.PieceStart(n - 1), m.PieceStart(n));
    }
  }

  // Strings whose pieces agree are equal.
  lemma {:induction false} SamePieces(m: Meta, d: bytes, c: bytes)
    requires |d| == |c| == m.length && m.Covers()
    requires forall i: nat :: i < |m.hashes| ==> PieceContent(m, d, i) == PieceContent(m, c, i)
    ensures d == c
  {
    PiecesMakePrefix(m, d, c, |m.hashes|);
    assert d[..m.length] == d && c[..m.length] == c;
  }

  ghost predicate EverythingDelivered(m: Meta, ops: seq<Op>) {
    forall i, j: nat :: 0 <= i < |m.hashes| && j < BlockCount(m.PieceSize(i)) ==> Delivered(m, ops, i, j)
  }

  ghost predicate NoEmptyPiece(m: Meta) {
    forall i :: 0 <= i < |m.hashes| ==> m.PieceSize(i) > 0
  }

  lemma {:induction false} CompleteIsDelivered(H: Hasher, m: Meta, content: bytes, st: BundleState)
    requires |content| == m.length && m.Covers() && BundleInv(H, m, st) && Holds(m, content, st)
    requires forall i :: 0 <= i < |st.pieces| ==> st.pieces[i].complete
    ensures st.disk == content
  {
    hide BitsInv, DiskInv, PieceInv, Tiled, Holds, GetBytes, Meta.PieceStart;
    assert |st.disk| == m.length;
    forall i: nat | i < |m.hashes|
      ensures PieceContent(m, st.disk, i) == PieceContent(m, content, i)
    {
      CompleteRange(H, m, st, i);
      CompleteIsContent(H, m, content, st, i);
    }
    SamePieces(m, st.disk, content);
  }

  // Right blocks, in any order, repeated or not, with requests, cancellations
  // and reads in between: the download is complete exactly when every block was
  // delivered at least once, and then the disk is the content.
  lemma {:induction false} AnyOrderDelivers(H: Hasher, m: Meta, content: bytes, ops: seq<Op>)
    requires Legal(m, ops) && DiskNeverFails(ops) && Describes(H, m, content)
    requires forall k :: 0 <= k < |ops| ==> Truthful(m, content, ops[k])
    ensures var st := Run(H, m, ops);
            && (st.complete <==> m.hashes != [] && NoEmptyPiece(m) && EverythingDelivered(m, ops))
            && (st.complete ==> forall i: nat :: i < |m.hashes| ==> i in st.bits)
            && (st.complete && m.Covers() ==> st.disk == content)
  {
    RunKeepsInv(H, m, ops);
    WrittenIsDelivered(H, m, content, ops);
    var st := Run(H, m, ops);
    forall i | 0 <= i < |st.pieces|
      ensures st.pieces[i].complete <==>
                m.PieceSize(i) > 0 && forall j: nat :: j < BlockCount(m.PieceSize(i)) ==> Delivered(m, ops, i, j)
    {
      assert PieceInv(H, st.pieces[i]);
      PieceDelivered(H, m, ops, st, i);
    }
    if st.complete && m.Covers() {
      CompleteIsDelivered(H, m, content, st);
    }
  }

  lemma {:induction false} PieceDelivered(H: Hasher, m: Meta, ops: seq<Op>, st: BundleState, i: nat)
    requires Shape(m, st) && i < |st.pieces| && PieceInv(H, st.pieces[i])
    requires forall j :: 0 <= j < |st.pieces[i].blocks| ==>
               (st.pieces[i].blocks[j].written <==> Delivered(m, ops, i, j))
    ensures st.pieces[i].complete <==>
              m.PieceSize(i) > 0 && forall j: nat :: j < BlockCount(m.PieceSize(i)) ==> Delivered(m, ops, i, j)
  {
    var p := st.pieces[i];
    assert p.blocks != [] <==> m.PieceSize(i) > 0;
    hide Delivered;
    if forall j: nat :: j < BlockCount(m.PieceSize(i)) ==> Delivered(m, ops, i, j) {
      assert AllWritten(p.blocks);
    }
    if AllWritten(p.blocks) {
      assert forall j: nat :: j < |p.blocks| ==> Delivered(m, ops, i, j);
    }
  }

  // ----- wrong blocks -----

  // A piece of the content and what d has in its place are two strings with one hash.
  ghost predicate Collides(H: Hasher, m: Meta, content: bytes, d: bytes)
    requires |content| == |d| == m.length
  {
    exists i: nat :: i < |m.hashes| && PieceContent(m, d, i) != PieceContent(m, content, i)
                     && H(PieceContent(m, d, i)) == H(PieceContent(m, content, i))
  }

  // Whatever peers send: a bundle that says it is complete has other bytes than the
  // content on disk if and only if one of them collides with a piece of the content.
  lemma {:induction false} CompleteMeansContent(H: Hasher, m: Meta, content: bytes, ops: seq<Op>)
    requires Legal(m, ops) && DiskNeverFails(ops) && m.Covers() && Describes(H, m, content)
    requires Run(H, m, ops).complete
    ensures var d := Run(H, m, ops).disk;
            |d| == m.length && (d != content <==> Collides(H, m, content, d))
  {
    CompletePiecesAreOnDisk(H, m, ops);
    EveryRunKeepsTheBooks(H, m, ops);
    var st := Run(H, m, ops);
    hide Run, PieceContent;
    if !Collides(H, m, content, st.disk) {
      forall i: nat | i < |m.hashes|
        ensures PieceContent(m, st.disk, i) == PieceContent(m, content, i)
      {
        assert st.pieces[i].complete;
      }
      SamePieces(m, st.disk, content);
    }
  }

  // ----- a disk that fails -----

  // The bytes from n on are those of the whole.
  ghost predicate RestWasThere(range: bytes, whole: bytes, n: nat) {
    n >= |whole| || (|range| == |whole| && range[n..] == whole[n..])
  }

  // When the disk fails after n bytes of the write that completes a piece, the piece
  // counts as complete all the same: its bit is set and no later write of it is
  // accepted. The disk is as it should be exactly when it held the other bytes of the
  // piece before.
  lemma {:induction false} FailedWriteStaysUnwritten(H: Hasher, m: Meta, st: BundleState, i: nat, begin: nat, data: bytes, n: nat)
    requires BundleInv(H, m, st) && i < |st.pieces|
    requires |st.pieces[i].blocks| == BlockCount(st.pieces[i].length) && Completes(H, st, i, begin, data)
    ensures var st' := AfterWrite(H, st, i, begin, data, Cut(n));
            var whole := GetBytes(st'.pieces[i].blocks);
            && st'.pieces[i].complete && i in st'.bits
            && (forall b, d :: Refusal(st'.pieces[i], b, d).Some?)
            && PieceOnDisk(st, i) && (DiskInv(st') <==> RestWasThere(PieceRange(st, i), whole, n))
    ensures WriteResult(H, st, i, begin, data, Cut(n)) == Some(DiskFailure)
    ensures WriteResult(H, st, i, begin, data, Kept) == None
  {
    var st' := AfterWrite(H, st, i, begin, data, Cut(n));
    CutWrite(H, m, st, st', i, begin, data, n);
    var q := st'.pieces[i];
    hide AfterWrite, WritePiece, Refusal, PieceInv, GetBytes, BookInv, DiskInv, BitsInv, Fits, Tiled, Splice, Completes, PieceRange;
    PartOnDisk(m, st, st', i, GetBytes(q.blocks), n);
    OneRange(st, st', i);
    forall b, d
      ensures Refusal(q, b, d).Some?
    {
      CompletePieceIsFinal(H, q, b, d);
    }
  }

  lemma {:induction false} CutWrite(H: Hasher, m: Meta, st: BundleState, st': BundleState, i: nat, begin: nat, data: bytes, n: nat)
    requires BundleInv(H, m, st) && i < |st.pieces|
    requires |st.pieces[i].blocks| == BlockCount(st.pieces[i].length) && Completes(H, st, i, begin, data)
    requires st' == AfterWrite(H, st, i, begin, data, Cut(n))
    ensures Shape(m, st) && Shape(m, st') && Fits(st) && Fits(st') && DiskInv(st) && |st'.pieces| == |st.pieces|
    ensures PieceInv(H, st'.pieces[i]) && st'.pieces[i].complete && i in st'.bits
    ensures |GetBytes(st'.pieces[i].blocks)| == st.pieces[i].length
    ensures st'.pieces == st.pieces[i := st'.pieces[i]] && PieceOnDisk(st, i)
    ensures st'.disk == Splice(st.disk, st.pieces[i].offset, Reaching(Cut(n), GetBytes(st'.pieces[i].blocks)))
  {
    WriteKeepsBook(H, m, st, i, begin, data, Cut(n));
    WrittenPieces(H, st, i, begin, data, Cut(n));
    WrittenDisk(H, st, i, begin, data, Cut(n));
    WriteKeepsComplete(H, st.pieces[i], begin, data);
    hide AfterWrite, WritePiece, Refusal, Tiled, Splice, GetBytes, AllBits;
    assert PieceInv(H, st'.pieces[i]);
    hide PieceInv;
    CompletePieceHasAllBytes(H, st'.pieces[i]);
    ShapeFits(H, m, st');
  }

  lemma {:induction false} PartOnDisk(m: Meta, st: BundleState, st': BundleState, i: nat, whole: bytes, n: nat)
    requires Shape(m, st) && Shape(m, st') && i < |st.pieces| && Fits(st) && Fits(st') && |whole| == st.pieces[i].length
    requires PieceOnDisk(st, i) && st'.disk == Splice(st.disk, st.pieces[i].offset, Reaching(Cut(n), whole))
    ensures PieceOnDisk(st', i) && (PieceRange(st', i) == whole <==> RestWasThere(PieceRange(st, i), whole, n))
    ensures forall k :: 0 <= k < |st.pieces| && k != i ==> PieceRange(st', k) == PieceRange(st, k)
  {
    assert st'.pieces[i].offset == st.pieces[i].offset && st'.pieces[i].length == st.pieces[i].length;
    SplicedPart(st.disk, st.pieces[i].offset, whole, n);
    hide Tiled, Splice, RestWasThere, Shape;
    forall k | 0 <= k < |st.pieces| && k != i
      ensures PieceRange(st', k) == PieceRange(st, k)
    {
      SameRangeElsewhere(m, st, st', i, Reaching(Cut(n), whole), k);
    }
  }

  lemma {:induction false} SameRangeElsewhere(m: Meta, st: BundleState, st': BundleState, i: nat, b: bytes, k: nat)
    requires Shape(m, st) && Shape(m, st') && i < |st.pieces| && Fits(st) && Fits(st') && |b| <= st.pieces[i].length
    requires PieceOnDisk(st, i) && st'.disk == Splice(st.disk, st.pieces[i].offset, b)
    requires k < |st.pieces| && k != i
    ensures PieceOnDisk(st, k) && PieceOnDisk(st', k) && PieceRange(st', k) == PieceRange(st, k)
  {
    PiecesAreDisjoint(m, st, i, k);
    assert st'.pieces[k].offset == st.pieces[k].offset && st'.pieces[k].length == st.pieces[k].length;
    hide Tiled, Splice, Shape;
    SpliceRead(st.disk, st.pieces[i].offset, b, st.pieces[k].offset, st.pieces[k].offset + st.pieces[k].length);
  }

  // Writing the first n bytes makes a range hold all of them if the others were there.
  lemma {:induction false} SplicedPart(d: bytes, at: nat, whole: bytes, n: nat)
    requires at + |whole| <= |d|
    ensures Splice(d, at, Reaching(Cut(n), whole))[at..at + |whole|] == whole
       <==> RestWasThere(d[at..at + |whole|], whole, n)
  {
    var part := Reaching(Cut(n), whole);
    var now, before := Splice(d, at, part)[at..at + |whole|], d[at..at + |whole|];
    assert |part| == Min(n, |whole|) && part == whole[..|part|];
    assert now == part + before[|part|..];
    assert whole == whole[..|part|] + whole[|part|..];
    hide Splice, Reaching;
    if now == whole {
      assert now[|part|..] == before[|part|..];
    }
  }

  lemma {:induction false} OneRange(st: BundleState, st': BundleState, i: nat)
    requires DiskInv(st) && Fits(st') && i < |st.pieces| && |st'.pieces| == |st.pieces| && st'.pieces[i].complete
    requires forall k :: 0 <= k < |st.pieces| && k != i ==>
               st'.pieces[k] == st.pieces[k] && PieceRange(st', k) == PieceRange(st, k)
    ensures DiskInv(st') <==> PieceRange(st', i) == GetBytes(st'.pieces[i].blocks)
  {
    hide Tiled, GetBytes, PieceRange;
  }

  // It happens: a torrent of one block, whose last bytes are not all zero, and a disk
  // that fails before it has them.
  lemma {:induction false} FailingDiskLosesThePiece(H: Hasher, content: bytes, n: nat)
    requires 0 < |content| <= MAX_BLOCK_LENGTH && n < |content|
    requires content[n..] != Zeros(|content| - n)
    ensures var m := Meta(|content|, |content|, [H(content)]);
            var ops := [Write(0, 0, content, Cut(n))];
            && Legal(m, ops)
            && var st := Run(H, m, ops);
               |st.pieces| == 1 && st.pieces[0].complete && st.bits == {0} && !st.complete && st.disk != content
  {
    var m := Meta(|content|, |content|, [H(content)]);
    var op := Write(0, 0, content, Cut(n));
    assert m.PieceStart(0) == 0 && m.PieceStart(1) == |content|;
    assert Create(m).pieces == [NewPiece(|content|, 0, H(content))];
    assert Create(m).disk == Zeros(|content|);
    OneOp(H, m, op);
    hide Run, AfterWrite, NewPiece, Legal, Fits;
    OneBlockCut(H, Create(m), content, n);
  }

  lemma {:induction false} OneBlockCut(H: Hasher, st: BundleState, content: bytes, n: nat)
    requires 0 < |content| <= MAX_BLOCK_LENGTH && n < |content| && content[n..] != Zeros(|content| - n)
    requires st.pieces == [NewPiece(|content|, 0, H(content))] && st.bits == {} && !st.complete
    requires st.disk == Zeros(|content|)
    ensures |st.pieces[0].blocks| == BlockCount(st.pieces[0].length)
    ensures var st' := AfterWrite(H, st, 0, 0, content, Cut(n));
            |st'.pieces| == 1 && st'.pieces[0].complete && st'.bits == {0} && !st'.complete && st'.disk != content
  {
    OneBlockCompletes(H, content);
    CutIsNotAll(content, n);
    hide WritePiece, NewPiece, Refusal, GetBytes, Splice, Zeros, BlockCount, AfterWrite;
    CutCompletes(H, st, 0, 0, content, n);
  }

  lemma {:induction false} CutCompletes(H: Hasher, st: BundleState, i: nat, begin: nat, data: bytes, n: nat)
    requires i < |st.pieces| && |st.pieces[i].blocks| == BlockCount(st.pieces[i].length)
    requires Completes(H, st, i, begin, data)
    requires var q := WritePiece(H, st.pieces[i], begin, data);
             q.offset + |GetBytes(q.blocks)| <= |st.disk|
    ensures var q, st' := WritePiece(H, st.pieces[i], begin, data), AfterWrite(H, st, i, begin, data, Cut(n));
            && st'.pieces == st.pieces[i := q] && st'.bits == st.bits + {i} && st'.complete == st.complete
            && st'.disk == Splice(st.disk, q.offset, Take(GetBytes(q.blocks), n))
  {
    hide WritePiece, Refusal, GetBytes, Splice, BlockCount, AllBits;
  }

  lemma {:induction false} CutIsNotAll(content: bytes, n: nat)
    requires n < |content| && content[n..] != Zeros(|content| - n)
    ensures Splice(Zeros(|content|), 0, content[..n]) != content
  {
    assert Splice(Zeros(|content|), 0, content[..n])[n..] == Zeros(|content|)[n..] == Zeros(|content| - n);
  }

  lemma {:induction false} OneOp(H: Hasher, m: Meta, op: Op)
    requires op.Next? || op.piece < |m.hashes|
    ensures Legal(m, [op]) && Fits(Create(m)) && Run(H, m, [op]) == Step(H, Create(m), op)
  {
    assert Legal(m, []) && [] + [op] == [op];
    hide Step, BookInv, Create, Fits;
    RunOneMore(H, m, [], op);
  }

  lemma {:induction false} OneBlockCompletes(H: Hasher, content: bytes)
    requires 0 < |content| <= MAX_BLOCK_LENGTH
    ensures var p := NewPiece(|content|, 0, H(content));
            var q := WritePiece(H, p, 0, content);
            && |p.blocks| == BlockCount(p.length) && Refusal(p, 0, content).None?
            && q.complete && q.offset == 0 && q.length == |content| && GetBytes(q.blocks) == content
  {
    var p := NewPiece(|content|, 0, H(content));
    assert BlockCount(|content|) == 1 && FindBlock(|content|, 0) == Some(0);
    var blocks := Stored(p, 0, content);
    assert blocks[..0] == [];
    assert GetBytes(blocks) == content;
  }

  // ----- bytes left -----

  function SizeOf(m: Meta, ps: Pieces, n: nat): nat
    requires n <= |ps|
  {
    if n == 0 then 0 else SizeOf(m, ps, n - 1) + if ps[n - 1].complete then 0 else m.PieceSize(n - 1)
  }

  function Missing(ps: Pieces, n: nat): nat
    requires n <= |ps|
  {
    if n == 0 then 0 else Missing(ps, n - 1) + if ps[n - 1].complete then 0 else 1
  }

  // (Bitfield.Len() - Bitfield.NumSet) * PieceLength
  function BytesLeft(m: Meta, st: BundleState): int {
    (|st.pieces| - |st.bits|) * m.pieceLength
  }

  lemma {:induction false} MissingPieces(ps: Pieces, bits: set<nat>, n: nat)
    requires n <= |ps| && forall i :: 0 <= i < |ps| ==> (i in bits <==> ps[i].complete)
    ensures Missing(ps, n) == n - |bits * Below(n)|
  {
    hide Below;
    if n > 0 {
      MissingPieces(ps, bits, n - 1);
      OneMoreBit(bits, n - 1);
    } else {
      NoneBelow(bits);
    }
  }

  lemma {:induction false} NoneBelow(bits: set<nat>)
    ensures |bits * Below(0)| == 0
  {
  }

  lemma {:induction false} OneMoreBit(bits: set<nat>, n: nat)
    ensures |bits * Below(n + 1)| == |bits * Below(n)| + if n in bits then 1 else 0
  {
    if n in bits {
      assert bits * Below(n + 1) == bits * Below(n) + {n};
    } else {
      assert bits * Below(n + 1) == bits * Below(n);
    }
  }

  // With full pieces only before the last, the estimate is exact up to the last.
  lemma {:induction false} EstimateUpTo(m: Meta, ps: Pieces, n: nat)
    requires n <= |ps| && n * m.pieceLength <= m.length
    ensures SizeOf(m, ps, n) == Missing(ps, n) * m.pieceLength
  {
    if n > 0 {
      assert n * m.pieceLength == (n - 1) * m.pieceLength + m.pieceLength;
      EstimateUpTo(m, ps, n - 1);
      assert (Missing(ps, n - 1) + 1) * m.pieceLength == Missing(ps, n - 1) * m.pieceLength + m.pieceLength;
    }
  }

  // BytesLeft is at least what is missing, and less than one piece too much.
  // (BitsInv holds after every run.)
  lemma {:induction false} BytesLeftIsClose(m: Meta, st: BundleState)
    requires m.pieceLength > 0 && ExactlyCovers(m)
    requires |st.pieces| == |m.hashes| && BitsInv(st)
    ensures SizeOf(m, st.pieces, |st.pieces|) <= BytesLeft(m, st) < SizeOf(m, st.pieces, |st.pieces|) + m.pieceLength
  {
    hide BitsInv, SizeOf, Missing, BytesLeft;
    BytesLeftCounts(m, st);
    if |m.hashes| > 0 {
      LastPiece(m, st.pieces, |st.pieces|);
    } else {
      NothingMissing(m, st.pieces);
    }
  }

  lemma {:induction false} BytesLeftCounts(m: Meta, st: BundleState)
    requires BitsInv(st)
    ensures BytesLeft(m, st) == Missing(st.pieces, |st.pieces|) * m.pieceLength
  {
    hide Below, Missing;
    MissingPieces(st.pieces, st.bits, |st.pieces|);
    assert st.bits * Below(|st.pieces|) == st.bits;
  }

  lemma {:induction false} NothingMissing(m: Meta, ps: Pieces)
    ensures SizeOf(m, ps, 0) == 0 && Missing(ps, 0) * m.pieceLength == 0
  {
  }

  ghost predicate ExactlyCovers(m: Meta) {
    && m.length <= |m.hashes| * m.pieceLength
    && (|m.hashes| == 0 || (|m.hashes| - 1) * m.pieceLength < m.length)
  }

  lemma {:induction false} LastPiece(m: Meta, ps: Pieces, n: nat)
    requires 0 < n <= |ps| && (n - 1) * m.pieceLength < m.length <= n * m.pieceLength
    ensures SizeOf(m, ps, n) <= Missing(ps, n) * m.pieceLength < SizeOf(m, ps, n) + m.pieceLength
  {
    EstimateUpTo(m, ps, n - 1);
    assert n * m.pieceLength == (n - 1) * m.pieceLength + m.pieceLength;
    var before := Missing(ps, n - 1);
    assert (before + 1) * m.pieceLength == before * m.pieceLength + m.pieceLength;
  }

  // There are ceil(length / pieceLength) hashes.
  lemma {:induction false} ExactlyCoversIsCeil(m: Meta)
    requires m.pieceLength > 0
    ensures ExactlyCovers(m) <==> |m.hashes| == (m.length + m.pieceLength - 1) / m.pieceLength
    ensures ExactlyCovers(m) ==> m.Covers() && NoEmptyPiece(m)
  {
    var n, b := |m.hashes|, m.pieceLength;
    CeilDivision(m.length, b, n);
    if ExactlyCovers(m) {
      forall i | 0 <= i < n
        ensures m.PieceSize(i) > 0
      {
        Product(i, n - 1, b);
        assert (i + 1) * b == i * b + b;
      }
    }
  }

  lemma {:induction false} Product(i: int, j: int, b: nat)
    requires i <= j
    ensures i * b <= j * b
  {
    assert j * b == i * b + (j - i) * b;
  }

  lemma {:induction false} CeilDivision(a: nat, b: nat, n: nat)
    requires b > 0
    ensures a <= n * b && (n == 0 || (n - 1) * b < a) <==> n == (a + b - 1) / b
  {
    var q := (a + b - 1) / b;
    assert a + b - 1 == q * b + (a + b - 1) % b;
    assert a <= q * b;
    assert (q - 1) * b == q * b - b;
    assert q == 0 || (q - 1) * b < a;
    if n < q {
      Product(n, q - 1, b);
    } else if n > q {
      Product(q, n - 1, b);
    }
  }
}
