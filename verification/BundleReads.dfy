// Blocks read back through the piece cache.
module BundleReads {
  import opened Common
  import opened PieceSpec
  import opened DiskSpec
  import opened Requests
  import opened BundleSpec
  import opened BundleRuns
  import CacheSpec

  // Every cached piece is what the disk holds for it.
  ghost predicate Coherent(st: BundleState) {
    && Fits(st)
    && forall e :: e in st.cache ==> e.key < |st.pieces| && e.val == PieceRange(st, e.key)
  }

  // The cached pieces are complete ones.
  ghost predicate CachesComplete(st: BundleState) {
    forall e :: e in st.cache ==> e.key < |st.pieces| && st.pieces[e.key].complete
  }

  lemma {:induction false} LookupIsEntry(c: CacheSpec.Cache, k: nat)
    requires CacheSpec.Has(c, k)
    ensures CacheSpec.Entry(k, CacheSpec.Lookup(c, k)) in c
  {
    var i := CacheSpec.Index(c, k);
    assert c[i] == CacheSpec.Entry(k, c[i].val);
  }

  lemma {:induction false} EntryIsKnown(c: CacheSpec.Cache, e: CacheSpec.Entry)
    requires e in c
    ensures CacheSpec.Has(c, e.key)
  {
    var i :| 0 <= i < |c| && c[i] == e;
    assert c[i].key == e.key;
  }

  // A coherent cache answers with the bytes on disk.
  lemma {:induction false} CoherentRead(st: BundleState, i: nat, begin: nat, length: nat)
    requires Coherent(st) && i < |st.pieces|
    ensures PieceOnDisk(st, i)
    ensures GetResult(st, i, begin, length)
         == if begin + length > st.pieces[i].length then None else Some(PieceRange(st, i)[begin..begin + length])
  {
    LoadedHas(st, i);
    LoadedEntries(st, i);
    LookupIsEntry(Loaded(st, i), i);
    hide CacheSpec.Has, CacheSpec.Put, Loaded, Tiled;
  }

  lemma {:induction false} LoadedEntries(st: BundleState, i: nat)
    requires PieceOnDisk(st, i)
    ensures forall e :: e in Loaded(st, i) ==> e == CacheSpec.Entry(i, PieceRange(st, i)) || e in st.cache
  {
    CacheSpec.PutEntries(st.cache, CACHE_CAPACITY, i, PieceRange(st, i));
  }

  lemma {:induction false} GetKeepsCoherence(st: BundleState, i: nat)
    requires Coherent(st) && i < |st.pieces|
    ensures Coherent(AfterGet(st, i))
    ensures CachesComplete(st) && st.pieces[i].complete ==> CachesComplete(AfterGet(st, i))
  {
    LoadedEntries(st, i);
    CacheSpec.TouchEntries(Loaded(st, i), i);
    var st' := AfterGet(st, i);
    assert forall k :: 0 <= k < |st.pieces| ==> PieceRange(st', k) == PieceRange(st, k);
    hide Loaded, CacheSpec.Touch, Tiled, PieceRange;
    assert forall e :: e in st'.cache ==> e == CacheSpec.Entry(i, PieceRange(st, i)) || e in st.cache;
  }

  lemma {:induction false} MarksKeepCoherence(st: BundleState, st': BundleState)
    requires Coherent(st) && SameButFetching(st, st') && Fits(st')
    ensures Coherent(st') && (CachesComplete(st) ==> CachesComplete(st'))
  {
    hide Tiled;
    assert forall k :: 0 <= k < |st.pieces| ==> PieceRange(st', k) == PieceRange(st, k);
  }

  // The one step that can leave a stale entry: a piece becomes complete that was
  // read before, when other bytes were on disk.
  ghost predicate MakesStale(H: Hasher, st: BundleState, i: nat, begin: nat, data: bytes)
    requires Fits(st) && i < |st.pieces|
  {
    && CacheSpec.Has(st.cache, i)
    && Completes(H, st, i, begin, data)
    && PieceRange(st, i) != GetBytes(WritePiece(H, st.pieces[i], begin, data).blocks)
  }

  // What a write does to the ranges of the pieces on disk.
  ghost predicate WriteEffect(st: BundleState, st': BundleState, i: nat, completes: bool, whole: bytes)
    requires Fits(st) && i < |st.pieces|
  {
    && Fits(st') && |st'.pieces| == |st.pieces| && st'.cache == st.cache
    && (forall k :: 0 <= k < |st.pieces| && k != i ==>
          st'.pieces[k] == st.pieces[k] && PieceRange(st', k) == PieceRange(st, k))
    && PieceRange(st', i) == (if completes then whole else PieceRange(st, i))
    && (st.pieces[i].complete ==> st'.pieces[i].complete && !completes)
  }

  // A write keeps the cache coherent exactly when it does not.
  lemma {:induction false} WriteKeepsCoherence(H: Hasher, m: Meta, st: BundleState, i: nat, begin: nat, data: bytes)
    requires BundleInv(H, m, st) && Coherent(st) && i < |st.pieces|
    ensures Coherent(AfterWrite(H, st, i, begin, data, Kept)) <==> !MakesStale(H, st, i, begin, data)
    ensures CachesComplete(st) ==>
              !MakesStale(H, st, i, begin, data) && CachesComplete(AfterWrite(H, st, i, begin, data, Kept))
  {
    WriteHasEffect(H, m, st, i, begin, data);
    hide BundleInv, Fits, Coherent, CachesComplete, WriteEffect, WritePiece, AfterWrite, Completes;
    CoherenceAfter(st, AfterWrite(H, st, i, begin, data, Kept), i, Completes(H, st, i, begin, data),
                   GetBytes(WritePiece(H, st.pieces[i], begin, data).blocks));
  }

  lemma {:induction false} CoherenceAfter(st: BundleState, st': BundleState, i: nat, completes: bool, whole: bytes)
    requires Coherent(st) && i < |st.pieces| && WriteEffect(st, st', i, completes, whole)
    ensures Coherent(st') <==> !(CacheSpec.Has(st.cache, i) && completes && PieceRange(st, i) != whole)
    ensures CachesComplete(st) ==> !(CacheSpec.Has(st.cache, i) && completes) && CachesComplete(st')
  {
    hide Tiled, PieceRange, CacheSpec.Has;
    if CacheSpec.Has(st.cache, i) {
      LookupIsEntry(st.cache, i);
    }
    forall e | e in st.cache && e.key == i
      ensures CacheSpec.Has(st.cache, i)
    {
      EntryIsKnown(st.cache, e);
    }
  }

  lemma {:induction false} WriteHasEffect(H: Hasher, m: Meta, st: BundleState, i: nat, begin: nat, data: bytes)
    requires BundleInv(H, m, st) && i < |st.pieces|
    ensures WriteEffect(st, AfterWrite(H, st, i, begin, data, Kept), i, Completes(H, st, i, begin, data),
                        GetBytes(WritePiece(H, st.pieces[i], begin, data).blocks))
  {
    var st' := AfterWrite(H, st, i, begin, data, Kept);
    WriteKeepsBook(H, m, st, i, begin, data, Kept);
    BookParts(H, m, st, i);
    BookParts(H, m, st', i);
    hide BookInv, Fits, Shape, WritePiece, AfterWrite, PieceInv, Tiled, Splice, GetBytes, PieceRange;
    WrittenPieces(H, st, i, begin, data, Kept);
    WriteKeepsComplete(H, st.pieces[i], begin, data);
    WrittenRanges(H, m, st, st', i, begin, data);
  }

  // ----- runs -----

  // A piece is read only once it is complete.
  ghost predicate ReadsComplete(H: Hasher, m: Meta, ops: seq<Op>)
    requires Legal(m, ops)
  {
    forall k :: 0 <= k < |ops| && ops[k].Get? ==>
      Legal(m, ops[..k]) && Run(H, m, ops[..k]).pieces[ops[k].piece].complete
  }

  lemma {:induction false} GuardedReadsStayCoherent(H: Hasher, m: Meta, ops: seq<Op>)
    requires Legal(m, ops) && DiskNeverFails(ops) && ReadsComplete(H, m, ops)
    ensures Coherent(Run(H, m, ops)) && CachesComplete(Run(H, m, ops))
  {
    if ops == [] {
      CreateInv(H, m);
    } else {
      var before, op := ops[..|ops| - 1], ops[|ops| - 1];
      assert Legal(m, before);
      ReadsCompleteBefore(H, m, ops, before, op);
      RunKeepsInv(H, m, before);
      var st := Run(H, m, before);
      assert op.Next? || op.piece < |st.pieces|;
      hide ReadsComplete, Coherent, CachesComplete, BundleInv, BookInv, Step, Fits;
      GuardedReadsStayCoherent(H, m, before);
      CoherentStep(H, m, st, op);
    }
  }

  lemma {:induction false} ReadsCompleteBefore(H: Hasher, m: Meta, ops: seq<Op>, before: seq<Op>, op: Op)
    requires Legal(m, ops) && Legal(m, before) && ops == before + [op] && ReadsComplete(H, m, ops)
    ensures ReadsComplete(H, m, before)
    ensures op.Get? ==> op.piece < |Run(H, m, before).pieces| && Run(H, m, before).pieces[op.piece].complete
  {
    hide Run, Step;
    assert ops[|before|] == op && ops[..|before|] == before;
    assert forall k :: 0 <= k < |before| ==> before[k] == ops[k] && before[..k] == ops[..k];
  }

  lemma {:induction false} CoherentStep(H: Hasher, m: Meta, st: BundleState, op: Op)
    requires BundleInv(H, m, st) && Coherent(st) && CachesComplete(st)
    requires !op.Next? ==> op.piece < |st.pieces|
    requires op.Write? ==> op.fate.Kept?
    requires op.Get? ==> st.pieces[op.piece].complete
    ensures Coherent(Step(H, st, op)) && CachesComplete(Step(H, st, op))
  {
    StepKeepsInv(H, m, st, op);
    hide BookInv, Coherent, CachesComplete;
    match op
    case Write(i, begin, data, fate) => WriteKeepsCoherence(H, m, st, i, begin, data);
    case Next(limit) =>
      KeepsPieceInv(H, m, st);
      NextMarks(H, st, limit);
      MarksKeepCoherence(st, AfterNext(st, limit));
    case Cancel(i, begin) =>
      KeepsPieceInv(H, m, st);
      CancelMarks(H, st, i, begin);
      MarksKeepCoherence(st, AfterCancel(st, i, begin));
    case Get(i, _, _) => GetKeepsCoherence(st, i);
  }

  lemma {:induction false} KeepsPieceInv(H: Hasher, m: Meta, st: BundleState)
    requires BookInv(H, m, st)
    ensures AllPieceInv(H, st.pieces)
  {
  }

  // In any run that reads complete pieces only, the next read of a complete
  // piece returns the bytes of that piece, cached or not.
  lemma {:induction false} ReadsAreNeverStale(H: Hasher, m: Meta, ops: seq<Op>, i: nat, begin: nat, length: nat)
    requires Legal(m, ops) && DiskNeverFails(ops) && ReadsComplete(H, m, ops)
    requires i < |m.hashes| && Run(H, m, ops).pieces[i].complete
    ensures var st := Run(H, m, ops);
            && PieceOnDisk(st, i)
            && |GetBytes(st.pieces[i].blocks)| == st.pieces[i].length
            && GetResult(st, i, begin, length)
            == if begin + length > st.pieces[i].length then None
               else Some(GetBytes(st.pieces[i].blocks)[begin..begin + length])
  {
    RunKeepsInv(H, m, ops);
    GuardedReadsStayCoherent(H, m, ops);
    var st := Run(H, m, ops);
    hide Run;
    CoherentRead(st, i, begin, length);
    assert PieceInv(H, st.pieces[i]);
    CompletePieceHasAllBytes(H, st.pieces[i]);
  }

  // The one piece is complete and on disk, and cached as zeros.
  ghost predicate Stale(st: BundleState, content: bytes) {
    && |st.pieces| == 1 && st.pieces[0].complete
    && st.pieces[0].offset == 0 && st.pieces[0].length == |content|
    && st.disk == content && st.cache == [CacheSpec.Entry(0, Zeros(|content|))]
  }

  // Without the guard it fails: a one-block piece that is read before it arrives
  // is read as zeros ever after, whatever else is done.
  lemma {:induction false} EarlyReadStaysStale(H: Hasher, content: bytes, more: seq<Op>)
    requires 0 < |content| <= MAX_BLOCK_LENGTH && Legal(Meta(|content|, |content|, [H(content)]), more)
    ensures var m := Meta(|content|, |content|, [H(content)]);
            var ops := [Get(0, 0, |content|), Write(0, 0, content, Kept)] + more;
            && Legal(m, ops)
            && var st := Run(H, m, ops);
               && |st.pieces| == 1 && st.pieces[0].complete
               && PieceOnDisk(st, 0) && PieceRange(st, 0) == content
               && GetResult(st, 0, 0, |content|) == Some(Zeros(|content|))
  {
    var n := |content|;
    var m := Meta(n, n, [H(content)]);
    assert m.PieceStart(0) == 0 && m.PieceStart(1) == n;
    var read, write := Get(0, 0, n), Write(0, 0, content, Kept);
    var s0 := Create(m);
    hide Loaded, CacheSpec.Touch, Splice, GetBytes, WritePiece, Run, BookInv, CacheSpec.Has, AfterWrite, NewBlocks;
    EarlyRead(H, m, s0, n);
    var s1 := AfterGet(s0, 0);
    TwoSteps(H, m, read, write);
    OneBlockArrives(H, m, s1, content);
    assert Run(H, m, [read, write]) == AfterWrite(H, s1, 0, 0, content, Kept);
    RunStaysStale(H, m, [read, write], more, content);
    StaleEntry(Run(H, m, [read, write] + more), Zeros(n));
  }

  lemma {:induction false} RunStaysStale(H: Hasher, m: Meta, first: seq<Op>, more: seq<Op>, content: bytes)
    requires Legal(m, first) && Legal(m, more) && Stale(Run(H, m, first), content)
    ensures Legal(m, first + more) && Stale(Run(H, m, first + more), content)
  {
    if more == [] {
      assert first + more == first;
    } else {
      var before, last := more[..|more| - 1], more[|more| - 1];
      LegalParts(m, more);
      LastApart(first, more);
      hide *;
      RunStaysStale(H, m, first, before, content);
      RunOneMore(H, m, first + before, last);
      StaysStale(H, m, Run(H, m, first + before), last, content);
    }
  }

  lemma {:induction false} LastApart(first: seq<Op>, more: seq<Op>)
    requires more != []
    ensures first + more == (first + more[..|more| - 1]) + [more[|more| - 1]]
  {
  }

  lemma {:induction false} LegalParts(m: Meta, ops: seq<Op>)
    requires Legal(m, ops) && ops != []
    ensures var last := ops[|ops| - 1];
            Legal(m, ops[..|ops| - 1]) && (last.Next? || last.piece < |m.hashes|)
  {
  }

  lemma {:induction false} StaysStale(H: Hasher, m: Meta, st: BundleState, op: Op, content: bytes)
    requires BookInv(H, m, st) && Fits(st) && Stale(st, content) && (op.Next? || op.piece < |st.pieces|)
    ensures Stale(Step(H, st, op), content)
  {
    KeepsPieceInv(H, m, st);
    match op
    case Write(i, begin, data, fate) => CompletePieceIsFinal(H, st.pieces[i], begin, data);
    case Next(limit) => NextMarks(H, st, limit);
    case Cancel(i, begin) => CancelMarks(H, st, i, begin);
    case Get(i, _, _) => OnlyEntry(st.cache);
  }

  lemma {:induction false} OnlyEntry(c: CacheSpec.Cache)
    requires |c| == 1 && c[0].key == 0
    ensures CacheSpec.Has(c, 0) && CacheSpec.Touch(c, 0) == c
  {
  }

  lemma {:induction false} StaleEntry(st: BundleState, data: bytes)
    requires PieceOnDisk(st, 0) && st.cache == [CacheSpec.Entry(0, data)] && |data| == st.pieces[0].length
    ensures GetResult(st, 0, 0, |data|) == Some(data)
  {
    assert st.cache[0].key == 0;
    assert CacheSpec.Index(st.cache, 0) == 0;
    assert data[0..|data|] == data;
  }

  lemma {:induction false} TwoSteps(H: Hasher, m: Meta, a: Op, b: Op)
    requires |m.hashes| == 1 && !a.Next? && a.piece == 0 && !b.Next? && b.piece == 0
    ensures Legal(m, [a, b]) && BookInv(H, m, Create(m))
    ensures Fits(Create(m)) && Fits(Step(H, Create(m), a))
    ensures Run(H, m, [a, b]) == Step(H, Step(H, Create(m), a), b)
  {
    CreateInv(H, m);
    assert [a] + [b] == [a, b];
    hide Step, BookInv, Create, Fits, Run;
    OneOp(H, m, a);
    RunOneMore(H, m, [a], b);
  }

  lemma {:induction false} EarlyRead(H: Hasher, m: Meta, s0: BundleState, n: nat)
    requires s0 == Create(m) && |m.hashes| == 1 && m.PieceStart(0) == 0 && m.PieceStart(1) == n == m.length
    ensures PieceOnDisk(s0, 0)
    ensures AfterGet(s0, 0) == s0.(cache := [CacheSpec.Entry(0, Zeros(n))])
  {
    assert s0.pieces[0].offset == 0 && s0.pieces[0].length == n;
    assert PieceRange(s0, 0) == Zeros(n);
    var c := Loaded(s0, 0);
    assert c == [CacheSpec.Entry(0, Zeros(n))];
    assert c[0].key == 0;
    assert CacheSpec.Touch(c, 0) == c;
  }

  lemma {:induction false} OneBlockArrives(H: Hasher, m: Meta, s1: BundleState, content: bytes)
    requires 0 < |content| <= MAX_BLOCK_LENGTH
    requires |s1.pieces| == 1 && s1.pieces[0] == NewPiece(|content|, 0, H(content)) && |s1.disk| == |content|
    ensures var s2 := AfterWrite(H, s1, 0, 0, content, Kept);
            && |s2.pieces| == 1 && s2.pieces[0].complete && s2.pieces[0].offset == 0 && s2.pieces[0].length == |content|
            && s2.disk == content && s2.cache == s1.cache
  {
    OneBlockCompletes(H, content);
    hide WritePiece, Refusal, GetBytes;
    assert Splice(s1.disk, 0, content) == content;
  }

  // ----- which pieces are cached -----

  function ReadBy(op: Op): seq<nat> {
    if op.Get? then [op.piece] else []
  }

  // The pieces read, in order.
  function Reads(ops: seq<Op>): seq<nat> {
    if ops == [] then []
    else Reads(ops[..|ops| - 1]) + ReadBy(ops[|ops| - 1])
  }

  // The same keys, each with the same others after it.
  ghost predicate SameUses(a: seq<nat>, b: seq<nat>) {
    forall k: nat :: (k in a <==> k in b) && CacheSpec.UsedSince(a, k) == CacheSpec.UsedSince(b, k)
  }

  lemma {:induction false} UseOnce(a: seq<nat>, b: seq<nat>, i: nat)
    requires SameUses(a, b)
    ensures SameUses(a + [i], b + [i]) && SameUses(a + [i] + [i], b + [i])
  {
    hide CacheSpec.UsedSince;
    forall k: nat
      ensures CacheSpec.UsedSince(a + [i], k) == CacheSpec.UsedSince(b + [i], k)
      ensures CacheSpec.UsedSince(a + [i] + [i], k) == CacheSpec.UsedSince(b + [i], k)
    {
      CacheSpec.UsedSinceNext(a, i, k);
      CacheSpec.UsedSinceNext(b, i, k);
      CacheSpec.UsedSinceNext(a + [i], i, k);
    }
  }

  lemma {:induction false} CachedAgain(cops: seq<CacheSpec.CacheOp>, i: nat)
    requires CacheSpec.Has(CacheSpec.RunCache(1280, cops), i)
    ensures var more := cops + [CacheSpec.GetOp(i)];
            && CacheSpec.RunCache(1280, more) == CacheSpec.Touch(CacheSpec.RunCache(1280, cops), i)
            && CacheSpec.Uses(1280, more) == CacheSpec.Uses(1280, cops) + [i]
  {
    assert (cops + [CacheSpec.GetOp(i)])[..|cops|] == cops;
  }

  lemma {:induction false} CachedAnew(cops: seq<CacheSpec.CacheOp>, i: nat, val: bytes)
    ensures var more := cops + [CacheSpec.PutOp(i, val)];
            && CacheSpec.RunCache(1280, more) == CacheSpec.Put(CacheSpec.RunCache(1280, cops), 1280, i, val)
            && CacheSpec.Uses(1280, more) == CacheSpec.Uses(1280, cops) + [i]
            && CacheSpec.Has(CacheSpec.RunCache(1280, more), i)
  {
    assert (cops + [CacheSpec.PutOp(i, val)])[..|cops|] == cops;
    CacheSpec.PutThenHas(CacheSpec.RunCache(1280, cops), 1280, i, val);
  }

  // A read puts the piece into the cache, unless it is there, and then takes it out.
  lemma {:induction false} ReadUses(st: BundleState, i: nat, cops: seq<CacheSpec.CacheOp>, read: seq<nat>)
    returns (more: seq<CacheSpec.CacheOp>)
    requires PieceOnDisk(st, i) && CacheSpec.RunCache(1280, cops) == st.cache && SameUses(CacheSpec.Uses(1280, cops), read)
    ensures CacheSpec.RunCache(1280, more) == AfterGet(st, i).cache && SameUses(CacheSpec.Uses(1280, more), read + [i])
  {
    hide CacheSpec.RunCache, CacheSpec.Uses, CacheSpec.Has, CacheSpec.Put, CacheSpec.Touch, SameUses;
    UseOnce(CacheSpec.Uses(1280, cops), read, i);
    more := cops;
    if !CacheSpec.Has(st.cache, i) {
      CachedAnew(cops, i, PieceRange(st, i));
      more := cops + [CacheSpec.PutOp(i, PieceRange(st, i))];
    }
    CachedAgain(more, i);
    more := more + [CacheSpec.GetOp(i)];
  }

  lemma {:induction false} OnlyReadsCache(H: Hasher, st: BundleState, op: Op)
    requires Fits(st) && !op.Get? && (!op.Next? ==> op.piece < |st.pieces|)
    ensures Step(H, st, op).cache == st.cache
  {
    if op.Write? {
      WrittenDisk(H, st, op.piece, op.begin, op.data, op.fate);
    }
    hide AfterWrite, Fits;
  }

  lemma {:induction false} StepUses(H: Hasher, st: BundleState, op: Op, cops: seq<CacheSpec.CacheOp>, read: seq<nat>)
    returns (more: seq<CacheSpec.CacheOp>)
    requires Fits(st) && (!op.Next? ==> op.piece < |st.pieces|)
    requires CacheSpec.RunCache(1280, cops) == st.cache && SameUses(CacheSpec.Uses(1280, cops), read)
    ensures CacheSpec.RunCache(1280, more) == Step(H, st, op).cache
    ensures SameUses(CacheSpec.Uses(1280, more), read + ReadBy(op))
  {
    hide SameUses, CacheSpec.RunCache, CacheSpec.Uses, AfterWrite, AfterGet, Tiled;
    if op.Get? {
      more := ReadUses(st, op.piece, cops, read);
    } else {
      OnlyReadsCache(H, st, op);
      more := cops;
      assert read + [] == read;
    }
  }

  lemma {:induction false} RunUses(H: Hasher, m: Meta, ops: seq<Op>) returns (cops: seq<CacheSpec.CacheOp>)
    requires Legal(m, ops)
    ensures CacheSpec.RunCache(1280, cops) == Run(H, m, ops).cache && SameUses(CacheSpec.Uses(1280, cops), Reads(ops))
  {
    if ops == [] {
      cops := [];
    } else {
      var before, op := ops[..|ops| - 1], ops[|ops| - 1];
      assert ops == before + [op] && Reads(ops) == Reads(before) + ReadBy(op) && Legal(m, before);
      hide *;
      cops := RunUses(H, m, before);
      RunOneMore(H, m, before, op);
      cops := StepUses(H, Run(H, m, before), op, cops, Reads(before));
    }
  }

  // After every run exactly those pieces are cached that have been read and fewer than
  // 1280 others since.
  lemma {:induction false} CachedAreTheLastRead(H: Hasher, m: Meta, ops: seq<Op>, i: nat)
    requires Legal(m, ops)
    ensures CacheSpec.Has(Run(H, m, ops).cache, i) <==> i in Reads(ops) && |CacheSpec.UsedSince(Reads(ops), i)| < 1280
  {
    hide Run, CacheSpec.Has, CacheSpec.RunCache, CacheSpec.Uses, CacheSpec.UsedSince, Reads;
    var cops := RunUses(H, m, ops);
    CacheSpec.CacheHoldsMostRecentlyUsed(1280, cops);
  }
}
