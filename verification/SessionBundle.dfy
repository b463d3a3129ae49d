// The bundle of a session is the bundle of a run of its own: what is proved of
// those runs holds for every session.
module SessionBundle {
  import opened Common
  import opened DiskSpec
  import opened PieceSpec
  import opened Requests
  import opened PeerSpec
  import opened QueueSpec
  import opened AddressSpec
  import opened SessionSpec
  import opened SessionRuns
  import BS = BundleSpec
  import BR = BundleRuns

  // ----- where the written blocks come from -----

  // A response that answers a request of its peer joins the responses there.
  function Joining(st: State, op: Op): set<BlockResponse> {
    if op.AtPeer? && op.peer < |st.peers| && op.event.PieceArrives?
       && FindAnswered(st.peers[op.peer].out, op.event.response) < |st.peers[op.peer].out|
    then {op.event.response} else {}
  }

  // All those of a run; what answers no request is dropped.
  ghost function Queued(H: Hasher, st: State, ops: seq<Op>): set<BlockResponse>
    decreases |ops|
  {
    if ops == [] then {} else Joining(st, ops[0]) + Queued(H, Step(H, st, ops[0]), ops[1..])
  }

  ghost predicate FromQueue(p: PeerState, queued: set<BlockResponse>) {
    forall k :: 0 <= k < |p.responses| ==> p.responses[k] in queued
  }

  // Every response that waits at a peer is one of these.
  ghost predicate AllFromQueue(peers: seq<PeerState>, queued: set<BlockResponse>) {
    forall p :: p in peers ==> FromQueue(p, queued)
  }

  // The responses that wait at a peer when the session collects them from it.
  function Leaving(st: State, op: Op): set<BlockResponse> {
    if op.Collect? && op.peer < |st.peers| then AsSet(st.peers[op.peer].responses) else {}
  }

  function AsSet(rs: seq<BlockResponse>): set<BlockResponse> {
    set r | r in rs
  }

  // All those of a run.
  ghost function Collected(H: Hasher, st: State, ops: seq<Op>): set<BlockResponse>
    decreases |ops|
  {
    if ops == [] then {} else Leaving(st, ops[0]) + Collected(H, Step(H, st, ops[0]), ops[1..])
  }

  ghost predicate IsWriteOf(op: BS.Op, r: BlockResponse) {
    op.Write? && op.piece == r.piece && op.begin == r.begin && op.data == r.block
  }

  // The bundle of n pieces is written those for its pieces, every one, and only those.
  ghost predicate WritesThese(bops: seq<BS.Op>, collected: set<BlockResponse>, n: nat) {
    && (forall k :: 0 <= k < |bops| && bops[k].Write? ==> exists r: BlockResponse :: r in collected && IsWriteOf(bops[k], r))
    && (forall r: BlockResponse :: r in collected && r.piece < n ==> exists k :: 0 <= k < |bops| && IsWriteOf(bops[k], r))
  }

  // ----- the bundle's own run -----

  ghost predicate RunsTo(H: Hasher, m: BS.Meta, bops: seq<BS.Op>, b: BS.BundleState) {
    BR.Legal(m, bops) && BR.Run(H, m, bops) == b
  }

  // All that is known of the run: it leads to b, writes what was collected, and its
  // disk fails only if it may.
  ghost predicate Explains(H: Hasher, m: BS.Meta, bops: seq<BS.Op>, b: BS.BundleState,
                           collected: set<BlockResponse>, holds: bool) {
    RunsTo(H, m, bops, b) && WritesThese(bops, collected, |m.hashes|) && (holds ==> BR.DiskNeverFails(bops))
  }

  lemma {:induction false} OneMore(H: Hasher, m: BS.Meta, bops: seq<BS.Op>, b: BS.BundleState, op: BS.Op)
    requires RunsTo(H, m, bops, b) && (op.Next? || op.piece < |m.hashes|)
    ensures BS.Fits(b) && |b.pieces| == |m.hashes| && RunsTo(H, m, bops + [op], BS.Step(H, b, op))
  {
    hide BS.Step, BS.Fits, BR.Run, BR.Legal;
    BR.RunOneMore(H, m, bops, op);
  }

  // After one more operation; what has been collected may be more then.
  lemma {:induction false} Explained(H: Hasher, m: BS.Meta, bops: seq<BS.Op>, b: BS.BundleState, op: BS.Op,
                                     collected: set<BlockResponse>, more: set<BlockResponse>, holds: bool)
    requires Explains(H, m, bops, b, collected, holds) && (op.Next? || op.piece < |m.hashes|)
    requires WritesThese(bops + [op], more, |m.hashes|) && (holds && op.Write? ==> op.fate.Kept?)
    ensures BS.Fits(b) && |b.pieces| == |m.hashes| && Explains(H, m, bops + [op], BS.Step(H, b, op), more, holds)
  {
    ExplainsParts(H, m, bops, b, collected, holds);
    OneMore(H, m, bops, b, op);
    OneMoreFate(bops, op);
    hide RunsTo, BS.Step, BS.Fits, WritesThese, BR.DiskNeverFails;
  }

  lemma {:induction false} ExplainsParts(H: Hasher, m: BS.Meta, bops: seq<BS.Op>, b: BS.BundleState,
                                         collected: set<BlockResponse>, holds: bool)
    requires Explains(H, m, bops, b, collected, holds)
    ensures RunsTo(H, m, bops, b) && WritesThese(bops, collected, |m.hashes|) && (holds ==> BR.DiskNeverFails(bops))
  {
    hide RunsTo, WritesThese, BR.DiskNeverFails;
  }

  lemma {:induction false} OneMoreWrite(bops: seq<BS.Op>, op: BS.Op, r: BlockResponse, collected: set<BlockResponse>, n: nat)
    requires WritesThese(bops, collected, n) && IsWriteOf(op, r)
    ensures WritesThese(bops + [op], collected + {r}, n)
  {
    hide IsWriteOf;
    var more := bops + [op];
    assert more[|bops|] == op;
    forall x: BlockResponse | x in collected && x.piece < n
      ensures exists k :: 0 <= k < |more| && IsWriteOf(more[k], x)
    {
      var k :| 0 <= k < |bops| && IsWriteOf(bops[k], x);
      assert more[k] == bops[k];
    }
  }

  lemma {:induction false} NoMoreWrites(bops: seq<BS.Op>, op: BS.Op, collected: set<BlockResponse>, n: nat)
    requires WritesThese(bops, collected, n) && !op.Write?
    ensures WritesThese(bops + [op], collected, n)
  {
    hide IsWriteOf;
    var more := bops + [op];
    forall x: BlockResponse | x in collected && x.piece < n
      ensures exists k :: 0 <= k < |more| && IsWriteOf(more[k], x)
    {
      var k :| 0 <= k < |bops| && IsWriteOf(bops[k], x);
      assert more[k] == bops[k];
    }
  }

  lemma {:induction false} NoPieceForIt(bops: seq<BS.Op>, r: BlockResponse, collected: set<BlockResponse>, n: nat)
    requires WritesThese(bops, collected, n) && r.piece >= n
    ensures WritesThese(bops, collected + {r}, n)
  {
    hide IsWriteOf;
  }

  lemma {:induction false} OneMoreFate(bops: seq<BS.Op>, op: BS.Op)
    ensures BR.DiskNeverFails(bops) && (op.Write? ==> op.fate.Kept?) ==> BR.DiskNeverFails(bops + [op])
  {
  }

  lemma {:induction false} PiecesOf(H: Hasher, m: BS.Meta, bops: seq<BS.Op>, b: BS.BundleState, i: nat)
    requires RunsTo(H, m, bops, b)
    ensures HasPiece(b, i) <==> i < |m.hashes|
  {
    assert i < |b.pieces| ==> PieceInv(H, b.pieces[i]);
  }

  ghost predicate DiskHolds(op: Op) {
    op.Collect? ==> op.failing == map[]
  }

  // ----- the steps -----

  lemma {:induction false} ReceiveExplained(H: Hasher, m: BS.Meta, bops: seq<BS.Op>, b: BS.BundleState,
                                            r: BlockResponse, fate: DiskFate, collected: set<BlockResponse>, holds: bool)
    returns (after: seq<BS.Op>)
    requires Explains(H, m, bops, b, collected, holds) && (holds ==> fate.Kept?)
    ensures Explains(H, m, after, Receive(H, b, r, fate), collected + {r}, holds)
  {
    ExplainsParts(H, m, bops, b, collected, holds);
    PiecesOf(H, m, bops, b, r.piece);
    if !HasPiece(b, r.piece) {
      NoPieceForIt(bops, r, collected, |m.hashes|);
      hide RunsTo, WritesThese, BS.AfterWrite, BS.AfterCancel, BS.WriteResult, BR.DiskNeverFails;
      after := bops;
    } else {
      hide Explains, RunsTo, HasPiece, BS.AfterWrite, BS.AfterCancel, BS.WriteResult, WritesThese, BR.DiskNeverFails;
      var write := BS.Write(r.piece, r.begin, r.block, fate);
      OneMoreWrite(bops, write, r, collected, |m.hashes|);
      Explained(H, m, bops, b, write, collected, collected + {r}, holds);
      after := bops + [write];
      var written := BS.AfterWrite(H, b, r.piece, r.begin, r.block, fate);
      ExplainsParts(H, m, after, written, collected + {r}, holds);
      PiecesOf(H, m, after, written, r.piece);
      if BS.WriteResult(H, b, r.piece, r.begin, r.block, fate).Some? {
        after := CancelExplained(H, m, after, written, r.piece, r.begin, collected + {r}, holds);
      }
    }
  }

  lemma {:induction false} CancelExplained(H: Hasher, m: BS.Meta, bops: seq<BS.Op>, b: BS.BundleState,
                                           piece: nat, begin: nat, collected: set<BlockResponse>, holds: bool)
    returns (after: seq<BS.Op>)
    requires Explains(H, m, bops, b, collected, holds) && HasPiece(b, piece)
    ensures Explains(H, m, after, BS.AfterCancel(b, piece, begin), collected, holds)
  {
    ExplainsParts(H, m, bops, b, collected, holds);
    PiecesOf(H, m, bops, b, piece);
    hide Explains, RunsTo, HasPiece, BS.AfterCancel, WritesThese, BR.DiskNeverFails;
    var cancel := BS.Cancel(piece, begin);
    NoMoreWrites(bops, cancel, collected, |m.hashes|);
    Explained(H, m, bops, b, cancel, collected, collected, holds);
    after := bops + [cancel];
  }

  lemma {:induction false} CollectExplained(H: Hasher, m: BS.Meta, bops: seq<BS.Op>, st: State, i: nat, n: nat,
                                            failing: map<nat, nat>, collected: set<BlockResponse>, holds: bool)
    returns (after: seq<BS.Op>)
    requires Explains(H, m, bops, st.bundle, collected, holds) && i < |st.peers|
    requires holds ==> failing == map[]
    ensures Explains(H, m, after, CollectAll(H, st, i, n, failing).bundle, collected + AsSet(st.peers[i].responses), holds)
    decreases |st.peers[i].responses|
  {
    hide Explains, Receive, Remove;
    var rs := st.peers[i].responses;
    if rs == [] {
      after := bops;
      assert collected + AsSet(rs) == collected;
    } else {
      after := ReceiveExplained(H, m, bops, st.bundle, rs[0], FateOf(failing, n), collected, holds);
      var next := CollectOne(H, st, i, FateOf(failing, n));
      after := CollectExplained(H, m, after, next, i, n + 1, failing, collected + {rs[0]}, holds);
      assert AsSet(rs) == {rs[0]} + AsSet(rs[1..]);
      assert collected + {rs[0]} + AsSet(rs[1..]) == collected + AsSet(rs);
    }
  }

  lemma {:induction false} CancelsExplained(H: Hasher, m: BS.Meta, bops: seq<BS.Op>, b: BS.BundleState, q: Queue,
                                            collected: set<BlockResponse>, holds: bool)
    returns (after: seq<BS.Op>)
    requires Explains(H, m, bops, b, collected, holds)
    ensures Explains(H, m, after, CancelQueued(b, q), collected, holds)
    decreases |q|
  {
    hide Explains, RunsTo, BS.AfterCancel;
    after := bops;
    if q != [] {
      var before, last := CancelQueued(b, q[..|q| - 1]), q[|q| - 1].info;
      after := CancelsExplained(H, m, bops, b, q[..|q| - 1], collected, holds);
      if HasPiece(before, last.piece) {
        after := CancelExplained(H, m, after, before, last.piece, last.begin, collected, holds);
      }
    }
  }

  lemma {:induction false} TakeBackLeavesStore(st: State, i: nat)
    requires i < |st.peers|
    ensures TakeBackAll(st, i).bundle == st.bundle
    decreases |st.peers[i].cancelled|
  {
    if st.peers[i].cancelled != [] {
      TakeBackLeavesStore(TakeBackOne(st, i), i);
    }
  }

  lemma {:induction false} RefillExplained(H: Hasher, m: BS.Meta, bops: seq<BS.Op>, b: BS.BundleState, n: nat,
                                           collected: set<BlockResponse>, holds: bool)
    requires Explains(H, m, bops, b, collected, holds)
    ensures Explains(H, m, bops + [BS.Next(n)], BS.AfterNext(b, n), collected, holds)
  {
    ExplainsParts(H, m, bops, b, collected, holds);
    hide Explains, RunsTo, BS.AfterNext, WritesThese, BR.DiskNeverFails;
    NoMoreWrites(bops, BS.Next(n), collected, |m.hashes|);
    Explained(H, m, bops, b, BS.Next(n), collected, collected, holds);
  }

  lemma {:induction false} StepExplained(H: Hasher, m: BS.Meta, bops: seq<BS.Op>, st: State, op: Op,
                                         collected: set<BlockResponse>, holds: bool)
    returns (after: seq<BS.Op>)
    requires Explains(H, m, bops, st.bundle, collected, holds) && (holds ==> DiskHolds(op))
    ensures Explains(H, m, after, Step(H, st, op).bundle, collected + Leaving(st, op), holds)
  {
    hide Explains, RunsTo, CollectAll, TakeBackAll, CancelQueued, BS.AfterNext, AsSet;
    after := bops;
    assert Leaving(st, op) == {} ==> collected + Leaving(st, op) == collected;
    match op {
      case GetBlocks =>
        if |st.queue| < BLOCK_QUEUE_MAX {
          RefillExplained(H, m, bops, st.bundle, BLOCK_QUEUE_MAX - |st.queue|, collected, holds);
          after := bops + [BS.Next(BLOCK_QUEUE_MAX - |st.queue|)];
        }
      case Collect(i, failing) =>
        if i < |st.peers| {
          after := CollectExplained(H, m, bops, st, i, 0, failing, collected, holds);
        }
      case TakeBack(i) =>
        if i < |st.peers| {
          TakeBackLeavesStore(st, i);
        }
      case Stop => after := CancelsExplained(H, m, bops, st.bundle, st.queue, collected, holds);
      case _ =>
    }
  }

  // ----- responses stay those that arrived -----

  // No peer has a response that was not there before, but for the one that arrives.
  ghost predicate Fewer(p: PeerState, q: PeerState) {
    forall r :: r in q.responses ==> r in p.responses
  }

  lemma {:induction false} FewerFromQueue(p: PeerState, q: PeerState, queued: set<BlockResponse>)
    requires FromQueue(p, queued) && Fewer(p, q)
    ensures FromQueue(q, queued)
  {
    forall k | 0 <= k < |q.responses|
      ensures q.responses[k] in queued
    {
      assert q.responses[k] in q.responses;
      var j :| 0 <= j < |p.responses| && p.responses[j] == q.responses[k];
    }
  }

  lemma {:induction false} OneFromQueue(peers: seq<PeerState>, i: nat, q: PeerState, queued: set<BlockResponse>)
    requires AllFromQueue(peers, queued) && i < |peers| && FromQueue(q, queued)
    ensures AllFromQueue(peers[i := q], queued)
  {
    hide FromQueue;
    forall p | p in peers[i := q]
      ensures FromQueue(p, queued)
    {
      var j :| 0 <= j < |peers| && peers[i := q][j] == p;
      assert peers[j] in peers;
    }
  }

  lemma {:induction false} AssignedResponses(q: Queue, p: PeerState, left: int, k: nat)
    ensures AssignFrom(q, p, left, k).peer.responses == p.responses
    decreases |q| - k
  {
    hide FindOut;
    if k < |q| && left > 0 {
      if !Wants(q[k], p) {
        AssignedResponses(q, p, left, k + 1);
      } else {
        var queued := QueueRequest(p, q[k].info);
        AssignedResponses(q[k := q[k].(sent := true, sentTo := p.id)], if queued.Some? then queued.value else p, left - 1, k + 1);
      }
    }
  }

  lemma {:induction false} AssignResponses(q: Queue, p: PeerState, cap: Option<int>)
    ensures Assign(q, p, cap).peer.responses == p.responses
  {
    hide AssignFrom;
    var room := p.max - |p.out|;
    var left := if cap.Some? && room > cap.value then cap.value else room;
    var max := if |p.cancelled| < p.max / 4 && left > p.max / 2 && p.max < 256 then p.max * 2 else p.max;
    AssignedResponses(q, p.(max := max), left, 0);
  }

  lemma {:induction false} ReactFromQueue(p: PeerState, e: PeerEvent, queued: set<BlockResponse>)
    requires FromQueue(p, queued)
    requires e.PieceArrives? && FindAnswered(p.out, e.response) < |p.out| ==> e.response in queued
    ensures FromQueue(React(p, e), queued)
  {
    hide FindAnswered, Without;
  }

  lemma {:induction false} SomePeers(peers: seq<PeerState>, others: seq<PeerState>, queued: set<BlockResponse>)
    requires AllFromQueue(peers, queued) && forall p :: p in others ==> p in peers
    ensures AllFromQueue(others, queued)
  {
    hide FromQueue;
  }

  lemma {:induction false} WithoutPeers(peers: seq<PeerState>, k: nat, queued: set<BlockResponse>)
    requires AllFromQueue(peers, queued) && k < |peers|
    ensures AllFromQueue(Without(peers, k), queued)
  {
    forall p | p in Without(peers, k)
      ensures p in peers
    {
      var j :| 0 <= j < |Without(peers, k)| && Without(peers, k)[j] == p;
      assert peers[if j < k then j else j + 1] == p;
    }
    SomePeers(peers, Without(peers, k), queued);
  }

  lemma {:induction false} StepFromQueue(H: Hasher, st: State, op: Op, queued: set<BlockResponse>)
    requires AllFromQueue(st.peers, queued)
    requires Joining(st, op) <= queued
    ensures AllFromQueue(Step(H, st, op).peers, queued)
  {
    hide Assign, CollectAll, TakeBackAll, React, Without, FindPeer, FindAt;
    match op {
      case AssignTo(i, cap) =>
        if i < |st.peers| {
          AssignResponses(st.queue, st.peers[i], cap);
          assert st.peers[i] in st.peers;
          FewerFromQueue(st.peers[i], Assign(st.queue, st.peers[i], cap).peer, queued);
          OneFromQueue(st.peers, i, Assign(st.queue, st.peers[i], cap).peer, queued);
        }
      case Collect(i, failing) =>
        if i < |st.peers| {
          CollectedPeers(H, st, i, 0, failing);
          OneFromQueue(st.peers, i, st.peers[i].(responses := []), queued);
        }
      case TakeBack(i) =>
        if i < |st.peers| {
          TakenBackPeers(st, i);
          assert st.peers[i] in st.peers;
          FewerFromQueue(st.peers[i], st.peers[i].(cancelled := []), queued);
          OneFromQueue(st.peers, i, st.peers[i].(cancelled := []), queued);
        }
      case Disconnect(id) =>
        if FindPeer(st.peers, id) < |st.peers| {
          WithoutPeers(st.peers, FindPeer(st.peers, id), queued);
        }
      case Reap(n) =>
        if n < |st.addresses.connected| && FindAt(st.peers, st.addresses.connected[n]) < |st.peers| {
          WithoutPeers(st.peers, FindAt(st.peers, st.addresses.connected[n]), queued);
        }
      case Swap(i, j) =>
        if i < |st.peers| && j < |st.peers| {
          SomePeers(st.peers, st.peers[i := st.peers[j]][j := st.peers[i]], queued);
        }
      case AtPeer(i, e) =>
        if i < |st.peers| {
          ReactFromQueue(st.peers[i], e, queued);
          OneFromQueue(st.peers, i, React(st.peers[i], e), queued);
        }
      case _ =>
    }
  }

  // ----- runs -----

  // What is collected has joined before.
  lemma {:induction false} CollectedWasQueued(H: Hasher, st: State, ops: seq<Op>, queued: set<BlockResponse>)
    requires AllFromQueue(st.peers, queued) && Queued(H, st, ops) <= queued
    ensures Collected(H, st, ops) <= queued
    decreases |ops|
  {
    hide Step, AllFromQueue, Joining;
    if ops != [] {
      StepFromQueue(H, st, ops[0], queued);
      LeavingIsQueued(st, ops[0], queued);
      CollectedWasQueued(H, Step(H, st, ops[0]), ops[1..], queued);
    }
  }

  lemma {:induction false} LeavingIsQueued(st: State, op: Op, queued: set<BlockResponse>)
    requires AllFromQueue(st.peers, queued)
    ensures Leaving(st, op) <= queued
  {
    if op.Collect? && op.peer < |st.peers| {
      assert FromQueue(st.peers[op.peer], queued);
    }
  }

  lemma {:induction false} RunExplained(H: Hasher, m: BS.Meta, bops: seq<BS.Op>, st: State, ops: seq<Op>,
                                        collected: set<BlockResponse>, holds: bool)
    returns (after: seq<BS.Op>)
    requires Explains(H, m, bops, st.bundle, collected, holds) && (holds ==> forall op :: op in ops ==> DiskHolds(op))
    ensures Explains(H, m, after, Run(H, st, ops).bundle, collected + Collected(H, st, ops), holds)
    decreases |ops|
  {
    hide Explains, Step, DiskHolds, Leaving;
    if ops == [] {
      after := bops;
      assert collected + Collected(H, st, ops) == collected;
    } else {
      after := StepExplained(H, m, bops, st, ops[0], collected, holds);
      after := RunExplained(H, m, after, Step(H, st, ops[0]), ops[1..], collected + Leaving(st, ops[0]), holds);
      assert collected + Leaving(st, ops[0]) + Collected(H, Step(H, st, ops[0]), ops[1..])
          == collected + Collected(H, st, ops);
    }
  }

  // The bundle of any run of a session, with shared IDs or without, is the bundle of
  // a run of its own that writes the responses collected, every one, and those only;
  // they answer requests. If the disk holds in the one it holds in the other.
  lemma {:induction false} SessionRunIsABundleRun(H: Hasher, m: BS.Meta, ops: seq<Op>, holds: bool)
    returns (bops: seq<BS.Op>)
    requires holds ==> forall op :: op in ops ==> DiskHolds(op)
    ensures Explains(H, m, bops, Run(H, FreshSession(m), ops).bundle, Collected(H, FreshSession(m), ops), holds)
    ensures Collected(H, FreshSession(m), ops) <= Queued(H, FreshSession(m), ops)
  {
    var st := FreshSession(m);
    assert BR.Legal(m, []) && BR.Run(H, m, []) == BS.Create(m);
    assert AllFromQueue(st.peers, Queued(H, st, ops));
    assert Explains(H, m, [], BS.Create(m), {}, holds);
    hide Explains, Run, DiskHolds, AllFromQueue, BS.Create, Queued, Collected;
    CollectedWasQueued(H, st, ops, Queued(H, st, ops));
    bops := RunExplained(H, m, [], st, ops, {}, holds);
    assert {} + Collected(H, st, ops) == Collected(H, st, ops);
  }

  // The books of the bundle are right after every run of a session, whatever arrives
  // and however the disk fails.
  lemma {:induction false} SessionKeepsTheBooks(H: Hasher, m: BS.Meta, ops: seq<Op>)
    ensures var b := Run(H, FreshSession(m), ops).bundle;
            && |b.pieces| == |m.hashes|
            && (forall i :: i in b.bits ==> i < |b.pieces|)
            && (forall i :: 0 <= i < |b.pieces| ==>
                  && (i in b.bits <==> b.pieces[i].complete)
                  && (b.pieces[i].complete <==> b.pieces[i].blocks != [] && AllWritten(b.pieces[i].blocks))
                  && (b.pieces[i].complete ==> H(GetBytes(b.pieces[i].blocks)) == m.hashes[i]))
            && (b.complete ==> forall i :: 0 <= i < |b.pieces| ==> b.pieces[i].complete)
  {
    hide Run, BR.Run, BS.Create, AllWritten, GetBytes, WritesThese, Queued, Collected;
    var bops := SessionRunIsABundleRun(H, m, ops, false);
    BR.EveryRunKeepsTheBooks(H, m, bops);
  }

  // Whatever the peers of a session send and however its steps interleave: once its
  // bundle says it is complete, the disk holds the content, or bytes of which a piece
  // collides with one of the content.
  lemma {:induction false} SessionDownloadsTheContent(H: Hasher, m: BS.Meta, content: bytes, ops: seq<Op>)
    requires m.Covers() && BR.Describes(H, m, content) && forall op :: op in ops ==> DiskHolds(op)
    requires Run(H, FreshSession(m), ops).bundle.complete
    ensures var d := Run(H, FreshSession(m), ops).bundle.disk;
            |d| == m.length && (d != content <==> BR.Collides(H, m, content, d))
  {
    hide Run, BR.Run, BS.Create, DiskHolds, WritesThese, Queued, Collected, BR.Collides, BR.Describes;
    var bops := SessionRunIsABundleRun(H, m, ops, true);
    BR.CompleteMeansContent(H, m, content, bops);
  }

  // A response has the content's bytes for any block it is for.
  ghost predicate Right(m: BS.Meta, content: bytes, r: BlockResponse)
    requires |content| == m.length
  {
    BR.Truthful(m, content, BS.Write(r.piece, r.begin, r.block, Kept))
  }

  ghost predicate BlockIn(m: BS.Meta, rs: set<BlockResponse>, i: nat, j: nat) {
    exists r: BlockResponse :: r in rs && r.piece == i && r.begin == BlockStart(m.PieceSize(i), j)
  }

  // Every block is among these.
  ghost predicate EveryBlockIn(m: BS.Meta, rs: set<BlockResponse>) {
    forall i: nat, j: nat :: i < |m.hashes| && j < BlockCount(m.PieceSize(i)) ==> BlockIn(m, rs, i, j)
  }

  // With peers that answer requests with the right bytes and a disk that works: the
  // bundle of the session is complete exactly when every block has been collected from
  // some peer. Then the disk is the content.
  lemma {:induction false} SessionDelivers(H: Hasher, m: BS.Meta, content: bytes, ops: seq<Op>)
    requires BR.Describes(H, m, content)
    requires forall op :: op in ops ==> DiskHolds(op)
    requires forall r :: r in Collected(H, FreshSession(m), ops) ==> Right(m, content, r)
    ensures var b := Run(H, FreshSession(m), ops).bundle;
            && (b.complete <==> m.hashes != [] && BR.NoEmptyPiece(m) && EveryBlockIn(m, Collected(H, FreshSession(m), ops)))
            && (b.complete && m.Covers() ==> b.disk == content)
  {
    var collected := Collected(H, FreshSession(m), ops);
    var bops := SessionRunIsABundleRun(H, m, ops, true);
    hide Run, BR.Run, BS.Create, DiskHolds, Queued, Collected;
    hide BR.NoEmptyPiece, BR.EverythingDelivered, EveryBlockIn, BlockCount;
    forall k | 0 <= k < |bops|
      ensures BR.Truthful(m, content, bops[k])
    {
      WrittenIsRight(m, content, bops[k], bops, collected);
    }
    BR.AnyOrderDelivers(H, m, content, bops);
    AllDelivered(m, bops, collected);
  }

  lemma {:induction false} WrittenIsRight(m: BS.Meta, content: bytes, op: BS.Op, bops: seq<BS.Op>,
                                          collected: set<BlockResponse>)
    requires |content| == m.length && op in bops && WritesThese(bops, collected, |m.hashes|)
    requires forall r :: r in collected ==> Right(m, content, r)
    ensures BR.Truthful(m, content, op)
  {
    hide BR.BlockContent, BlockCount, BlockStart;
    if op.Write? {
      var r: BlockResponse :| r in collected && IsWriteOf(op, r);
      var kept := BS.Write(r.piece, r.begin, r.block, Kept);
      assert BR.Truthful(m, content, kept);
      assert forall j: nat :: BR.Delivers(m, op, op.piece, j) <==> BR.Delivers(m, kept, op.piece, j);
    }
  }

  lemma {:induction false} AllDelivered(m: BS.Meta, bops: seq<BS.Op>, collected: set<BlockResponse>)
    requires WritesThese(bops, collected, |m.hashes|)
    ensures BR.EverythingDelivered(m, bops) <==> EveryBlockIn(m, collected)
  {
    hide BlockCount, WritesThese, BR.Delivered, BlockIn;
    forall i: nat, j: nat | i < |m.hashes|
      ensures BR.Delivered(m, bops, i, j) <==> BlockIn(m, collected, i, j)
    {
      DeliveredIsCollected(m, bops, collected, i, j);
    }
  }

  lemma {:induction false} DeliveredIsCollected(m: BS.Meta, bops: seq<BS.Op>, collected: set<BlockResponse>, i: nat, j: nat)
    requires WritesThese(bops, collected, |m.hashes|) && i < |m.hashes|
    ensures BR.Delivered(m, bops, i, j) <==> BlockIn(m, collected, i, j)
  {
    hide BlockStart;
    if BR.Delivered(m, bops, i, j) {
      var k :| 0 <= k < |bops| && BR.Delivers(m, bops[k], i, j);
      var r: BlockResponse :| r in collected && IsWriteOf(bops[k], r);
      assert r.piece == i && r.begin == BlockStart(m.PieceSize(i), j);
    }
    if BlockIn(m, collected, i, j) {
      var r: BlockResponse :| r in collected && r.piece == i && r.begin == BlockStart(m.PieceSize(i), j);
      var k :| 0 <= k < |bops| && IsWriteOf(bops[k], r);
      assert BR.Delivers(m, bops[k], i, j);
    }
  }
}
